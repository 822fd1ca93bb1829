/** The pure part of `main` (image_blender.py) before any image is composed:
    which directory entries are taken as images, in which order, and when the
    run is abandoned. Names are Python strings, compared by code point. */
module Selection {

  /** Case-sensitive `str.endswith`: the last |suffix| characters of s are
      those of suffix, one by one. */
  predicate EndsWith(s: string, suffix: string): (r: bool)
    ensures r <==> |suffix| <= |s| && forall i :: 0 <= i < |suffix| ==> s[|s| - |suffix| + i] == suffix[i]
  {
    |suffix| <= |s| && s[|s| - |suffix|..] == suffix
  }

  /** The suffix tuple passed to `endswith`. */
  const ImageSuffixes: seq<string> := [".png", ".jpg", ".jpeg"]

  /** `endswith` with a tuple: true when any of the suffixes matches. */
  predicate IsImageName(name: string): (r: bool)
    ensures r <==> exists i :: 0 <= i < |ImageSuffixes| && EndsWith(name, ImageSuffixes[i])
  {
    assert ImageSuffixes[0] == ".png" && ImageSuffixes[1] == ".jpg" && ImageSuffixes[2] == ".jpeg";
    EndsWith(name, ".png") || EndsWith(name, ".jpg") || EndsWith(name, ".jpeg")
  }

  /** The list comprehension: keeps the image names, in listing order. */
  function FilterImageNames(listing: seq<string>): (r: seq<string>)
    ensures forall x :: x in r ==> IsImageName(x)
    ensures forall x :: multiset(r)[x] == if IsImageName(x) then multiset(listing)[x] else 0
  {
    if listing == [] then []
    else
      assert listing == listing[..|listing| - 1] + [listing[|listing| - 1]];
      var rest := FilterImageNames(listing[..|listing| - 1]);
      var last := listing[|listing| - 1];
      if IsImageName(last) then rest + [last] else rest
  }

  // ---------------------------------------------------------------------
  // Python's ordering of strings and `sorted`
  // ---------------------------------------------------------------------

  /** a <= b in Python's string order: lexicographic by code point, a proper
      prefix coming first. */
  predicate LexLeq(a: string, b: string): (r: bool)
    ensures r <==> IsPrefix(a, b) || FirstDifferenceBelow(a, b)
  {
    if |a| == 0 then true
    else if |b| == 0 then false
    else if a[0] < b[0] then
      assert a[..0] == b[..0];
      true
    else if a[0] > b[0] then
      assert !IsPrefix(a, b);
      assert forall k :: 0 < k < |a| && k < |b| ==> a[..k][0] == a[0] && b[..k][0] == b[0];
      false
    else
      var r := LexLeq(a[1..], b[1..]);
      ShiftByHead(a, b);
      r
  }

  /** a is a prefix of b. */
  predicate IsPrefix(a: string, b: string)
  {
    |a| <= |b| && a == b[..|a|]
  }

  /** At the first position where a and b differ, a has the smaller code point. */
  predicate FirstDifferenceBelow(a: string, b: string)
  {
    exists k :: 0 <= k < |a| && k < |b| && a[..k] == b[..k] && a[k] < b[k]
  }

  /** With equal heads, prefix and first difference carry over from the tails. */
  lemma ShiftByHead(a: string, b: string)
    requires |a| > 0 && |b| > 0 && a[0] == b[0]
    ensures IsPrefix(a, b) <==> IsPrefix(a[1..], b[1..])
    ensures FirstDifferenceBelow(a, b) <==> FirstDifferenceBelow(a[1..], b[1..])
  {
    if FirstDifferenceBelow(a, b) {
      DifferenceToTails(a, b);
    }
    if FirstDifferenceBelow(a[1..], b[1..]) {
      DifferenceFromTails(a, b);
    }
    if IsPrefix(a[1..], b[1..]) {
      assert a == [a[0]] + a[1..];
      assert b[..|a|] == [b[0]] + b[1..][..|a| - 1];
    }
  }

  lemma DifferenceToTails(a: string, b: string)
    requires |a| > 0 && |b| > 0 && a[0] == b[0] && FirstDifferenceBelow(a, b)
    ensures FirstDifferenceBelow(a[1..], b[1..])
  {
    var k :| 0 <= k < |a| && k < |b| && a[..k] == b[..k] && a[k] < b[k];
    assert k > 0;
    assert a[1..][..k - 1] == a[..k][1..];
    assert b[1..][..k - 1] == b[..k][1..];
    assert a[1..][k - 1] < b[1..][k - 1];
  }

  lemma DifferenceFromTails(a: string, b: string)
    requires |a| > 0 && |b| > 0 && a[0] == b[0] && FirstDifferenceBelow(a[1..], b[1..])
    ensures FirstDifferenceBelow(a, b)
  {
    var k :| 0 <= k < |a[1..]| && k < |b[1..]| && a[1..][..k] == b[1..][..k] && a[1..][k] < b[1..][k];
    assert a[..k + 1] == [a[0]] + a[1..][..k];
    assert b[..k + 1] == [b[0]] + b[1..][..k];
    assert a[k + 1] < b[k + 1];
  }

  lemma {:induction false} LexLeqTotal(a: string, b: string)
    ensures LexLeq(a, b) || LexLeq(b, a)
  {
    if |a| > 0 && |b| > 0 && a[0] == b[0] {
      LexLeqTotal(a[1..], b[1..]);
    }
  }

  lemma {:induction false} LexLeqTransitive(a: string, b: string, c: string)
    requires LexLeq(a, b) && LexLeq(b, c)
    ensures LexLeq(a, c)
  {
    if |a| > 0 && |b| > 0 && |c| > 0 && a[0] == b[0] && b[0] == c[0] {
      LexLeqTransitive(a[1..], b[1..], c[1..]);
    }
  }

  lemma {:induction false} LexLeqAntisymmetric(a: string, b: string)
    requires LexLeq(a, b) && LexLeq(b, a)
    ensures a == b
  {
    if |a| > 0 && |b| > 0 {
      LexLeqAntisymmetric(a[1..], b[1..]);
      assert a == [a[0]] + a[1..];
      assert b == [b[0]] + b[1..];
    }
  }

  predicate Sorted(s: seq<string>)
  {
    forall i, j :: 0 <= i < j < |s| ==> LexLeq(s[i], s[j])
  }

  /** Inserts x into a sorted sequence, before the first element not below it. */
  function Insert(x: string, s: seq<string>): (r: seq<string>)
    requires Sorted(s)
    ensures Sorted(r)
    ensures multiset(r) == multiset(s) + multiset{x}
  {
    if s == [] then [x]
    else if LexLeq(x, s[0]) then
      InsertFront(x, s);
      [x] + s
    else
      var tail := Insert(x, s[1..]);
      InsertBehind(x, s, tail);
      [s[0]] + tail
  }

  /** A name ordered before the head of a sorted list may go in front of it. */
  lemma InsertFront(x: string, s: seq<string>)
    requires Sorted(s) && s != [] && LexLeq(x, s[0])
    ensures Sorted([x] + s)
  {
    forall j | 0 <= j < |s| ensures LexLeq(x, s[j]) {
      if j > 0 {
        LexLeqTransitive(x, s[0], s[j]);
      }
    }
  }

  /** A name not ordered before the head of a sorted list goes after it: the
      head followed by the tail with the name inserted is sorted, and holds
      the list's names plus that one. */
  lemma InsertBehind(x: string, s: seq<string>, tail: seq<string>)
    requires Sorted(s) && s != [] && !LexLeq(x, s[0])
    requires Sorted(tail) && multiset(tail) == multiset(s[1..]) + multiset{x}
    ensures Sorted([s[0]] + tail)
    ensures multiset([s[0]] + tail) == multiset(s) + multiset{x}
  {
    TailAboveHead(x, s, tail);
    var r := [s[0]] + tail;
    assert forall j :: 0 < j < |r| ==> r[j] == tail[j - 1];
    MultisetTail(s);
  }

  /** Every name of the inserted tail is ordered after the head. */
  lemma TailAboveHead(x: string, s: seq<string>, tail: seq<string>)
    requires Sorted(s) && s != [] && !LexLeq(x, s[0])
    requires multiset(tail) == multiset(s[1..]) + multiset{x}
    ensures forall y :: y in tail ==> LexLeq(s[0], y)
  {
    LexLeqTotal(x, s[0]);
    forall y | y in tail ensures LexLeq(s[0], y) {
      assert y in multiset(tail);
      if y != x {
        assert y in multiset(s[1..]);
        var j :| 0 <= j < |s[1..]| && s[1..][j] == y;
        assert s[j + 1] == y;
      }
    }
  }

  /** `sorted`: the names in ascending order, a permutation of the input. */
  function Sort(s: seq<string>): (r: seq<string>)
    ensures Sorted(r)
    ensures multiset(r) == multiset(s)
  {
    if s == [] then []
    else
      assert s == [s[0]] + s[1..];
      Insert(s[0], Sort(s[1..]))
  }

  /** The head of a sorted sequence is below every element of it. */
  lemma HeadIsLeast(a: seq<string>, x: string)
    requires Sorted(a) && x in a
    ensures LexLeq(a[0], x)
  {
    var i :| 0 <= i < |a| && a[i] == x;
    if i == 0 {
      LexLeqTotal(x, x);
    }
  }

  /** Two sorted permutations of the same names start with the same name. */
  lemma SameHead(a: seq<string>, b: seq<string>)
    requires Sorted(a) && Sorted(b) && a != []
    requires multiset(a) == multiset(b)
    ensures b != [] && a[0] == b[0]
  {
    assert a[0] in multiset(a);
    assert b[0] in multiset(b) by {
      assert |multiset(b)| == |b|;
    }
    HeadIsLeast(b, a[0]);
    HeadIsLeast(a, b[0]);
    LexLeqAntisymmetric(a[0], b[0]);
  }

  /** Dropping the head of a sequence removes one copy of it from its multiset. */
  lemma MultisetTail<T>(a: seq<T>)
    requires a != []
    ensures multiset(a[1..]) == multiset(a) - multiset{a[0]}
  {
    assert a == [a[0]] + a[1..];
  }

  /** A sorted permutation is unique, so `Sort` gives the same list as any
      correct sort, Python's `sorted` among them. */
  lemma {:induction false} SortedUnique(a: seq<string>, b: seq<string>)
    requires Sorted(a) && Sorted(b)
    requires multiset(a) == multiset(b)
    ensures a == b
  {
    if a == [] {
      assert |multiset(b)| == 0;
    } else {
      SameHead(a, b);
      MultisetTail(a);
      MultisetTail(b);
      SortedUnique(a[1..], b[1..]);
      assert a == [a[0]] + a[1..];
      assert b == [b[0]] + b[1..];
    }
  }

  // ---------------------------------------------------------------------
  // Selection and the count guard
  // ---------------------------------------------------------------------

  /** `sorted([img for img in listing if img.endswith(...)])`. */
  function ImageFileNames(listing: seq<string>): (r: seq<string>)
    ensures Sorted(r)
    ensures forall x :: x in r ==> IsImageName(x)
    ensures forall x :: multiset(r)[x] == if IsImageName(x) then multiset(listing)[x] else 0
  {
    Sort(FilterImageNames(listing))
  }

  /** The run is abandoned when the two collections differ in size or the
      first is empty. */
  predicate MustAbort(count1: nat, count2: nat): (r: bool)
    ensures r <==> count1 != count2 || count1 == 0 || count2 == 0
  {
    count1 != count2 || count1 == 0
  }
}
