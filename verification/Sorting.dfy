/** The in-place insertion sort of strings. */
module Sorting {
  import opened Strings

  /** x put into a list from the back: behind the last element that is not greater. */
  function Insert(s: seq<string>, x: string): (r: seq<string>)
    ensures |r| == |s| + 1
  {
    if s == [] then [x]
    else
      var n := |s| - 1;
      if Less(x, s[n]) then Insert(s[..n], x) + [s[n]] else s + [x]
  }

  function Sort(s: seq<string>): (r: seq<string>)
    ensures |r| == |s|
  {
    if s == [] then [] else Insert(Sort(s[..|s| - 1]), s[|s| - 1])
  }

  method SortStrings(a: array<string>)
    modifies a
    ensures a[..] == Sort(old(a[..]))
  {
    ghost var was := a[..];
    var i := 0;
    while i < a.Length
      invariant 0 <= i <= a.Length
      invariant a[..i] == Sort(was[..i]) && a[i..] == was[i..]
    {
      assert was[..i + 1][..i] == was[..i] && a[i] == was[i];
      ghost var rest := was[i + 1..];
      InsertAt(a, i);
      i := i + 1;
    }
    assert was[..i] == was && a[..i] == a[..];
  }

  /** Moves the element at i down to its place in the list before it. */
  method InsertAt(a: array<string>, i: nat)
    requires i < a.Length
    modifies a
    ensures a[..i + 1] == Insert(old(a[..i]), old(a[i])) && a[i + 1..] == old(a[i + 1..])
  {
    ghost var head, x, rest := a[..i], a[i], a[i + 1..];
    var j := i;
    while j > 0 && Less(a[j], a[j - 1])
      invariant 0 <= j <= i && a[j] == x && a[..j] == head[..j] && a[i + 1..] == rest
      invariant Insert(head, x) == Insert(head[..j], x) + a[j + 1..i + 1]
    {
      InsertBack(head, x, j, a[j + 1..i + 1]);
      a[j - 1], a[j] := a[j], a[j - 1];
      j := j - 1;
    }
    InsertHere(head[..j], x);
    assert a[..i + 1] == a[..j] + [a[j]] + a[j + 1..i + 1];
  }

  lemma InsertBack(head: seq<string>, x: string, j: nat, tail: seq<string>)
    requires 0 < j <= |head| && Less(x, head[j - 1])
    ensures Insert(head[..j], x) + tail == Insert(head[..j - 1], x) + ([head[j - 1]] + tail)
  {
    assert head[..j][..j - 1] == head[..j - 1];
  }

  lemma InsertHere(s: seq<string>, x: string)
    requires s != [] ==> !Less(x, s[|s| - 1])
    ensures Insert(s, x) == s + [x]
  {
  }

  ghost predicate Sorted(s: seq<string>) {
    forall i, j :: 0 <= i < j < |s| ==> !Less(s[j], s[i])
  }

  lemma NotLessTransitive(a: string, b: string, c: string)
    requires !Less(b, a) && !Less(c, b)
    ensures !Less(c, a)
  {
    LessTotal(a, b);
    if Less(c, a) && a != b { LessTransitive(c, a, b); }
  }

  lemma {:induction false} InsertMembers(s: seq<string>, x: string)
    ensures multiset(Insert(s, x)) == multiset(s) + multiset{x}
    ensures forall i :: 0 <= i < |s| + 1 ==> Insert(s, x)[i] == x || Insert(s, x)[i] in s
  {
    if s != [] {
      var n := |s| - 1;
      assert s == s[..n] + [s[n]];
      if Less(x, s[n]) { InsertMembers(s[..n], x); }
    }
  }

  lemma LastIsGreatest(s: seq<string>, z: string)
    requires Sorted(s + [z])
    ensures forall y :: y in s ==> !Less(z, y)
  {
    forall y | y in s ensures !Less(z, y) {
      var i :| 0 <= i < |s| && s[i] == y;
      assert (s + [z])[i] == y && (s + [z])[|s|] == z;
    }
  }

  lemma {:induction false} InsertSorted(s: seq<string>, x: string)
    requires Sorted(s)
    ensures Sorted(Insert(s, x))
  {
    if s != [] {
      var n := |s| - 1;
      if Less(x, s[n]) {
        var r := Insert(s[..n], x);
        InsertSorted(s[..n], x);
        InsertMembers(s[..n], x);
        LessTotal(x, s[n]);
        assert s == s[..n] + [s[n]];
        LastIsGreatest(s[..n], s[n]);
        assert forall i :: 0 <= i < |r| ==> r[i] == x || r[i] in s[..n];
      } else {
        forall i | 0 <= i < n ensures !Less(x, s[i]) {
          NotLessTransitive(s[i], s[n], x);
        }
      }
    }
  }

  /** Sorting yields a sorted permutation. */
  lemma {:induction false} SortSorts(s: seq<string>)
    ensures Sorted(Sort(s)) && multiset(Sort(s)) == multiset(s)
  {
    if s != [] {
      var n := |s| - 1;
      SortSorts(s[..n]);
      InsertSorted(Sort(s[..n]), s[n]);
      InsertMembers(Sort(s[..n]), s[n]);
      assert s == s[..n] + [s[n]];
    }
  }

  lemma {:induction false} SortOfSorted(s: seq<string>)
    requires Sorted(s)
    ensures Sort(s) == s
  {
    if s != [] {
      var n := |s| - 1;
      SortOfSorted(s[..n]);
      assert s == s[..n] + [s[n]];
    }
  }

  lemma SortMembers(s: seq<string>)
    ensures forall x :: x in Sort(s) <==> x in s
  {
    SortSorts(s);
    forall x ensures x in Sort(s) <==> x in s {
      assert x in Sort(s) <==> x in multiset(Sort(s));
      assert x in s <==> x in multiset(s);
    }
  }
}
