/**
 Walks along the edges of a finite map from names to names: they end exactly when there
 is no cycle.
 */
module Walks {
  import opened Wrappers

  type Edges = map<string, string>

  /** The walk ends within n steps. */
  predicate Ends(m: Edges, key: string, n: nat)
    decreases n
  {
    key !in m || (n > 0 && Ends(m, m[key], n - 1))
  }

  /** Where the walk is after k steps. */
  function Walk(m: Edges, key: string, k: nat): Option<string> {
    if k == 0 then Some(key)
    else
      var before := Walk(m, key, k - 1);
      if before.None? || before.value !in m then None else Some(m[before.value])
  }

  ghost predicate OnCycle(m: Edges, key: string) {
    exists k :: k > 0 && Walk(m, key, k) == Some(key)
  }

  ghost predicate Acyclic(m: Edges) {
    forall key :: !OnCycle(m, key)
  }

  ghost predicate EventuallyEnds(m: Edges, key: string) {
    exists n :: Ends(m, key, n)
  }

  ghost predicate AlwaysEnds(m: Edges) {
    forall key :: EventuallyEnds(m, key)
  }

  lemma {:induction false} WalkFromNext(m: Edges, key: string, k: nat)
    ensures Walk(m, key, k + 1) ==
      if key in m then Walk(m, m[key], k) else None
  {
    if k > 0 {
      WalkFromNext(m, key, k - 1);
    } else {
      assert Walk(m, key, 0) == Some(key);
    }
  }

  /** A walk goes on from where it is. */
  lemma {:induction false} WalkSum(m: Edges, key: string, j: nat, mid: string, n: nat)
    requires Walk(m, key, j) == Some(mid) && j <= n
    ensures Walk(m, key, n) == Walk(m, mid, n - j)
    decreases n
  {
    if j < n {
      WalkSum(m, key, j, mid, n - 1);
    }
  }

  /** A walk on a cycle never ends. */
  lemma {:induction false} CycleNeverEnds(m: Edges, key: string, k: nat, n: nat)
    requires k > 0 && Walk(m, key, k) == Some(key)
    ensures !Ends(m, key, n)
    decreases n
  {
    WalkFromNext(m, key, k - 1);
    var next := m[key];
    WalkFromNext(m, key, k);
    if n > 0 {
      CycleNeverEnds(m, next, k, n - 1);
    }
  }

  ghost predicate SeenBefore(m: Edges, key: string, n: nat, x: string) {
    exists i :: 0 <= i < n && Walk(m, key, i) == Some(x)
  }

  /** A walk that has not ended after n steps has visited n keys of the map, all distinct if there is no cycle. */
  lemma {:induction false} Visited(m: Edges, key: string, n: nat) returns (keys: set<string>)
    requires Acyclic(m) && Walk(m, key, n).Some?
    ensures keys <= m.Keys && |keys| == n
    ensures forall x :: x in keys ==> SeenBefore(m, key, n, x)
  {
    keys := {};
    if n > 0 {
      keys := Visited(m, key, n - 1);
      var last := Walk(m, key, n - 1).value;
      if last in keys {
        var i :| 0 <= i < n - 1 && Walk(m, key, i) == Some(last);
        WalkSum(m, key, i, last, n - 1);
        assert OnCycle(m, last);
      }
      assert last !in keys && SeenBefore(m, key, n, last);
      forall x | x in keys ensures SeenBefore(m, key, n, x) {
        var i :| 0 <= i < n - 1 && Walk(m, key, i) == Some(x);
      }
      keys := keys + {last};
    }
  }

  lemma {:induction false} EndsOrWalks(m: Edges, key: string, n: nat)
    ensures Ends(m, key, n) || Walk(m, key, n + 1).Some?
    decreases n
  {
    WalkFromNext(m, key, n);
    if n > 0 && key in m {
      EndsOrWalks(m, m[key], n - 1);
    }
  }

  /** Without a cycle every walk ends within as many steps as the map has names. */
  lemma AcyclicEnds(m: Edges, key: string)
    requires Acyclic(m)
    ensures Ends(m, key, |m|)
  {
    EndsOrWalks(m, key, |m|);
    if !Ends(m, key, |m|) {
      var keys := Visited(m, key, |m| + 1);
      SubsetCount(keys, m.Keys);
    }
  }

  lemma {:induction false} SubsetCount(a: set<string>, b: set<string>)
    requires a <= b
    ensures |a| <= |b|
  {
    if a != {} {
      var x :| x in a;
      SubsetCount(a - {x}, b - {x});
    }
  }

  /** Every walk ends exactly when there is no cycle. */
  lemma EndsIffAcyclic(m: Edges)
    ensures AlwaysEnds(m) <==> Acyclic(m)
  {
    if Acyclic(m) {
      forall key ensures EventuallyEnds(m, key) {
        AcyclicEnds(m, key);
      }
    } else {
      var key :| OnCycle(m, key);
      var k: nat :| k > 0 && Walk(m, key, k) == Some(key);
      forall n: nat ensures !Ends(m, key, n) {
        CycleNeverEnds(m, key, k, n);
      }
      assert !EventuallyEnds(m, key);
    }
  }
}
