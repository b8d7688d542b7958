/**
 A bucket of the embedded database is walked in key order. This module lists the keys
 and rows of a bucket in that order, and relates the walk to putting rows one by one.
 */
module KeyOrder {
  import opened Strings

  ghost predicate Ascending(s: seq<string>) {
    forall i, j :: 0 <= i < j < |s| ==> Less(s[i], s[j])
  }

  predicate IsLeast(k: string, keys: set<string>) {
    forall j :: j in keys ==> j == k || Less(k, j)
  }

  lemma {:induction false} LeastExists(keys: set<string>) returns (k: string)
    requires keys != {}
    ensures k in keys && IsLeast(k, keys)
    decreases |keys|
  {
    k :| k in keys;
    var rest := keys - {k};
    assert keys == rest + {k};
    if rest != {} {
      var m := LeastExists(rest);
      LessTotal(k, m);
      if Less(k, m) {
        forall j | j in rest ensures Less(k, j) {
          if j != m { LessTransitive(k, m, j); }
        }
      } else {
        k := m;
      }
    }
  }

  lemma LeastUnique(keys: set<string>, a: string, b: string)
    requires a in keys && IsLeast(a, keys) && b in keys && IsLeast(b, keys)
    ensures a == b
  {
    LessTotal(a, b);
  }

  function Least(keys: set<string>): (k: string)
    requires keys != {}
    ensures k in keys && IsLeast(k, keys)
  {
    assert exists k :: k in keys && IsLeast(k, keys) by { var k := LeastExists(keys); }
    assert forall a, b | a in keys && IsLeast(a, keys) && b in keys && IsLeast(b, keys) :: a == b by {
      forall a, b | a in keys && IsLeast(a, keys) && b in keys && IsLeast(b, keys) ensures a == b {
        LeastUnique(keys, a, b);
      }
    }
    var k :| k in keys && IsLeast(k, keys);
    k
  }

  /** The keys in the order of a database cursor. */
  function Cursor(keys: set<string>): (s: seq<string>)
    ensures Ascending(s)
    ensures forall k :: k in s <==> k in keys
    decreases |keys|
  {
    if keys == {} then [] else
      var k := Least(keys);
      var rest := Cursor(keys - {k});
      assert forall i :: 0 <= i < |rest| ==> rest[i] in rest;
      [k] + rest
  }

  /** Only one ascending sequence has a given set of elements. */
  lemma {:induction false} CursorUnique(s: seq<string>, keys: set<string>)
    requires Ascending(s) && forall k :: k in s <==> k in keys
    ensures Cursor(keys) == s
    decreases |s|
  {
    if s == [] {
      assert keys == {};
    } else {
      HeadIsLeast(s, keys);
      CursorUnique(s[1..], keys - {s[0]});
      assert s == [s[0]] + s[1..];
    }
  }

  lemma HeadIsLeast(s: seq<string>, keys: set<string>)
    requires Ascending(s) && s != [] && forall k :: k in s <==> k in keys
    ensures keys != {} && Least(keys) == s[0]
    ensures forall k :: k in s[1..] <==> k in keys - {s[0]}
  {
    assert s[0] in keys;
    var m := Least(keys);
    var i :| 0 <= i < |s| && s[i] == m;
    LessTotal(m, s[0]);
    forall k ensures k in s[1..] <==> k in keys - {s[0]} {
      LessTotal(k, k);
      if k in keys - {s[0]} {
        var j :| 0 <= j < |s| && s[j] == k;
        assert s[1..][j - 1] == k;
      }
    }
  }

  /** The rows of a bucket in key order. */
  function Rows<V>(m: map<string, V>): (s: seq<V>)
    ensures |s| == |Cursor(m.Keys)|
    ensures forall i :: 0 <= i < |s| ==> Cursor(m.Keys)[i] in m && s[i] == m[Cursor(m.Keys)[i]]
  {
    var keys := Cursor(m.Keys);
    assert forall i :: 0 <= i < |keys| ==> keys[i] in keys;
    seq(|keys|, i requires 0 <= i < |keys| => m[keys[i]])
  }

  /** Puts row i under key i, one after the other; a later row replaces an earlier one. */
  function PutAll<V>(keys: seq<string>, rows: seq<V>): map<string, V>
    requires |keys| == |rows|
  {
    if keys == [] then map[]
    else PutAll(keys[..|keys| - 1], rows[..|rows| - 1])[keys[|keys| - 1] := rows[|rows| - 1]]
  }

  lemma {:induction false} PutAllRows<V>(keys: seq<string>, rows: seq<V>)
    requires |keys| == |rows| && Ascending(keys)
    ensures forall k :: k in PutAll(keys, rows) <==> k in keys
    ensures forall i :: 0 <= i < |keys| ==> PutAll(keys, rows)[keys[i]] == rows[i]
  {
    if keys != [] {
      var n := |keys| - 1;
      PutAllRows(keys[..n], rows[..n]);
      assert keys == keys[..n] + [keys[n]];
      forall i | 0 <= i < n ensures keys[i] != keys[n] {
        LessTotal(keys[i], keys[n]);
      }
    }
  }

  /** Walking a bucket built from ascending keys gives the rows back. */
  lemma PutThenWalk<V>(keys: seq<string>, rows: seq<V>)
    requires |keys| == |rows| && Ascending(keys)
    ensures Cursor(PutAll(keys, rows).Keys) == keys
    ensures Rows(PutAll(keys, rows)) == rows
  {
    PutAllRows(keys, rows);
    CursorUnique(keys, PutAll(keys, rows).Keys);
  }
}
