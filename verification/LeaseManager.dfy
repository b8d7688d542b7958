/** The lease manager: the lookup tables it keeps of a poll, and when a poll is news. */
module LeaseManager {
  import opened Wrappers
  import opened DualStack

  // ----------------------------------------------------------------------------
  // Lookup tables
  // ----------------------------------------------------------------------------

  /** A record is listed under its IPv4 address, or under its first IPv6 address without one. */
  function IndexKey(l: Lease): Option<string> {
    if l.ip != "" then Some(l.ip) else if l.ipv6 != [] then Some(l.ipv6[0]) else None
  }

  predicate Carries(l: Lease, a: string) {
    l.ip == a || a in l.ipv6
  }

  /** Of several records under one key the last counts. */
  function ByIp(leases: seq<Lease>): map<string, Lease> {
    if leases == [] then map[]
    else
      var l, before := leases[|leases| - 1], ByIp(leases[..|leases| - 1]);
      if IndexKey(l).Some? then before[IndexKey(l).value := l] else before
  }

  function PutAll(m: map<string, Lease>, addresses: seq<string>, l: Lease): map<string, Lease> {
    if addresses == [] then m else PutAll(m, addresses[..|addresses| - 1], l)[addresses[|addresses| - 1] := l]
  }

  function ByV6(leases: seq<Lease>): map<string, Lease> {
    if leases == [] then map[]
    else PutAll(ByV6(leases[..|leases| - 1]), leases[|leases| - 1].ipv6, leases[|leases| - 1])
  }

  function Find(byIp: map<string, Lease>, byV6: map<string, Lease>, a: string): Option<Lease> {
    if a in byIp then Some(byIp[a]) else if a in byV6 then Some(byV6[a]) else None
  }

  method IndexV6(m: map<string, Lease>, l: Lease) returns (r: map<string, Lease>)
    ensures r == PutAll(m, l.ipv6, l)
  {
    r := m;
    var j := 0;
    while j < |l.ipv6|
      invariant 0 <= j <= |l.ipv6| && r == PutAll(m, l.ipv6[..j], l)
    {
      assert l.ipv6[..j + 1][..j] == l.ipv6[..j];
      r := r[l.ipv6[j] := l];
      j := j + 1;
    }
    assert l.ipv6[..j] == l.ipv6;
  }

  method Index(merged: seq<Lease>) returns (byIp: map<string, Lease>, byV6: map<string, Lease>)
    ensures byIp == ByIp(merged) && byV6 == ByV6(merged)
  {
    byIp, byV6 := map[], map[];
    var i := 0;
    while i < |merged|
      invariant 0 <= i <= |merged|
      invariant byIp == ByIp(merged[..i]) && byV6 == ByV6(merged[..i])
    {
      assert merged[..i + 1][..i] == merged[..i];
      var l := merged[i];
      if l.ip != "" {
        byIp := byIp[l.ip := l];
      } else if |l.ipv6| > 0 {
        byIp := byIp[l.ipv6[0] := l];
      }
      byV6 := IndexV6(byV6, l);
      i := i + 1;
    }
    assert merged[..i] == merged;
  }

  class Manager {
    var byIp: map<string, Lease>
    var byV6: map<string, Lease>

    constructor ()
      ensures byIp == map[] && byV6 == map[]
    {
      byIp, byV6 := map[], map[];
    }

    /** Replaces both tables by those of a poll. */
    method Apply(leases: array<Lease>)
      modifies this, leases
      ensures byIp == ByIp(Merged(old(leases[..]))) && byV6 == ByV6(Merged(old(leases[..])))
    {
      var merged := MergeDualStack(leases);
      byIp, byV6 := Index(merged);
    }

    method Lookup(a: string) returns (r: Option<Lease>)
      ensures r == Find(byIp, byV6, a)
    {
      if a in byIp {
        return Some(byIp[a]);
      }
      if a in byV6 {
        return Some(byV6[a]);
      }
      return None;
    }
  }

  lemma {:induction false} InByIp(leases: seq<Lease>, a: string)
    ensures a in ByIp(leases) ==> ByIp(leases)[a] in leases && IndexKey(ByIp(leases)[a]) == Some(a)
    ensures a !in ByIp(leases) ==> forall i :: 0 <= i < |leases| ==> IndexKey(leases[i]) != Some(a)
  {
    if leases != [] {
      var n := |leases| - 1;
      InByIp(leases[..n], a);
      assert leases == leases[..n] + [leases[n]];
    }
  }

  lemma {:induction false} InPutAll(m: map<string, Lease>, addresses: seq<string>, l: Lease, a: string)
    ensures a in PutAll(m, addresses, l) <==> a in m || a in addresses
    ensures a in PutAll(m, addresses, l) ==> PutAll(m, addresses, l)[a] == if a in addresses then l else m[a]
  {
    if addresses != [] {
      var n := |addresses| - 1;
      InPutAll(m, addresses[..n], l, a);
      assert addresses == addresses[..n] + [addresses[n]];
    }
  }

  lemma {:induction false} InByV6(leases: seq<Lease>, a: string)
    ensures a in ByV6(leases) <==> Lists(leases, a)
    ensures a in ByV6(leases) ==> ByV6(leases)[a] in leases && a in ByV6(leases)[a].ipv6
  {
    if leases != [] {
      var n := |leases| - 1;
      InByV6(leases[..n], a);
      InPutAll(ByV6(leases[..n]), leases[n].ipv6, leases[n], a);
      ListsSnoc(leases, a);
      assert leases == leases[..n] + [leases[n]];
    }
  }

  ghost predicate HasIp(leases: seq<Lease>, a: string) {
    exists i :: 0 <= i < |leases| && leases[i].ip == a
  }

  lemma {:induction false} HasIpOfRecords(leases: seq<Lease>, a: string)
    requires a != ""
    ensures HasIp(V4Records(leases), a) <==> HasIp(leases, a)
  {
    if leases != [] {
      var n := |leases| - 1;
      HasIpOfRecords(leases[..n], a);
      HasIpSnoc(leases[..n], leases[n], a);
      HasIpSnoc(V4Records(leases[..n]), leases[n], a);
      assert leases == leases[..n] + [leases[n]];
      assert V6Only(leases[n]) ==> V4Records(leases) == V4Records(leases[..n]);
    }
  }

  lemma HasIpSnoc(leases: seq<Lease>, l: Lease, a: string)
    ensures HasIp(leases + [l], a) <==> HasIp(leases, a) || l.ip == a
  {
    assert forall i :: 0 <= i < |leases| ==> (leases + [l])[i] == leases[i];
    assert (leases + [l])[|leases|] == l;
  }

  /** An address that the poll carries is found, and nothing but records that carry it is. */
  lemma EveryAddressIsFound(leases: seq<Lease>, a: string)
    requires a != ""
    ensures
      var found := Find(ByIp(Merged(leases)), ByV6(Merged(leases)), a);
      && (found.Some? ==> found.value in Merged(leases) && Carries(found.value, a))
      && (HasIp(leases, a) || Lists(leases, a) ==> found.Some?)
  {
    var merged := Merged(leases);
    InByIp(merged, a);
    InByV6(merged, a);
    AddressesConserved(leases, a);
    V4RecordsKept(leases);
    HasIpOfRecords(leases, a);
    if HasIp(leases, a) {
      var i :| 0 <= i < |V4Records(leases)| && V4Records(leases)[i].ip == a;
      assert SameRecord(V4Records(leases)[i], merged[i]) && IndexKey(merged[i]) == Some(a);
    }
  }

  // ----------------------------------------------------------------------------
  // Whether a poll is news
  // ----------------------------------------------------------------------------

  /** What replication compares of a record; expires is its time to the second. */
  function ReplicationKey(l: Lease): string {
    l.ip + "|" + l.mac + "|" + l.hostname + "|" + l.clientId + "|" + l.expires
  }

  function Keys(leases: seq<Lease>): seq<string> {
    seq(|leases|, i requires 0 <= i < |leases| => ReplicationKey(leases[i]))
  }

  function Count(seen: map<string, int>, k: string): int {
    if k in seen then seen[k] else 0
  }

  function Times(s: seq<string>, k: string): int {
    multiset(s)[k]
  }

  /** Adds a step to the count of each key. */
  method Tally(seen0: map<string, int>, leases: seq<Lease>, up: bool) returns (seen: map<string, int>)
    ensures forall k ::
      Count(seen, k) == Count(seen0, k) + if up then Times(Keys(leases), k) else -Times(Keys(leases), k)
  {
    ghost var keys := Keys(leases);
    seen := seen0;
    var i := 0;
    while i < |leases|
      invariant 0 <= i <= |leases|
      invariant forall k :: Count(seen, k) == Count(seen0, k) + if up then Times(keys[..i], k) else -Times(keys[..i], k)
    {
      TimesSnoc(keys, i);
      var k := ReplicationKey(leases[i]);
      seen := seen[k := Count(seen, k) + if up then 1 else -1];
      i := i + 1;
    }
    assert keys[..i] == keys;
  }

  lemma TimesSnoc(s: seq<string>, i: nat)
    requires i < |s|
    ensures forall k :: Times(s[..i + 1], k) == Times(s[..i], k) + if k == s[i] then 1 else 0
  {
    assert s[..i + 1] == s[..i] + [s[i]];
  }

  method AllZero(seen: map<string, int>) returns (r: bool)
    ensures r <==> forall k :: Count(seen, k) == 0
  {
    var rest := seen.Keys;
    while rest != {}
      invariant rest <= seen.Keys && forall k :: k in seen && k !in rest ==> seen[k] == 0
      decreases rest
    {
      var k :| k in rest;
      if seen[k] != 0 {
        assert Count(seen, k) != 0;
        return false;
      }
      rest := rest - {k};
    }
    return true;
  }

  lemma SameTimes(a: seq<string>, b: seq<string>)
    ensures multiset(a) == multiset(b) <==> forall k :: Times(a, k) == Times(b, k)
  {
    if forall k :: Times(a, k) == Times(b, k) {
      forall k ensures multiset(a)[k] == multiset(b)[k] {
        assert Times(a, k) == Times(b, k);
      }
    }
  }

  /** Counting up for the one and down for the other compares them as multisets, whatever their order. */
  method SnapshotEquivalent(a: seq<Lease>, b: seq<Lease>) returns (r: bool)
    ensures r <==> multiset(Keys(a)) == multiset(Keys(b))
  {
    if |a| != |b| {
      assert |multiset(Keys(a))| == |a| && |multiset(Keys(b))| == |b|;
      return false;
    }
    var seen := Tally(map[], a, true);
    seen := Tally(seen, b, false);
    r := AllZero(seen);
    SameTimes(Keys(a), Keys(b));
    assert forall k :: Count(seen, k) == Times(Keys(a), k) - Times(Keys(b), k);
  }

  lemma CutAtBar(a: string, x: string, b: string, y: string)
    requires '|' !in a && '|' !in b && a + ("|" + x) == b + ("|" + y)
    ensures a == b && x == y
  {
    var s, t := a + ("|" + x), b + ("|" + y);
    assert s[|a|] == '|' && t[|b|] == '|';
    assert forall i :: 0 <= i < |a| ==> s[i] in a;
    assert forall i :: 0 <= i < |b| ==> t[i] in b;
    assert a == s[..|a|] && b == t[..|b|] && x == s[|a| + 1..] && y == t[|b| + 1..];
  }

  /** Records with the same five texts have one key, and others have not, if there is no bar in the first four. */
  lemma SameKeyIff(l: Lease, m: Lease)
    requires '|' !in l.ip + l.mac + l.hostname + l.clientId && '|' !in m.ip + m.mac + m.hostname + m.clientId
    ensures ReplicationKey(l) == ReplicationKey(m) <==>
      l.ip == m.ip && l.mac == m.mac && l.hostname == m.hostname && l.clientId == m.clientId && l.expires == m.expires
  {
    if ReplicationKey(l) == ReplicationKey(m) {
      var l3, m3 := l.clientId + ("|" + l.expires), m.clientId + ("|" + m.expires);
      var l2, m2 := l.hostname + ("|" + l3), m.hostname + ("|" + m3);
      var l1, m1 := l.mac + ("|" + l2), m.mac + ("|" + m2);
      assert l.ip + ("|" + l1) == ReplicationKey(l) && m.ip + ("|" + m1) == ReplicationKey(m);
      CutAtBar(l.ip, l1, m.ip, m1);
      CutAtBar(l.mac, l2, m.mac, m2);
      CutAtBar(l.hostname, l3, m.hostname, m3);
      CutAtBar(l.clientId, l.expires, m.clientId, m.expires);
    }
  }

  // ----------------------------------------------------------------------------
  // Which record is found
  // ----------------------------------------------------------------------------

  /** The record is known by the address: its IPv4 one, or without one its first IPv6 one. */
  predicate KnownBy(l: Lease, a: string) {
    l.ip == a || (l.ip == "" && l.ipv6 != [] && l.ipv6[0] == a)
  }

  lemma {:induction false} LastKnown(leases: seq<Lease>, a: string, i: int)
    requires a != "" && 0 <= i < |leases| && KnownBy(leases[i], a)
    requires forall j :: i < j < |leases| ==> !KnownBy(leases[j], a)
    ensures a in ByIp(leases) && ByIp(leases)[a] == leases[i]
  {
    var n := |leases| - 1;
    if i < n {
      assert !KnownBy(leases[n], a);
      LastKnown(leases[..n], a, i);
    }
  }

  lemma {:induction false} NoneKnown(leases: seq<Lease>, a: string)
    requires a != "" && forall j :: 0 <= j < |leases| ==> !KnownBy(leases[j], a)
    ensures a !in ByIp(leases)
  {
    if leases != [] {
      assert !KnownBy(leases[|leases| - 1], a);
      NoneKnown(leases[..|leases| - 1], a);
    }
  }

  lemma {:induction false} LastListing(leases: seq<Lease>, a: string, i: int)
    requires 0 <= i < |leases| && a in leases[i].ipv6 && forall j :: i < j < |leases| ==> a !in leases[j].ipv6
    ensures a in ByV6(leases) && ByV6(leases)[a] == leases[i]
  {
    var n := |leases| - 1;
    InPutAll(ByV6(leases[..n]), leases[n].ipv6, leases[n], a);
    if i < n { LastListing(leases[..n], a, i); }
  }

  /** An address finds the last record known by it; if there is none, the last one that lists it. */
  lemma FoundIsLast(leases: seq<Lease>, a: string, i: int)
    requires a != "" && 0 <= i < |leases|
    requires
      || (KnownBy(leases[i], a) && forall j :: i < j < |leases| ==> !KnownBy(leases[j], a))
      || ((forall j :: 0 <= j < |leases| ==> !KnownBy(leases[j], a))
        && a in leases[i].ipv6 && forall j :: i < j < |leases| ==> a !in leases[j].ipv6)
    ensures Find(ByIp(leases), ByV6(leases), a) == Some(leases[i])
  {
    if KnownBy(leases[i], a) {
      LastKnown(leases, a, i);
    } else {
      NoneKnown(leases, a);
      LastListing(leases, a, i);
    }
  }
}
