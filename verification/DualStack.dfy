/**
 The dual-stack merge of DHCP records: what a client has under IPv6 is absorbed into its
 IPv4 record. Records are reached by their position in the caller's list and are changed
 there.
 */
module DualStack {
  import opened Strings
  import opened Sorting

  datatype Lease = Lease(
    ip: string, mac: string, hostname: string, clientId: string, source: string, expires: string,
    ipv6: seq<string>, duid: string, dual: bool)

  // ----------------------------------------------------------------------------
  // Matching
  // ----------------------------------------------------------------------------

  /** The parts between the separators. */
  function Split(s: string, sep: char): (r: seq<string>)
    ensures |r| > 0
  {
    var i := IndexOf(s, sep);
    if i < 0 then [s] else [s[..i]] + Split(s[i + 1..], sep)
  }

  function Join(parts: seq<string>): string {
    if parts == [] then "" else if |parts| == 1 then parts[0] else parts[0] + ":" + Join(parts[1..])
  }

  /** The last six bytes of the identifier in lower case, if it has six two-digit parts at its end. */
  function MacFromDuid(duid: string): string {
    var parts := Split(duid, ':');
    if |parts| < 6 then ""
    else
      var last := parts[|parts| - 6..];
      if exists i :: 0 <= i < 6 && |last[i]| != 2 then "" else Lower(Join(last))
  }

  /** The position of the first record with the hardware address; -1 without one. */
  function MacIndex(v4: seq<Lease>, mac: string): (r: int)
    ensures -1 <= r < |v4|
  {
    if v4 == [] then -1
    else if v4[0].mac != "" && v4[0].mac == mac then 0
    else
      var j := MacIndex(v4[1..], mac);
      if j < 0 then -1 else j + 1
  }

  /** The position of the first record with the host name, in either case; -1 without one. */
  function HostIndex(v4: seq<Lease>, want: string): (r: int)
    ensures -1 <= r < |v4|
  {
    if v4 == [] then -1
    else if v4[0].hostname != "" && Lower(v4[0].hostname) == want then 0
    else
      var j := HostIndex(v4[1..], want);
      if j < 0 then -1 else j + 1
  }

  function Match(v4: seq<Lease>, x: Lease): (r: int)
    ensures -1 <= r < |v4|
  {
    var mac := MacFromDuid(x.duid);
    var byMac := if mac != "" then MacIndex(v4, mac) else -1;
    if byMac >= 0 then byMac
    else if x.hostname != "" then HostIndex(v4, Lower(x.hostname))
    else -1
  }

  // ----------------------------------------------------------------------------
  // Merging
  // ----------------------------------------------------------------------------

  predicate V6Only(l: Lease) {
    l.ip == "" && l.ipv6 != []
  }

  function V4Records(leases: seq<Lease>): seq<Lease> {
    if leases == [] then []
    else
      var n := |leases| - 1;
      V4Records(leases[..n]) + if V6Only(leases[n]) then [] else [leases[n]]
  }

  function V6Records(leases: seq<Lease>): seq<Lease> {
    if leases == [] then []
    else
      var n := |leases| - 1;
      V6Records(leases[..n]) + if V6Only(leases[n]) then [leases[n]] else []
  }

  /** The addresses not there yet are added in order. */
  function Union(have: seq<string>, more: seq<string>): seq<string> {
    if more == [] then have
    else
      var n := |more| - 1;
      var before := Union(have, more[..n]);
      if more[n] in before then before else before + [more[n]]
  }

  function Absorbed(m: Lease, x: Lease): Lease {
    m.(ipv6 := Sort(Union(m.ipv6, x.ipv6)), duid := if m.duid == "" then x.duid else m.duid, dual := true)
  }

  function Tidy(x: Lease): Lease {
    x.(ipv6 := Sort(x.ipv6))
  }

  datatype Merge = Merge(v4: seq<Lease>, alone: seq<Lease>)

  function Step(m: Merge, x: Lease): Merge {
    var j := Match(m.v4, x);
    if j < 0 then m.(alone := m.alone + [Tidy(x)]) else m.(v4 := m.v4[j := Absorbed(m.v4[j], x)])
  }

  function Fold(m: Merge, xs: seq<Lease>): Merge {
    if xs == [] then m else Step(Fold(m, xs[..|xs| - 1]), xs[|xs| - 1])
  }

  function Merging(leases: seq<Lease>): Merge {
    Fold(Merge(V4Records(leases), []), V6Records(leases))
  }

  function Merged(leases: seq<Lease>): seq<Lease> {
    Merging(leases).v4 + Merging(leases).alone
  }

  // ----------------------------------------------------------------------------
  // What absorbing leaves unchanged
  // ----------------------------------------------------------------------------

  /** The same record but for what absorbing adds. */
  predicate SameRecord(a: Lease, b: Lease) {
    a.(ipv6 := b.ipv6, duid := b.duid, dual := b.dual) == b
  }

  ghost predicate SameRecords(a: seq<Lease>, b: seq<Lease>) {
    |a| == |b| && forall i :: 0 <= i < |a| ==> SameRecord(a[i], b[i])
  }

  lemma {:induction false} SameIndexes(a: seq<Lease>, b: seq<Lease>, mac: string, want: string)
    requires SameRecords(a, b)
    ensures MacIndex(a, mac) == MacIndex(b, mac) && HostIndex(a, want) == HostIndex(b, want)
  {
    if a != [] {
      assert SameRecord(a[0], b[0]);
      SameIndexes(a[1..], b[1..], mac, want);
    }
  }

  lemma SameMatch(a: seq<Lease>, b: seq<Lease>, x: Lease)
    requires SameRecords(a, b)
    ensures Match(a, x) == Match(b, x)
  {
    SameIndexes(a, b, MacFromDuid(x.duid), Lower(x.hostname));
  }

  lemma {:induction false} FoldKeepsRecords(m: Merge, xs: seq<Lease>)
    ensures SameRecords(m.v4, Fold(m, xs).v4)
  {
    if xs != [] {
      FoldKeepsRecords(m, xs[..|xs| - 1]);
    }
  }

  /** Whether a record finds a match does not depend on what was absorbed before it. */
  lemma FoldMatch(m: Merge, xs: seq<Lease>, x: Lease)
    ensures Match(Fold(m, xs).v4, x) == Match(m.v4, x)
  {
    FoldKeepsRecords(m, xs);
    SameMatch(m.v4, Fold(m, xs).v4, x);
  }

  /** Every IPv4 record comes out once, in order, its address, MAC and host name unchanged. */
  lemma V4RecordsKept(leases: seq<Lease>)
    ensures
      var v4 := V4Records(leases);
      && |Merged(leases)| >= |v4|
      && forall i :: 0 <= i < |v4| ==> SameRecord(v4[i], Merged(leases)[i])
  {
    FoldKeepsRecords(Merge(V4Records(leases), []), V6Records(leases));
  }

  // ----------------------------------------------------------------------------
  // Absorbed records vanish, the others stand alone
  // ----------------------------------------------------------------------------

  /** The records for which a condition holds, tidied. */
  function Tidied(xs: seq<Lease>, keep: Lease -> bool): seq<Lease> {
    if xs == [] then []
    else
      var n := |xs| - 1;
      Tidied(xs[..n], keep) + if keep(xs[n]) then [Tidy(xs[n])] else []
  }

  function Unmatched(v4: seq<Lease>): Lease -> bool {
    (x: Lease) => Match(v4, x) < 0
  }

  lemma {:induction false} FoldAlone(m: Merge, xs: seq<Lease>)
    ensures Fold(m, xs).alone == m.alone + Tidied(xs, Unmatched(m.v4))
  {
    if xs != [] {
      FoldAlone(m, xs[..|xs| - 1]);
      FoldMatch(m, xs[..|xs| - 1], xs[|xs| - 1]);
    }
  }

  /** Behind the IPv4 records come exactly the IPv6 records that match none of them. */
  lemma UnmatchedStandAlone(leases: seq<Lease>)
    ensures |Merged(leases)| >= |V4Records(leases)|
    ensures Merged(leases)[|V4Records(leases)|..] == Tidied(V6Records(leases), Unmatched(V4Records(leases)))
  {
    var m := Merge(V4Records(leases), []);
    FoldKeepsRecords(m, V6Records(leases));
    FoldAlone(m, V6Records(leases));
  }

  // ----------------------------------------------------------------------------
  // No address is lost
  // ----------------------------------------------------------------------------

  ghost predicate Lists(leases: seq<Lease>, a: string) {
    exists i :: 0 <= i < |leases| && a in leases[i].ipv6
  }

  lemma {:induction false} UnionMembers(have: seq<string>, more: seq<string>, a: string)
    ensures a in Union(have, more) <==> a in have || a in more
  {
    if more != [] {
      var n := |more| - 1;
      UnionMembers(have, more[..n], a);
      assert more == more[..n] + [more[n]];
    }
  }

  lemma AbsorbedMembers(m: Lease, x: Lease, a: string)
    ensures a in Absorbed(m, x).ipv6 <==> a in m.ipv6 || a in x.ipv6
  {
    UnionMembers(m.ipv6, x.ipv6, a);
    SortMembers(Union(m.ipv6, x.ipv6));
  }

  lemma StepLists(m: Merge, x: Lease, a: string)
    ensures Lists(Step(m, x).v4, a) || Lists(Step(m, x).alone, a) <==>
      Lists(m.v4, a) || Lists(m.alone, a) || a in x.ipv6
  {
    var j, r := Match(m.v4, x), Step(m, x);
    if j < 0 {
      SortMembers(x.ipv6);
      assert r.alone[|m.alone|] == Tidy(x);
      assert forall i :: 0 <= i < |m.alone| ==> r.alone[i] == m.alone[i];
    } else {
      AbsorbedMembers(m.v4[j], x, a);
      assert r.v4[j] == Absorbed(m.v4[j], x);
      assert forall i :: 0 <= i < |m.v4| && i != j ==> r.v4[i] == m.v4[i];
    }
  }

  lemma {:induction false} FoldLists(m: Merge, xs: seq<Lease>, a: string)
    ensures Lists(Fold(m, xs).v4, a) || Lists(Fold(m, xs).alone, a) <==>
      Lists(m.v4, a) || Lists(m.alone, a) || Lists(xs, a)
  {
    if xs != [] {
      var n := |xs| - 1;
      FoldLists(m, xs[..n], a);
      StepLists(Fold(m, xs[..n]), xs[n], a);
      ListsSnoc(xs, a);
    }
  }

  lemma ListsSnoc(xs: seq<Lease>, a: string)
    requires xs != []
    ensures Lists(xs, a) <==> Lists(xs[..|xs| - 1], a) || a in xs[|xs| - 1].ipv6
  {
    assert forall i :: 0 <= i < |xs| - 1 ==> xs[..|xs| - 1][i] == xs[i];
  }

  lemma ListsConcat(xs: seq<Lease>, ys: seq<Lease>, a: string)
    ensures Lists(xs + ys, a) <==> Lists(xs, a) || Lists(ys, a)
  {
    assert forall i :: 0 <= i < |xs| ==> (xs + ys)[i] == xs[i];
    assert forall i :: 0 <= i < |ys| ==> (xs + ys)[|xs| + i] == ys[i];
  }

  lemma {:induction false} RecordsList(leases: seq<Lease>, a: string)
    ensures Lists(leases, a) <==> Lists(V4Records(leases), a) || Lists(V6Records(leases), a)
  {
    if leases != [] {
      var n := |leases| - 1;
      RecordsList(leases[..n], a);
      ListsSnoc(leases, a);
      ListsConcat(V4Records(leases[..n]), if V6Only(leases[n]) then [] else [leases[n]], a);
      ListsConcat(V6Records(leases[..n]), if V6Only(leases[n]) then [leases[n]] else [], a);
      assert Lists([leases[n]], a) <==> a in leases[n].ipv6 by { assert [leases[n]][0] == leases[n]; }
    }
  }

  /** The IPv6 addresses of the output are exactly those of the input. */
  lemma AddressesConserved(leases: seq<Lease>, a: string)
    ensures Lists(Merged(leases), a) <==> Lists(leases, a)
  {
    FoldLists(Merge(V4Records(leases), []), V6Records(leases), a);
    RecordsList(leases, a);
    ListsConcat(Merging(leases).v4, Merging(leases).alone, a);
  }

  // ----------------------------------------------------------------------------
  // Which record is the match
  // ----------------------------------------------------------------------------

  /** Three groups of two between colons. */
  predicate Triple(x: string) {
    |x| == 8 && forall k :: 0 <= k < 8 ==> (x[k] == ':' <==> k == 2 || k == 5)
  }

  /** The last 17 characters are six groups of two between colons, and make up whole groups. */
  predicate EndsInMac(duid: string) {
    var at := |duid| - 17;
    && at >= 0 && (at > 0 ==> duid[at - 1] == ':')
    && Triple(duid[at..at + 8]) && duid[at + 8] == ':' && Triple(duid[at + 9..])
  }

  lemma {:induction false} SplitParts(s: string, sep: char)
    requires sep == ':'
    ensures Join(Split(s, sep)) == s && forall i :: 0 <= i < |Split(s, sep)| ==> sep !in Split(s, sep)[i]
    decreases |s|
  {
    var i := IndexOf(s, sep);
    if i >= 0 {
      SplitParts(s[i + 1..], sep);
      assert s == s[..i] + ":" + s[i + 1..];
    }
  }

  lemma SplitFirst(s: string, i: nat)
    requires i < |s| && s[i] == ':' && ':' !in s[..i]
    ensures Split(s, ':') == [s[..i]] + Split(s[i + 1..], ':')
  {
    IndexOfFirst(s, ':', i);
  }

  lemma {:induction false} SplitConcat(a: string, b: string)
    ensures Split(a + ":" + b, ':') == Split(a, ':') + Split(b, ':')
    decreases |a|
  {
    var s, i := a + ":" + b, IndexOf(a, ':');
    if i >= 0 {
      assert s[..i] == a[..i] && s[i + 1..] == a[i + 1..] + ":" + b;
      SplitFirst(s, i);
      SplitFirst(a, i);
      SplitConcat(a[i + 1..], b);
    } else {
      assert s[..|a|] == a && s[|a| + 1..] == b;
      SplitFirst(s, |a|);
    }
  }

  lemma {:induction false} JoinConcat(a: seq<string>, b: seq<string>)
    requires a != [] && b != []
    ensures Join(a + b) == Join(a) + ":" + Join(b)
  {
    if |a| == 1 {
      assert (a + b)[1..] == b;
    } else {
      JoinConcat(a[1..], b);
      assert (a + b)[1..] == a[1..] + b;
    }
  }

  lemma SplitTriple(x: string)
    requires Triple(x)
    ensures Split(x, ':') == [x[..2], x[3..5], x[6..]]
  {
    var a, b, c := x[..2], x[3..5], x[6..];
    assert x == a + ":" + b + ":" + c by {
      assert x[2] == ':' && x[5] == ':';
    }
    assert ':' !in a && ':' !in b && ':' !in c;
    SplitConcat(a + ":" + b, c);
    SplitConcat(a, b);
  }

  lemma SplitSix(x: string, y: string)
    requires Triple(x) && Triple(y)
    ensures TwoDigits(Split(x + ":" + y, ':'))
  {
    SplitConcat(x, y);
    SplitTriple(x);
    SplitTriple(y);
  }

  /** Six parts of two characters. */
  predicate TwoDigits(parts: seq<string>) {
    |parts| == 6 && forall i :: 0 <= i < 6 ==> |parts[i]| == 2
  }

  lemma JoinSix(p: seq<string>)
    requires TwoDigits(p) && forall i :: 0 <= i < 6 ==> ':' !in p[i]
    ensures Triple(Join(p[..3])) && Triple(Join(p[3..])) && Join(p) == Join(p[..3]) + ":" + Join(p[3..])
  {
    assert p == p[..3] + p[3..];
    JoinConcat(p[..3], p[3..]);
    JoinThree(p[..3]);
    JoinThree(p[3..]);
  }

  lemma JoinThree(p: seq<string>)
    requires |p| == 3 && forall i :: 0 <= i < 3 ==> |p[i]| == 2 && ':' !in p[i]
    ensures Triple(Join(p))
  {
    assert p[1..][1..] == [p[2]];
    assert Join(p[1..]) == p[1] + ":" + p[2];
    var s := Join(p);
    assert s == p[0] + ":" + (p[1] + ":" + p[2]);
    assert s[0] in p[0] && s[1] in p[0] && s[3] in p[1] && s[4] in p[1] && s[6] in p[2] && s[7] in p[2];
  }

  /** The hardware address of an identifier is its last six groups, in lower case, if they have two characters each. */
  lemma MacOfDuid(duid: string)
    ensures MacFromDuid(duid) == if EndsInMac(duid) then Lower(duid[|duid| - 17..]) else ""
  {
    var parts := Split(duid, ':');
    SplitParts(duid, ':');
    if EndsInMac(duid) {
      MacFound(duid);
    } else if |parts| >= 6 && TwoDigits(parts[|parts| - 6..]) {
      PartsEndInMac(duid);
    }
  }

  lemma MacFound(duid: string)
    requires EndsInMac(duid)
    ensures MacFromDuid(duid) == Lower(duid[|duid| - 17..])
  {
    var at := |duid| - 17;
    var last := SplitMac(duid[at..], duid[at..at + 8], duid[at + 9..]);
    SplitEnd(duid, at);
    MacOfParts(duid, last);
  }

  lemma MacOfParts(duid: string, last: seq<string>)
    requires TwoDigits(last) && |Split(duid, ':')| >= 6 && Split(duid, ':')[|Split(duid, ':')| - 6..] == last
    ensures MacFromDuid(duid) == Lower(Join(last))
  {
  }

  lemma SplitMac(m: string, x: string, y: string) returns (six: seq<string>)
    requires |m| == 17 && m[..8] == x && Triple(x) && m[8] == ':' && m[9..] == y && Triple(y)
    ensures six == Split(m, ':') && TwoDigits(six) && Join(six) == m
  {
    six := Split(m, ':');
    assert m == x + ":" + y;
    SplitSix(x, y);
    SplitParts(m, ':');
  }

  lemma SplitEnd(s: string, at: nat)
    requires at <= |s| && (at > 0 ==> s[at - 1] == ':')
    ensures |Split(s, ':')| >= |Split(s[at..], ':')|
    ensures Split(s, ':')[|Split(s, ':')| - |Split(s[at..], ':')|..] == Split(s[at..], ':')
  {
    if at > 0 {
      assert s == s[..at - 1] + ":" + s[at..];
      SplitConcat(s[..at - 1], s[at..]);
    } else {
      assert s[at..] == s;
    }
  }

  lemma PartsEndInMac(duid: string)
    requires |Split(duid, ':')| >= 6 && TwoDigits(Split(duid, ':')[|Split(duid, ':')| - 6..])
    ensures EndsInMac(duid)
  {
    var parts := Split(duid, ':');
    var before, last := parts[..|parts| - 6], parts[|parts| - 6..];
    SplitParts(duid, ':');
    assert parts == before + last;
    LastSixEndInMac(before, last);
  }

  lemma LastSixEndInMac(before: seq<string>, last: seq<string>)
    requires TwoDigits(last) && forall i :: 0 <= i < 6 ==> ':' !in last[i]
    ensures EndsInMac(Join(before + last))
  {
    var x, y := Join(last[..3]), Join(last[3..]);
    JoinSix(last);
    if before == [] {
      TriplesEndInMac("", x, y);
      assert before + last == last && "" + (x + ":" + y) == x + ":" + y;
    } else {
      JoinConcat(before, last);
      TriplesEndInMac(Join(before) + ":", x, y);
    }
  }

  lemma TriplesEndInMac(before: string, x: string, y: string)
    requires Triple(x) && Triple(y) && (before != "" ==> before[|before| - 1] == ':')
    ensures EndsInMac(before + (x + ":" + y))
  {
    var s := before + (x + ":" + y);
    var at := |s| - 17;
    assert s[at..at + 8] == x && s[at + 8] == ':' && s[at + 9..] == y;
  }

  lemma {:induction false} MacIndexFirst(v4: seq<Lease>, mac: string, i: nat)
    requires i < |v4| && mac != "" && v4[i].mac == mac && forall j :: 0 <= j < i ==> v4[j].mac != mac
    ensures MacIndex(v4, mac) == i
  {
    if i > 0 {
      assert forall j :: 0 <= j < i - 1 ==> v4[1..][j] == v4[j + 1];
      MacIndexFirst(v4[1..], mac, i - 1);
    }
  }

  ghost predicate SameHost(l: Lease, x: Lease) {
    l.hostname != "" && x.hostname != "" && Lower(l.hostname) == Lower(x.hostname)
  }

  lemma {:induction false} HostIndexFirst(v4: seq<Lease>, x: Lease, i: nat)
    requires i < |v4| && SameHost(v4[i], x) && forall j :: 0 <= j < i ==> !SameHost(v4[j], x)
    ensures HostIndex(v4, Lower(x.hostname)) == i
  {
    if i > 0 {
      assert !SameHost(v4[0], x);
      assert forall j :: 0 <= j < i - 1 ==> v4[1..][j] == v4[j + 1];
      HostIndexFirst(v4[1..], x, i - 1);
    }
  }

  /** The hardware address in the identifier of an IPv6 record is that of the IPv4 record. */
  predicate SameMac(l: Lease, x: Lease) {
    EndsInMac(x.duid) && l.mac == Lower(x.duid[|x.duid| - 17..])
  }

  /** The match is the first record with the hardware address of the identifier. */
  lemma MatchByMac(v4: seq<Lease>, x: Lease, i: nat)
    requires i < |v4| && SameMac(v4[i], x) && forall j :: 0 <= j < i ==> !SameMac(v4[j], x)
    ensures Match(v4, x) == i
  {
    MacOfDuid(x.duid);
    MacIndexFirst(v4, MacFromDuid(x.duid), i);
  }

  lemma {:induction false} NoMacIndex(v4: seq<Lease>, mac: string)
    requires mac != "" && forall j :: 0 <= j < |v4| ==> v4[j].mac != mac
    ensures MacIndex(v4, mac) == -1
  {
    if v4 != [] {
      NoMacIndex(v4[1..], mac);
    }
  }

  lemma NotByMac(v4: seq<Lease>, x: Lease)
    requires forall j :: 0 <= j < |v4| ==> !SameMac(v4[j], x)
    ensures Match(v4, x) == if x.hostname != "" then HostIndex(v4, Lower(x.hostname)) else -1
  {
    MacOfDuid(x.duid);
    if EndsInMac(x.duid) { NoMacIndex(v4, MacFromDuid(x.duid)); }
  }

  /** If there is none, the first with the host name, in either case. */
  lemma MatchByHost(v4: seq<Lease>, x: Lease, i: nat)
    requires forall j :: 0 <= j < |v4| ==> !SameMac(v4[j], x)
    requires i < |v4| && SameHost(v4[i], x) && forall j :: 0 <= j < i ==> !SameHost(v4[j], x)
    ensures Match(v4, x) == i
  {
    NotByMac(v4, x);
    HostIndexFirst(v4, x, i);
  }

  /** If there is neither, there is no match. */
  lemma NoMatch(v4: seq<Lease>, x: Lease)
    requires forall j :: 0 <= j < |v4| ==> !SameMac(v4[j], x) && !SameHost(v4[j], x)
    ensures Match(v4, x) < 0
  {
    NotByMac(v4, x);
    if x.hostname != "" { NoHostIndex(v4, x); }
  }

  lemma {:induction false} NoHostIndex(v4: seq<Lease>, x: Lease)
    requires x.hostname != "" && forall j :: 0 <= j < |v4| ==> !SameHost(v4[j], x)
    ensures HostIndex(v4, Lower(x.hostname)) == -1
  {
    if v4 != [] {
      assert !SameHost(v4[0], x);
      NoHostIndex(v4[1..], x);
    }
  }

  // ----------------------------------------------------------------------------
  // Merging twice
  // ----------------------------------------------------------------------------

  ghost predicate AllV4(leases: seq<Lease>) {
    forall i :: 0 <= i < |leases| ==> !V6Only(leases[i])
  }

  ghost predicate AllV6(leases: seq<Lease>) {
    forall i :: 0 <= i < |leases| ==> V6Only(leases[i])
  }

  lemma RecordsSnoc(leases: seq<Lease>, l: Lease)
    ensures V4Records(leases + [l]) == V4Records(leases) + if V6Only(l) then [] else [l]
    ensures V6Records(leases + [l]) == V6Records(leases) + if V6Only(l) then [l] else []
  {
    assert (leases + [l])[..|leases|] == leases;
  }

  lemma {:induction false} RecordsConcat(a: seq<Lease>, b: seq<Lease>)
    ensures V4Records(a + b) == V4Records(a) + V4Records(b) && V6Records(a + b) == V6Records(a) + V6Records(b)
  {
    if b == [] {
      assert a + b == a;
    } else {
      var n := |b| - 1;
      RecordsConcat(a, b[..n]);
      assert (a + b)[..|a + b| - 1] == a + b[..n];
    }
  }

  lemma {:induction false} RecordsOfOne(leases: seq<Lease>)
    ensures AllV4(leases) ==> V4Records(leases) == leases && V6Records(leases) == []
    ensures AllV6(leases) ==> V4Records(leases) == [] && V6Records(leases) == leases
  {
    if leases != [] {
      var n := |leases| - 1;
      RecordsOfOne(leases[..n]);
      assert leases == leases[..n] + [leases[n]];
    }
  }

  lemma {:induction false} RecordsSides(leases: seq<Lease>)
    ensures AllV4(V4Records(leases)) && AllV6(V6Records(leases))
    ensures |V4Records(leases)| + |V6Records(leases)| == |leases|
  {
    if leases != [] {
      RecordsSides(leases[..|leases| - 1]);
    }
  }

  lemma {:induction false} RecordsMembers(leases: seq<Lease>, x: Lease)
    ensures x in V4Records(leases) <==> x in leases && !V6Only(x)
    ensures x in V6Records(leases) <==> x in leases && V6Only(x)
  {
    if leases != [] {
      var n := |leases| - 1;
      RecordsMembers(leases[..n], x);
      assert leases == leases[..n] + [leases[n]];
    }
  }

  /** The IPv6 records of a list are its last ones. */
  ghost predicate V6Last(leases: seq<Lease>) {
    forall i, j :: 0 <= i < j < |leases| && V6Only(leases[i]) ==> V6Only(leases[j])
  }

  lemma {:induction false} PartsInOrder(leases: seq<Lease>)
    ensures V4Records(leases) + V6Records(leases) == leases <==> V6Last(leases)
  {
    RecordsSides(leases);
    if leases != [] && V6Last(leases) {
      var n := |leases| - 1;
      PartsInOrder(leases[..n]);
      assert leases == leases[..n] + [leases[n]];
      if !V6Only(leases[n]) {
        assert AllV4(leases[..n]);
        RecordsOfOne(leases[..n]);
      }
    }
  }

  /** Records of IPv6 only, sorted, for which a condition holds. */
  ghost predicate Settled(xs: seq<Lease>, keep: Lease -> bool) {
    forall i :: 0 <= i < |xs| ==> V6Only(xs[i]) && Tidy(xs[i]) == xs[i] && keep(xs[i])
  }

  lemma TidyTwice(x: Lease)
    requires V6Only(x)
    ensures V6Only(Tidy(x)) && Tidy(Tidy(x)) == Tidy(x)
  {
    SortSorts(x.ipv6);
    SortOfSorted(Sort(x.ipv6));
  }

  lemma {:induction false} TidiedSettled(xs: seq<Lease>, keep: Lease -> bool)
    requires AllV6(xs) && forall i :: 0 <= i < |xs| ==> keep(Tidy(xs[i])) == keep(xs[i])
    ensures Settled(Tidied(xs, keep), keep)
  {
    if xs != [] {
      var n := |xs| - 1;
      TidiedSettled(xs[..n], keep);
      TidyTwice(xs[n]);
    }
  }

  lemma {:induction false} SettledTidied(xs: seq<Lease>, keep: Lease -> bool)
    requires Settled(xs, keep)
    ensures Tidied(xs, keep) == xs
  {
    if xs != [] {
      var n := |xs| - 1;
      SettledTidied(xs[..n], keep);
      assert xs == xs[..n] + [xs[n]];
    }
  }

  lemma {:induction false} SettledFold(m: Merge, xs: seq<Lease>)
    requires Settled(xs, Unmatched(m.v4))
    ensures Fold(m, xs).v4 == m.v4
  {
    if xs != [] {
      SettledFold(m, xs[..|xs| - 1]);
    }
  }

  lemma TidyMatch(v4: seq<Lease>, x: Lease)
    ensures Unmatched(v4)(Tidy(x)) == Unmatched(v4)(x)
  {
  }

  lemma FoldSettled(v4: seq<Lease>, alone: seq<Lease>)
    requires Settled(alone, Unmatched(v4))
    ensures Fold(Merge(v4, []), alone) == Merge(v4, alone)
  {
    SettledFold(Merge(v4, []), alone);
    FoldAlone(Merge(v4, []), alone);
    SettledTidied(alone, Unmatched(v4));
  }

  lemma {:induction false} TidiedFull(xs: seq<Lease>, keep: Lease -> bool)
    ensures |Tidied(xs, keep)| <= |xs|
    ensures |Tidied(xs, keep)| == |xs| ==> forall i :: 0 <= i < |xs| ==> keep(xs[i])
  {
    if xs != [] {
      TidiedFull(xs[..|xs| - 1], keep);
    }
  }

  /** One record on the IPv4 side matches an IPv6 record. */
  predicate Pairs(l: Lease, x: Lease) {
    || (MacFromDuid(x.duid) != "" && l.mac == MacFromDuid(x.duid))
    || (x.hostname != "" && l.hostname != "" && Lower(l.hostname) == Lower(x.hostname))
  }

  ghost predicate PairsNone(v4: seq<Lease>, x: Lease) {
    forall i :: 0 <= i < |v4| ==> !Pairs(v4[i], x)
  }

  lemma {:induction false} MacIndexIff(v4: seq<Lease>, mac: string)
    ensures MacIndex(v4, mac) < 0 <==> forall i :: 0 <= i < |v4| ==> !(v4[i].mac != "" && v4[i].mac == mac)
  {
    if v4 != [] {
      MacIndexIff(v4[1..], mac);
      assert forall i :: 0 < i < |v4| ==> v4[i] == v4[1..][i - 1];
    }
  }

  lemma {:induction false} HostIndexIff(v4: seq<Lease>, want: string)
    ensures HostIndex(v4, want) < 0 <==>
      forall i :: 0 <= i < |v4| ==> !(v4[i].hostname != "" && Lower(v4[i].hostname) == want)
  {
    if v4 != [] {
      HostIndexIff(v4[1..], want);
      assert forall i :: 0 < i < |v4| ==> v4[i] == v4[1..][i - 1];
    }
  }

  /** A record stays unmatched if and only if it pairs with no single record. */
  lemma UnmatchedIff(v4: seq<Lease>, x: Lease)
    ensures Match(v4, x) < 0 <==> PairsNone(v4, x)
  {
    MacIndexIff(v4, MacFromDuid(x.duid));
    HostIndexIff(v4, Lower(x.hostname));
  }

  // What the merge makes of a record on the IPv4 side, read off the input.

  /** Some IPv6 record goes into the j-th record. */
  ghost predicate Claimed(v4: seq<Lease>, xs: seq<Lease>, j: nat) {
    exists i :: 0 <= i < |xs| && Match(v4, xs[i]) == j
  }

  /** Its own identifier, or the first one it takes over. */
  function TakenDuid(v4: seq<Lease>, xs: seq<Lease>, j: nat): string
    requires j < |v4|
  {
    if xs == [] then v4[j].duid
    else
      var n := |xs| - 1;
      var d := TakenDuid(v4, xs[..n], j);
      if d == "" && Match(v4, xs[n]) == j then xs[n].duid else d
  }

  lemma ClaimedSnoc(v4: seq<Lease>, xs: seq<Lease>, j: nat)
    requires xs != []
    ensures Claimed(v4, xs, j) <==> Claimed(v4, xs[..|xs| - 1], j) || Match(v4, xs[|xs| - 1]) == j
  {
    var n := |xs| - 1;
    assert forall i :: 0 <= i < n ==> xs[..n][i] == xs[i];
  }

  /** What a record looks like that has taken in IPv6 records or not. */
  ghost predicate Filling(was: Lease, now: Lease, claimed: bool, duid: string) {
    && SameRecord(was, now) && now.duid == duid
    && (if claimed then now.ipv6 != [] && Sort(now.ipv6) == now.ipv6 else now.ipv6 == was.ipv6)
  }

  lemma AbsorbedFills(m: Lease, x: Lease)
    requires x.ipv6 != []
    ensures Absorbed(m, x).ipv6 != [] && Sort(Absorbed(m, x).ipv6) == Absorbed(m, x).ipv6
  {
    AbsorbedMembers(m, x, x.ipv6[0]);
    SortSorts(Union(m.ipv6, x.ipv6));
    SortOfSorted(Sort(Union(m.ipv6, x.ipv6)));
  }

  lemma {:induction false} FoldFills(v4: seq<Lease>, xs: seq<Lease>, j: nat)
    requires j < |v4| && AllV6(xs)
    ensures j < |Fold(Merge(v4, []), xs).v4|
    ensures Filling(v4[j], Fold(Merge(v4, []), xs).v4[j], Claimed(v4, xs, j), TakenDuid(v4, xs, j))
  {
    if xs != [] {
      var n := |xs| - 1;
      FoldFills(v4, xs[..n], j);
      FoldMatch(Merge(v4, []), xs[..n], xs[n]);
      ClaimedSnoc(v4, xs, j);
      AbsorbedFills(Fold(Merge(v4, []), xs[..n]).v4[j], xs[n]);
    }
  }

  /** A record on the IPv4 side that has no address at all, and takes in some. */
  ghost predicate Filled(leases: seq<Lease>, j: nat) {
    var v4 := V4Records(leases);
    j < |v4| && v4[j].ip == "" && v4[j].ipv6 == [] && Claimed(v4, V6Records(leases), j)
  }

  /** The j-th record on the IPv4 side with the identifier it takes over. */
  function Taking(leases: seq<Lease>, j: nat): Lease
    requires j < |V4Records(leases)|
  {
    var v4 := V4Records(leases);
    v4[j].(duid := TakenDuid(v4, V6Records(leases), j))
  }

  ghost predicate FilledLast(leases: seq<Lease>) {
    forall i, j :: 0 <= i < j < |V4Records(leases)| && Filled(leases, i) ==> Filled(leases, j)
  }

  ghost predicate FilledUnmatched(leases: seq<Lease>) {
    var v4 := V4Records(leases);
    forall i, j :: 0 <= i < |v4| && 0 <= j < |v4| && !Filled(leases, i) && Filled(leases, j) ==>
      !Pairs(v4[i], Taking(leases, j))
  }

  // The same, read off the output.

  ghost predicate V6PairsNone(v4: seq<Lease>) {
    forall i, j :: 0 <= i < |v4| && 0 <= j < |v4| && !V6Only(v4[i]) && V6Only(v4[j]) ==> !Pairs(v4[i], v4[j])
  }

  lemma FilledIff(leases: seq<Lease>, j: nat)
    requires j < |V4Records(leases)|
    ensures j < |Merging(leases).v4|
    ensures V6Only(Merging(leases).v4[j]) <==> Filled(leases, j)
    ensures V6Only(Merging(leases).v4[j]) ==> Tidy(Merging(leases).v4[j]) == Merging(leases).v4[j]
    ensures SameRecord(V4Records(leases)[j], Merging(leases).v4[j])
    ensures Merging(leases).v4[j].duid == Taking(leases, j).duid
  {
    RecordsSides(leases);
    FoldFills(V4Records(leases), V6Records(leases), j);
  }

  lemma PairsAlike(leases: seq<Lease>, i: nat, j: nat)
    requires i < |V4Records(leases)| && j < |V4Records(leases)|
    ensures i < |Merging(leases).v4| && j < |Merging(leases).v4|
    ensures Pairs(Merging(leases).v4[i], Merging(leases).v4[j]) <==> Pairs(V4Records(leases)[i], Taking(leases, j))
  {
    FilledIff(leases, i);
    FilledIff(leases, j);
  }

  lemma LastOffInput(leases: seq<Lease>, m4: seq<Lease>)
    requires m4 == Merging(leases).v4 && |m4| == |V4Records(leases)|
    requires forall j :: 0 <= j < |m4| ==> (V6Only(m4[j]) <==> Filled(leases, j))
    ensures V6Last(m4) <==> FilledLast(leases)
  {
    if FilledLast(leases) {
      forall i, j | 0 <= i < j < |m4| && V6Only(m4[i]) ensures V6Only(m4[j]) {
        assert Filled(leases, i);
      }
    }
    if V6Last(m4) {
      forall i, j | 0 <= i < j < |m4| && Filled(leases, i) ensures Filled(leases, j) {
        assert V6Only(m4[i]);
      }
    }
  }

  lemma PairsOffInput(leases: seq<Lease>, v4: seq<Lease>, m4: seq<Lease>)
    requires m4 == Merging(leases).v4 && v4 == V4Records(leases) && |m4| == |v4|
    requires forall j :: 0 <= j < |m4| ==> (V6Only(m4[j]) <==> Filled(leases, j))
    ensures V6PairsNone(m4) <==> FilledUnmatched(leases)
  {
    if FilledUnmatched(leases) {
      forall i, j | 0 <= i < |m4| && 0 <= j < |m4| && !V6Only(m4[i]) && V6Only(m4[j]) ensures !Pairs(m4[i], m4[j]) {
        PairsAlike(leases, i, j);
        assert !Filled(leases, i) && Filled(leases, j);
      }
    }
    if V6PairsNone(m4) {
      forall i, j | 0 <= i < |v4| && 0 <= j < |v4| && !Filled(leases, i) && Filled(leases, j)
        ensures !Pairs(v4[i], Taking(leases, j))
      {
        PairsAlike(leases, i, j);
        assert !V6Only(m4[i]) && V6Only(m4[j]);
      }
    }
  }

  lemma ReadOffInput(leases: seq<Lease>)
    ensures V6Last(Merging(leases).v4) <==> FilledLast(leases)
    ensures V6PairsNone(Merging(leases).v4) <==> FilledUnmatched(leases)
  {
    var v4, m4 := V4Records(leases), Merging(leases).v4;
    FoldKeepsRecords(Merge(v4, []), V6Records(leases));
    forall j | 0 <= j < |m4| ensures V6Only(m4[j]) <==> Filled(leases, j) { FilledIff(leases, j); }
    LastOffInput(leases, m4);
    PairsOffInput(leases, v4, m4);
  }

  // Merging the output.

  /** The records that stand alone are settled, whatever the input. */
  lemma AloneSettled(leases: seq<Lease>)
    ensures Settled(Merging(leases).alone, Unmatched(Merging(leases).v4))
  {
    var v4, v6, m := V4Records(leases), V6Records(leases), Merging(leases);
    FoldKeepsRecords(Merge(v4, []), v6);
    FoldAlone(Merge(v4, []), v6);
    assert m.alone == Tidied(v6, Unmatched(v4));
    RecordsSides(leases);
    forall i | 0 <= i < |v6| ensures Unmatched(v4)(Tidy(v6[i])) == Unmatched(v4)(v6[i]) { TidyMatch(v4, v6[i]); }
    TidiedSettled(v6, Unmatched(v4));
    forall i | 0 <= i < |m.alone| ensures Unmatched(m.v4)(m.alone[i]) { SameMatch(v4, m.v4, m.alone[i]); }
  }

  /** What matches none of the records matches none of those that stay on the IPv4 side. */
  lemma UnmatchedBySide(v4: seq<Lease>, x: Lease)
    requires Match(v4, x) < 0
    ensures Match(V4Records(v4), x) < 0
  {
    UnmatchedIff(v4, x);
    UnmatchedIff(V4Records(v4), x);
    forall i | 0 <= i < |V4Records(v4)| ensures !Pairs(V4Records(v4)[i], x) {
      RecordsMembers(v4, V4Records(v4)[i]);
    }
  }

  /** No IPv6 record matches one of the others. */
  ghost predicate AllUnmatched(w: seq<Lease>, x: seq<Lease>) {
    forall i :: 0 <= i < |x| ==> PairsNone(w, x[i])
  }

  lemma UnmatchedSides(v4: seq<Lease>)
    requires AllUnmatched(V4Records(v4), V6Records(v4))
    ensures V6PairsNone(v4)
  {
    var w, x := V4Records(v4), V6Records(v4);
    forall i, j | 0 <= i < |v4| && 0 <= j < |v4| && !V6Only(v4[i]) && V6Only(v4[j]) ensures !Pairs(v4[i], v4[j]) {
      RecordsMembers(v4, v4[i]);
      RecordsMembers(v4, v4[j]);
      var b :| 0 <= b < |x| && x[b] == v4[j];
      assert PairsNone(w, x[b]);
    }
  }

  lemma SidesUnmatched(v4: seq<Lease>)
    requires V6PairsNone(v4)
    ensures AllUnmatched(V4Records(v4), V6Records(v4))
  {
    var w, x := V4Records(v4), V6Records(v4);
    forall i, k | 0 <= i < |x| && 0 <= k < |w| ensures !Pairs(w[k], x[i]) {
      RecordsMembers(v4, w[k]);
      RecordsMembers(v4, x[i]);
    }
  }

  /** A merge that returns as many records as it was given left all IPv6 records alone. */
  lemma AllKept(w: seq<Lease>, xs: seq<Lease>)
    requires |Fold(Merge(w, []), xs).v4| + |Fold(Merge(w, []), xs).alone| == |w| + |xs|
    ensures AllUnmatched(w, xs)
  {
    FoldKeepsRecords(Merge(w, []), xs);
    FoldAlone(Merge(w, []), xs);
    TidiedFull(xs, Unmatched(w));
    forall i | 0 <= i < |xs| ensures PairsNone(w, xs[i]) {
      assert Unmatched(w)(xs[i]);
      UnmatchedIff(w, xs[i]);
    }
  }

  /** The IPv6 records of a list are sorted. */
  ghost predicate TidyV6(leases: seq<Lease>) {
    forall j :: 0 <= j < |leases| && V6Only(leases[j]) ==> IsTidy(leases[j])
  }

  predicate IsTidy(x: Lease) {
    Tidy(x) == x
  }

  lemma SettledPart(v4: seq<Lease>, i: nat)
    requires i < |V6Records(v4)| && TidyV6(v4) && PairsNone(V4Records(v4), V6Records(v4)[i])
    ensures V6Only(V6Records(v4)[i]) && IsTidy(V6Records(v4)[i]) && Match(V4Records(v4), V6Records(v4)[i]) < 0
  {
    var x := V6Records(v4)[i];
    RecordsMembers(v4, x);
    var k :| 0 <= k < |v4| && v4[k] == x;
    UnmatchedIff(V4Records(v4), x);
  }

  lemma SettledParts(v4: seq<Lease>, alone: seq<Lease>)
    requires Settled(alone, Unmatched(V4Records(v4))) && V6PairsNone(v4) && TidyV6(v4)
    ensures Settled(V6Records(v4) + alone, Unmatched(V4Records(v4)))
  {
    var x := V6Records(v4);
    SidesUnmatched(v4);
    forall i | 0 <= i < |x|
      ensures V6Only(x[i]) && Tidy(x[i]) == x[i] && Unmatched(V4Records(v4))(x[i])
    {
      SettledPart(v4, i);
    }
  }

  /** Merging a list again of which the records at the end are settled. */
  lemma MergeAgain(v4: seq<Lease>, alone: seq<Lease>)
    requires Settled(alone, Unmatched(V4Records(v4))) && TidyV6(v4)
    ensures Merged(v4 + alone) == v4 + alone <==> V6Last(v4) && V6PairsNone(v4)
  {
    var w, x := V4Records(v4), V6Records(v4);
    MergingAgain(v4, alone);
    PartsInOrder(v4);
    SameFront(w, x, alone, v4);
    if Merged(v4 + alone) == v4 + alone {
      KeptAgain(v4, alone);
    }
    if V6PairsNone(v4) {
      SettledParts(v4, alone);
      FoldSettled(w, x + alone);
    }
  }

  lemma MergingAgain(v4: seq<Lease>, alone: seq<Lease>)
    requires AllV6(alone)
    ensures Merging(v4 + alone) == Fold(Merge(V4Records(v4), []), V6Records(v4) + alone)
  {
    RecordsConcat(v4, alone);
    RecordsOfOne(alone);
    assert V4Records(v4) + [] == V4Records(v4);
  }

  lemma KeptAgain(v4: seq<Lease>, alone: seq<Lease>)
    requires AllV6(alone) && Merged(v4 + alone) == v4 + alone
    ensures V6PairsNone(v4)
  {
    var w, x := V4Records(v4), V6Records(v4);
    MergingAgain(v4, alone);
    RecordsSides(v4);
    AllKept(w, x + alone);
    forall i | 0 <= i < |x| ensures PairsNone(w, x[i]) { assert (x + alone)[i] == x[i]; }
    UnmatchedSides(v4);
  }

  lemma SameFront(w: seq<Lease>, x: seq<Lease>, alone: seq<Lease>, v4: seq<Lease>)
    ensures w + (x + alone) == v4 + alone <==> w + x == v4
  {
    assert w + (x + alone) == (w + x) + alone;
    if (w + x) + alone == v4 + alone {
      assert |w + x| == |v4|;
      assert (v4 + alone)[..|v4|] == v4 && ((w + x) + alone)[..|w + x|] == w + x;
    }
  }

  /**
   Exactly when merging the output again changes nothing. The records to look at are those
   on the IPv4 side that have no address at all and take in some, which makes them IPv6
   records: it does not if and only if they are the last ones on that side, and none of
   them, with the identifier it takes over, matches one of the others.
   */
  lemma MergeIdempotentIff(leases: seq<Lease>)
    ensures Merged(Merged(leases)) == Merged(leases) <==> FilledLast(leases) && FilledUnmatched(leases)
  {
    var m := Merging(leases);
    AloneSettled(leases);
    forall i | 0 <= i < |m.alone| ensures Unmatched(V4Records(m.v4))(m.alone[i]) { UnmatchedBySide(m.v4, m.alone[i]); }
    FoldKeepsRecords(Merge(V4Records(leases), []), V6Records(leases));
    forall j | 0 <= j < |m.v4| && V6Only(m.v4[j]) ensures IsTidy(m.v4[j]) { FilledIff(leases, j); }
    MergeAgain(m.v4, m.alone);
    ReadOffInput(leases);
  }

  predicate SomeAddress(l: Lease) {
    l.ip != "" || l.ipv6 != []
  }

  /** It changes nothing when every record carries some address. */
  lemma MergeIdempotent(leases: seq<Lease>)
    requires forall i :: 0 <= i < |leases| ==> SomeAddress(leases[i])
    ensures Merged(Merged(leases)) == Merged(leases)
  {
    forall j: nat | j < |V4Records(leases)| ensures !Filled(leases, j) {
      RecordsMembers(leases, V4Records(leases)[j]);
    }
    MergeIdempotentIff(leases);
  }

  /**
   It does change something when a record without any address takes in IPv6 addresses in
   front of one that has an address.
   */
  lemma MergeNotIdempotent(host: string, ip: string, v6: string) returns (leases: seq<Lease>)
    requires host != "" && ip != ""
    ensures Merged(Merged(leases)) != Merged(leases)
  {
    var bare := Lease("", "", host, "", "", "", [], "", false);
    var other := bare.(ip := ip);
    var x := bare.(ipv6 := [v6]);
    leases := [bare, other] + [x];
    RecordsConcat([bare, other], [x]);
    RecordsOfOne([bare, other]);
    RecordsOfOne([x]);
    assert Split("", ':') == [""];
    assert Match([bare, other], [x][0]) == 0;
    assert Filled(leases, 0) && !Filled(leases, 1);
    MergeIdempotentIff(leases);
  }

  // ----------------------------------------------------------------------------
  // The merge in place
  // ----------------------------------------------------------------------------

  method Sorted(xs: seq<string>) returns (r: seq<string>)
    ensures r == Sort(xs)
  {
    var a := new string[|xs|](i requires 0 <= i < |xs| => xs[i]);
    assert a[..] == xs;
    SortStrings(a);
    r := a[..];
  }

  method Absorb(m: Lease, x: Lease) returns (r: Lease)
    ensures r == Absorbed(m, x)
  {
    var all := m.ipv6;
    var i := 0;
    while i < |x.ipv6|
      invariant 0 <= i <= |x.ipv6| && all == Union(m.ipv6, x.ipv6[..i])
    {
      assert x.ipv6[..i + 1][..i] == x.ipv6[..i];
      if x.ipv6[i] !in all { all := all + [x.ipv6[i]]; }
      i := i + 1;
    }
    assert x.ipv6[..i] == x.ipv6;
    var sorted := Sorted(all);
    r := m.(ipv6 := sorted, duid := if m.duid == "" then x.duid else m.duid, dual := true);
  }

  predicate Fits(n: nat, ps: seq<nat>) {
    forall i :: 0 <= i < |ps| ==> ps[i] < n
  }

  /** The records at the given positions. */
  function At(leases: seq<Lease>, ps: seq<nat>): seq<Lease>
    requires Fits(|leases|, ps)
  {
    seq(|ps|, i requires 0 <= i < |ps| => leases[ps[i]])
  }

  method FindV4Match(leases: array<Lease>, v4: seq<nat>, x: Lease) returns (j: int)
    requires Fits(leases.Length, v4)
    ensures j == Match(At(leases[..], v4), x)
  {
    var mac := MacFromDuid(x.duid);
    ghost var records := At(leases[..], v4);
    if mac != "" {
      var i := 0;
      while i < |v4|
        invariant 0 <= i <= |v4|
        invariant MacIndex(records, mac) == Shift(MacIndex(records[i..], mac), i)
      {
        assert records[i] == leases[v4[i]];
        assert records[i..][1..] == records[i + 1..];
        if leases[v4[i]].mac != "" && leases[v4[i]].mac == mac {
          return i;
        }
        i := i + 1;
      }
    }
    if x.hostname != "" {
      var want := Lower(x.hostname);
      var i := 0;
      while i < |v4|
        invariant 0 <= i <= |v4|
        invariant HostIndex(records, want) == Shift(HostIndex(records[i..], want), i)
      {
        assert records[i] == leases[v4[i]];
        assert records[i..][1..] == records[i + 1..];
        if leases[v4[i]].hostname != "" && Lower(leases[v4[i]].hostname) == want {
          return i;
        }
        i := i + 1;
      }
    }
    return -1;
  }

  function Shift(j: int, steps: nat): int {
    if j < 0 then -1 else j + steps
  }

  const MERGED := "MERGED"

  /** Distinct positions of a list. */
  ghost predicate Positions(n: nat, ps: seq<nat>) {
    Fits(n, ps) && forall i, j :: 0 <= i < j < |ps| ==> ps[i] != ps[j]
  }

  ghost predicate Apart(v4: seq<nat>, v6: seq<nat>) {
    forall i, j :: 0 <= i < |v4| && 0 <= j < |v6| ==> v4[i] != v6[j]
  }

  ghost predicate Classified(leases: seq<Lease>, v4: seq<nat>, v6: seq<nat>) {
    && Positions(|leases|, v4) && Positions(|leases|, v6) && Apart(v4, v6)
    && At(leases, v4) == V4Records(leases) && At(leases, v6) == V6Records(leases)
  }

  lemma ClassifySnoc(leases: seq<Lease>, l: Lease, v4: seq<nat>, v6: seq<nat>)
    requires Classified(leases, v4, v6)
    ensures Classified(
      leases + [l], if V6Only(l) then v4 else v4 + [|leases|], if V6Only(l) then v6 + [|leases|] else v6)
  {
    var n := |leases|;
    RecordsSnoc(leases, l);
    AtSnoc(leases, l, v4);
    AtSnoc(leases, l, v6);
  }

  lemma AtSnoc(leases: seq<Lease>, l: Lease, ps: seq<nat>)
    requires Positions(|leases|, ps)
    ensures Positions(|leases| + 1, ps) && Positions(|leases| + 1, ps + [|leases|])
    ensures At(leases + [l], ps) == At(leases, ps) && At(leases + [l], ps + [|leases|]) == At(leases, ps) + [l]
  {
  }

  method Classify(leases: array<Lease>) returns (v4: seq<nat>, v6: seq<nat>)
    ensures Classified(leases[..], v4, v6)
  {
    v4, v6 := [], [];
    var i := 0;
    while i < leases.Length
      invariant 0 <= i <= leases.Length && Classified(leases[..i], v4, v6)
    {
      ClassifySnoc(leases[..i], leases[i], v4, v6);
      assert leases[..i + 1] == leases[..i] + [leases[i]];
      if leases[i].ip == "" && |leases[i].ipv6| > 0 {
        v6 := v6 + [i];
      } else {
        v4 := v4 + [i];
      }
      i := i + 1;
    }
    assert leases[..i] == leases[..];
  }

  /** The records at the positions that are not marked, tidied. */
  function Unmarked(leases: seq<Lease>, ps: seq<nat>): seq<Lease>
    requires Fits(|leases|, ps)
  {
    if ps == [] then []
    else
      var n := |ps| - 1;
      Unmarked(leases, ps[..n]) + if leases[ps[n]].ip == MERGED then [] else [Tidy(leases[ps[n]])]
  }

  lemma {:induction false} UnmarkedFrame(a: seq<Lease>, b: seq<Lease>, ps: seq<nat>)
    requires Fits(|a|, ps) && Fits(|b|, ps) && forall i :: 0 <= i < |ps| ==> a[ps[i]] == b[ps[i]]
    ensures Unmarked(a, ps) == Unmarked(b, ps)
  {
    if ps != [] {
      UnmarkedFrame(a, b, ps[..|ps| - 1]);
    }
  }

  /** k of the IPv6 records are dealt with, with the outcome m. */
  ghost predicate Progress(was: seq<Lease>, now: seq<Lease>, v4: seq<nat>, v6: seq<nat>, k: nat, m: Merge) {
    && Classified(was, v4, v6) && |now| == |was| && k <= |v6|
    && m == Fold(Merge(V4Records(was), []), V6Records(was)[..k])
    && At(now, v4) == m.v4
    && (forall i :: k <= i < |v6| ==> now[v6[i]] == was[v6[i]])
    && Unmarked(now, v6[..k]) == m.alone
  }

  lemma TakeSnoc<T>(s: seq<T>, k: nat)
    requires k < |s|
    ensures s[..k + 1] == s[..k] + [s[k]]
  {
  }

  lemma NoMatchProgress(was: seq<Lease>, now: seq<Lease>, v4: seq<nat>, v6: seq<nat>, k: nat, m: Merge)
    requires Progress(was, now, v4, v6, k, m) && k < |v6| && Match(m.v4, now[v6[k]]) < 0
    ensures Progress(was, now, v4, v6, k + 1, Step(m, now[v6[k]]))
  {
    StepProgress(was, now, v4, v6, k, m);
    TakeSnoc(v6, k);
    assert v6[..k + 1][..k] == v6[..k];
  }

  /** The next IPv6 record is the one at the next position, and it is not marked. */
  lemma StepProgress(was: seq<Lease>, now: seq<Lease>, v4: seq<nat>, v6: seq<nat>, k: nat, m: Merge)
    requires Progress(was, now, v4, v6, k, m) && k < |v6|
    ensures Fold(Merge(V4Records(was), []), V6Records(was)[..k + 1]) == Step(m, now[v6[k]])
    ensures now[v6[k]].ip == ""
  {
    var xs := V6Records(was);
    assert xs == At(was, v6) && xs[k] == now[v6[k]];
    assert xs[..k + 1][..k] == xs[..k];
    RecordsSides(was);
  }

  lemma MatchProgress(
      was: seq<Lease>, now: seq<Lease>, v4: seq<nat>, v6: seq<nat>, k: nat, m: Merge, j: nat, r: Lease, y: Lease)
    requires Progress(was, now, v4, v6, k, m) && k < |v6| && j < |v4| && y.ip == MERGED
    requires Fold(Merge(V4Records(was), []), V6Records(was)[..k + 1]) == m.(v4 := m.v4[j := r])
    ensures Progress(was, now[v4[j] := r][v6[k] := y], v4, v6, k + 1, m.(v4 := m.v4[j := r]))
  {
    var now' := now[v4[j] := r][v6[k] := y];
    AtUpdate(now, v4, j, r, v6[k], y);
    UntouchedOthers(now, v6, k, v4[j], r, y);
    MarkedSkipped(now', v6, k);
  }

  lemma MarkedSkipped(now: seq<Lease>, v6: seq<nat>, k: nat)
    requires Fits(|now|, v6) && k < |v6| && now[v6[k]].ip == MERGED
    ensures Unmarked(now, v6[..k + 1]) == Unmarked(now, v6[..k])
  {
    assert v6[..k + 1][..k] == v6[..k];
  }

  /** Writing to the record at the k-th position, and to one that is not listed, leaves the others. */
  lemma UntouchedOthers(now: seq<Lease>, v6: seq<nat>, k: nat, p: nat, r: Lease, y: Lease)
    requires Positions(|now|, v6) && k < |v6| && p < |now| && p !in v6
    ensures forall i :: 0 <= i < |v6| && i != k ==> now[p := r][v6[k] := y][v6[i]] == now[v6[i]]
    ensures Unmarked(now[p := r][v6[k] := y], v6[..k]) == Unmarked(now, v6[..k])
  {
    UnmarkedFrame(now[p := r][v6[k] := y], now, v6[..k]);
  }

  lemma AtUpdate(now: seq<Lease>, v4: seq<nat>, j: nat, r: Lease, q: nat, y: Lease)
    requires Positions(|now|, v4) && j < |v4| && q < |now| && q !in v4
    ensures At(now[v4[j] := r][q := y], v4) == At(now, v4)[j := r]
  {
  }

  /** Deals with the k-th IPv6 record. */
  method AbsorbOne(leases: array<Lease>, v4: seq<nat>, v6: seq<nat>, k: nat, ghost was: seq<Lease>, ghost m: Merge)
    requires k < |v6| && Progress(was, leases[..], v4, v6, k, m)
    modifies leases
    ensures Progress(was, leases[..], v4, v6, k + 1, Step(m, was[v6[k]]))
  {
    var x := leases[v6[k]];
    var j := FindV4Match(leases, v4, x);
    ghost var now := leases[..];
    StepProgress(was, now, v4, v6, k, m);
    if j < 0 {
      NoMatchProgress(was, now, v4, v6, k, m);
      return;
    }
    var r := Absorb(leases[v4[j]], x);
    MatchProgress(was, now, v4, v6, k, m, j, r, x.(ip := MERGED));
    leases[v4[j]] := r;
    leases[v6[k]] := x.(ip := MERGED);
    assert leases[..] == now[v4[j] := r][v6[k] := x.(ip := MERGED)];
  }

  method AbsorbAll(leases: array<Lease>, v4: seq<nat>, v6: seq<nat>)
    requires Classified(leases[..], v4, v6)
    modifies leases
    ensures Progress(old(leases[..]), leases[..], v4, v6, |v6|, Merging(old(leases[..])))
  {
    ghost var was := leases[..];
    ghost var m := Merge(V4Records(was), []);
    var k := 0;
    while k < |v6|
      invariant 0 <= k <= |v6| && Progress(was, leases[..], v4, v6, k, m)
    {
      AbsorbOne(leases, v4, v6, k, was, m);
      m := Step(m, was[v6[k]]);
      k := k + 1;
    }
    assert V6Records(was)[..k] == V6Records(was);
  }

  /** The IPv4 records, then the IPv6 records that are not marked; those are sorted in place. */
  method Collect(leases: array<Lease>, v4: seq<nat>, v6: seq<nat>) returns (out: seq<Lease>)
    requires Positions(leases.Length, v4) && Positions(leases.Length, v6)
    modifies leases
    ensures out == At(old(leases[..]), v4) + Unmarked(old(leases[..]), v6)
  {
    out := [];
    var i := 0;
    while i < |v4|
      invariant 0 <= i <= |v4| && out == At(leases[..], v4)[..i] && leases[..] == old(leases[..])
    {
      TakeSnoc(At(leases[..], v4), i);
      out := out + [leases[v4[i]]];
      i := i + 1;
    }
    var alone := CollectAlone(leases, v6);
    out := out + alone;
  }

  method CollectAlone(leases: array<Lease>, v6: seq<nat>) returns (out: seq<Lease>)
    requires Positions(leases.Length, v6)
    modifies leases
    ensures out == Unmarked(old(leases[..]), v6)
  {
    ghost var was := leases[..];
    out := [];
    var i := 0;
    while i < |v6|
      invariant 0 <= i <= |v6| && out == Unmarked(was, v6[..i])
      invariant forall k :: i <= k < |v6| ==> leases[v6[k]] == was[v6[k]]
    {
      assert v6[..i + 1][..i] == v6[..i];
      var x := leases[v6[i]];
      if x.ip != MERGED {
        var sorted := Sorted(x.ipv6);
        leases[v6[i]] := x.(ipv6 := sorted);
        out := out + [leases[v6[i]]];
      }
      i := i + 1;
    }
    assert v6[..i] == v6;
  }

  method MergeDualStack(leases: array<Lease>) returns (out: seq<Lease>)
    modifies leases
    ensures out == Merged(old(leases[..]))
  {
    var v4, v6 := Classify(leases);
    AbsorbAll(leases, v4, v6);
    assert v6[..|v6|] == v6;
    out := Collect(leases, v4, v6);
  }
}
