/**
 IP addresses as byte arrays, most significant byte first: the in-place increment, the
 byte-wise comparison and the scan of an address pool. Four bytes for DHCPv4, sixteen
 for DHCPv6.
 */
module Addresses {
  import opened Wrappers

  type byte = x: int | 0 <= x < 256

  type Address = seq<byte>

  /** The number of addresses of n bytes. */
  function Space(n: nat): nat {
    if n == 0 then 1 else 256 * Space(n - 1)
  }

  /** The address as a big-endian number. */
  function Val(a: Address): nat {
    if a == [] then 0 else 256 * Val(a[..|a| - 1]) + a[|a| - 1]
  }

  lemma {:induction false} ValBound(a: Address)
    ensures Val(a) < Space(|a|)
  {
    if a != [] {
      ValBound(a[..|a| - 1]);
    }
  }

  /** The first differing byte decides the order of the numbers. */
  lemma {:induction false} FirstDifferenceDecides(a: Address, b: Address, i: nat)
    requires |a| == |b| && i < |a| && a[..i] == b[..i] && a[i] < b[i]
    ensures Val(a) < Val(b)
  {
    var n := |a| - 1;
    if i == n {
    } else {
      assert a[..n][..i] == a[..i] && b[..n][..i] == b[..i];
      FirstDifferenceDecides(a[..n], b[..n], i);
    }
  }

  lemma {:induction false} ValInjective(a: Address, b: Address)
    requires |a| == |b| && Val(a) == Val(b)
    ensures a == b
  {
    if a != [] {
      var n := |a| - 1;
      ValInjective(a[..n], b[..n]);
      assert a == a[..n] + [a[n]] && b == b[..n] + [b[n]];
    }
  }

  // ----------------------------------------------------------------------------
  // Increment and comparison
  // ----------------------------------------------------------------------------

  /** Adding one with carry; the last address is followed by the first. */
  function Incremented(a: Address): (r: Address)
    ensures |r| == |a|
  {
    if a == [] then []
    else
      var n := |a| - 1;
      if a[n] < 255 then a[..n] + [a[n] + 1] else Incremented(a[..n]) + [0]
  }

  /** The carry chain is addition of one modulo the size of the address space. */
  lemma {:induction false} IncrementAddsOne(a: Address)
    ensures Val(Incremented(a)) == if Val(a) + 1 == Space(|a|) then 0 else Val(a) + 1
  {
    if a != [] {
      var n := |a| - 1;
      ValBound(a[..n]);
      IncrementAddsOne(a[..n]);
      if a[n] < 255 {
        assert Incremented(a)[..n] == a[..n];
      } else {
        assert Incremented(a)[..n] == Incremented(a[..n]);
      }
    }
  }

  method Increment(ip: array<byte>)
    modifies ip
    ensures ip[..] == Incremented(old(ip[..]))
  {
    ghost var was := ip[..];
    var i := ip.Length - 1;
    assert was[..i + 1] == was && ip[i + 1..] == [];
    while i >= 0
      invariant -1 <= i < ip.Length
      invariant ip[..i + 1] == was[..i + 1]
      invariant Incremented(was) == Incremented(was[..i + 1]) + ip[i + 1..]
    {
      ghost var head, tail := was[..i + 1], ip[i + 1..];
      assert head[..i] == was[..i] && head[i] == ip[i];
      ip[i] := if ip[i] == 255 then 0 else ip[i] + 1;
      assert ip[i..] == [ip[i]] + tail && ip[..i] == was[..i];
      if ip[i] != 0 {
        assert ip[..] == ip[..i] + ip[i..];
        return;
      }
      i := i - 1;
    }
    assert ip[..] == ip[0..];
  }

  /** Byte-wise comparison decides the order of the numbers. */
  method After(ip: Address, end: Address) returns (after: bool)
    requires |ip| == |end|
    ensures after <==> Val(ip) > Val(end)
  {
    var i := 0;
    while i < |ip|
      invariant 0 <= i <= |ip|
      invariant ip[..i] == end[..i]
    {
      if ip[i] > end[i] {
        FirstDifferenceDecides(end, ip, i);
        return true;
      }
      if ip[i] < end[i] {
        FirstDifferenceDecides(ip, end, i);
        return false;
      }
      i := i + 1;
    }
    assert ip == ip[..i] && end == end[..i];
    return false;
  }

  // ----------------------------------------------------------------------------
  // Scanning a pool
  // ----------------------------------------------------------------------------

  predicate Last(a: Address) {
    Val(a) + 1 == Space(|a|)
  }

  /** How many increments lead from one address to another. */
  function Distance(a: Address, b: Address): int {
    if Val(b) >= Val(a) then Val(b) - Val(a) else Val(b) - Val(a) + Space(|a|)
  }

  /**
   The addresses a scan can reach: the pool; but no address lies after the last one, so
   a pool ending there is left through the wrap-around, and everything can be reached.
   */
  predicate Reaches(start: Address, end: Address, x: Address) {
    |x| == |start| && (Last(end) || Val(start) <= Val(x) <= Val(end))
  }

  ghost predicate AllUsedBefore(start: Address, end: Address, used: set<Address>, distance: int) {
    forall x :: Reaches(start, end, x) && Distance(start, x) < distance ==> x in used
  }

  /** The outcome of a scan: the first unused address it reaches, or none if all are used. */
  ghost predicate IsScan(start: Address, end: Address, used: set<Address>, r: Option<Address>) {
    match r
    case Some(ip) =>
      && Reaches(start, end, ip) && ip !in used
      && AllUsedBefore(start, end, used, Distance(start, ip))
    case None => AllUsedBefore(start, end, used, Space(|start|))
  }

  ghost predicate SomeFree(n: nat, used: set<Address>) {
    exists x :: |x| == n && x !in used
  }

  lemma DistanceBound(a: Address, b: Address)
    requires |a| == |b|
    ensures 0 <= Distance(a, b) < Space(|a|)
    ensures Distance(a, b) == 0 ==> a == b
  {
    ValBound(a);
    ValBound(b);
    if Val(a) == Val(b) { ValInjective(a, b); }
  }

  lemma DistanceInjective(start: Address, a: Address, b: Address)
    requires |a| == |b| == |start| && Distance(start, a) == Distance(start, b)
    ensures a == b
  {
    ValBound(start);
    ValBound(a);
    ValBound(b);
    ValInjective(a, b);
  }

  /** A scan has only one outcome. */
  lemma ScanUnique(start: Address, end: Address, used: set<Address>, r: Option<Address>, r': Option<Address>)
    requires IsScan(start, end, used, r) && IsScan(start, end, used, r')
    ensures r == r'
  {
    if r.Some? { DistanceBound(start, r.value); }
    if r'.Some? { DistanceBound(start, r'.value); }
    if r.Some? && r'.Some? { DistanceInjective(start, r.value, r'.value); }
  }

  predicate InPool(start: Address, end: Address, x: Address) {
    |x| == |start| && Val(start) <= Val(x) <= Val(end)
  }

  ghost predicate PoolHasFree(start: Address, end: Address, used: set<Address>) {
    exists x :: InPool(start, end, x) && x !in used
  }

  /** A free address of the pool is reached before any address outside it, and in ascending order. */
  lemma FreeIsNear(start: Address, end: Address, used: set<Address>, ip: Address, x: Address)
    requires |start| == |end| && IsScan(start, end, used, Some(ip))
    requires InPool(start, end, x) && x !in used
    ensures InPool(start, end, ip) && Val(ip) <= Val(x)
  {
    assert Reaches(start, end, x);
    ValBound(start);
    ValBound(ip);
  }

  /**
   Every pool: if an address of the pool is free, the scan returns the lowest one; and what
   it returns lies in the pool only then.
   */
  lemma ScanFindsLowestIff(start: Address, end: Address, used: set<Address>, r: Option<Address>)
    requires |start| == |end| && IsScan(start, end, used, r)
    ensures r.Some? && InPool(start, end, r.value) <==> PoolHasFree(start, end, used)
    ensures PoolHasFree(start, end, used) ==>
      r.value !in used && forall x :: InPool(start, end, x) && Val(x) < Val(r.value) ==> x in used
  {
    if r.None? {
      forall x | InPool(start, end, x) ensures x in used {
        DistanceBound(start, x);
        assert Reaches(start, end, x);
      }
    } else {
      forall x | InPool(start, end, x) && x !in used ensures InPool(start, end, r.value) && Val(r.value) <= Val(x) {
        FreeIsNear(start, end, used, r.value, x);
      }
    }
  }

  /** The address that follows the last one. */
  predicate First(a: Address) {
    Val(a) == 0
  }

  /**
   No address is found exactly when none that the scan reaches is free: none of the pool, or
   none at all for a pool that ends at the last address.
   */
  lemma ScanFailsIff(start: Address, end: Address, used: set<Address>, r: Option<Address>)
    requires |start| == |end| && IsScan(start, end, used, r)
    ensures r.None? <==> if Last(end) then !SomeFree(|start|, used) else !PoolHasFree(start, end, used)
  {
    if r.None? {
      forall x | Reaches(start, end, x) ensures x in used {
        DistanceBound(start, x);
      }
    }
  }

  /** A full pool that ends at the last address: the scan wraps and returns an address outside the pool. */
  lemma WrappedScanLeavesPool(start: Address, end: Address, used: set<Address>, r: Option<Address>)
    requires |start| == |end| && Last(end) && SomeFree(|start|, used) && IsScan(start, end, used, r)
    ensures r.Some?
    ensures !PoolHasFree(start, end, used) <==> Val(r.value) < Val(start)
  {
    ScanFailsIff(start, end, used, r);
    ScanFindsLowestIff(start, end, used, r);
    ValBound(r.value);
  }

  lemma {:induction false} AllOnesIsLast(a: Address)
    requires forall i :: 0 <= i < |a| ==> a[i] == 255
    ensures Last(a)
  {
    if a != [] {
      AllOnesIsLast(a[..|a| - 1]);
    }
  }

  lemma {:induction false} AllZerosIsFirst(a: Address)
    requires forall i :: 0 <= i < |a| ==> a[i] == 0
    ensures First(a)
  {
    if a != [] {
      AllZerosIsFirst(a[..|a| - 1]);
    }
  }

  /** Four bytes: with the pool 255.255.255.255 taken, 0.0.0.0 is handed out. */
  lemma BroadcastPoolYieldsZero()
    ensures
      var last: Address, zero: Address := [255, 255, 255, 255], [0, 0, 0, 0];
      IsScan(last, last, {last}, Some(zero)) && !InPool(last, last, zero)
  {
    var last: Address, zero: Address := [255, 255, 255, 255], [0, 0, 0, 0];
    AllOnesIsLast(last);
    AllZerosIsFirst(zero);
    assert last[0] != zero[0];
    LastThenFirst(last, zero);
  }

  lemma LastThenFirst(last: Address, zero: Address)
    requires |last| == |zero| && Last(last) && First(zero) && last != zero
    ensures IsScan(last, last, {last}, Some(zero)) && !InPool(last, last, zero)
  {
    if Val(last) == Val(zero) { ValInjective(last, zero); }
    forall x | Reaches(last, last, x) && Distance(last, x) < 1 ensures x in {last} {
      DistanceBound(last, x);
    }
  }

  // ----------------------------------------------------------------------------
  // Whether the scan ends
  // ----------------------------------------------------------------------------

  /** The address that the loop looks at after n increments. */
  function Turn(start: Address, n: nat): (r: Address)
    ensures |r| == |start|
  {
    if n == 0 then start else Incremented(Turn(start, n - 1))
  }

  /** The loop does not stop at this turn: the address is not behind the end, and it is used. */
  ghost predicate GoesOn(start: Address, end: Address, used: set<Address>, n: nat) {
    Val(Turn(start, n)) <= Val(end) && Turn(start, n) in used
  }

  lemma {:induction false} TurnAt(start: Address, n: nat)
    requires n < Space(|start|)
    ensures Distance(start, Turn(start, n)) == n
  {
    if n > 0 {
      TurnAt(start, n - 1);
      IncrementAddsOne(Turn(start, n - 1));
      ValBound(start);
      ValBound(Turn(start, n - 1));
    }
  }

  /** Every address of the space has its turn. */
  lemma TurnOf(start: Address, x: Address)
    requires |x| == |start|
    ensures 0 <= Distance(start, x) && Turn(start, Distance(start, x)) == x
  {
    DistanceBound(start, x);
    TurnAt(start, Distance(start, x));
    DistanceInjective(start, Turn(start, Distance(start, x)), x);
  }

  /** The loop goes on for ever exactly when the pool ends at the last address and no address at all is free. */
  lemma ScanNeverEndsIff(start: Address, end: Address, used: set<Address>)
    requires |start| == |end|
    ensures (forall n :: GoesOn(start, end, used, n)) <==> Last(end) && !SomeFree(|start|, used)
  {
    if Last(end) && !SomeFree(|start|, used) {
      forall n ensures GoesOn(start, end, used, n) {
        ValBound(Turn(start, n));
      }
    } else if Last(end) {
      var x :| |x| == |start| && x !in used;
      TurnOf(start, x);
      assert !GoesOn(start, end, used, Distance(start, x));
    } else {
      PassesEnd(start, end, used);
    }
  }

  lemma PassesEnd(start: Address, end: Address, used: set<Address>)
    requires |start| == |end| && !Last(end)
    ensures exists n :: !GoesOn(start, end, used, n)
  {
    if Val(start) > Val(end) {
      assert !GoesOn(start, end, used, 0);
    } else {
      var x := Incremented(end);
      IncrementAddsOne(end);
      TurnOf(start, x);
      assert !GoesOn(start, end, used, Distance(start, x));
    }
  }

  /** Where a scan stands: every reachable address it has passed is used. */
  ghost predicate Scanned(start: Address, end: Address, used: set<Address>, target: Address, ip: Address) {
    && |ip| == |start| == |end| == |target|
    && (if Last(end) then target !in used && Distance(start, ip) <= Distance(start, target) else Val(start) <= Val(ip))
    && AllUsedBefore(start, end, used, Distance(start, ip))
  }

  ghost function Remaining(start: Address, end: Address, target: Address, ip: Address): int {
    if Last(end) then Distance(start, target) - Distance(start, ip) else Val(end) + 1 - Val(ip)
  }

  lemma ScanStarts(start: Address, end: Address, used: set<Address>, target: Address)
    requires |start| == |end| == |target| && (Last(end) ==> target !in used)
    ensures Scanned(start, end, used, target, start)
  {
    DistanceBound(start, target);
    forall x | Reaches(start, end, x) ensures Distance(start, x) >= Distance(start, start) {
      DistanceBound(start, x);
    }
  }

  /** One more increment: no closer to the start, closer to the end of the scan. */
  lemma ScanContinues(start: Address, end: Address, used: set<Address>, target: Address, ip: Address)
    requires Scanned(start, end, used, target, ip) && ip in used && Val(ip) <= Val(end)
    ensures Scanned(start, end, used, target, Incremented(ip))
    ensures 0 <= Remaining(start, end, target, Incremented(ip)) < Remaining(start, end, target, ip)
  {
    IncrementAddsOne(ip);
    ValBound(start);
    ValBound(end);
    if Last(end) {
      ValBound(target);
      if Distance(start, ip) == Distance(start, target) { DistanceInjective(start, ip, target); }
    }
    assert Distance(start, Incremented(ip)) == Distance(start, ip) + 1;
    forall x | Reaches(start, end, x) && Distance(start, x) < Distance(start, Incremented(ip)) ensures x in used {
      if Distance(start, x) == Distance(start, ip) { DistanceInjective(start, x, ip); }
    }
  }

  lemma ScanFails(start: Address, end: Address, used: set<Address>, target: Address, ip: Address)
    requires Scanned(start, end, used, target, ip) && Val(ip) > Val(end)
    ensures IsScan(start, end, used, None)
  {
    ValBound(ip);
    forall x | Reaches(start, end, x) ensures x in used {
      assert Distance(start, x) < Distance(start, ip);
    }
  }

  lemma ScanSucceeds(start: Address, end: Address, used: set<Address>, target: Address, ip: Address)
    requires Scanned(start, end, used, target, ip) && Val(ip) <= Val(end) && ip !in used
    ensures IsScan(start, end, used, Some(ip))
  {
  }

  /**
   The scan of both allocators. It ends unless the pool ends at the last address and not
   one address is free.
   */
  method Scan(start: Address, end: Address, used: set<Address>) returns (r: Option<Address>)
    requires |start| == |end|
    requires Last(end) ==> SomeFree(|start|, used)
    ensures IsScan(start, end, used, r)
  {
    var ip := new byte[|start|](i requires 0 <= i < |start| => start[i]);
    assert ip[..] == start;
    ghost var target: Address := if Last(end) then var x :| |x| == |start| && x !in used; x else end;
    ScanStarts(start, end, used, target);
    var after := After(start, end);
    while !after
      invariant fresh(ip) && Scanned(start, end, used, target, ip[..])
      invariant after <==> Val(ip[..]) > Val(end)
      decreases Remaining(start, end, target, ip[..])
    {
      var candidate := ip[..];
      if candidate !in used {
        ScanSucceeds(start, end, used, target, candidate);
        return Some(candidate);
      }
      ScanContinues(start, end, used, target, candidate);
      Increment(ip);
      after := After(ip[..], end);
    }
    ScanFails(start, end, used, target, ip[..]);
    return None;
  }
}
