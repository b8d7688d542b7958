/**
 The DHCPv6 lease table, keyed by address, and runs of packet handlers over it. Each
 handler touches the table in single critical sections.
 */
module Dhcp6 {
  import opened Wrappers
  import opened Addresses

  type IPv6 = a: Address | |a| == 16 witness [0, 0, 0, 0, 0, 0, 0, 0, 0, 0, 0, 0, 0, 0, 0, 0]

  datatype Lease = Lease(
    address: IPv6, duid: string, hostname: string, profileId: string, expiresAt: int, isStatic: bool)

  type Table = map<IPv6, Lease>

  datatype Pool = Pool(start: Option<IPv6>, end: Option<IPv6>)

  /** A static assignment or a persisted lease; skipped unless its address parses and it is live. */
  datatype Entry = Entry(
    address: Option<IPv6>, duid: string, hostname: string, profileId: string, expiresAt: int, skipped: bool)

  ghost predicate Has(leases: Table, duid: string) {
    exists a :: HeldAt(leases, duid, a)
  }

  predicate HeldAt(leases: Table, duid: string, a: IPv6) {
    a in leases && leases[a].duid == duid
  }

  /** Each lease is stored under its own address. */
  ghost predicate OwnKeys(leases: Table) {
    forall a :: a in leases ==> leases[a].address == a
  }

  ghost predicate AtMostOne(leases: Table, duid: string) {
    forall a, b :: HeldAt(leases, duid, a) && HeldAt(leases, duid, b) ==> a == b
  }

  /** Each lease is stored under its own address, and a client has at most one. */
  ghost predicate Inv(leases: Table) {
    OwnKeys(leases) && forall d :: AtMostOne(leases, d)
  }

  // ----------------------------------------------------------------------------
  // What the critical sections may do; the map is walked in any order
  // ----------------------------------------------------------------------------

  function Used(leases: Table): set<Address> {
    set a | a in leases :: leases[a].address
  }

  /** The address of some lease of the client, else the first free address of the pool. */
  ghost predicate MayAllocate(leases: Table, duid: string, pool: Pool, r: Option<IPv6>) {
    if Has(leases, duid) then r.Some? && exists a :: HeldAt(leases, duid, a) && leases[a].address == r.value
    else if pool.start.None? || pool.end.None? then r.None?
    else IsScan(pool.start.value, pool.end.value, Used(leases), r)
  }

  ghost function Allocated(leases: Table, duid: string, r: Option<IPv6>, until: int): Table {
    if Has(leases, duid) || r.None? then leases
    else leases[r.value := Lease(r.value, duid, "", "", until, false)]
  }

  predicate Dynamic(leases: Table, duid: string, a: IPv6) {
    HeldAt(leases, duid, a) && !leases[a].isStatic
  }

  /** Some lease of the client that is not static lives until the given time. */
  ghost predicate MayExtend(leases: Table, duid: string, until: int, leases': Table) {
    (leases' == leases && forall a :: !Dynamic(leases, duid, a))
    || exists a :: Dynamic(leases, duid, a) && leases' == leases[a := leases[a].(expiresAt := until)]
  }

  /** Some lease of the client that is not static is deleted. */
  ghost predicate MayRelease(leases: Table, duid: string, leases': Table) {
    (leases' == leases && forall a :: !Dynamic(leases, duid, a))
    || exists a :: Dynamic(leases, duid, a) && leases' == leases - {a}
  }

  function NotStatic(leases: Table): Table {
    map a | a in leases && !leases[a].isStatic :: leases[a]
  }

  function EntryLease(e: Entry, isStatic: bool): Lease
    requires e.address.Some?
  {
    Lease(e.address.value, e.duid, e.hostname, e.profileId, e.expiresAt, isStatic)
  }

  function Loaded(leases: Table, entries: seq<Entry>, isStatic: bool): Table {
    if entries == [] then leases
    else
      var e, before := entries[|entries| - 1], Loaded(leases, entries[..|entries| - 1], isStatic);
      if e.address.None? || e.skipped then before else before[e.address.value := EntryLease(e, isStatic)]
  }

  function Reconfigured(leases: Table, assignments: seq<Entry>): Table {
    Loaded(NotStatic(leases), assignments, true)
  }

  // ----------------------------------------------------------------------------
  // The server
  // ----------------------------------------------------------------------------

  class Server {
    var leases: Table

    constructor ()
      ensures leases == map[]
    {
      leases := map[];
    }

    method Find(duid: string, dynamicOnly: bool) returns (r: Option<IPv6>)
      ensures r.Some? ==> HeldAt(leases, duid, r.value) && (dynamicOnly ==> !leases[r.value].isStatic)
      ensures r.None? ==> forall a :: !(if dynamicOnly then Dynamic(leases, duid, a) else HeldAt(leases, duid, a))
    {
      var rest := leases.Keys;
      while rest != {}
        invariant rest <= leases.Keys
        invariant forall a :: a in leases && a !in rest ==>
          leases[a].duid != duid || (dynamicOnly && leases[a].isStatic)
        decreases rest
      {
        var a :| a in rest;
        if leases[a].duid == duid && !(dynamicOnly && leases[a].isStatic) {
          return Some(a);
        }
        rest := rest - {a};
      }
      return None;
    }

    method InUse() returns (used: set<Address>)
      ensures used == Used(leases)
    {
      used := {};
      var rest := leases.Keys;
      while rest != {}
        invariant rest <= leases.Keys
        invariant forall a :: a in leases && a !in rest ==> leases[a].address in used
        invariant used <= Used(leases)
        decreases rest
      {
        var a :| a in rest;
        used := used + {leases[a].address};
        rest := rest - {a};
      }
    }

    /** Solicit, Request, and the second section of Renew. */
    method Allocate(duid: string, pool: Pool, until: int) returns (r: Option<IPv6>)
      requires pool.end.Some? && Last(pool.end.value) ==> SomeFree(16, Used(leases))
      modifies this
      ensures MayAllocate(old(leases), duid, pool, r)
      ensures leases == Allocated(old(leases), duid, r, until)
    {
      var found := Find(duid, false);
      if found.Some? {
        return Some(leases[found.value].address);
      }
      if pool.start.None? || pool.end.None? {
        return None;
      }
      var used := InUse();
      var ip := Scan(pool.start.value, pool.end.value, used);
      if ip.None? {
        return None;
      }
      r := Some(ip.value);
      leases := leases[ip.value := Lease(ip.value, duid, "", "", until, false)];
    }

    /** The first section of Renew. */
    method Extend(duid: string, until: int)
      modifies this
      ensures MayExtend(old(leases), duid, until, leases)
    {
      var found := Find(duid, true);
      if found.Some? {
        assert Dynamic(leases, duid, found.value);
        leases := leases[found.value := leases[found.value].(expiresAt := until)];
      }
    }

    method Release(duid: string) returns (released: Option<IPv6>)
      modifies this
      ensures MayRelease(old(leases), duid, leases)
      ensures released.Some? ==> Dynamic(old(leases), duid, released.value) && released.value !in leases
      ensures released.None? ==> leases == old(leases)
    {
      released := Find(duid, true);
      if released.Some? {
        assert Dynamic(leases, duid, released.value);
        leases := leases - {released.value};
      }
    }

    method UpdateConfig(assignments: seq<Entry>)
      modifies this
      ensures leases == Reconfigured(old(leases), assignments)
    {
      var rest := leases.Keys;
      while rest != {}
        invariant rest <= leases.Keys && leases.Keys <= old(leases).Keys
        invariant forall a :: a in leases ==> leases[a] == old(leases)[a]
        invariant forall a :: a in old(leases) && a !in rest ==> (a in leases <==> !old(leases)[a].isStatic)
        decreases rest
      {
        var a :| a in rest;
        if leases[a].isStatic { leases := leases - {a}; }
        rest := rest - {a};
      }
      assert leases == NotStatic(old(leases));
      Load(assignments, true);
    }

    method LoadLeases(entries: seq<Entry>)
      modifies this
      ensures leases == Loaded(old(leases), entries, false)
    {
      Load(entries, false);
    }

    method Load(entries: seq<Entry>, isStatic: bool)
      modifies this
      ensures leases == Loaded(old(leases), entries, isStatic)
    {
      var i := 0;
      while i < |entries|
        invariant 0 <= i <= |entries|
        invariant leases == Loaded(old(leases), entries[..i], isStatic)
      {
        var e := entries[i];
        assert entries[..i + 1][..i] == entries[..i];
        if e.address.Some? && !e.skipped {
          leases := leases[e.address.value := EntryLease(e, isStatic)];
        }
        i := i + 1;
      }
      assert entries[..i] == entries;
    }
  }

  // ----------------------------------------------------------------------------
  // One section at a time
  // ----------------------------------------------------------------------------

  /** Allocation touches no other client, and gives no client a second lease. */
  lemma AllocateKeepsInv(leases: Table, duid: string, pool: Pool, r: Option<IPv6>, until: int)
    requires OwnKeys(leases) && MayAllocate(leases, duid, pool, r)
    ensures OwnKeys(Allocated(leases, duid, r, until))
    ensures r.Some? ==> HeldAt(Allocated(leases, duid, r, until), duid, r.value)
    ensures forall d, a :: HeldAt(leases, d, a) ==> HeldAt(Allocated(leases, duid, r, until), d, a)
    ensures forall d, a :: d != duid && HeldAt(Allocated(leases, duid, r, until), d, a) ==> HeldAt(leases, d, a)
    ensures forall d :: AtMostOne(leases, d) ==> AtMostOne(Allocated(leases, duid, r, until), d)
  {
    if !Has(leases, duid) && r.Some? {
      assert forall a :: a in leases ==> leases[a].address in Used(leases);
      assert r.value !in leases;
      assert forall b :: b in leases ==> HeldAt(leases, leases[b].duid, b) && leases[b].duid != duid;
    }
  }

  /** The search does not depend on the order of the map walk exactly while the client has at most one lease. */
  lemma AllocateIsDeterminedIff(leases: Table, duid: string, pool: Pool)
    requires OwnKeys(leases)
    ensures (forall r, r' :: MayAllocate(leases, duid, pool, r) && MayAllocate(leases, duid, pool, r') ==> r == r')
      <==> AtMostOne(leases, duid)
  {
    if AtMostOne(leases, duid) {
      forall r, r' | MayAllocate(leases, duid, pool, r) && MayAllocate(leases, duid, pool, r') ensures r == r' {
        if !Has(leases, duid) && pool.start.Some? && pool.end.Some? {
          ScanUnique(pool.start.value, pool.end.value, Used(leases), r, r');
        }
      }
    } else {
      var a, b :| HeldAt(leases, duid, a) && HeldAt(leases, duid, b) && a != b;
      assert MayAllocate(leases, duid, pool, Some(a)) && MayAllocate(leases, duid, pool, Some(b));
    }
  }

  /** Extending a lease changes nobody's address, and releasing one only its client's. */
  lemma ExtendKeepsInv(leases: Table, duid: string, until: int, leases': Table)
    requires OwnKeys(leases) && MayExtend(leases, duid, until, leases')
    ensures OwnKeys(leases')
    ensures forall d, a :: HeldAt(leases', d, a) <==> HeldAt(leases, d, a)
  {
  }

  lemma ReleaseKeepsInv(leases: Table, duid: string, leases': Table)
    requires OwnKeys(leases) && MayRelease(leases, duid, leases')
    ensures OwnKeys(leases')
    ensures forall d, a :: HeldAt(leases', d, a) ==> HeldAt(leases, d, a)
    ensures forall d, a :: d != duid && HeldAt(leases, d, a) ==> HeldAt(leases', d, a)
    ensures AtMostOne(leases, duid) ==> forall a :: HeldAt(leases', duid, a) ==> leases'[a].isStatic
  {
    if leases' == leases {
      assert forall a :: HeldAt(leases, duid, a) ==> Dynamic(leases, duid, a) || leases[a].isStatic;
    } else {
      var x :| Dynamic(leases, duid, x) && leases' == leases - {x};
      assert HeldAt(leases, duid, x);
      assert forall a :: HeldAt(leases', duid, a) ==> HeldAt(leases, duid, a) && a != x;
    }
  }

  function Placed(entries: seq<Entry>, isStatic: bool): Table {
    Loaded(map[], entries, isStatic)
  }

  /** The placed leases give a client at most one address, and no other than a kept lease of the client. */
  ghost predicate CompatibleFor(kept: Table, placed: Table, duid: string) {
    && (forall a, b :: HeldAt(placed, duid, a) && HeldAt(placed, duid, b) ==> a == b)
    && (forall a, b :: HeldAt(kept, duid, a) && a !in placed && HeldAt(placed, duid, b) ==> a == b)
  }

  /** They do so for every client. */
  ghost predicate Compatible(kept: Table, placed: Table) {
    forall d :: CompatibleFor(kept, placed, d)
  }

  lemma {:induction false} LoadedIsKeptPlusPlaced(leases: Table, entries: seq<Entry>, isStatic: bool)
    ensures Loaded(leases, entries, isStatic) == leases + Placed(entries, isStatic)
    ensures forall a :: a in Placed(entries, isStatic) ==> Placed(entries, isStatic)[a].address == a
  {
    if entries == [] {
      assert leases + map[] == leases;
    } else {
      LoadedIsKeptPlusPlaced(leases, entries[..|entries| - 1], isStatic);
    }
  }

  lemma MergeIff(kept: Table, placed: Table, duid: string)
    requires AtMostOne(kept, duid)
    ensures AtMostOne(kept + placed, duid) <==> CompatibleFor(kept, placed, duid)
  {
    var both := kept + placed;
    assert forall a :: HeldAt(both, duid, a) <==> HeldAt(placed, duid, a) || (HeldAt(kept, duid, a) && a !in placed);
  }

  /** A reload leaves a client at most one lease exactly when its entries are compatible with what stays of it. */
  lemma ReloadKeepsOneIff(leases: Table, entries: seq<Entry>, duid: string)
    requires AtMostOne(leases, duid)
    ensures AtMostOne(Loaded(leases, entries, false), duid) <==> CompatibleFor(leases, Placed(entries, false), duid)
    ensures AtMostOne(Reconfigured(leases, entries), duid) <==>
      CompatibleFor(NotStatic(leases), Placed(entries, true), duid)
  {
    LoadedIsKeptPlusPlaced(leases, entries, false);
    MergeIff(leases, Placed(entries, false), duid);
    LoadedIsKeptPlusPlaced(NotStatic(leases), entries, true);
    assert forall a :: HeldAt(NotStatic(leases), duid, a) ==> HeldAt(leases, duid, a);
    MergeIff(NotStatic(leases), Placed(entries, true), duid);
  }

  lemma ReloadKeepsOwnKeys(leases: Table, entries: seq<Entry>)
    requires OwnKeys(leases)
    ensures OwnKeys(Loaded(leases, entries, false)) && OwnKeys(Reconfigured(leases, entries))
  {
    LoadedIsKeptPlusPlaced(leases, entries, false);
    LoadedIsKeptPlusPlaced(NotStatic(leases), entries, true);
  }

  /** A reload keeps the invariant exactly when its entries are compatible with what stays. */
  lemma ReloadKeepsInvIff(leases: Table, entries: seq<Entry>)
    requires Inv(leases)
    ensures Inv(Loaded(leases, entries, false)) <==> Compatible(leases, Placed(entries, false))
    ensures Inv(Reconfigured(leases, entries)) <==> Compatible(NotStatic(leases), Placed(entries, true))
  {
    ReloadKeepsOwnKeys(leases, entries);
    forall d
      ensures AtMostOne(Loaded(leases, entries, false), d) <==> CompatibleFor(leases, Placed(entries, false), d)
      ensures AtMostOne(Reconfigured(leases, entries), d) <==>
        CompatibleFor(NotStatic(leases), Placed(entries, true), d)
    {
      ReloadKeepsOneIff(leases, entries, d);
    }
  }

  // ----------------------------------------------------------------------------
  // Runs
  // ----------------------------------------------------------------------------

  datatype Event = Assigned(duid: string, a: IPv6) | Freed(duid: string) | Reloaded(taken: set<IPv6>)

  datatype System = System(leases: Table, trace: seq<Event>)

  /** The outcome of a section is part of the step; an outcome the section cannot have makes it no step. */
  datatype Step =
    | Ask(duid: string, pool: Pool, until: int, r: Option<IPv6>)
    | Extend(duid: string, until: int, leases': Table)
    | Release(duid: string, leases': Table)
    | UpdateConfig(assignments: seq<Entry>)
    | LoadLeases(entries: seq<Entry>)

  ghost predicate Enabled(leases: Table, step: Step) {
    match step
    case Ask(duid, pool, until, r) => MayAllocate(leases, duid, pool, r)
    case Extend(duid, until, leases') => MayExtend(leases, duid, until, leases')
    case Release(duid, leases') => MayRelease(leases, duid, leases')
    case UpdateConfig(_) => true
    case LoadLeases(_) => true
  }

  predicate IsReload(step: Step) {
    step.UpdateConfig? || step.LoadLeases?
  }

  /** The table that a configuration change or a leadership change leaves. */
  function Reloading(leases: Table, step: Step): Table
    requires IsReload(step)
  {
    if step.UpdateConfig? then Reconfigured(leases, step.assignments) else Loaded(leases, step.entries, false)
  }

  /** The addresses that are no longer their clients' after. */
  function Taken(before: Table, after: Table): set<IPv6> {
    set a | a in before && !HeldAt(after, before[a].duid, a)
  }

  function Reload(s: System, after: Table): System {
    System(after, s.trace + [Reloaded(Taken(s.leases, after))])
  }

  ghost function Do(s: System, step: Step): System {
    if !Enabled(s.leases, step) then s
    else
      match step
      case Ask(duid, pool, until, r) =>
        System(Allocated(s.leases, duid, r, until), if r.Some? then s.trace + [Assigned(duid, r.value)] else s.trace)
      case Extend(duid, until, leases') => s.(leases := leases')
      case Release(duid, leases') => System(leases', s.trace + [Freed(duid)])
      case UpdateConfig(_) => Reload(s, Reloading(s.leases, step))
      case LoadLeases(_) => Reload(s, Reloading(s.leases, step))
  }

  ghost function After(steps: seq<Step>): System {
    if steps == [] then System(map[], []) else Do(After(steps[..|steps| - 1]), steps[|steps| - 1])
  }

  function ToldNext(told: set<IPv6>, e: Event, duid: string): set<IPv6> {
    match e
    case Assigned(d, a) => if d == duid then told + {a} else told
    case Freed(d) => if d == duid then {} else told
    case Reloaded(taken) => told - taken
  }

  /** The addresses a client was told since its last release, without those that a reload took since. */
  function Told(trace: seq<Event>, duid: string): set<IPv6> {
    if trace == [] then {} else ToldNext(Told(trace[..|trace| - 1], duid), trace[|trace| - 1], duid)
  }

  lemma ToldSnoc(trace: seq<Event>, e: Event, duid: string)
    ensures Told(trace + [e], duid) == ToldNext(Told(trace, duid), e, duid)
  {
    assert (trace + [e])[..|trace|] == trace;
  }

  /** Every address a client was told is its lease. */
  ghost predicate Steady(s: System) {
    OwnKeys(s.leases) && forall d, a :: a in Told(s.trace, d) ==> HeldAt(s.leases, d, a)
  }

  lemma ReloadIsSteady(s: System, step: Step)
    requires Steady(s) && IsReload(step)
    ensures Steady(Do(s, step))
  {
    var after := Reloading(s.leases, step);
    var taken := Taken(s.leases, after);
    ReloadKeepsOwnKeys(s.leases, if step.UpdateConfig? then step.assignments else step.entries);
    forall d, a | a in Told(s.trace + [Reloaded(taken)], d) ensures HeldAt(after, d, a) {
      ToldSnoc(s.trace, Reloaded(taken), d);
      assert HeldAt(s.leases, d, a) && a !in taken;
    }
  }

  lemma AskIsSteady(s: System, step: Step)
    requires Steady(s) && step.Ask? && Enabled(s.leases, step)
    ensures Steady(Do(s, step))
  {
    var s' := Do(s, step);
    AllocateKeepsInv(s.leases, step.duid, step.pool, step.r, step.until);
    forall d, a | a in Told(s'.trace, d) ensures HeldAt(s'.leases, d, a) {
      if step.r.Some? { ToldSnoc(s.trace, Assigned(step.duid, step.r.value), d); }
      assert a in Told(s.trace, d) ==> HeldAt(s.leases, d, a);
    }
  }

  lemma ReleaseIsSteady(s: System, step: Step)
    requires Steady(s) && step.Release? && Enabled(s.leases, step)
    ensures Steady(Do(s, step))
  {
    var s' := Do(s, step);
    ReleaseKeepsInv(s.leases, step.duid, step.leases');
    forall d, a | a in Told(s'.trace, d) ensures HeldAt(s'.leases, d, a) { ToldSnoc(s.trace, Freed(step.duid), d); }
  }

  lemma StepKeepsSteady(s: System, step: Step)
    requires Steady(s)
    ensures Steady(Do(s, step))
  {
    if Enabled(s.leases, step) {
      match step
      case Ask(_, _, _, _) => AskIsSteady(s, step);
      case Extend(duid, until, leases') => ExtendKeepsInv(s.leases, duid, until, leases');
      case Release(_, _) => ReleaseIsSteady(s, step);
      case UpdateConfig(_) => ReloadIsSteady(s, step);
      case LoadLeases(_) => ReloadIsSteady(s, step);
    }
  }

  lemma {:induction false} RunIsSteady(steps: seq<Step>)
    ensures Steady(After(steps))
  {
    if steps != [] {
      RunIsSteady(steps[..|steps| - 1]);
      StepKeepsSteady(After(steps[..|steps| - 1]), steps[|steps| - 1]);
    }
  }

  /**
   After every run, whatever its reloads do: an address told to a client is its lease, and
   nobody else was told it, until the client releases or a reload takes that address from it.
   */
  lemma ToldAddressIsHeld(steps: seq<Step>, duid: string, other: string, a: IPv6)
    requires a in Told(After(steps).trace, duid)
    ensures HeldAt(After(steps).leases, duid, a)
    ensures other != duid ==> a !in Told(After(steps).trace, other)
  {
    RunIsSteady(steps);
  }

  // ----------------------------------------------------------------------------
  // Whether a client is told one address
  // ----------------------------------------------------------------------------

  /** The entries of a reload give the client no second lease. */
  ghost predicate Fits(leases: Table, step: Step, duid: string) {
    match step
    case UpdateConfig(assignments) => CompatibleFor(NotStatic(leases), Placed(assignments, true), duid)
    case LoadLeases(entries) => CompatibleFor(leases, Placed(entries, false), duid)
    case _ => true
  }

  /** No reload of the run gives this client a second lease; what reloads do to others does not matter. */
  ghost predicate Fitting(steps: seq<Step>, duid: string) {
    steps == []
    || (Fitting(steps[..|steps| - 1], duid) && Fits(After(steps[..|steps| - 1]).leases, steps[|steps| - 1], duid))
  }

  lemma StepKeepsOne(s: System, step: Step, duid: string)
    requires OwnKeys(s.leases) && AtMostOne(s.leases, duid) && Fits(s.leases, step, duid)
    ensures AtMostOne(Do(s, step).leases, duid)
  {
    if Enabled(s.leases, step) {
      match step
      case Ask(d, pool, until, r) => AllocateKeepsInv(s.leases, d, pool, r, until);
      case Extend(d, until, leases') => ExtendKeepsInv(s.leases, d, until, leases');
      case Release(d, leases') => ReleaseKeepsInv(s.leases, d, leases');
      case UpdateConfig(assignments) => ReloadKeepsOneIff(s.leases, assignments, duid);
      case LoadLeases(entries) => ReloadKeepsOneIff(s.leases, entries, duid);
    }
  }

  lemma {:induction false} RunKeepsOne(steps: seq<Step>, duid: string)
    requires Fitting(steps, duid)
    ensures AtMostOne(After(steps).leases, duid)
  {
    if steps != [] {
      RunKeepsOne(steps[..|steps| - 1], duid);
      RunIsSteady(steps[..|steps| - 1]);
      StepKeepsOne(After(steps[..|steps| - 1]), steps[|steps| - 1], duid);
    }
  }

  /** A client that has at most one lease, however many it had before, was told one address only. */
  lemma OneLeaseOneAddress(steps: seq<Step>, duid: string, a: IPv6, b: IPv6)
    requires AtMostOne(After(steps).leases, duid)
    requires a in Told(After(steps).trace, duid) && b in Told(After(steps).trace, duid)
    ensures a == b
  {
    RunIsSteady(steps);
  }

  /**
   A client that no reload gives a second lease is told one address until it releases or a
   reload takes that address from it.
   */
  lemma OneAddressUntilRelease(steps: seq<Step>, duid: string, a: IPv6, b: IPv6)
    requires Fitting(steps, duid)
    requires a in Told(After(steps).trace, duid) && b in Told(After(steps).trace, duid)
    ensures a == b
  {
    RunKeepsOne(steps, duid);
    OneLeaseOneAddress(steps, duid, a, b);
  }

  lemma AfterSnoc(steps: seq<Step>, step: Step)
    ensures After(steps + [step]) == Do(After(steps), step)
  {
    assert (steps + [step])[..|steps|] == steps;
  }

  /** The only client, asking a pool of one address. */
  lemma FirstAsk(duid: string, a: IPv6, until: int)
    ensures After([] + [Ask(duid, Pool(Some(a), Some(a)), until, Some(a))]) ==
      System(map[a := Lease(a, duid, "", "", until, false)], [] + [Assigned(duid, a)])
  {
    forall x | Reaches(a, a, x) ensures Distance(a, x) >= Distance(a, a) { DistanceBound(a, x); }
    assert IsScan(a, a, {}, Some(a));
    AfterSnoc([], Ask(duid, Pool(Some(a), Some(a)), until, Some(a)));
  }

  lemma Reserve(leases: Table, duid: string, a: IPv6, b: IPv6)
    requires a != b && leases.Keys == {a} && Dynamic(leases, duid, a)
    ensures var after := Reconfigured(leases, [Entry(Some(b), duid, "", "", 0, false)]);
      HeldAt(after, duid, a) && HeldAt(after, duid, b) && after[b].address == b && Taken(leases, after) == {}
  {
    assert NotStatic(leases) == leases;
    var entries := [Entry(Some(b), duid, "", "", 0, false)];
    assert Loaded(leases, entries[..0], true) == leases;
    var after := Reconfigured(leases, entries);
    assert after == leases[b := EntryLease(entries[0], true)];
    assert forall x :: x in leases ==> x == a && HeldAt(after, duid, x);
  }

  /** Reserving another address for a client that has one gives it two, and it can be told both. */
  lemma ReservationGivesTwo(duid: string, a: IPv6, b: IPv6, until: int) returns (steps: seq<Step>)
    requires a != b
    ensures {a, b} <= Told(After(steps).trace, duid)
  {
    var pool := Pool(Some(a), Some(a));
    var ask, again := Ask(duid, pool, until, Some(a)), Ask(duid, pool, until, Some(b));
    var reserve := UpdateConfig([Entry(Some(b), duid, "", "", 0, false)]);
    FirstAsk(duid, a, until);
    var s := After([] + [ask]);
    Reserve(s.leases, duid, a, b);
    AfterSnoc([] + [ask], reserve);
    var s' := After([] + [ask] + [reserve]);
    assert MayAllocate(s'.leases, duid, pool, Some(b));
    AfterSnoc([] + [ask] + [reserve], again);
    steps := [] + [ask] + [reserve] + [again];
    ToldSnoc([], Assigned(duid, a), duid);
    ToldSnoc(s.trace, Reloaded({}), duid);
    ToldSnoc(s'.trace, Assigned(duid, b), duid);
  }

  // ----------------------------------------------------------------------------
  // Which reloads take an address
  // ----------------------------------------------------------------------------

  /** Some entry that counts has the address. */
  predicate Names(entries: seq<Entry>, a: IPv6) {
    exists i :: 0 <= i < |entries| && !entries[i].skipped && entries[i].address == Some(a)
  }

  lemma {:induction false} PlacedIffNamed(entries: seq<Entry>, isStatic: bool, a: IPv6)
    ensures a in Placed(entries, isStatic) <==> Names(entries, a)
  {
    if entries != [] {
      var before := entries[..|entries| - 1];
      PlacedIffNamed(before, isStatic, a);
      assert forall i :: 0 <= i < |before| ==> before[i] == entries[i];
    }
  }

  /**
   A new configuration takes an address from its client exactly when an assignment of that
   address names somebody else, or the lease was static and no assignment has the address.
   */
  lemma ReconfigureTakesIff(leases: Table, assignments: seq<Entry>, duid: string, a: IPv6)
    requires HeldAt(leases, duid, a)
    ensures a in Taken(leases, Reconfigured(leases, assignments)) <==>
      if Names(assignments, a) then !HeldAt(Placed(assignments, true), duid, a) else leases[a].isStatic
  {
    PlacedIffNamed(assignments, true, a);
    LoadedIsKeptPlusPlaced(NotStatic(leases), assignments, true);
  }

  /** Loading persisted leases takes it exactly when an entry of that address names somebody else. */
  lemma LoadTakesIff(leases: Table, entries: seq<Entry>, duid: string, a: IPv6)
    requires HeldAt(leases, duid, a)
    ensures a in Taken(leases, Loaded(leases, entries, false)) <==>
      Names(entries, a) && !HeldAt(Placed(entries, false), duid, a)
  {
    PlacedIffNamed(entries, false, a);
    LoadedIsKeptPlusPlaced(leases, entries, false);
  }

  // ----------------------------------------------------------------------------
  // What a reload writes
  // ----------------------------------------------------------------------------

  /** The last entry of an address that can be used. */
  predicate IsLastEntry(entries: seq<Entry>, a: IPv6, i: int) {
    0 <= i < |entries| && entries[i].address == Some(a) && !entries[i].skipped
    && forall j :: i < j < |entries| ==> entries[j].address != Some(a) || entries[j].skipped
  }

  /** It decides the whole lease of its address. */
  lemma {:induction false} LastEntryDecides(leases: Table, entries: seq<Entry>, isStatic: bool, a: IPv6, i: int)
    requires IsLastEntry(entries, a, i)
    ensures var after := Loaded(leases, entries, isStatic);
      && a in after && after[a].address == a && after[a].duid == entries[i].duid
      && after[a].hostname == entries[i].hostname && after[a].profileId == entries[i].profileId
      && after[a].expiresAt == entries[i].expiresAt && after[a].isStatic == isStatic
  {
    var n := |entries| - 1;
    if i < n { LastEntryDecides(leases, entries[..n], isStatic, a, i); }
  }

  /** An address without such an entry is left as it was, or dropped if it was static and the configuration is new. */
  lemma {:induction false} UnlistedStays(leases: Table, entries: seq<Entry>, isStatic: bool, a: IPv6)
    requires forall i :: 0 <= i < |entries| ==> entries[i].address != Some(a) || entries[i].skipped
    ensures var after := Loaded(leases, entries, isStatic);
      (a in after <==> a in leases) && (a in after ==> after[a] == leases[a])
  {
    if entries != [] { UnlistedStays(leases, entries[..|entries| - 1], isStatic, a); }
  }

  lemma ReconfiguredUnlisted(leases: Table, assignments: seq<Entry>, a: IPv6)
    requires forall i :: 0 <= i < |assignments| ==> assignments[i].address != Some(a) || assignments[i].skipped
    ensures var after := Reconfigured(leases, assignments);
      && (a in after <==> a in leases && !leases[a].isStatic) && (a in after ==> after[a] == leases[a])
  {
    UnlistedStays(NotStatic(leases), assignments, true, a);
  }

  /** A reload takes effect in every run: the last usable entry of an address is a lease of its client from then on. */
  lemma ReloadTakesEffect(s: System, step: Step, a: IPv6, i: int)
    requires IsReload(step)
    requires var entries := if step.UpdateConfig? then step.assignments else step.entries; IsLastEntry(entries, a, i)
    ensures var entries, after := if step.UpdateConfig? then step.assignments else step.entries, Do(s, step).leases;
      && HeldAt(after, entries[i].duid, a) && after[a].expiresAt == entries[i].expiresAt
      && (after[a].isStatic <==> step.UpdateConfig?)
  {
    if step.UpdateConfig? {
      LastEntryDecides(NotStatic(s.leases), step.assignments, true, a, i);
    } else {
      LastEntryDecides(s.leases, step.entries, false, a, i);
    }
  }

  /** A renewal changes one thing: when one lease of the client that is not static runs out, if it has such a lease. */
  lemma ExtendOutcome(s: System, duid: string, until: int, leases': Table) returns (a: Option<IPv6>)
    requires MayExtend(s.leases, duid, until, leases')
    ensures Do(s, Extend(duid, until, leases')).leases.Keys == s.leases.Keys
    ensures a.Some? <==> exists x :: x in s.leases && s.leases[x].duid == duid && !s.leases[x].isStatic
    ensures a.Some? ==> a.value in s.leases && s.leases[a.value].duid == duid && !s.leases[a.value].isStatic
    ensures var after := Do(s, Extend(duid, until, leases')).leases;
      forall x :: x in s.leases ==>
        if Some(x) == a then
          after[x].expiresAt == until && after[x].address == s.leases[x].address && after[x].duid == duid
          && after[x].hostname == s.leases[x].hostname && after[x].profileId == s.leases[x].profileId
          && !after[x].isStatic
        else after[x] == s.leases[x]
  {
    if x :| Dynamic(s.leases, duid, x) && leases' == s.leases[x := s.leases[x].(expiresAt := until)] {
      a := Some(x);
    } else {
      a := None;
      forall x | x in s.leases && s.leases[x].duid == duid ensures s.leases[x].isStatic {
        assert !Dynamic(s.leases, duid, x);
      }
    }
  }

  /** An answer to a client is told to it, is one of its leases from then on, and lasts as long as the answer says. */
  lemma AskOutcome(s: System, duid: string, pool: Pool, until: int, r: IPv6)
    requires MayAllocate(s.leases, duid, pool, Some(r)) && OwnKeys(s.leases)
    ensures var t := Do(s, Ask(duid, pool, until, Some(r)));
      && r in Told(t.trace, duid) && HeldAt(t.leases, duid, r)
      && (Has(s.leases, duid) ==> t.leases == s.leases)
      && (!Has(s.leases, duid) ==> !t.leases[r].isStatic && t.leases[r].expiresAt == until)
  {
    ToldSnoc(s.trace, Assigned(duid, r), duid);
  }

  /** A release drops one lease of the client that is not static, if it has one, and nothing it was told counts on. */
  lemma ReleaseOutcome(s: System, duid: string, leases': Table) returns (a: Option<IPv6>)
    requires MayRelease(s.leases, duid, leases')
    ensures a.Some? <==> exists x :: x in s.leases && s.leases[x].duid == duid && !s.leases[x].isStatic
    ensures a.Some? ==> a.value in s.leases && s.leases[a.value].duid == duid && !s.leases[a.value].isStatic
    ensures var t := Do(s, Release(duid, leases'));
      && (forall x :: x in t.leases <==> x in s.leases && Some(x) != a)
      && (forall x :: x in t.leases ==> t.leases[x] == s.leases[x])
      && Told(t.trace, duid) == {}
  {
    assert Do(s, Release(duid, leases')) == System(leases', s.trace + [Freed(duid)]);
    ToldSnoc(s.trace, Freed(duid), duid);
    if x :| Dynamic(s.leases, duid, x) && leases' == s.leases - {x} {
      a := Some(x);
    } else {
      a := None;
      forall x | x in s.leases && s.leases[x].duid == duid ensures s.leases[x].isStatic {
        assert !Dynamic(s.leases, duid, x);
      }
    }
  }

  /** Whatever the table is, a renewal and a release can be carried out, and a client that has a lease is answered. */
  lemma AlwaysPossible(leases: Table, duid: string, until: int, pool: Pool)
    returns (extended: Table, released: Table, r: IPv6)
    ensures MayExtend(leases, duid, until, extended) && MayRelease(leases, duid, released)
    ensures Has(leases, duid) ==> MayAllocate(leases, duid, pool, Some(r))
  {
    extended, released, r := leases, leases, seq(16, _ => 0);
    if a :| Dynamic(leases, duid, a) {
      extended, released := leases[a := leases[a].(expiresAt := until)], leases - {a};
    }
    if a :| HeldAt(leases, duid, a) {
      r := leases[a].address;
    }
  }
}
