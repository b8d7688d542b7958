/**
 Runs of the DHCPv4 server. Every packet is handled by itself: a handler reads the table,
 gives up the lock, and acts later. The sections of other handlers, of the same client too,
 and of the configuration and leadership hooks come in between in any order.
 */
module Dhcp4Runs {
  import opened Wrappers
  import opened Addresses
  import opened Dhcp4
  import opened Strings

  type HandlerId = nat

  /** A handler that has read its client's lease and not yet acted. */
  datatype Handler = Handler(mac: string, msg: Message, existing: Option<Lease>)

  datatype Event =
    | Assigned(mac: string, ip: IPv4)
    | Freed(mac: string)
    | Reloaded(lost: set<string>)

  /** trace: what the clients were told, oldest first. */
  datatype System = System(leases: Table, handlers: map<HandlerId, Handler>, trace: seq<Event>)

  datatype Step =
    | Receive(id: HandlerId, mac: string, msg: Message)
    | Act(id: HandlerId, scanned: Option<IPv4>)
    | Release(mac: string)
    | UpdateConfig(assignments: seq<Entry>)
    | LoadLeases(entries: seq<Entry>)

  function Read(leases: Table, mac: string): Option<Lease> {
    if mac in leases then Some(leases[mac]) else None
  }

  ghost predicate Enabled(s: System, step: Step) {
    match step
    case Receive(id, _, _) => id !in s.handlers
    case Act(id, scanned) =>
      id in s.handlers
      && var h := s.handlers[id];
      (h.msg.Discover? && h.existing.None? ==> MayAllocate(s.leases, h.mac, h.msg.pool, scanned))
    case _ => true
  }

  /** What the second section of a handler does. */
  ghost function ActionOf(s: System, id: HandlerId, scanned: Option<IPv4>): Outcome
    requires id in s.handlers
  {
    var h := s.handlers[id];
    if h.msg.Discover? then ActDiscover(s.leases, h.mac, h.existing, scanned)
    else ActRequest(s.leases, h.mac, h.existing, h.msg)
  }

  /** A step that is not enabled does nothing. */
  ghost function Do(s: System, step: Step): System {
    if !Enabled(s, step) then s
    else
      match step
      case Receive(id, mac, msg) => s.(handlers := s.handlers[id := Handler(mac, msg, Read(s.leases, mac))])
      case Act(id, scanned) =>
        var mac, o := s.handlers[id].mac, ActionOf(s, id, scanned);
        System(o.leases, s.handlers - {id},
          if Given(o.reply).Some? then s.trace + [Assigned(mac, Given(o.reply).value)] else s.trace)
      case Release(mac) => s.(leases := Released(s.leases, mac), trace := s.trace + [Freed(mac)])
      case UpdateConfig(_) => Reload(s, Reloading(s.leases, step))
      case LoadLeases(_) => Reload(s, Reloading(s.leases, step))
  }

  /** The table that a configuration change or a leadership change leaves. */
  function Reloading(leases: Table, step: Step): Table
    requires IsReload(step)
  {
    if step.UpdateConfig? then Reconfigured(leases, step.assignments) else Loaded(leases, step.entries, false)
  }

  predicate IsReload(step: Step) {
    step.UpdateConfig? || step.LoadLeases?
  }

  /** The clients that had an address before and do not have it after. */
  function Lost(before: Table, after: Table): set<string> {
    set m | m in before && before[m].ip.Some? && !Holds(after, m, before[m].ip.value)
  }

  function Reload(s: System, after: Table): System {
    s.(leases := after, trace := s.trace + [Reloaded(Lost(s.leases, after))])
  }

  ghost function After(steps: seq<Step>): System {
    if steps == [] then System(map[], map[], []) else Do(After(steps[..|steps| - 1]), steps[|steps| - 1])
  }

  // ----------------------------------------------------------------------------
  // Distinct clients hold distinct addresses
  // ----------------------------------------------------------------------------

  ghost predicate EntriesFit(leases: Table, step: Step) {
    match step
    case UpdateConfig(assignments) => Compatible(Dynamic(leases), Placed(assignments, true))
    case LoadLeases(entries) => Compatible(leases, Placed(entries, false))
    case _ => true
  }

  /** Every reload of the run fits the table it meets. */
  ghost predicate Fitting(steps: seq<Step>) {
    steps == []
    || (Fitting(steps[..|steps| - 1]) && EntriesFit(After(steps[..|steps| - 1]).leases, steps[|steps| - 1]))
  }

  lemma StepKeepsExclusive(s: System, step: Step)
    requires Exclusive(s.leases) && EntriesFit(s.leases, step)
    ensures Exclusive(Do(s, step).leases)
  {
    if Enabled(s, step) {
      match step
      case Act(id, scanned) =>
        var h := s.handlers[id];
        if h.msg.Request? {
          if Requested(h.msg).Some? { ReserveKeepsExclusive(s.leases, h.mac, Requested(h.msg).value, h.msg.hostname); }
        } else if h.existing.None? {
          AllocateKeepsExclusive(s.leases, h.mac, h.msg.pool, scanned);
        }
      case UpdateConfig(assignments) => ReconfigureKeepsExclusiveIff(s.leases, assignments);
      case LoadLeases(entries) => LoadKeepsExclusiveIff(s.leases, entries);
      case _ =>
    }
  }

  /** In every run whose reloads fit, distinct clients hold distinct addresses. */
  lemma {:induction false} TableStaysExclusive(steps: seq<Step>)
    requires Fitting(steps)
    ensures Exclusive(After(steps).leases)
  {
    if steps != [] {
      TableStaysExclusive(steps[..|steps| - 1]);
      StepKeepsExclusive(After(steps[..|steps| - 1]), steps[|steps| - 1]);
    }
  }

  // ----------------------------------------------------------------------------
  // An assigned address stays with its client
  // ----------------------------------------------------------------------------

  function ToldNext(told: set<IPv4>, e: Event, mac: string): set<IPv4> {
    match e
    case Assigned(m, ip) => if m == mac then told + {ip} else told
    case Freed(m) => if m == mac then {} else told
    case Reloaded(lost) => if mac in lost then {} else told
  }

  /** The addresses a client was told since it last released, or a reload last took its address. */
  function Told(trace: seq<Event>, mac: string): set<IPv4> {
    if trace == [] then {} else ToldNext(Told(trace[..|trace| - 1], mac), trace[|trace| - 1], mac)
  }

  lemma ToldSnoc(trace: seq<Event>, e: Event, mac: string)
    ensures Told(trace + [e], mac) == ToldNext(Told(trace, mac), e, mac)
  {
    assert (trace + [e])[..|trace|] == trace;
  }

  /** An address that a handler offers or acknowledges is told to its client, and nothing else is told to anybody. */
  lemma SentIsTold(s: System, id: HandlerId, scanned: Option<IPv4>, mac: string, ip: IPv4)
    requires Enabled(s, Act(id, scanned))
    ensures var h, reply := s.handlers[id], ActionOf(s, id, scanned).reply;
      ip in Told(Do(s, Act(id, scanned)).trace, mac) <==>
        ip in Told(s.trace, mac) || (mac == h.mac && (reply == Offer(ip) || reply == Ack(Some(ip))))
  {
    var h, reply := s.handlers[id], ActionOf(s, id, scanned).reply;
    if Given(reply).Some? { ToldSnoc(s.trace, Assigned(h.mac, Given(reply).value), mac); }
  }

  /** What a client was told is its lease. */
  ghost predicate Kept(s: System, mac: string) {
    forall ip :: ip in Told(s.trace, mac) ==> Holds(s.leases, mac, ip)
  }

  /** The handler has read an address of its client. */
  predicate HasRead(h: Handler) {
    h.existing.Some? && h.existing.value.ip.Some?
  }

  predicate StillHeld(leases: Table, h: Handler)
    requires HasRead(h)
  {
    Holds(leases, h.mac, h.existing.value.ip.value)
  }

  /** An action changes no lease but its client's, and that only if the handler read none. */
  lemma ActOutcome(s: System, id: HandlerId, scanned: Option<IPv4>)
    requires Enabled(s, Act(id, scanned))
    ensures
      var h, o := s.handlers[id], ActionOf(s, id, scanned);
      && (forall m :: m != h.mac ==> Read(o.leases, m) == Read(s.leases, m))
      && (Given(o.reply).None? ==> o.leases == s.leases)
      && (h.existing.None? && Given(o.reply).Some? ==> Holds(o.leases, h.mac, Given(o.reply).value))
      && (h.existing.Some? ==> o.leases == s.leases && Given(o.reply) == h.existing.value.ip)
  {
  }

  /**
   The action gives nothing; or the handler read an address that its client still has; or
   it read none, and the client was told no other address than the one it is now given.
   */
  ghost predicate ActSafe(s: System, id: HandlerId, scanned: Option<IPv4>)
    requires id in s.handlers
  {
    var h, given := s.handlers[id], Given(ActionOf(s, id, scanned).reply);
    || given.None?
    || (HasRead(h) && StillHeld(s.leases, h))
    || (h.existing.None? && Told(s.trace, h.mac) <= {given.value})
  }

  /** Exactly such an action leaves its client with every address it was told. */
  lemma ActKeepsIff(s: System, id: HandlerId, scanned: Option<IPv4>)
    requires Enabled(s, Act(id, scanned)) && Kept(s, s.handlers[id].mac)
    ensures Kept(Do(s, Act(id, scanned)), s.handlers[id].mac) <==> ActSafe(s, id, scanned)
  {
    var h, o, s' := s.handlers[id], ActionOf(s, id, scanned), Do(s, Act(id, scanned));
    ActOutcome(s, id, scanned);
    if Given(o.reply).Some? {
      var ip := Given(o.reply).value;
      ToldSnoc(s.trace, Assigned(h.mac, ip), h.mac);
      assert ip in Told(s'.trace, h.mac);
      assert forall x :: x in Told(s.trace, h.mac) ==> x in Told(s'.trace, h.mac);
    }
  }

  /** An action whose reading is still what the table holds is safe. */
  lemma CurrentReadingIsSafe(s: System, id: HandlerId, scanned: Option<IPv4>)
    requires Enabled(s, Act(id, scanned)) && Kept(s, s.handlers[id].mac)
    requires s.handlers[id].existing == Read(s.leases, s.handlers[id].mac)
    ensures ActSafe(s, id, scanned)
  {
    ActOutcome(s, id, scanned);
  }

  /** What one client was told and has is changed by its own sections and by reloads only. */
  lemma OthersKeep(s: System, step: Step, mac: string)
    requires Enabled(s, step) && Kept(s, mac)
    requires step.Act? ==> s.handlers[step.id].mac != mac
    ensures Kept(Do(s, step), mac)
  {
    var s' := Do(s, step);
    match step
    case Receive(_, _, _) =>
    case Act(id, scanned) =>
      var h, o := s.handlers[id], ActionOf(s, id, scanned);
      ActOutcome(s, id, scanned);
      assert Read(s'.leases, mac) == Read(s.leases, mac);
      if Given(o.reply).Some? { ToldSnoc(s.trace, Assigned(h.mac, Given(o.reply).value), mac); }
    case Release(m) => ToldSnoc(s.trace, Freed(m), mac);
    case UpdateConfig(_) => ReloadKeeps(s, step, mac);
    case LoadLeases(_) => ReloadKeeps(s, step, mac);
  }

  lemma ReloadKeeps(s: System, step: Step, mac: string)
    requires Kept(s, mac) && IsReload(step)
    ensures Kept(Do(s, step), mac)
  {
    var s' := Do(s, step);
    var lost := Lost(s.leases, s'.leases);
    ToldSnoc(s.trace, Reloaded(lost), mac);
    forall ip | ip in Told(s'.trace, mac) ensures Holds(s'.leases, mac, ip) {
      assert Holds(s.leases, mac, ip) && mac !in lost;
    }
  }

  /** The step is no unsafe action of a handler of the client. */
  ghost predicate StepSafe(s: System, step: Step, mac: string) {
    step.Act? && Enabled(s, step) && s.handlers[step.id].mac == mac ==> ActSafe(s, step.id, step.scanned)
  }

  /** All actions of the client's handlers are safe; what the others do does not matter. */
  ghost predicate Safe(steps: seq<Step>, mac: string) {
    steps == []
    || (Safe(steps[..|steps| - 1], mac) && StepSafe(After(steps[..|steps| - 1]), steps[|steps| - 1], mac))
  }

  lemma StepKeepsIff(s: System, step: Step, mac: string)
    requires Kept(s, mac)
    ensures Kept(Do(s, step), mac) <==> StepSafe(s, step, mac)
  {
    if Enabled(s, step) {
      if step.Act? && s.handlers[step.id].mac == mac {
        ActKeepsIff(s, step.id, step.scanned);
      } else {
        OthersKeep(s, step, mac);
      }
    }
  }

  /** At no moment of the run is the client without an address it was told. */
  ghost predicate AlwaysKept(steps: seq<Step>, mac: string) {
    Kept(After(steps), mac) && (steps != [] ==> AlwaysKept(steps[..|steps| - 1], mac))
  }

  /** In every run: a client always has what it was told if and only if all actions of its handlers are safe. */
  lemma {:induction false} AlwaysKeptIff(steps: seq<Step>, mac: string)
    ensures AlwaysKept(steps, mac) <==> Safe(steps, mac)
  {
    if steps != [] {
      var before := steps[..|steps| - 1];
      AlwaysKeptIff(before, mac);
      if Safe(before, mac) {
        assert Kept(After(before), mac);
        StepKeepsIff(After(before), steps[|steps| - 1], mac);
      }
    }
  }

  /**
   An address told to a client stays its lease, and it is told no other, until it releases
   or a reload takes that address from it.
   */
  lemma AssignedAddressStays(steps: seq<Step>, mac: string, ip: IPv4, ip': IPv4)
    requires Safe(steps, mac)
    requires ip in Told(After(steps).trace, mac)
    ensures Holds(After(steps).leases, mac, ip)
    ensures ip' in Told(After(steps).trace, mac) ==> ip' == ip
  {
    AlwaysKeptIff(steps, mac);
  }

  // ----------------------------------------------------------------------------
  // Two clients
  // ----------------------------------------------------------------------------

  /** The two clients share no address. */
  ghost predicate Apart(leases: Table, m: string, n: string) {
    forall ip :: Holds(leases, m, ip) ==> !Holds(leases, n, ip)
  }

  /** No reload of the run leaves one address with both clients. */
  ghost predicate KeepsApart(steps: seq<Step>, m: string, n: string) {
    steps == []
    || (KeepsApart(steps[..|steps| - 1], m, n)
      && var s, step := After(steps[..|steps| - 1]), steps[|steps| - 1];
      (IsReload(step) ==> Apart(Reloading(s.leases, step), m, n)))
  }

  /** No section of a handler gives a client an address that another one has. */
  lemma ActIsApart(s: System, id: HandlerId, scanned: Option<IPv4>, other: string)
    requires Enabled(s, Act(id, scanned)) && s.handlers[id].mac != other && Apart(s.leases, s.handlers[id].mac, other)
    ensures Apart(ActionOf(s, id, scanned).leases, s.handlers[id].mac, other)
  {
    ActOutcome(s, id, scanned);
    var mac, o := s.handlers[id].mac, ActionOf(s, id, scanned);
    assert Read(o.leases, other) == Read(s.leases, other);
    forall ip | Holds(s.leases, other, ip) ensures !Holds(o.leases, mac, ip) {
      assert !Holds(s.leases, mac, ip) && ip in Used(s.leases);
    }
  }

  lemma StepIsApart(s: System, step: Step, m: string, n: string)
    requires m != n && Apart(s.leases, m, n)
    requires IsReload(step) ==> Apart(Reloading(s.leases, step), m, n)
    ensures Apart(Do(s, step).leases, m, n)
  {
    if Enabled(s, step) && step.Act? {
      var mac, after := s.handlers[step.id].mac, ActionOf(s, step.id, step.scanned).leases;
      assert Do(s, step).leases == after;
      ActOutcome(s, step.id, step.scanned);
      if mac == m {
        ActIsApart(s, step.id, step.scanned, n);
      } else if mac == n {
        ApartSymmetric(s.leases, m, n);
        ActIsApart(s, step.id, step.scanned, m);
        ApartSymmetric(after, n, m);
      } else {
        assert Read(after, m) == Read(s.leases, m) && Read(after, n) == Read(s.leases, n);
        assert forall ip :: Holds(after, m, ip) ==> Holds(s.leases, m, ip);
      }
    } else if Enabled(s, step) && step.Release? {
      assert forall ip :: Holds(Do(s, step).leases, m, ip) ==> Holds(s.leases, m, ip);
    }
  }

  lemma ApartSymmetric(leases: Table, m: string, n: string)
    requires Apart(leases, m, n)
    ensures Apart(leases, n, m)
  {
    forall ip | Holds(leases, n, ip) ensures !Holds(leases, m, ip) { }
  }

  lemma {:induction false} RunIsApart(steps: seq<Step>, m: string, n: string)
    requires m != n && KeepsApart(steps, m, n)
    ensures Apart(After(steps).leases, m, n)
  {
    if steps != [] {
      RunIsApart(steps[..|steps| - 1], m, n);
      StepIsApart(After(steps[..|steps| - 1]), steps[|steps| - 1], m, n);
    }
  }

  /**
   While one client was told an address the other one is not, if the actions of these two
   are safe and no reload leaves an address with both.
   */
  lemma NobodyElseIsTold(steps: seq<Step>, mac: string, other: string, ip: IPv4)
    requires mac != other && Safe(steps, mac) && Safe(steps, other) && KeepsApart(steps, mac, other)
    requires ip in Told(After(steps).trace, mac)
    ensures ip !in Told(After(steps).trace, other)
  {
    RunIsApart(steps, mac, other);
    AlwaysKeptIff(steps, mac);
    AlwaysKeptIff(steps, other);
  }

  /** Reloads that fit leave no address with any two clients. */
  lemma {:induction false} FittingKeepsApart(steps: seq<Step>, m: string, n: string)
    requires m != n && Fitting(steps)
    ensures KeepsApart(steps, m, n)
  {
    if steps != [] {
      FittingKeepsApart(steps[..|steps| - 1], m, n);
      TableStaysExclusive(steps);
      if IsReload(steps[|steps| - 1]) {
        assert After(steps).leases == Reloading(After(steps[..|steps| - 1]).leases, steps[|steps| - 1]);
      }
    }
  }

  // ----------------------------------------------------------------------------
  // One message at a time
  // ----------------------------------------------------------------------------

  ghost predicate InFlight(s: System, mac: string) {
    exists id :: id in s.handlers && s.handlers[id].mac == mac
  }

  /** The client sends nothing while a packet of it is handled. */
  ghost predicate Waits(s: System, step: Step, mac: string) {
    match step
    case Receive(_, m, _) => m == mac ==> !InFlight(s, mac)
    case Release(m) => m == mac ==> !InFlight(s, mac)
    case _ => true
  }

  /** The reload takes no address that a handler of the client has read and not yet acted on. */
  ghost predicate Spares(s: System, step: Step, mac: string) {
    IsReload(step) ==> forall id :: id in s.handlers && s.handlers[id].mac == mac && HasRead(s.handlers[id]) ==>
      mac !in Lost(s.leases, Reloading(s.leases, step))
  }

  ghost predicate OneAtATime(steps: seq<Step>, mac: string) {
    steps == []
    || (OneAtATime(steps[..|steps| - 1], mac)
      && var s, step := After(steps[..|steps| - 1]), steps[|steps| - 1];
      Waits(s, step, mac) && Spares(s, step, mac))
  }

  /** What a handler read: an address its client still has, or no lease of a client that was told nothing. */
  ghost predicate Current(s: System, id: HandlerId)
    requires id in s.handlers
  {
    var h := s.handlers[id];
    if h.existing.None? then Told(s.trace, h.mac) == {} else HasRead(h) ==> StillHeld(s.leases, h)
  }

  /** The client has at most one handler, and that is current. */
  ghost predicate Steady(s: System, mac: string) {
    && Kept(s, mac)
    && (forall id, i :: id in s.handlers && i in s.handlers && s.handlers[id].mac == s.handlers[i].mac == mac ==>
      id == i)
    && (forall id :: id in s.handlers && s.handlers[id].mac == mac ==> Current(s, id))
  }

  lemma StepIsSteady(s: System, step: Step, mac: string)
    requires Steady(s, mac) && Waits(s, step, mac) && Spares(s, step, mac)
    ensures Steady(Do(s, step), mac) && StepSafe(s, step, mac)
  {
    if Enabled(s, step) {
      match step
      case Receive(id, m, msg) => assert Kept(s, mac) && Read(s.leases, m).None? ==> m !in s.leases;
      case Act(id, scanned) => ActIsSteady(s, id, scanned, mac);
      case Release(m) => ToldSnoc(s.trace, Freed(m), mac);
      case UpdateConfig(_) => ReloadIsSteady(s, step, mac);
      case LoadLeases(_) => ReloadIsSteady(s, step, mac);
    }
  }

  lemma ActIsSteady(s: System, id: HandlerId, scanned: Option<IPv4>, mac: string)
    requires Steady(s, mac) && Enabled(s, Act(id, scanned))
    ensures Steady(Do(s, Act(id, scanned)), mac) && StepSafe(s, Act(id, scanned), mac)
  {
    var s', h, o := Do(s, Act(id, scanned)), s.handlers[id], ActionOf(s, id, scanned);
    ActOutcome(s, id, scanned);
    StepKeepsIff(s, Act(id, scanned), mac);
    if h.mac != mac {
      if Given(o.reply).Some? { ToldSnoc(s.trace, Assigned(h.mac, Given(o.reply).value), mac); }
      assert Read(s'.leases, mac) == Read(s.leases, mac);
      forall i | i in s'.handlers && s'.handlers[i].mac == mac ensures Current(s', i) { assert Current(s, i); }
    } else {
      assert Current(s, id);
    }
  }

  lemma ReloadIsSteady(s: System, step: Step, mac: string)
    requires Steady(s, mac) && IsReload(step) && Spares(s, step, mac)
    ensures Steady(Do(s, step), mac)
  {
    var s' := Do(s, step);
    ReloadKeeps(s, step, mac);
    ToldSnoc(s.trace, Reloaded(Lost(s.leases, s'.leases)), mac);
    forall i | i in s'.handlers && s'.handlers[i].mac == mac ensures Current(s', i) { assert Current(s, i); }
  }

  lemma {:induction false} RunIsSteady(steps: seq<Step>, mac: string)
    requires OneAtATime(steps, mac)
    ensures Steady(After(steps), mac) && Safe(steps, mac)
  {
    if steps != [] {
      RunIsSteady(steps[..|steps| - 1], mac);
      StepIsSteady(After(steps[..|steps| - 1]), steps[|steps| - 1], mac);
    }
  }

  /**
   So the promise holds to a client that sends one message at a time, while no reload takes
   an address that its handler has read.
   */
  lemma OneAtATimeIsKept(steps: seq<Step>, mac: string)
    requires OneAtATime(steps, mac)
    ensures Safe(steps, mac) && AlwaysKept(steps, mac)
  {
    RunIsSteady(steps, mac);
    AlwaysKeptIff(steps, mac);
  }

  lemma AfterSnoc(steps: seq<Step>, step: Step)
    ensures After(steps + [step]) == Do(After(steps), step)
    ensures Fitting(steps + [step]) <==> Fitting(steps) && EntriesFit(After(steps).leases, step)
  {
    assert (steps + [step])[..|steps|] == steps;
  }

  /** The scans of a pool of two addresses of which none, the first or the second is used. */
  lemma TwoAddressPool(x: IPv4, y: IPv4)
    requires Val(y) == Val(x) + 1
    ensures IsScan(x, y, {}, Some(x)) && IsScan(x, y, {x}, Some(y)) && IsScan(x, y, {y}, Some(x))
  {
    forall a | Reaches(x, y, a) ensures 0 <= Distance(x, a) && (Distance(x, a) == 0 ==> a == x) {
      DistanceBound(x, a);
    }
  }

  function Dyn(ip: IPv4): Lease {
    Lease(Some(ip), "", false)
  }

  /**
   A discover that is sent again before it was answered: both handlers read no lease, the
   second one replaces the lease of the first, and another client is told the address that
   the first client was told and never released.
   */
  lemma RetransmissionMisleads(a: string, b: string, x: IPv4, y: IPv4) returns (steps: seq<Step>)
    requires a != b && Val(y) == Val(x) + 1
    ensures Fitting(steps) && forall i :: 0 <= i < |steps| ==> steps[i].Receive? || steps[i].Act?
    ensures x in Told(After(steps).trace, a) && !Holds(After(steps).leases, a, x)
    ensures x in Told(After(steps).trace, b)
  {
    var discover := Discover(Pool(Some(x), Some(y)));
    var first, second := [] + [Receive(0, a, discover)], [] + [Receive(0, a, discover)] + [Receive(1, a, discover)];
    TwoAddressPool(x, y);
    AfterSnoc([], Receive(0, a, discover));
    AfterSnoc(first, Receive(1, a, discover));
    var none := Handler(a, discover, None);
    assert After(second) == System(map[], map[0 := none, 1 := none], []);
    steps := Both(After(second), second, discover, a, b, x, y);
  }

  lemma SecondReplacesFirst(s: System, discover: Message, a: string, x: IPv4, y: IPv4) returns (s2: System)
    requires discover == Discover(Pool(Some(x), Some(y))) && IsScan(x, y, {}, Some(x)) && IsScan(x, y, {x}, Some(y))
    requires s == System(map[], map[0 := Handler(a, discover, None), 1 := Handler(a, discover, None)], [])
    ensures s2 == Do(Do(s, Act(0, Some(x))), Act(1, Some(y)))
    ensures Do(s, Act(0, Some(x))).trace == [] + [Assigned(a, x)]
    ensures s2 == System(map[a := Dyn(y)], map[], [] + [Assigned(a, x)] + [Assigned(a, y)])
  {
    var s1 := Do(s, Act(0, Some(x)));
    assert s1 == System(map[a := Dyn(x)], map[1 := Handler(a, discover, None)], [] + [Assigned(a, x)]);
    UsedByOne(a, x);
    s2 := Do(s1, Act(1, Some(y)));
  }

  lemma OtherGetsFirst(s2: System, discover: Message, a: string, b: string, x: IPv4, y: IPv4)
    requires a != b && discover == Discover(Pool(Some(x), Some(y))) && IsScan(x, y, {y}, Some(x))
    requires s2.leases == map[a := Dyn(y)] && s2.handlers == map[]
    ensures Do(Do(s2, Receive(2, b, discover)), Act(2, Some(x))) ==
      System(map[a := Dyn(y), b := Dyn(x)], map[], s2.trace + [Assigned(b, x)])
  {
    UsedByOne(a, y);
  }

  lemma UsedByOne(mac: string, ip: IPv4)
    ensures Used(map[mac := Dyn(ip)]) == {ip}
  {
    var leases := map[mac := Dyn(ip)];
    assert mac in leases && leases[mac].ip.value == ip;
  }

  lemma Both(s: System, before: seq<Step>, discover: Message, a: string, b: string, x: IPv4, y: IPv4)
    returns (steps: seq<Step>)
    requires a != b && Fitting(before) && After(before) == s && discover == Discover(Pool(Some(x), Some(y)))
    requires s == System(map[], map[0 := Handler(a, discover, None), 1 := Handler(a, discover, None)], [])
    requires IsScan(x, y, {}, Some(x)) && IsScan(x, y, {x}, Some(y)) && IsScan(x, y, {y}, Some(x)) && x != y
    requires forall i :: 0 <= i < |before| ==> before[i].Receive? || before[i].Act?
    ensures Fitting(steps) && forall i :: 0 <= i < |steps| ==> steps[i].Receive? || steps[i].Act?
    ensures x in Told(After(steps).trace, a) && !Holds(After(steps).leases, a, x)
    ensures x in Told(After(steps).trace, b)
  {
    var s2 := SecondReplacesFirst(s, discover, a, x, y);
    var s1 := Do(s, Act(0, Some(x)));
    OtherGetsFirst(s2, discover, a, b, x, y);
    AfterSnoc(before, Act(0, Some(x)));
    steps := AppendThree(before + [Act(0, Some(x))], Act(1, Some(y)), Receive(2, b, discover), Act(2, Some(x)));
    ToldSnoc([], Assigned(a, x), a);
    ToldSnoc(s1.trace, Assigned(a, y), a);
    ToldSnoc(s2.trace, Assigned(b, x), a);
    ToldSnoc(s2.trace, Assigned(b, x), b);
  }

  // ----------------------------------------------------------------------------
  // Which reloads take an address
  // ----------------------------------------------------------------------------

  /** Some entry that counts names the client. */
  predicate Names(entries: seq<Entry>, mac: string) {
    exists i :: 0 <= i < |entries| && Usable(entries[i]) && Lower(entries[i].mac) == mac
  }

  lemma {:induction false} PlacedIffNamed(entries: seq<Entry>, isStatic: bool, mac: string)
    ensures mac in Placed(entries, isStatic) <==> Names(entries, mac)
  {
    if entries != [] {
      var before := entries[..|entries| - 1];
      PlacedIffNamed(before, isStatic, mac);
      assert forall i :: 0 <= i < |before| ==> before[i] == entries[i];
    }
  }

  /**
   A new configuration takes the address of a client exactly when an assignment gives the
   client something else, or the address was static and no assignment names the client.
   */
  lemma ReconfigureTakesIff(leases: Table, assignments: seq<Entry>, mac: string, ip: IPv4)
    requires Holds(leases, mac, ip)
    ensures mac in Lost(leases, Reconfigured(leases, assignments)) <==>
      if Names(assignments, mac) then !Holds(Placed(assignments, true), mac, ip) else leases[mac].isStatic
  {
    PlacedIffNamed(assignments, true, mac);
    LoadedIsKeptPlusPlaced(Dynamic(leases), assignments, true);
  }

  /** Loading persisted leases takes it exactly when an entry gives the client something else. */
  lemma LoadTakesIff(leases: Table, entries: seq<Entry>, mac: string, ip: IPv4)
    requires Holds(leases, mac, ip)
    ensures mac in Lost(leases, Loaded(leases, entries, false)) <==>
      Names(entries, mac) && !Holds(Placed(entries, false), mac, ip)
  {
    PlacedIffNamed(entries, false, mac);
    LoadedIsKeptPlusPlaced(leases, entries, false);
  }

  /** The action of a handler tells its client nothing but the address it then has. */
  ghost predicate TellsHeld(s: System, id: HandlerId, scanned: Option<IPv4>) {
    id in s.handlers && Enabled(s, Act(id, scanned)) ==>
      var o := ActionOf(s, id, scanned);
      Given(o.reply).Some? ==> Holds(o.leases, s.handlers[id].mac, Given(o.reply).value)
  }

  /** It does so if and only if the address that the handler read, if any, is still held. */
  lemma TellsHeldIff(s: System, id: HandlerId)
    requires id in s.handlers
    ensures (forall scanned :: TellsHeld(s, id, scanned)) <==>
      (HasRead(s.handlers[id]) ==> StillHeld(s.leases, s.handlers[id]))
  {
    if HasRead(s.handlers[id]) ==> StillHeld(s.leases, s.handlers[id]) {
      forall scanned ensures TellsHeld(s, id, scanned) {
        if Enabled(s, Act(id, scanned)) { ActOutcome(s, id, scanned); }
      }
    } else {
      assert !TellsHeld(s, id, None);
    }
  }

  /**
   After a reload, a handler whose reading was right tells its client nothing but the
   address it then has, if and only if the reload does not take the address that was read.
   */
  lemma ReloadIsSafeIff(s: System, step: Step, id: HandlerId)
    requires IsReload(step) && id in s.handlers
    requires HasRead(s.handlers[id]) ==> StillHeld(s.leases, s.handlers[id])
    ensures (forall scanned :: TellsHeld(Do(s, step), id, scanned)) <==>
      (HasRead(s.handlers[id]) ==> s.handlers[id].mac !in Lost(s.leases, Reloading(s.leases, step)))
  {
    TellsHeldIff(Do(s, step), id);
  }

  function Only(mac: string, ip: IPv4): Table {
    map[mac := Lease(Some(ip), "", true)]
  }

  lemma AssignOnly(leases: Table, mac: string, ip: IPv4)
    requires Dynamic(leases) == map[] && Lower(mac) == mac
    ensures Reconfigured(leases, [Entry(mac, true, V4(ip), "", false)]) == Only(mac, ip)
    ensures EntriesFit(leases, UpdateConfig([Entry(mac, true, V4(ip), "", false)]))
  {
    OneEntry(map[], Entry(mac, true, V4(ip), "", false), true);
  }

  lemma BothAct(s: System, pool: Pool, a: string, b: string, ip: IPv4)
    requires a != b && s.leases == Only(b, ip)
    requires s.handlers == map[0 := Handler(a, Discover(pool), Some(Lease(Some(ip), "", true)))]
    ensures Do(Do(Do(s, Receive(1, b, Discover(pool))), Act(1, None)), Act(0, None)).trace ==
      s.trace + [Assigned(b, ip)] + [Assigned(a, ip)]
  {
    var s' := Do(s, Receive(1, b, Discover(pool)));
    assert s'.handlers - {1} == s.handlers;
  }

  /**
   So two clients can be told one address: the one whose lease has been read, and the one
   that the address is then statically assigned to.
   */
  lemma ReloadBetweenReadAndAct(a: string, b: string, ip: IPv4, pool: Pool) returns (steps: seq<Step>)
    requires a != b && Lower(a) == a && Lower(b) == b
    ensures Fitting(steps)
    ensures ip in Told(After(steps).trace, a) && ip in Told(After(steps).trace, b)
  {
    var toA := UpdateConfig([Entry(a, true, V4(ip), "", false)]);
    var toB := UpdateConfig([Entry(b, true, V4(ip), "", false)]);
    var discover := Discover(pool);
    AssignOnly(map[], a, ip);
    AssignOnly(Only(a, ip), b, ip);
    AfterSnoc([], toA);
    AfterSnoc([] + [toA], Receive(0, a, discover));
    var read := [] + [toA] + [Receive(0, a, discover)];
    AfterSnoc(read, toB);
    var s := After(read + [toB]);
    BothAct(s, pool, a, b, ip);
    steps := AppendThree(read + [toB], Receive(1, b, discover), Act(1, None), Act(0, None));
    ToldSnoc(s.trace, Assigned(b, ip), b);
    ToldSnoc(s.trace + [Assigned(b, ip)], Assigned(a, ip), a);
    ToldSnoc(s.trace + [Assigned(b, ip)], Assigned(a, ip), b);
  }

  lemma AppendThree(steps: seq<Step>, x: Step, y: Step, z: Step) returns (r: seq<Step>)
    requires Fitting(steps)
    requires (x.Receive? || x.Act?) && (y.Receive? || y.Act?) && (z.Receive? || z.Act?)
    ensures After(r) == Do(Do(Do(After(steps), x), y), z) && Fitting(r) && r == steps + [x] + [y] + [z]
  {
    AfterSnoc(steps, x);
    AfterSnoc(steps + [x], y);
    r := steps + [x] + [y] + [z];
    AfterSnoc(steps + [x] + [y], z);
  }
}
