/**
 The DHCPv4 lease table and the critical sections the packet handlers run on it, one
 lock acquisition each.
 */
module Dhcp4 {
  import opened Wrappers
  import opened Addresses
  import opened Strings

  type IPv4 = a: Address | |a| == 4 witness [0, 0, 0, 0]

  /** ip is None for a static assignment of an IPv6 address, which has no four-byte form. */
  datatype Lease = Lease(ip: Option<IPv4>, hostname: string, isStatic: bool)

  /** Leases by hardware address, in lower case. */
  type Table = map<string, Lease>

  /** An end of the pool is None when the configured text is not an IPv4 address. */
  datatype Pool = Pool(start: Option<IPv4>, end: Option<IPv4>)

  datatype ParsedIp = NoIp | IPv6 | V4(ip: IPv4)

  /**
   A static assignment or a persisted lease. It is skipped unless both texts parse; a
   persisted lease also when it has expired, which an assignment never does.
   */
  datatype Entry = Entry(mac: string, macParses: bool, ip: ParsedIp, hostname: string, expired: bool)

  ghost predicate Exclusive(leases: Table) {
    forall m, n :: m in leases && n in leases && m != n && leases[m].ip.Some? ==> leases[m].ip != leases[n].ip
  }

  predicate Holds(leases: Table, mac: string, ip: IPv4) {
    mac in leases && leases[mac].ip == Some(ip)
  }

  function Used(leases: Table): set<Address> {
    set m | m in leases && leases[m].ip.Some? :: leases[m].ip.value
  }

  // ----------------------------------------------------------------------------
  // What the critical sections do
  // ----------------------------------------------------------------------------

  /** What allocate may return: a static address, else the first free address of the pool. */
  ghost predicate MayAllocate(leases: Table, mac: string, pool: Pool, r: Option<IPv4>) {
    if mac in leases && leases[mac].isStatic then r == leases[mac].ip
    else if pool.start.None? || pool.end.None? then r.None?
    else IsScan(pool.start.value, pool.end.value, Used(leases), r)
  }

  function Allocated(leases: Table, mac: string, r: Option<IPv4>): Table {
    if (mac in leases && leases[mac].isStatic) || r.None? then leases
    else leases[mac := Lease(r, "", false)]
  }

  predicate Taken(leases: Table, mac: string, ip: IPv4) {
    exists m :: m in leases && m != mac && leases[m].ip == Some(ip)
  }

  /** A requested address is granted unless another client has it; the pool plays no part. */
  function Reserved(leases: Table, mac: string, ip: IPv4, hostname: string): Table {
    if Taken(leases, mac, ip) then leases else leases[mac := Lease(Some(ip), hostname, false)]
  }

  function Released(leases: Table, mac: string): Table {
    leases - {mac}
  }

  function Dynamic(leases: Table): Table {
    map m | m in leases && !leases[m].isStatic :: leases[m]
  }

  predicate Usable(e: Entry) {
    !e.expired && e.ip != NoIp && e.macParses
  }

  function EntryIp(e: Entry): Option<IPv4> {
    if e.ip.V4? then Some(e.ip.ip) else None
  }

  /** Later entries of the same hardware address replace earlier ones. */
  function Loaded(leases: Table, entries: seq<Entry>, isStatic: bool): Table {
    if entries == [] then leases
    else
      var e, before := entries[|entries| - 1], Loaded(leases, entries[..|entries| - 1], isStatic);
      if Usable(e) then before[Lower(e.mac) := Lease(EntryIp(e), e.hostname, isStatic)] else before
  }

  /** The static leases are rebuilt from the assignments; dynamic leases stay. */
  function Reconfigured(leases: Table, assignments: seq<Entry>): Table {
    Loaded(Dynamic(leases), assignments, true)
  }

  // ----------------------------------------------------------------------------
  // Handlers, once they have read the client's lease
  // ----------------------------------------------------------------------------

  datatype Message =
    | Discover(pool: Pool)
    | Request(option50: Option<seq<byte>>, ciaddr: IPv4, hostname: string)

  datatype Reply = Offer(ip: IPv4) | Ack(leased: Option<IPv4>) | Nak

  datatype Outcome = Outcome(leases: Table, reply: Reply)

  /** The address a reply gives the client. */
  function Given(r: Reply): Option<IPv4> {
    match r
    case Offer(ip) => Some(ip)
    case Ack(leased) => leased
    case Nak => None
  }

  /** Option 50 when it is four bytes long, else the client's current address unless that is 0.0.0.0. */
  function Requested(msg: Message): Option<IPv4>
    requires msg.Request?
  {
    if msg.option50.Some? && |msg.option50.value| == 4 then Some(msg.option50.value)
    else if msg.ciaddr != [0, 0, 0, 0] then Some(msg.ciaddr)
    else None
  }

  /** Discover: the lease read before, else what the pool yields; without an address it is refused. */
  function ActDiscover(leases: Table, mac: string, existing: Option<Lease>, scanned: Option<IPv4>): Outcome {
    var ip := if existing.Some? then existing.value.ip else scanned;
    Outcome(
      if existing.Some? then leases else Allocated(leases, mac, scanned),
      if ip.Some? then Offer(ip.value) else Nak)
  }

  /** Request: the lease read before, whatever was requested; else the requested address if nobody has it. */
  function ActRequest(leases: Table, mac: string, existing: Option<Lease>, msg: Message): Outcome
    requires msg.Request?
  {
    var requested := Requested(msg);
    if existing.Some? then Outcome(leases, Ack(existing.value.ip))
    else if requested.None? || Taken(leases, mac, requested.value) then Outcome(leases, Nak)
    else Outcome(Reserved(leases, mac, requested.value, msg.hostname), Ack(requested))
  }

  // ----------------------------------------------------------------------------
  // The server
  // ----------------------------------------------------------------------------

  class Server {
    var leases: Table

    constructor ()
      ensures leases == map[]
    {
      leases := map[];
    }

    method InUse() returns (used: set<Address>)
      ensures used == Used(leases)
    {
      used := {};
      var rest := leases.Keys;
      while rest != {}
        invariant rest <= leases.Keys
        invariant forall m :: m in leases && m !in rest && leases[m].ip.Some? ==> leases[m].ip.value in used
        invariant used <= Used(leases)
        decreases rest
      {
        var m :| m in rest;
        if leases[m].ip.Some? { used := used + {leases[m].ip.value}; }
        rest := rest - {m};
      }
    }

    method Allocate(mac: string, pool: Pool) returns (r: Option<IPv4>)
      requires pool.end.Some? && Last(pool.end.value) ==> SomeFree(4, Used(leases))
      modifies this
      ensures MayAllocate(old(leases), mac, pool, r)
      ensures leases == Allocated(old(leases), mac, r)
    {
      if mac in leases && leases[mac].isStatic {
        return leases[mac].ip;
      }
      if pool.start.None? || pool.end.None? {
        return None;
      }
      var used := InUse();
      var found := Scan(pool.start.value, pool.end.value, used);
      if found.None? {
        return None;
      }
      r := Some(found.value);
      leases := leases[mac := Lease(r, "", false)];
    }

    method ReserveAt(mac: string, ip: IPv4, hostname: string) returns (r: Option<Lease>)
      modifies this
      ensures leases == Reserved(old(leases), mac, ip, hostname)
      ensures r == if Taken(old(leases), mac, ip) then None else Some(leases[mac])
    {
      var rest := leases.Keys;
      while rest != {}
        invariant rest <= leases.Keys && leases == old(leases)
        invariant forall m :: m in leases && m !in rest && m != mac ==> leases[m].ip != Some(ip)
        decreases rest
      {
        var m :| m in rest;
        if leases[m].ip == Some(ip) && m != mac {
          return None;
        }
        rest := rest - {m};
      }
      leases := leases[mac := Lease(Some(ip), hostname, false)];
      r := Some(leases[mac]);
    }

    method FinishDiscover(mac: string, existing: Option<Lease>, pool: Pool)
      returns (reply: Reply, ghost scanned: Option<IPv4>)
      requires existing.None? && pool.end.Some? && Last(pool.end.value) ==> SomeFree(4, Used(leases))
      modifies this
      ensures existing.None? ==> MayAllocate(old(leases), mac, pool, scanned)
      ensures Outcome(leases, reply) == ActDiscover(old(leases), mac, existing, scanned)
    {
      scanned := None;
      var offer: Option<IPv4>;
      if existing.Some? {
        offer := existing.value.ip;
      } else {
        offer := Allocate(mac, pool);
        scanned := offer;
      }
      reply := if offer.None? then Nak else Offer(offer.value);
    }

    method FinishRequest(mac: string, existing: Option<Lease>, msg: Message) returns (reply: Reply)
      requires msg.Request?
      modifies this
      ensures Outcome(leases, reply) == ActRequest(old(leases), mac, existing, msg)
    {
      var requested := Requested(msg);
      if existing.Some? && (requested.None? || existing.value.ip == requested) {
        return Ack(existing.value.ip);
      }
      if requested.None? {
        return Nak;
      }
      var lease := existing;
      if lease.None? {
        lease := ReserveAt(mac, requested.value, msg.hostname);
      }
      if lease.None? {
        return Nak;
      }
      reply := Ack(lease.value.ip);
    }

    method Release(mac: string) returns (had: bool)
      modifies this
      ensures leases == Released(old(leases), mac)
      ensures had <==> mac in old(leases)
    {
      had := mac in leases;
      leases := leases - {mac};
    }

    method UpdateConfig(assignments: seq<Entry>)
      modifies this
      ensures leases == Reconfigured(old(leases), assignments)
    {
      var rest := leases.Keys;
      while rest != {}
        invariant rest <= leases.Keys && leases.Keys <= old(leases).Keys
        invariant forall m :: m in leases ==> leases[m] == old(leases)[m]
        invariant forall m :: m in old(leases) && m !in rest ==> (m in leases <==> !old(leases)[m].isStatic)
        decreases rest
      {
        var m :| m in rest;
        if leases[m].isStatic { leases := leases - {m}; }
        rest := rest - {m};
      }
      assert leases == Dynamic(old(leases));
      Load(assignments, true);
    }

    method LoadLeases(entries: seq<Entry>)
      modifies this
      ensures leases == Loaded(old(leases), entries, false)
    {
      Load(entries, false);
    }

    method Load(entries: seq<Entry>, isStatic: bool)
      modifies this
      ensures leases == Loaded(old(leases), entries, isStatic)
    {
      var i := 0;
      while i < |entries|
        invariant 0 <= i <= |entries|
        invariant leases == Loaded(old(leases), entries[..i], isStatic)
      {
        var e := entries[i];
        assert entries[..i + 1][..i] == entries[..i];
        if Usable(e) {
          leases := leases[Lower(e.mac) := Lease(EntryIp(e), e.hostname, isStatic)];
        }
        i := i + 1;
      }
      assert entries[..i] == entries;
    }
  }

  // ----------------------------------------------------------------------------
  // Which requests are granted
  // ----------------------------------------------------------------------------

  /** Somebody else has the address. */
  ghost predicate HeldByOther(leases: Table, mac: string, ip: IPv4) {
    exists m :: m in leases && m != mac && leases[m].ip == Some(ip)
  }

  /**
   A client without a lease asks for the four-byte option 50, or without one for its current
   address unless that is 0.0.0.0. It gets that address, as a dynamic lease, if and only if no other
   client has it; else it is refused, and the table is unchanged.
   */
  lemma RequestOutcome(
      leases: Table, mac: string, option50: Option<seq<byte>>, ciaddr: IPv4, hostname: string, ip: IPv4)
    ensures var o := ActRequest(leases, mac, None, Request(option50, ciaddr, hostname));
      var by50 := option50.Some? && |option50.value| == 4;
      && (o.reply == Ack(Some(ip)) <==>
        (if by50 then ip == option50.value else ip == ciaddr && ip != [0, 0, 0, 0]) && !HeldByOther(leases, mac, ip))
      && (o.reply == Ack(Some(ip)) ==> o.leases == leases[mac := Lease(Some(ip), hostname, false)])
      && (o.reply != Nak ==> exists given :: o.reply == Ack(Some(given)))
      && (o.reply == Nak ==> o.leases == leases)
  {
  }

  /** With a four-byte option 50 the current address plays no part. */
  lemma OptionDecides(
      leases: Table, mac: string, option50: seq<byte>, ciaddr: IPv4, other: IPv4, hostname: string)
    requires |option50| == 4
    ensures ActRequest(leases, mac, None, Request(Some(option50), ciaddr, hostname)) ==
      ActRequest(leases, mac, None, Request(Some(option50), other, hostname))
  {
  }

  /** A client that had a lease is given the address of that lease, whatever it asks for, and nothing changes. */
  lemma LeasedOutcome(leases: Table, mac: string, lease: Lease, msg: Message, scanned: Option<IPv4>)
    ensures msg.Request? ==>
      ActRequest(leases, mac, Some(lease), msg) == Outcome(leases, Ack(lease.ip))
    ensures ActDiscover(leases, mac, Some(lease), scanned) ==
      Outcome(leases, if lease.ip.Some? then Offer(lease.ip.value) else Nak)
  {
  }

  /**
   A discover of a client without a lease is offered the lowest free address of the pool, as a
   dynamic lease, if the pool has one; the rest of the table is unchanged.
   */
  lemma DiscoverOutcome(leases: Table, mac: string, start: IPv4, end: IPv4, scanned: Option<IPv4>)
    requires mac !in leases && MayAllocate(leases, mac, Pool(Some(start), Some(end)), scanned)
    requires exists ip: IPv4 :: InPool(start, end, ip) && !HeldByOther(leases, mac, ip)
    ensures var o := ActDiscover(leases, mac, None, scanned);
      && o.reply.Offer? && InPool(start, end, o.reply.ip) && !HeldByOther(leases, mac, o.reply.ip)
      && o.leases == leases[mac := Lease(Some(o.reply.ip), "", false)]
      && forall ip: IPv4 :: InPool(start, end, ip) && Val(ip) < Val(o.reply.ip) ==> HeldByOther(leases, mac, ip)
  {
    forall ip: IPv4 ensures ip in Used(leases) <==> HeldByOther(leases, mac, ip) {
    }
    var free: IPv4 :| InPool(start, end, free) && !HeldByOther(leases, mac, free);
    assert free !in Used(leases) && PoolHasFree(start, end, Used(leases));
    ScanFindsLowestIff(start, end, Used(leases), scanned);
  }

  // ----------------------------------------------------------------------------
  // Exclusivity, one section at a time
  // ----------------------------------------------------------------------------

  lemma AllocateKeepsExclusive(leases: Table, mac: string, pool: Pool, r: Option<IPv4>)
    requires Exclusive(leases) && MayAllocate(leases, mac, pool, r)
    ensures Exclusive(Allocated(leases, mac, r))
    ensures r.Some? ==> Holds(Allocated(leases, mac, r), mac, r.value)
  {
    if r.Some? && !(mac in leases && leases[mac].isStatic) {
      assert r.value !in Used(leases);
    }
  }

  lemma ReserveKeepsExclusive(leases: Table, mac: string, ip: IPv4, hostname: string)
    requires Exclusive(leases)
    ensures Exclusive(Reserved(leases, mac, ip, hostname))
  {
  }

  /** What the entries alone put into a table. */
  function Placed(entries: seq<Entry>, isStatic: bool): Table {
    Loaded(map[], entries, isStatic)
  }

  /** No two placed leases share an address, nor does one with a kept lease of a client not placed. */
  ghost predicate Compatible(kept: Table, placed: Table) {
    && Exclusive(placed)
    && forall m, n :: m in kept && m !in placed && n in placed && placed[n].ip.Some? ==> kept[m].ip != placed[n].ip
  }

  lemma {:induction false} LoadedIsKeptPlusPlaced(leases: Table, entries: seq<Entry>, isStatic: bool)
    ensures Loaded(leases, entries, isStatic) == leases + Placed(entries, isStatic)
  {
    if entries == [] {
      assert leases + map[] == leases;
    } else {
      LoadedIsKeptPlusPlaced(leases, entries[..|entries| - 1], isStatic);
    }
  }

  lemma MergeExclusive(kept: Table, placed: Table)
    requires Exclusive(kept)
    ensures Exclusive(kept + placed) <==> Compatible(kept, placed)
  {
    var both := kept + placed;
    if Exclusive(both) {
      assert forall n :: n in placed ==> n in both && both[n] == placed[n];
      assert forall m :: m in kept && m !in placed ==> m in both && both[m] == kept[m];
    }
  }

  /** Loading persisted leases keeps addresses exclusive exactly when the entries are compatible. */
  lemma LoadKeepsExclusiveIff(leases: Table, entries: seq<Entry>)
    requires Exclusive(leases)
    ensures Exclusive(Loaded(leases, entries, false)) <==> Compatible(leases, Placed(entries, false))
  {
    LoadedIsKeptPlusPlaced(leases, entries, false);
    MergeExclusive(leases, Placed(entries, false));
  }

  /** So does a new configuration, where only the dynamic leases stay. */
  lemma ReconfigureKeepsExclusiveIff(leases: Table, assignments: seq<Entry>)
    requires Exclusive(leases)
    ensures Exclusive(Reconfigured(leases, assignments)) <==> Compatible(Dynamic(leases), Placed(assignments, true))
  {
    LoadedIsKeptPlusPlaced(Dynamic(leases), assignments, true);
    MergeExclusive(Dynamic(leases), Placed(assignments, true));
  }

  lemma OneEntry(leases: Table, e: Entry, isStatic: bool)
    requires Usable(e)
    ensures Loaded(leases, [e], isStatic) == leases[Lower(e.mac) := Lease(EntryIp(e), e.hostname, isStatic)]
  {
    assert [e][..0] == [];
  }

  /** A static assignment of an address that another client holds goes unnoticed. */
  lemma AssignmentMayCollide(mac: string, other: string, ip: IPv4)
    requires mac != Lower(other)
    ensures
      var leases := map[mac := Lease(Some(ip), "", false)];
      var e := Entry(other, true, V4(ip), "", false);
      Exclusive(leases) && !Exclusive(Reconfigured(leases, [e]))
  {
    var leases := map[mac := Lease(Some(ip), "", false)];
    var e := Entry(other, true, V4(ip), "", false);
    OneEntry(Dynamic(leases), e, true);
    var after := Reconfigured(leases, [e]);
    assert Holds(after, mac, ip) && Holds(after, Lower(other), ip);
  }
}
