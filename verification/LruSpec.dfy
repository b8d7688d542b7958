/**
 The response cache as a list of entries, most recently used first, and what holds of it
 over whole runs.
 */
module LruSpec {
  import opened Wrappers

  const NANOS_PER_SECOND := 1_000_000_000
  const DEFAULT_TTL_SECONDS := 60
  const RCODE_SUCCESS := 0

  datatype Record = Record(ttl: nat, data: string)
  datatype Msg = Msg(rcode: nat, answer: seq<Record>, ns: seq<Record>, extra: seq<Record>)
  datatype Key = Key(name: string, qtype: nat, dnssecMode: string)
  datatype Entry = Entry(msg: Msg, expiresAt: int)
  datatype Pair = Pair(key: Key, entry: Entry)

  /** Entries front first, and the lifetime counters. */
  datatype Lru = Lru(maxEntries: int, items: seq<Pair>, hits: nat, misses: nat, evictions: nat)

  // ----------------------------------------------------------------------------
  // Lists of entries
  // ----------------------------------------------------------------------------

  function Keys(items: seq<Pair>): set<Key> {
    set p | p in items :: p.key
  }

  ghost predicate Distinct(items: seq<Pair>) {
    forall i, j :: 0 <= i < j < |items| ==> items[i].key != items[j].key
  }

  function Lookup(items: seq<Pair>, key: Key): Option<Entry> {
    if items == [] then None
    else if items[0].key == key then Some(items[0].entry)
    else Lookup(items[1..], key)
  }

  function Drop(items: seq<Pair>, gone: set<Key>): seq<Pair> {
    if items == [] then []
    else if items[0].key in gone then Drop(items[1..], gone)
    else [items[0]] + Drop(items[1..], gone)
  }

  lemma {:induction false} LookupMember(items: seq<Pair>, key: Key)
    ensures Lookup(items, key).Some? <==> key in Keys(items)
    ensures Lookup(items, key).Some? ==> Pair(key, Lookup(items, key).value) in items
  {
    if items != [] {
      LookupMember(items[1..], key);
      assert items == [items[0]] + items[1..];
    }
  }

  lemma {:induction false} DropMembers(items: seq<Pair>, gone: set<Key>)
    ensures forall p :: p in Drop(items, gone) <==> p in items && p.key !in gone
    ensures |Drop(items, gone)| <= |items|
  {
    if items != [] {
      DropMembers(items[1..], gone);
      assert items == [items[0]] + items[1..];
    }
  }

  // ----------------------------------------------------------------------------
  // Operations
  // ----------------------------------------------------------------------------

  /** Time-to-live values are cut down to what remains of the entry's life. */
  function Clamp(rs: seq<Record>, remaining: nat): (r: seq<Record>)
    ensures |r| == |rs|
    ensures forall i :: 0 <= i < |rs| ==> r[i].data == rs[i].data
    ensures forall i :: 0 <= i < |rs| ==> r[i].ttl <= remaining && r[i].ttl <= rs[i].ttl
    ensures forall i :: 0 <= i < |rs| ==> r[i].ttl == remaining || r[i].ttl == rs[i].ttl
  {
    seq(|rs|, i requires 0 <= i < |rs| => if rs[i].ttl > remaining then rs[i].(ttl := remaining) else rs[i])
  }

  function Aged(e: Entry, now: int): Msg
    requires e.expiresAt > now
  {
    var secs := (e.expiresAt - now) / NANOS_PER_SECOND;
    e.msg.(answer := Clamp(e.msg.answer, secs), ns := Clamp(e.msg.ns, secs), extra := Clamp(e.msg.extra, secs))
  }

  function GetReply(l: Lru, key: Key, now: int): Option<Msg> {
    var e := Lookup(l.items, key);
    if e.Some? && e.value.expiresAt > now then Some(Aged(e.value, now)) else None
  }

  /** A hit moves the entry to the front; an expired entry is evicted. */
  function Get(l: Lru, key: Key, now: int): Lru {
    var e := Lookup(l.items, key);
    if e.None? then l.(misses := l.misses + 1)
    else if e.value.expiresAt <= now then
      l.(items := Drop(l.items, {key}), evictions := l.evictions + 1, misses := l.misses + 1)
    else l.(items := [Pair(key, e.value)] + Drop(l.items, {key}), hits := l.hits + 1)
  }

  predicate Cacheable(msg: Option<Msg>) {
    msg.Some? && msg.value.rcode == RCODE_SUCCESS && |msg.value.answer| > 0
  }

  function NewEntry(msg: Msg, now: int): Entry
    requires |msg.answer| > 0
  {
    var ttl := if msg.answer[0].ttl > 0 then msg.answer[0].ttl else DEFAULT_TTL_SECONDS;
    Entry(msg, now + ttl * NANOS_PER_SECOND)
  }

  predicate Full(l: Lru) {
    l.maxEntries > 0 && |l.items| >= l.maxEntries && |l.items| > 0
  }

  /** A known key is refreshed; for a new key the entry at the back makes room when the cache is full. */
  function Set(l: Lru, key: Key, msg: Option<Msg>, now: int): Lru {
    if !Cacheable(msg) then l
    else
      var p := Pair(key, NewEntry(msg.value, now));
      if Lookup(l.items, key).Some? then l.(items := [p] + Drop(l.items, {key}))
      else if Full(l) then l.(items := [p] + l.items[..|l.items| - 1], evictions := l.evictions + 1)
      else l.(items := [p] + l.items)
  }

  function PurgeAll(l: Lru): Lru {
    l.(items := [])
  }

  function Named(items: seq<Pair>, matches: string -> bool): set<Key> {
    set p | p in items && matches(p.key.name) :: p.key
  }

  /** Drops every entry whose name matches, whatever its query type. */
  function PurgeNamed(l: Lru, matches: string -> bool): Lru {
    l.(items := Drop(l.items, Named(l.items, matches)))
  }

  // ----------------------------------------------------------------------------
  // Runs
  // ----------------------------------------------------------------------------

  datatype Op =
    | GetOp(key: Key, now: int)
    | SetOp(key: Key, msg: Option<Msg>, now: int)
    | PurgeAllOp
    | PurgeNamedOp(matches: string -> bool)

  function Do(l: Lru, op: Op): Lru {
    match op
    case GetOp(key, now) => Get(l, key, now)
    case SetOp(key, msg, now) => Set(l, key, msg, now)
    case PurgeAllOp => PurgeAll(l)
    case PurgeNamedOp(matches) => PurgeNamed(l, matches)
  }

  ghost function Run(maxEntries: int, ops: seq<Op>): Lru {
    if ops == [] then Lru(maxEntries, [], 0, 0, 0)
    else Do(Run(maxEntries, ops[..|ops| - 1]), ops[|ops| - 1])
  }

  /** The key an operation uses: a hit or a stored response. */
  function Touched(l: Lru, op: Op): Option<Key> {
    match op
    case GetOp(key, now) => if GetReply(l, key, now).Some? then Some(key) else None
    case SetOp(key, msg, _) => if Cacheable(msg) then Some(key) else None
    case _ => None
  }

  /** The (1-based) position of the last operation of a run that touched the key; 0 if none did. */
  ghost function LastTouch(maxEntries: int, ops: seq<Op>, key: Key): (r: nat)
    ensures r <= |ops|
  {
    if ops == [] then 0
    else if Touched(Run(maxEntries, ops[..|ops| - 1]), ops[|ops| - 1]) == Some(key) then |ops|
    else LastTouch(maxEntries, ops[..|ops| - 1], key)
  }

  /** The entry made by the last response stored under the key. */
  ghost function LastSet(ops: seq<Op>, key: Key): Option<Entry> {
    if ops == [] then None
    else
      var op := ops[|ops| - 1];
      if op.SetOp? && op.key == key && Cacheable(op.msg) then Some(NewEntry(op.msg.value, op.now))
      else LastSet(ops[..|ops| - 1], key)
  }

  /** New-key inserts of a run. */
  ghost function Inserted(maxEntries: int, ops: seq<Op>): nat {
    if ops == [] then 0
    else
      var l, op := Run(maxEntries, ops[..|ops| - 1]), ops[|ops| - 1];
      Inserted(maxEntries, ops[..|ops| - 1])
      + if op.SetOp? && Cacheable(op.msg) && Lookup(l.items, op.key).None? then 1 else 0
  }

  /** The numbers returned by the purges of a run, added up. */
  ghost function Purged(maxEntries: int, ops: seq<Op>): int {
    if ops == [] then 0
    else
      var l, op := Run(maxEntries, ops[..|ops| - 1]), ops[|ops| - 1];
      Purged(maxEntries, ops[..|ops| - 1])
      + if op.PurgeAllOp? || op.PurgeNamedOp? then |l.items| - |Do(l, op).items| else 0
  }

  lemma {:induction false} DropDistinct(items: seq<Pair>, gone: set<Key>)
    requires Distinct(items)
    ensures Distinct(Drop(items, gone))
  {
    if items != [] {
      var rest := Drop(items[1..], gone);
      DropDistinct(items[1..], gone);
      DropMembers(items[1..], gone);
      assert forall i :: 0 <= i < |rest| ==> rest[i] in items[1..];
    }
  }

  lemma {:induction false} DropNothing(items: seq<Pair>, gone: set<Key>)
    requires Keys(items) !! gone
    ensures Drop(items, gone) == items
  {
    if items != [] {
      assert items[0] in items && items[0].key in Keys(items);
      DropNothing(items[1..], gone);
    }
  }

  lemma {:induction false} DropOne(items: seq<Pair>, key: Key)
    requires Distinct(items) && Lookup(items, key).Some?
    ensures |Drop(items, {key})| == |items| - 1
  {
    if items[0].key == key {
      assert forall i :: 0 <= i < |items[1..]| ==> items[1..][i].key != key;
      DropNothing(items[1..], {key});
    } else {
      DropOne(items[1..], key);
    }
  }

  lemma {:induction false} DropTwice(items: seq<Pair>, a: set<Key>, b: set<Key>)
    ensures Drop(Drop(items, a), b) == Drop(items, a + b)
  {
    if items != [] {
      DropTwice(items[1..], a, b);
    }
  }

  ghost predicate Inv(l: Lru) {
    Distinct(l.items) && (l.maxEntries > 0 ==> |l.items| <= l.maxEntries)
  }

  lemma FrontDistinct(p: Pair, items: seq<Pair>)
    requires Distinct(items) && p.key !in Keys(items)
    ensures Distinct([p] + items)
  {
    assert forall i :: 0 <= i < |items| ==> items[i] in items && items[i].key in Keys(items);
  }

  lemma FrontAfterDrop(p: Pair, items: seq<Pair>)
    requires Distinct(items) && Lookup(items, p.key).Some?
    ensures Distinct([p] + Drop(items, {p.key})) && |[p] + Drop(items, {p.key})| == |items|
  {
    DropDistinct(items, {p.key});
    DropMembers(items, {p.key});
    DropOne(items, p.key);
    FrontDistinct(p, Drop(items, {p.key}));
  }

  /** Every operation keeps the keys distinct and a bounded cache within its bound. */
  lemma DoKeepsInv(l: Lru, op: Op)
    requires Inv(l)
    ensures Inv(Do(l, op)) && Do(l, op).maxEntries == l.maxEntries
  {
    match op
    case GetOp(key, now) =>
      var e := Lookup(l.items, key);
      DropDistinct(l.items, {key});
      DropMembers(l.items, {key});
      if e.Some? { FrontAfterDrop(Pair(key, e.value), l.items); }
    case SetOp(key, msg, now) => if Cacheable(msg) { SetKeepsInv(l, key, msg, now); }
    case PurgeAllOp =>
    case PurgeNamedOp(matches) =>
      DropDistinct(l.items, Named(l.items, matches));
      DropMembers(l.items, Named(l.items, matches));
  }

  lemma SetKeepsInv(l: Lru, key: Key, msg: Option<Msg>, now: int)
    requires Inv(l) && Cacheable(msg)
    ensures Inv(Set(l, key, msg, now))
  {
    var p := Pair(key, NewEntry(msg.value, now));
    LookupMember(l.items, key);
    if Lookup(l.items, key).Some? {
      FrontAfterDrop(p, l.items);
    } else if Full(l) {
      FrontDistinct(p, l.items[..|l.items| - 1]);
    } else {
      FrontDistinct(p, l.items);
    }
  }

  lemma {:induction false} RunKeepsInv(maxEntries: int, ops: seq<Op>)
    ensures Inv(Run(maxEntries, ops)) && Run(maxEntries, ops).maxEntries == maxEntries
  {
    if ops != [] {
      RunKeepsInv(maxEntries, ops[..|ops| - 1]);
      DoKeepsInv(Run(maxEntries, ops[..|ops| - 1]), ops[|ops| - 1]);
    }
  }

  /** Conservation: inserts are what is stored, what was evicted and what was purged. */
  lemma {:induction false} Conservation(maxEntries: int, ops: seq<Op>)
    ensures Inserted(maxEntries, ops) ==
      |Run(maxEntries, ops).items| + Run(maxEntries, ops).evictions + Purged(maxEntries, ops)
  {
    if ops != [] {
      var before, op := ops[..|ops| - 1], ops[|ops| - 1];
      Conservation(maxEntries, before);
      RunKeepsInv(maxEntries, before);
      var l := Run(maxEntries, before);
      if (op.GetOp? || op.SetOp?) && Lookup(l.items, op.key).Some? {
        DropOne(l.items, op.key);
      }
    }
  }

  /** What is stored under a key is what was last stored under it. */
  lemma {:induction false} StoredIsLastSet(maxEntries: int, ops: seq<Op>)
    ensures forall p :: p in Run(maxEntries, ops).items ==> LastSet(ops, p.key) == Some(p.entry)
  {
    if ops != [] {
      StoredIsLastSet(maxEntries, ops[..|ops| - 1]);
      StoredStep(Run(maxEntries, ops[..|ops| - 1]), ops[|ops| - 1]);
    }
  }

  lemma StoredStep(l: Lru, op: Op)
    ensures forall p :: p in Do(l, op).items ==>
      if op.SetOp? && p.key == op.key && Cacheable(op.msg) then p.entry == NewEntry(op.msg.value, op.now)
      else p in l.items
  {
    match op
    case GetOp(key, _) =>
      DropMembers(l.items, {key});
      LookupMember(l.items, key);
    case SetOp(key, _, _) =>
      DropMembers(l.items, {key});
      LookupMember(l.items, key);
      assert forall p :: p in l.items ==> p.key in Keys(l.items);
    case PurgeAllOp =>
    case PurgeNamedOp(matches) => DropMembers(l.items, Named(l.items, matches));
  }

  /** A hit after any run returns the response last stored under the key, aged. */
  lemma HitReturnsLastSet(maxEntries: int, ops: seq<Op>, key: Key, now: int)
    requires GetReply(Run(maxEntries, ops), key, now).Some?
    ensures LastSet(ops, key).Some? && LastSet(ops, key).value.expiresAt > now
    ensures GetReply(Run(maxEntries, ops), key, now) == Some(Aged(LastSet(ops, key).value, now))
  {
    StoredIsLastSet(maxEntries, ops);
    LookupMember(Run(maxEntries, ops).items, key);
  }

  // ----------------------------------------------------------------------------
  // Recency
  // ----------------------------------------------------------------------------

  ghost predicate Recency(maxEntries: int, ops: seq<Op>, items: seq<Pair>) {
    && (forall i :: 0 <= i < |items| ==> LastTouch(maxEntries, ops, items[i].key) > 0)
    && (forall i, j :: 0 <= i < j < |items| ==>
      LastTouch(maxEntries, ops, items[i].key) > LastTouch(maxEntries, ops, items[j].key))
  }

  lemma {:induction false} DropRecency(maxEntries: int, ops: seq<Op>, items: seq<Pair>, gone: set<Key>)
    requires Recency(maxEntries, ops, items)
    ensures Recency(maxEntries, ops, Drop(items, gone))
  {
    if items != [] {
      DropRecency(maxEntries, ops, items[1..], gone);
      DropMembers(items[1..], gone);
      RecencyCons(maxEntries, ops, items[0], items[1..], Drop(items[1..], gone));
    }
  }

  lemma RecencyCons(maxEntries: int, ops: seq<Op>, p: Pair, rest: seq<Pair>, fewer: seq<Pair>)
    requires Recency(maxEntries, ops, [p] + rest) && Recency(maxEntries, ops, fewer)
    requires forall q :: q in fewer ==> q in rest
    ensures Recency(maxEntries, ops, [p] + fewer)
  {
    var all := [p] + rest;
    forall i | 0 <= i < |fewer| ensures LastTouch(maxEntries, ops, p.key) > LastTouch(maxEntries, ops, fewer[i].key) {
      assert fewer[i] in rest;
      var j :| 0 <= j < |rest| && rest[j] == fewer[i];
      assert all[0] == p && all[j + 1] == fewer[i];
    }
    assert all[0] == p;
  }

  lemma LastTouchStep(maxEntries: int, ops: seq<Op>, op: Op, key: Key)
    ensures LastTouch(maxEntries, ops + [op], key) ==
      if Touched(Run(maxEntries, ops), op) == Some(key) then |ops| + 1 else LastTouch(maxEntries, ops, key)
  {
    assert (ops + [op])[..|ops|] == ops;
  }

  /** One more operation that touches none of the listed keys leaves their recency as it was. */
  lemma RecencyLater(maxEntries: int, ops: seq<Op>, op: Op, items: seq<Pair>)
    requires Recency(maxEntries, ops, items)
    requires var t := Touched(Run(maxEntries, ops), op); t.Some? ==> t.value !in Keys(items)
    ensures Recency(maxEntries, ops + [op], items)
  {
    forall i | 0 <= i < |items|
      ensures LastTouch(maxEntries, ops + [op], items[i].key) == LastTouch(maxEntries, ops, items[i].key)
    {
      assert items[i] in items && items[i].key in Keys(items);
      LastTouchStep(maxEntries, ops, op, items[i].key);
    }
  }

  lemma RecencyFront(maxEntries: int, ops: seq<Op>, op: Op, p: Pair, rest: seq<Pair>)
    requires Recency(maxEntries, ops, rest) && Touched(Run(maxEntries, ops), op) == Some(p.key)
    requires p.key !in Keys(rest)
    ensures Recency(maxEntries, ops + [op], [p] + rest)
  {
    LastTouchStep(maxEntries, ops, op, p.key);
    RecencyLater(maxEntries, ops, op, rest);
    forall i | 0 <= i < |rest| ensures LastTouch(maxEntries, ops + [op], rest[i].key) <= |ops| {
      assert rest[i] in rest && rest[i].key in Keys(rest);
      LastTouchStep(maxEntries, ops, op, rest[i].key);
    }
  }

  /** After any run the list is ordered by last touch, most recent first. */
  lemma {:induction false} ListIsByRecency(maxEntries: int, ops: seq<Op>)
    ensures Recency(maxEntries, ops, Run(maxEntries, ops).items)
  {
    if ops != [] {
      var before, op := ops[..|ops| - 1], ops[|ops| - 1];
      assert ops == before + [op];
      ListIsByRecency(maxEntries, before);
      RecencyStep(maxEntries, before, op);
    }
  }

  lemma RecencyStep(maxEntries: int, ops: seq<Op>, op: Op)
    requires Recency(maxEntries, ops, Run(maxEntries, ops).items)
    ensures Recency(maxEntries, ops + [op], Run(maxEntries, ops + [op]).items)
  {
    assert (ops + [op])[..|ops|] == ops;
    var l := Run(maxEntries, ops);
    match op
    case GetOp(key, now) => RecencyGet(maxEntries, ops, key, now);
    case SetOp(key, msg, now) =>
      if Cacheable(msg) { RecencySet(maxEntries, ops, op); } else { RecencyLater(maxEntries, ops, op, l.items); }
    case PurgeAllOp =>
    case PurgeNamedOp(matches) =>
      DropRecency(maxEntries, ops, l.items, Named(l.items, matches));
      RecencyLater(maxEntries, ops, op, PurgeNamed(l, matches).items);
  }

  lemma RecencyGet(maxEntries: int, ops: seq<Op>, key: Key, now: int)
    requires Recency(maxEntries, ops, Run(maxEntries, ops).items)
    ensures Recency(maxEntries, ops + [GetOp(key, now)], Get(Run(maxEntries, ops), key, now).items)
  {
    var l, op := Run(maxEntries, ops), GetOp(key, now);
    var e := Lookup(l.items, key);
    DropRecency(maxEntries, ops, l.items, {key});
    DropMembers(l.items, {key});
    if e.Some? && e.value.expiresAt > now {
      RecencyFront(maxEntries, ops, op, Pair(key, e.value), Drop(l.items, {key}));
    } else {
      RecencyLater(maxEntries, ops, op, Get(l, key, now).items);
    }
  }

  lemma RecencySet(maxEntries: int, ops: seq<Op>, op: Op)
    requires Recency(maxEntries, ops, Run(maxEntries, ops).items) && op.SetOp? && Cacheable(op.msg)
    ensures Recency(maxEntries, ops + [op], Do(Run(maxEntries, ops), op).items)
  {
    var l := Run(maxEntries, ops);
    var p := Pair(op.key, NewEntry(op.msg.value, op.now));
    LookupMember(l.items, op.key);
    if Lookup(l.items, op.key).Some? {
      DropRecency(maxEntries, ops, l.items, {op.key});
      DropMembers(l.items, {op.key});
      RecencyFront(maxEntries, ops, op, p, Drop(l.items, {op.key}));
    } else {
      var n := if Full(l) then |l.items| - 1 else |l.items|;
      assert l.items[..|l.items|] == l.items;
      RecencyPrefix(maxEntries, ops, l.items, n);
      RecencyFront(maxEntries, ops, op, p, l.items[..n]);
    }
  }

  lemma RecencyPrefix(maxEntries: int, ops: seq<Op>, items: seq<Pair>, n: nat)
    requires Recency(maxEntries, ops, items) && n <= |items|
    ensures Recency(maxEntries, ops, items[..n]) && Keys(items[..n]) <= Keys(items)
  {
    assert forall i :: 0 <= i < n ==> items[..n][i] == items[i];
    forall k | k in Keys(items[..n]) ensures k in Keys(items) {
      var q :| q in items[..n] && q.key == k;
      assert q in items;
    }
  }

  /** A store under a new key in a full cache, and the key it pushes out at the back. */
  ghost predicate EvictsForRoom(l: Lru, op: Op, victim: Key) {
    && op.SetOp? && Cacheable(op.msg) && Lookup(l.items, op.key).None? && Full(l)
    && victim == l.items[|l.items| - 1].key
  }

  lemma {:induction false} DistinctCount(items: seq<Pair>)
    requires Distinct(items)
    ensures |Keys(items)| == |items|
  {
    if items != [] {
      var n := |items| - 1;
      DistinctCount(items[..n]);
      assert items == items[..n] + [items[n]];
      assert Keys(items) == Keys(items[..n]) + {items[n].key};
    }
  }

  /** Everything in front of the last entry was touched after it. */
  lemma AheadIsLater(maxEntries: int, ops: seq<Op>, items: seq<Pair>, victim: Key)
    requires Recency(maxEntries, ops, items) && items != [] && victim == items[|items| - 1].key
    ensures forall k :: k in Keys(items[..|items| - 1]) ==>
      k != victim && LastTouch(maxEntries, ops, k) > LastTouch(maxEntries, ops, victim)
  {
    var ahead := items[..|items| - 1];
    forall k | k in Keys(ahead)
      ensures k != victim && LastTouch(maxEntries, ops, k) > LastTouch(maxEntries, ops, victim)
    {
      var i :| 0 <= i < |ahead| && ahead[i].key == k;
      assert items[i] == ahead[i];
    }
  }

  /**
   A key evicted for room had at least maxEntries other keys touched since its own last
   touch, counting the key that takes its place.
   */
  lemma EvictedWasLeastRecent(maxEntries: int, ops: seq<Op>, op: Op, victim: Key) returns (others: set<Key>)
    requires EvictsForRoom(Run(maxEntries, ops), op, victim)
    ensures |others| >= maxEntries && victim !in others
    ensures forall k :: k in others ==>
      LastTouch(maxEntries, ops + [op], k) > LastTouch(maxEntries, ops + [op], victim)
    ensures LastTouch(maxEntries, ops + [op], victim) > 0
  {
    var items := Run(maxEntries, ops).items;
    var ahead := items[..|items| - 1];
    RunKeepsInv(maxEntries, ops);
    ListIsByRecency(maxEntries, ops);
    AheadIsLater(maxEntries, ops, items, victim);
    others := Keys(ahead) + {op.key};
    DistinctCount(ahead);
    NewKeyIsAbsent(items, op.key);
    forall k | k in others
      ensures LastTouch(maxEntries, ops + [op], k) > LastTouch(maxEntries, ops + [op], victim)
    {
      LastTouchStep(maxEntries, ops, op, k);
      LastTouchStep(maxEntries, ops, op, victim);
    }
    LastTouchStep(maxEntries, ops, op, victim);
  }

  lemma NewKeyIsAbsent(items: seq<Pair>, key: Key)
    requires Lookup(items, key).None? && items != []
    ensures key !in Keys(items[..|items| - 1]) && key != items[|items| - 1].key
  {
    LookupMember(items, key);
    assert items[|items| - 1] in items && items[|items| - 1].key in Keys(items);
    assert forall p :: p in items[..|items| - 1] ==> p in items && p.key in Keys(items);
  }

  /** The evicted key is gone. */
  lemma EvictedIsGone(l: Lru, op: Op, victim: Key)
    requires Inv(l) && EvictsForRoom(l, op, victim)
    ensures Lookup(Do(l, op).items, victim).None?
  {
    var items, after := l.items, Do(l, op).items;
    NewKeyIsAbsent(items, op.key);
    LookupMember(after, victim);
    forall p | p in after ensures p.key != victim {
      var i :| 0 <= i < |after| && after[i] == p;
      assert i > 0 ==> after[i] == items[i - 1];
    }
  }

  // ----------------------------------------------------------------------------
  // How long an entry lives
  // ----------------------------------------------------------------------------

  /** The operation stores a response under the key: a successful one with an answer. */
  predicate Stores(op: Op, key: Key) {
    op.SetOp? && op.key == key && op.msg.Some? && op.msg.value.rcode == 0 && op.msg.value.answer != []
  }

  /** The operation is the last one of a run that stores under the key. */
  ghost predicate IsLastStore(ops: seq<Op>, key: Key, i: nat) {
    i < |ops| && Stores(ops[i], key) && forall j :: i < j < |ops| ==> !Stores(ops[j], key)
  }

  /** When what a store put under its key runs out: after the first record's time to live, or a minute if that is 0. */
  function RunsOut(op: Op): int
    requires op.SetOp? && Stores(op, op.key)
  {
    op.now + 1_000_000_000 * (if op.msg.value.answer[0].ttl == 0 then 60 else op.msg.value.answer[0].ttl)
  }

  /** The records of a reply: the stored data, and as time to live the lesser of the stored one and the seconds left. */
  ghost predicate AgedBy(stored: seq<Record>, reply: seq<Record>, left: int) {
    && |reply| == |stored|
    && forall i :: 0 <= i < |stored| ==>
      reply[i].data == stored[i].data && reply[i].ttl == if stored[i].ttl < left then stored[i].ttl else left
  }

  lemma {:induction false} LastSetIsLastStore(ops: seq<Op>, key: Key) returns (i: nat)
    requires LastSet(ops, key).Some?
    ensures IsLastStore(ops, key, i)
    ensures LastSet(ops, key).value.msg == ops[i].msg.value && LastSet(ops, key).value.expiresAt == RunsOut(ops[i])
  {
    var n := |ops| - 1;
    if Stores(ops[n], key) {
      i := n;
    } else {
      i := LastSetIsLastStore(ops[..n], key);
      assert ops[..n][i] == ops[i];
    }
  }

  /**
   After every run, a lookup of a stored key is a hit exactly until the last response stored
   under it runs out, and replies with that response, its records aged.
   */
  lemma HitIff(maxEntries: int, ops: seq<Op>, key: Key, now: int) returns (i: nat)
    requires key in Keys(Run(maxEntries, ops).items)
    ensures IsLastStore(ops, key, i)
    ensures GetReply(Run(maxEntries, ops), key, now).Some? <==> now < RunsOut(ops[i])
    ensures now < RunsOut(ops[i]) ==>
      var m, reply := ops[i].msg.value, GetReply(Run(maxEntries, ops), key, now).value;
      var left := (RunsOut(ops[i]) - now) / 1_000_000_000;
      reply.rcode == m.rcode && AgedBy(m.answer, reply.answer, left) && AgedBy(m.ns, reply.ns, left)
      && AgedBy(m.extra, reply.extra, left)
  {
    var items := Run(maxEntries, ops).items;
    LookupMember(items, key);
    StoredIsLastSet(maxEntries, ops);
    i := LastSetIsLastStore(ops, key);
  }

  /** A key that is not stored is a miss. */
  lemma MissWithoutEntry(maxEntries: int, ops: seq<Op>, key: Key, now: int)
    requires key !in Keys(Run(maxEntries, ops).items)
    ensures GetReply(Run(maxEntries, ops), key, now).None?
  {
    LookupMember(Run(maxEntries, ops).items, key);
  }

  // ----------------------------------------------------------------------------
  // Which keys are stored
  // ----------------------------------------------------------------------------

  lemma KeysMembers(items: seq<Pair>, key: Key)
    ensures key in Keys(items) <==> exists i :: 0 <= i < |items| && items[i].key == key
  {
    if i :| 0 <= i < |items| && items[i].key == key {
      assert items[i] in items;
    }
  }

  /** A stored response is there at once, in front. */
  lemma StoredIsThere(maxEntries: int, ops: seq<Op>, op: Op)
    requires op.SetOp? && Stores(op, op.key)
    ensures var items := Run(maxEntries, ops + [op]).items;
      items != [] && items[0].key == op.key && op.key in Keys(items)
  {
    assert (ops + [op])[..|ops|] == ops;
    KeysMembers(Run(maxEntries, ops + [op]).items, op.key);
  }

  /** Nothing else brings a key in. */
  lemma OnlyStoresAdd(maxEntries: int, ops: seq<Op>, op: Op, key: Key)
    requires key !in Keys(Run(maxEntries, ops).items) && !Stores(op, key)
    ensures key !in Keys(Run(maxEntries, ops + [op]).items)
  {
    assert (ops + [op])[..|ops|] == ops;
    var l := Run(maxEntries, ops);
    StoredStep(l, op);
  }

  /** It takes the key out: a purge that names it, a lookup after it ran out, or a store that needs its place. */
  ghost predicate TakesOut(maxEntries: int, ops: seq<Op>, op: Op, key: Key) {
    match op
    case PurgeAllOp => true
    case PurgeNamedOp(matches) => matches(key.name)
    case GetOp(k, now) => k == key && exists i: nat :: IsLastStore(ops, key, i) && now >= RunsOut(ops[i])
    case SetOp(k, _, _) =>
      var items := Run(maxEntries, ops).items;
      k !in Keys(items) && Stores(op, k) && maxEntries > 0 && |items| == maxEntries && items[|items| - 1].key == key
  }

  /** A stored key goes exactly then. */
  lemma GoesIff(maxEntries: int, ops: seq<Op>, op: Op, key: Key)
    requires key in Keys(Run(maxEntries, ops).items)
    ensures key !in Keys(Run(maxEntries, ops + [op]).items) <==> TakesOut(maxEntries, ops, op, key)
  {
    assert (ops + [op])[..|ops|] == ops;
    var l := Run(maxEntries, ops);
    RunKeepsInv(maxEntries, ops);
    LookupMember(l.items, key);
    match op
    case PurgeAllOp =>
    case PurgeNamedOp(matches) => NamedGoes(l.items, matches, key);
    case GetOp(k, now) => LookupGoes(maxEntries, ops, k, now, key);
    case SetOp(k, msg, now) => if Cacheable(msg) { StoreGoes(l, op, key); }
  }

  lemma NamedGoes(items: seq<Pair>, matches: string -> bool, key: Key)
    requires key in Keys(items)
    ensures key in Keys(Drop(items, Named(items, matches))) <==> !matches(key.name)
  {
    var gone := Named(items, matches);
    DropMembers(items, gone);
    var p :| p in items && p.key == key;
    if !matches(key.name) { assert p in Drop(items, gone); }
  }

  lemma LookupGoes(maxEntries: int, ops: seq<Op>, k: Key, now: int, key: Key)
    requires key in Keys(Run(maxEntries, ops).items)
    ensures key !in Keys(Get(Run(maxEntries, ops), k, now).items) <==> TakesOut(maxEntries, ops, GetOp(k, now), key)
  {
    var l := Run(maxEntries, ops);
    LookupMember(l.items, k);
    DropMembers(l.items, {k});
    var p :| p in l.items && p.key == key;
    if k == key {
      var i := HitIff(maxEntries, ops, key, now);
      forall j | IsLastStore(ops, key, j) ensures j == i { }
      if now < RunsOut(ops[i]) {
        KeysMembers(Get(l, k, now).items, key);
        assert Get(l, k, now).items[0].key == key;
      }
    } else {
      var after := Get(l, k, now).items;
      assert Lookup(l.items, k).Some? ==> p in Drop(l.items, {k});
      assert p in after;
    }
  }

  lemma StoreGoes(l: Lru, op: Op, key: Key)
    requires Inv(l) && key in Keys(l.items) && op.SetOp? && Cacheable(op.msg)
    ensures key !in Keys(Do(l, op).items) <==>
      op.key !in Keys(l.items) && l.maxEntries > 0 && |l.items| == l.maxEntries && l.items[|l.items| - 1].key == key
  {
    var items, after := l.items, Do(l, op).items;
    LookupMember(items, op.key);
    DropMembers(items, {op.key});
    var i :| 0 <= i < |items| && items[i].key == key;
    KeysMembers(after, key);
    if Lookup(items, op.key).Some? {
      if key != op.key { assert items[i] in Drop(items, {op.key}); assert items[i] in after; }
      assert after[0].key == op.key;
    } else if Full(l) && i == |items| - 1 {
      assert forall j :: 1 <= j < |after| ==> after[j] == items[j - 1];
    } else {
      assert after[i + 1] == items[i];
    }
  }

  // ----------------------------------------------------------------------------
  // The counters
  // ----------------------------------------------------------------------------

  ghost function Lookups(ops: seq<Op>): nat {
    if ops == [] then 0 else Lookups(ops[..|ops| - 1]) + if ops[|ops| - 1].GetOp? then 1 else 0
  }

  /** The lookups of a run that replied. */
  ghost function Replies(maxEntries: int, ops: seq<Op>): nat {
    if ops == [] then 0
    else
      var before, op := ops[..|ops| - 1], ops[|ops| - 1];
      Replies(maxEntries, before)
      + if op.GetOp? && GetReply(Run(maxEntries, before), op.key, op.now).Some? then 1 else 0
  }

  /** Every lookup is counted once, as a hit if it replied and as a miss if not. */
  lemma {:induction false} CountersCount(maxEntries: int, ops: seq<Op>)
    ensures Run(maxEntries, ops).hits == Replies(maxEntries, ops)
    ensures Run(maxEntries, ops).hits + Run(maxEntries, ops).misses == Lookups(ops)
  {
    if ops != [] {
      CountersCount(maxEntries, ops[..|ops| - 1]);
    }
  }
}
