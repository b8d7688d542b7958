/** The query log: a bounded buffer that shifts its entries in place, and its paged reads. */
module QueryLog {
  import Paging

  datatype Entry = Entry(id: string, client: string, outcome: string, domain: string, details: string)

  // ----------------------------------------------------------------------------
  // What the operations do to the entries, oldest first
  // ----------------------------------------------------------------------------

  /** The last n entries, or all of them if there are no more. */
  function Newest(entries: seq<Entry>, n: nat): (r: seq<Entry>)
    ensures |r| == Paging.Min(n, |entries|)
  {
    if |entries| <= n then entries else entries[|entries| - n..]
  }

  /** With no room at all nothing is kept; else the oldest entry gives way. */
  function Appended(entries: seq<Entry>, maxEntries: nat, e: Entry): seq<Entry> {
    if maxEntries == 0 then entries
    else if |entries| >= maxEntries then entries[1..] + [e]
    else entries + [e]
  }

  function Limit(n: int): nat {
    if n < 0 then 0 else n
  }

  // ----------------------------------------------------------------------------
  // The buffer
  // ----------------------------------------------------------------------------

  /** Copies each element of a stretch onto the one before it. */
  method ShiftLeft(data: array<Entry>, off: nat, len: nat)
    requires 0 < len && off + len <= data.Length
    modifies data
    ensures data[off..off + len - 1] == old(data[off..off + len])[1..]
  {
    ghost var was := data[..];
    var i := off;
    while i < off + len - 1
      invariant off <= i <= off + len - 1
      invariant forall j :: off <= j < i ==> data[j] == was[j + 1]
      invariant forall j :: i <= j < data.Length ==> data[j] == was[j]
    {
      data[i] := data[i + 1];
      i := i + 1;
    }
  }

  /** The entries are a stretch of a backing array that other stretches may follow. */
  class Log {
    var data: array<Entry>
    var off: nat
    var len: nat
    var maxEntries: nat

    ghost predicate Valid()
      reads this
    {
      off + len <= data.Length && len <= maxEntries
    }

    ghost function Entries(): (s: seq<Entry>)
      reads this, data
      requires Valid()
      ensures |s| == len
    {
      data[off..off + len]
    }

    constructor (maxEntries: int)
      ensures Valid() && fresh(data) && Entries() == [] && this.maxEntries == Limit(maxEntries)
    {
      var n := Limit(maxEntries);
      this.maxEntries := n;
      data := new Entry[n](_ => Entry("", "", "", "", ""));
      off, len := 0, 0;
    }

    /** Moves the entries to the start of a larger array. */
    method Grow(fill: Entry)
      requires Valid()
      modifies this`data, this`off
      ensures Valid() && fresh(data) && off == 0 && len < data.Length
      ensures Entries() == old(Entries())
    {
      var larger := new Entry[2 * len + 1](_ => fill);
      var i := 0;
      while i < len
        invariant 0 <= i <= len && larger.Length == 2 * len + 1
        invariant data == old(data) && off == old(off) && len == old(len) && data[..] == old(data[..])
        invariant forall j :: 0 <= j < i ==> larger[j] == data[off + j]
      {
        larger[i] := data[off + i];
        i := i + 1;
      }
      assert larger[..len] == data[off..off + len];
      data, off := larger, 0;
    }

    /** Writes behind the last entry, into a larger array if this one is full. */
    method Push(e: Entry)
      requires Valid() && len < maxEntries
      modifies this`data, this`off, this`len, data
      ensures Valid() && (data == old(data) || fresh(data))
      ensures Entries() == old(Entries()) + [e]
    {
      if off + len == data.Length { Grow(e); }
      data[off + len] := e;
      len := len + 1;
    }

    method Append(e: Entry, freshId: string)
      requires Valid()
      modifies this`data, this`off, this`len, data
      ensures Valid() && (data == old(data) || fresh(data))
      ensures Entries() == Appended(old(Entries()), maxEntries, if e.id == "" then e.(id := freshId) else e)
    {
      var entry := if e.id == "" then e.(id := freshId) else e;
      if maxEntries > 0 {
        if len >= maxEntries {
          ShiftLeft(data, off, len);
          len := len - 1;
        }
        Push(entry);
      }
    }

    method SetMaxEntries(n: int)
      requires Valid()
      modifies this`off, this`len, this`maxEntries
      ensures Valid() && maxEntries == Limit(n)
      ensures Entries() == Newest(old(Entries()), Limit(n))
    {
      maxEntries := Limit(n);
      if len > maxEntries {
        var excess := len - maxEntries;
        off, len := off + excess, maxEntries;
      }
    }

    /** The last n entries, oldest first; all of them if n is not positive. */
    method Snapshot(n: int) returns (snap: seq<Entry>)
      requires Valid()
      ensures snap == if n <= 0 then Entries() else Newest(Entries(), n)
    {
      snap := data[off..off + len];
      if n <= 0 || n >= |snap| {
        return;
      }
      snap := snap[|snap| - n..];
    }

    method Query(client: string, outcome: string, limit: int, offset: int) returns (page: seq<Entry>, total: nat)
      requires Valid()
      ensures total == |Matching(Entries(), client, outcome)|
      ensures page == PageOf(Matching(Entries(), client, outcome), limit, offset)
    {
      var snapshot := data[off..off + len];
      var matched: seq<Entry> := [];
      var i := |snapshot|;
      assert snapshot[i..] == [];
      while i > 0
        invariant 0 <= i <= |snapshot|
        invariant matched == Matching(snapshot[i..], client, outcome)
      {
        i := i - 1;
        MatchingStep(snapshot, i, client, outcome);
        var e := snapshot[i];
        if client != "" && e.client != client {
          continue;
        }
        if outcome != "" && e.outcome != outcome {
          continue;
        }
        matched := matched + [e];
      }
      assert snapshot[0..] == snapshot;
      page, total := matched, |matched|;
      if offset > 0 {
        if offset >= |matched| {
          return [], total;
        }
        page := page[offset..];
      }
      if limit > 0 && |page| > limit {
        page := page[..limit];
      }
    }
  }

  // ----------------------------------------------------------------------------
  // Runs
  // ----------------------------------------------------------------------------

  datatype Op = AppendOp(e: Entry) | SetMaxOp(n: int)

  datatype State = State(entries: seq<Entry>, maxEntries: nat)

  function Do(s: State, op: Op): State {
    match op
    case AppendOp(e) => s.(entries := Appended(s.entries, s.maxEntries, e))
    case SetMaxOp(n) => State(Newest(s.entries, Limit(n)), Limit(n))
  }

  function Run(maxEntries: int, ops: seq<Op>): State {
    if ops == [] then State([], Limit(maxEntries)) else Do(Run(maxEntries, ops[..|ops| - 1]), ops[|ops| - 1])
  }

  /** Everything ever appended, oldest first. */
  function History(ops: seq<Op>): seq<Entry> {
    if ops == [] then []
    else
      var op := ops[|ops| - 1];
      History(ops[..|ops| - 1]) + if op.AppendOp? then [op.e] else []
  }

  /** How many of the last appended entries are kept: the limit cuts it, an append adds one up to it. */
  function Kept(maxEntries: int, ops: seq<Op>): nat {
    if ops == [] then 0
    else
      var before, op := ops[..|ops| - 1], ops[|ops| - 1];
      if op.AppendOp? then Paging.Min(Kept(maxEntries, before) + 1, Run(maxEntries, before).maxEntries)
      else Paging.Min(Kept(maxEntries, before), Limit(op.n))
  }

  lemma AppendedIsNewest(history: seq<Entry>, k: nat, maxEntries: nat, e: Entry)
    requires k <= |history| && k <= maxEntries
    ensures Appended(Newest(history, k), maxEntries, e) == Newest(history + [e], Paging.Min(k + 1, maxEntries))
  {
  }

  lemma NewestTwice(history: seq<Entry>, k: nat, n: nat)
    requires k <= |history|
    ensures Newest(Newest(history, k), n) == Newest(history, Paging.Min(k, n))
  {
  }

  /** The entries are always the newest of the history, exactly as many as are kept, within the limit. */
  lemma {:induction false} EntriesAreNewest(maxEntries: int, ops: seq<Op>)
    ensures
      var s := Run(maxEntries, ops);
      && Kept(maxEntries, ops) <= |History(ops)| && s.entries == Newest(History(ops), Kept(maxEntries, ops))
      && |s.entries| == Kept(maxEntries, ops) <= s.maxEntries
  {
    if ops != [] {
      var before, op := ops[..|ops| - 1], ops[|ops| - 1];
      EntriesAreNewest(maxEntries, before);
      if op.AppendOp? {
        AppendedIsNewest(History(before), Kept(maxEntries, before), Run(maxEntries, before).maxEntries, op.e);
      } else {
        NewestTwice(History(before), Kept(maxEntries, before), Limit(op.n));
        assert History(ops) == History(before);
      }
    }
  }

  // ----------------------------------------------------------------------------
  // Reads
  // ----------------------------------------------------------------------------

  predicate Matches(e: Entry, client: string, outcome: string) {
    (client == "" || e.client == client) && (outcome == "" || e.outcome == outcome)
  }

  /** The entries that pass the filter, newest first. */
  function Matching(entries: seq<Entry>, client: string, outcome: string): seq<Entry> {
    Paging.Filter(Paging.Reverse(entries), (e: Entry) => Matches(e, client, outcome))
  }

  lemma MatchingStep(entries: seq<Entry>, i: nat, client: string, outcome: string)
    requires i < |entries|
    ensures Matching(entries[i..], client, outcome) ==
      Matching(entries[i + 1..], client, outcome) + if Matches(entries[i], client, outcome) then [entries[i]] else []
  {
    assert entries[i..][1..] == entries[i + 1..];
    Paging.FilterSnoc(Paging.Reverse(entries[i + 1..]), entries[i], (e: Entry) => Matches(e, client, outcome));
  }

  /** A limit that is not positive is no limit, and a negative offset is none. */
  function PageOf(matches: seq<Entry>, limit: int, offset: int): seq<Entry> {
    if limit > 0 then Paging.Page(matches, Limit(offset), limit) else matches[Paging.Min(Limit(offset), |matches|)..]
  }

  /** What a caller gets by asking for page after page. */
  function QueriedPages(
      entries: seq<Entry>, client: string, outcome: string, limit: nat, start: nat, pages: nat): seq<Entry>
    decreases pages
  {
    if pages == 0 then [] else
      PageOf(Matching(entries, client, outcome), limit, start)
      + QueriedPages(entries, client, outcome, limit, start + limit, pages - 1)
  }

  lemma {:induction false} QueriedPagesArePages(
    entries: seq<Entry>, client: string, outcome: string, limit: nat, start: nat, pages: nat)
    requires limit > 0
    ensures QueriedPages(entries, client, outcome, limit, start, pages) ==
      Paging.Pages(Matching(entries, client, outcome), limit, start, pages)
    decreases pages
  {
    if pages > 0 {
      QueriedPagesArePages(entries, client, outcome, limit, start + limit, pages - 1);
    }
  }

  /** Consecutive pages tile the matching entries: nothing is skipped and nothing repeated. */
  lemma QueryPagesTile(entries: seq<Entry>, client: string, outcome: string, limit: nat, pages: nat)
    requires limit > 0
    ensures QueriedPages(entries, client, outcome, limit, 0, pages) <= Matching(entries, client, outcome)
    ensures pages >= |Matching(entries, client, outcome)| ==>
      QueriedPages(entries, client, outcome, limit, 0, pages) == Matching(entries, client, outcome)
  {
    QueriedPagesArePages(entries, client, outcome, limit, 0, pages);
    Paging.PagesTile(Matching(entries, client, outcome), limit, 0, pages);
  }

  /** The entry is of the client and outcome asked for; an empty one asks for all. */
  predicate AskedFor(e: Entry, client: string, outcome: string) {
    (client != "" ==> e.client == client) && (outcome != "" ==> e.outcome == outcome)
  }

  function Number(entries: seq<Entry>, client: string, outcome: string): nat {
    if entries == [] then 0
    else Number(entries[1..], client, outcome) + if AskedFor(entries[0], client, outcome) then 1 else 0
  }

  lemma {:induction false} NewestFirst(entries: seq<Entry>, client: string, outcome: string, i: nat)
    requires i <= |entries|
    ensures |Matching(entries, client, outcome)| == Number(entries, client, outcome)
    ensures i < |entries| && AskedFor(entries[i], client, outcome) ==>
      Number(entries[i + 1..], client, outcome) < Number(entries, client, outcome)
      && Matching(entries, client, outcome)[Number(entries[i + 1..], client, outcome)] == entries[i]
  {
    if entries != [] {
      assert entries[0..] == entries;
      MatchingStep(entries, 0, client, outcome);
      NewestFirst(entries[1..], client, outcome, if i == 0 then 0 else i - 1);
      assert i > 0 && i < |entries| ==> entries[1..][i - 1 + 1..] == entries[i + 1..];
    }
  }

  /** A page has what is left behind the offset, up to the limit if there is one. */
  lemma PageSize(entries: seq<Entry>, client: string, outcome: string, limit: int, offset: int)
    ensures var total, skip := Number(entries, client, outcome), if offset > 0 then offset else 0;
      |PageOf(Matching(entries, client, outcome), limit, offset)| ==
        if total <= skip then 0 else if limit <= 0 || total - skip <= limit then total - skip else limit
  {
    NewestFirst(entries, client, outcome, |entries|);
  }

  /** An entry asked for is on the page at the place given by how many newer ones are asked for, if the page has it. */
  lemma PageShows(entries: seq<Entry>, client: string, outcome: string, limit: int, offset: int, i: nat)
    requires i < |entries| && AskedFor(entries[i], client, outcome)
    ensures var newer, skip := Number(entries[i + 1..], client, outcome), if offset > 0 then offset else 0;
      var page := PageOf(Matching(entries, client, outcome), limit, offset);
      skip <= newer && (limit <= 0 || newer < skip + limit) ==>
        newer - skip < |page| && page[newer - skip] == entries[i]
  {
    NewestFirst(entries, client, outcome, i);
  }

  /** The limit in force is the last one set, or the first one; a negative one keeps nothing. */
  lemma {:induction false} LimitInForce(maxEntries: int, ops: seq<Op>)
    ensures var m := Run(maxEntries, ops).maxEntries;
      && (forall i :: LastSet(ops, i) ==> m == if ops[i].n > 0 then ops[i].n else 0)
      && ((forall i :: 0 <= i < |ops| ==> !ops[i].SetMaxOp?) ==> m == if maxEntries > 0 then maxEntries else 0)
  {
    if ops != [] {
      var before := ops[..|ops| - 1];
      LimitInForce(maxEntries, before);
      forall i | LastSet(ops, i) && i < |before| ensures LastSet(before, i) { }
    }
  }

  ghost predicate LastSet(ops: seq<Op>, i: int) {
    0 <= i < |ops| && ops[i].SetMaxOp? && forall j :: i < j < |ops| ==> !ops[j].SetMaxOp?
  }
}
