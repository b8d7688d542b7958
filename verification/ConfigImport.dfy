/**
 The configuration view of the replicated store: Snapshot reads the configuration
 buckets into one document, Import wipes and rewrites the buckets from a document.
 Parts that neither inspects are carried as opaque text.
 */
module ConfigImport {
  import opened Wrappers
  import opened Strings
  import opened KeyOrder

  type Json = string

  const ZERO_DOCUMENT: Json := ""
  const DEFAULT_PAUSE_MAX_SECONDS := 86400
  /** Stored when the pause ceiling was never configured. */
  const PAUSE_MAX_UNSET := -1

  datatype Listen = Listen(port: int, ipv4: bool, ipv6: bool, dohPort: int, dotPort: int)
  const NO_LISTEN := Listen(0, false, false, 0, 0)

  datatype DnsConfig = DnsConfig(listen: Listen, body: Json)
  datatype PauseState = PauseState(resumesAt: int, reason: string, profileIds: seq<string>, clientIps: seq<string>)
  datatype StoredFiltering = StoredFiltering(blockPolicy: string, pauseMaxSeconds: int, blockPage: Json)
  datatype Credentials = Credentials(username: string, passwordHash: string, sessionTimeoutSeconds: int)
  datatype Blocklist = Blocklist(id: string, enabled: bool, body: Json)
  datatype LocalEntry = LocalEntry(id: string, body: Json)
  datatype AllowEntry = AllowEntry(domain: string, expiresAt: Option<int>, note: string, scheduleId: string)

  /** A value of the allowlist bucket: empty, or an encoded entry. */
  datatype AllowValue = Plain | Rich(entry: AllowEntry)

  datatype Settings = Settings(
    dns: Option<DnsConfig>, filtering: Option<StoredFiltering>, queryLog: Option<Json>,
    globalPause: Option<PauseState>, customRules: Option<string>)

  const NO_SETTINGS := Settings(None, None, None, None, None)

  /** The five buckets that an import wipes and rewrites. */
  datatype Buckets = Buckets(
    blocklists: map<string, Blocklist>, allowlist: map<string, AllowValue>,
    localDns: map<string, LocalEntry>, settings: Settings, auth: Option<Credentials>)

  const EMPTY := Buckets(map[], map[], map[], NO_SETTINGS, None)

  datatype Config = Config(
    blocklists: seq<Blocklist>, allowlist: seq<string>, allowlistEntries: seq<AllowEntry>,
    localDns: seq<LocalEntry>, dns: DnsConfig, blockPolicy: string, pauseMaxSeconds: int,
    blockPage: Json, globalPause: Option<PauseState>, customRules: string, queryLog: Json,
    credentials: Credentials)

  function Unwrap<T>(o: Option<T>, default: T): T {
    if o.Some? then o.value else default
  }

  // ----------------------------------------------------------------------------
  // Snapshot
  // ----------------------------------------------------------------------------

  function PlainEntry(domain: string): AllowEntry {
    AllowEntry(domain, None, "", "")
  }

  /** Plain domains, in key order. */
  function PlainDomains(m: map<string, AllowValue>, keys: seq<string>): seq<string>
    requires forall k :: k in keys ==> k in m
  {
    if keys == [] then []
    else (if m[keys[0]].Plain? then [keys[0]] else []) + PlainDomains(m, keys[1..])
  }

  /** Every entry, in key order; a plain domain appears as an entry without metadata. */
  function Entries(m: map<string, AllowValue>, keys: seq<string>): (s: seq<AllowEntry>)
    requires forall k :: k in keys ==> k in m
    ensures |s| == |keys|
  {
    if keys == [] then []
    else [if m[keys[0]].Plain? then PlainEntry(keys[0]) else m[keys[0]].entry] + Entries(m, keys[1..])
  }

  function Snapshot(b: Buckets): Config {
    var f := Unwrap(b.settings.filtering, StoredFiltering("", PAUSE_MAX_UNSET, ZERO_DOCUMENT));
    Config(
      Rows(b.blocklists),
      PlainDomains(b.allowlist, Cursor(b.allowlist.Keys)),
      Entries(b.allowlist, Cursor(b.allowlist.Keys)),
      Rows(b.localDns),
      Unwrap(b.settings.dns, DnsConfig(NO_LISTEN, ZERO_DOCUMENT)),
      f.blockPolicy,
      if f.pauseMaxSeconds >= 0 then f.pauseMaxSeconds else DEFAULT_PAUSE_MAX_SECONDS,
      f.blockPage,
      b.settings.globalPause,
      Unwrap(b.settings.customRules, ""),
      Unwrap(b.settings.queryLog, ZERO_DOCUMENT),
      Unwrap(b.auth, Credentials("", "", 0)))
  }

  // ----------------------------------------------------------------------------
  // Import
  // ----------------------------------------------------------------------------

  function BlocklistIds(s: seq<Blocklist>): (ids: seq<string>)
    ensures |ids| == |s| && forall i :: 0 <= i < |s| ==> ids[i] == s[i].id
  {
    seq(|s|, i requires 0 <= i < |s| => s[i].id)
  }

  function LocalIds(s: seq<LocalEntry>): (ids: seq<string>)
    ensures |ids| == |s| && forall i :: 0 <= i < |s| ==> ids[i] == s[i].id
  {
    seq(|s|, i requires 0 <= i < |s| => s[i].id)
  }

  function LowerAll(s: seq<string>): (r: seq<string>)
    ensures |r| == |s| && forall i :: 0 <= i < |s| ==> r[i] == Lower(s[i])
  {
    seq(|s|, i requires 0 <= i < |s| => Lower(s[i]))
  }

  function Plains(n: nat): (r: seq<AllowValue>)
    ensures |r| == n && forall i :: 0 <= i < n ==> r[i] == Plain
  {
    seq(n, i => Plain)
  }

  /** The ceiling to store: an unset value on the first import ever becomes the sentinel. */
  function StoredPauseMax(first: bool, seconds: int): int {
    if first && seconds == 0 then PAUSE_MAX_UNSET else seconds
  }

  function Import(b: Buckets, c: Config): Buckets {
    Buckets(
      PutAll(BlocklistIds(c.blocklists), c.blocklists),
      PutAll(LowerAll(c.allowlist), Plains(|c.allowlist|)),
      PutAll(LocalIds(c.localDns), c.localDns),
      Settings(
        Some(c.dns.(listen := NO_LISTEN)),
        Some(StoredFiltering(
          c.blockPolicy, StoredPauseMax(b.settings.filtering.None?, c.pauseMaxSeconds), c.blockPage)),
        Some(c.queryLog), None, Some(c.customRules)),
      Some(c.credentials))
  }

  /** The import as the program runs it: wipe the five buckets, then put row after row. */
  method WipeAndRewrite(b: Buckets, c: Config) returns (r: Buckets)
    ensures r == Import(b, c)
  {
    var isFirstBoot := b.settings.filtering.None?;
    r := EMPTY;
    for i := 0 to |c.blocklists|
      invariant r == EMPTY.(blocklists := PutAll(BlocklistIds(c.blocklists)[..i], c.blocklists[..i]))
    {
      PutNext(BlocklistIds(c.blocklists), c.blocklists, i);
      r := r.(blocklists := r.blocklists[c.blocklists[i].id := c.blocklists[i]]);
    }
    assert BlocklistIds(c.blocklists)[..|c.blocklists|] == BlocklistIds(c.blocklists);
    assert c.blocklists[..|c.blocklists|] == c.blocklists;
    r := PutAllowlist(r, c.allowlist);
    for i := 0 to |c.localDns|
      invariant r == EMPTY.(
        blocklists := PutAll(BlocklistIds(c.blocklists), c.blocklists),
        allowlist := PutAll(LowerAll(c.allowlist), Plains(|c.allowlist|)),
        localDns := PutAll(LocalIds(c.localDns)[..i], c.localDns[..i]))
    {
      PutNext(LocalIds(c.localDns), c.localDns, i);
      r := r.(localDns := r.localDns[c.localDns[i].id := c.localDns[i]]);
    }
    assert LocalIds(c.localDns)[..|c.localDns|] == LocalIds(c.localDns);
    assert c.localDns[..|c.localDns|] == c.localDns;
    var pauseMax := c.pauseMaxSeconds;
    if isFirstBoot && pauseMax == 0 {
      pauseMax := PAUSE_MAX_UNSET;
    }
    var s := r.settings.(dns := Some(c.dns.(listen := NO_LISTEN)));
    s := s.(filtering := Some(StoredFiltering(c.blockPolicy, pauseMax, c.blockPage)));
    s := s.(queryLog := Some(c.queryLog), customRules := Some(c.customRules));
    r := r.(settings := s, auth := Some(c.credentials));
  }

  method PutAllowlist(b: Buckets, domains: seq<string>) returns (r: Buckets)
    requires b.allowlist == map[]
    ensures r == b.(allowlist := PutAll(LowerAll(domains), Plains(|domains|)))
  {
    r := b;
    for i := 0 to |domains|
      invariant r == b.(allowlist := PutAll(LowerAll(domains)[..i], Plains(|domains|)[..i]))
    {
      PutNext(LowerAll(domains), Plains(|domains|), i);
      r := r.(allowlist := r.allowlist[Lower(domains[i]) := Plain]);
    }
    assert LowerAll(domains)[..|domains|] == LowerAll(domains);
    assert Plains(|domains|)[..|domains|] == Plains(|domains|);
  }

  lemma PutNext<V>(keys: seq<string>, rows: seq<V>, i: nat)
    requires |keys| == |rows| && i < |keys|
    ensures PutAll(keys[..i + 1], rows[..i + 1]) == PutAll(keys[..i], rows[..i])[keys[i] := rows[i]]
  {
    assert keys[..i + 1][..i] == keys[..i] && rows[..i + 1][..i] == rows[..i];
  }

  // ----------------------------------------------------------------------------
  // Round trips
  // ----------------------------------------------------------------------------

  /** What every command keeps about these buckets. */
  ghost predicate WellFormed(b: Buckets) {
    && (forall k :: k in b.blocklists ==> b.blocklists[k].id == k)
    && (forall k :: k in b.localDns ==> b.localDns[k].id == k)
    && (forall k :: k in b.allowlist ==> Lower(k) == k)
    && (forall k :: k in b.allowlist && b.allowlist[k].Rich? ==> IsRich(b.allowlist[k].entry))
  }

  predicate IsRich(e: AllowEntry) {
    e.expiresAt.Some? || e.note != "" || e.scheduleId != ""
  }

  function PlainEntries(s: seq<string>): (r: seq<AllowEntry>)
    ensures |r| == |s| && forall i :: 0 <= i < |s| ==> r[i] == PlainEntry(s[i])
  {
    seq(|s|, i requires 0 <= i < |s| => PlainEntry(s[i]))
  }

  lemma {:induction false} AllPlain(m: map<string, AllowValue>, keys: seq<string>)
    requires forall k :: k in keys ==> k in m && m[k].Plain?
    ensures PlainDomains(m, keys) == keys && Entries(m, keys) == PlainEntries(keys)
  {
    if keys != [] {
      AllPlain(m, keys[1..]);
      assert keys == [keys[0]] + keys[1..];
    }
  }

  function Elements(s: seq<string>): set<string> {
    set x | x in s
  }

  /** The domains an import stores: in lower case, each once, in key order. */
  function Domains(allowlist: seq<string>): seq<string> {
    Cursor(Elements(LowerAll(allowlist)))
  }

  /** The ceiling a snapshot shows after an import. */
  function ShownPauseMax(b: Buckets, seconds: int): int {
    var stored := StoredPauseMax(b.settings.filtering.None?, seconds);
    if stored >= 0 then stored else DEFAULT_PAUSE_MAX_SECONDS
  }

  /**
   What a snapshot shows of any imported document: rows by id in key order, the last row
   of an id; allowlist entries without metadata; no listen block and no global pause.
   */
  function Shown(b: Buckets, c: Config): Config {
    Config(
      Rows(PutAll(BlocklistIds(c.blocklists), c.blocklists)),
      Domains(c.allowlist), PlainEntries(Domains(c.allowlist)),
      Rows(PutAll(LocalIds(c.localDns), c.localDns)),
      c.dns.(listen := NO_LISTEN), c.blockPolicy, ShownPauseMax(b, c.pauseMaxSeconds), c.blockPage,
      None, c.customRules, c.queryLog, c.credentials)
  }

  lemma {:induction false} PutAllPlains(keys: seq<string>)
    ensures PutAll(keys, Plains(|keys|)).Keys == Elements(keys)
    ensures forall k :: k in keys ==> k in PutAll(keys, Plains(|keys|)) && PutAll(keys, Plains(|keys|))[k].Plain?
  {
    if keys != [] {
      var n := |keys| - 1;
      PutAllPlains(keys[..n]);
      assert Plains(|keys|)[..n] == Plains(n) && keys == keys[..n] + [keys[n]];
    }
  }

  /** The snapshot after an import, for every document and every store. */
  lemma ImportShows(b: Buckets, c: Config)
    ensures Snapshot(Import(b, c)) == Shown(b, c)
  {
    var keys := LowerAll(c.allowlist);
    var m := Import(b, c).allowlist;
    PutAllPlains(keys);
    assert m.Keys == Elements(keys);
    AllPlain(m, Domains(c.allowlist));
  }

  /** A list that is in key order under its own ids comes back as it is. */
  lemma BlocklistsBack(m: map<string, Blocklist>)
    requires forall k :: k in m ==> m[k].id == k
    ensures Rows(PutAll(BlocklistIds(Rows(m)), Rows(m))) == Rows(m)
  {
    assert BlocklistIds(Rows(m)) == Cursor(m.Keys);
    PutThenWalk(BlocklistIds(Rows(m)), Rows(m));
  }

  lemma LocalBack(m: map<string, LocalEntry>)
    requires forall k :: k in m ==> m[k].id == k
    ensures Rows(PutAll(LocalIds(Rows(m)), Rows(m))) == Rows(m)
  {
    assert LocalIds(Rows(m)) == Cursor(m.Keys);
    PutThenWalk(LocalIds(Rows(m)), Rows(m));
  }

  lemma DomainsBack(keys: set<string>)
    requires forall k :: k in keys ==> Lower(k) == k
    ensures Domains(Cursor(keys)) == Cursor(keys)
  {
    var s := Cursor(keys);
    assert forall i :: 0 <= i < |s| ==> s[i] in keys;
    assert LowerAll(s) == s;
    assert Elements(s) == keys;
  }

  /** The parts of a document that are edited on their own. */
  datatype Section =
    | Lists | Allowed | Local | Dns | Policy | PauseMax | BlockPage | Pause | Rules | Queries | Login

  /** Two documents show the same in a section. */
  predicate Same(a: Config, b: Config, section: Section) {
    match section
    case Lists => a.blocklists == b.blocklists
    case Allowed => a.allowlist == b.allowlist && a.allowlistEntries == b.allowlistEntries
    case Local => a.localDns == b.localDns
    case Dns => a.dns == b.dns
    case Policy => a.blockPolicy == b.blockPolicy
    case PauseMax => a.pauseMaxSeconds == b.pauseMaxSeconds
    case BlockPage => a.blockPage == b.blockPage
    case Pause => a.globalPause == b.globalPause
    case Rules => a.customRules == b.customRules
    case Queries => a.queryLog == b.queryLog
    case Login => a.credentials == b.credentials
  }

  /** An edit left the section as it was; of the allowlist an import reads the domains only. */
  predicate Untouched(edited: Config, own: Config, section: Section) {
    if section.Allowed? then edited.allowlist == own.allowlist else Same(edited, own, section)
  }

  /** An import can carry over what the store holds in a section. */
  predicate Carried(b: Buckets, section: Section) {
    match section
    case Allowed => forall k :: k in b.allowlist ==> b.allowlist[k].Plain?
    case Dns => b.settings.dns.Some? ==> b.settings.dns.value.listen == NO_LISTEN
    case Pause => b.settings.globalPause.None?
    case _ => true
  }

  /** Every section can be carried over. */
  predicate NothingLost(b: Buckets) {
    && (forall k :: k in b.allowlist ==> b.allowlist[k].Plain?)
    && b.settings.globalPause.None?
    && (b.settings.dns.Some? ==> b.settings.dns.value.listen == NO_LISTEN)
  }

  lemma NothingLostIff(b: Buckets)
    ensures NothingLost(b) <==> forall section :: Carried(b, section)
  {
    if forall section :: Carried(b, section) {
      assert Carried(b, Allowed) && Carried(b, Dns) && Carried(b, Pause);
    }
  }

  /** The settings of a store that was read may have been written since, but not removed. */
  predicate MayFollow(taken: Buckets, b: Buckets) {
    b.settings.filtering.None? ==> taken.settings.filtering.None?
  }

  /**
   An edit of a snapshot of one store that is imported into a later one: if the edit left a
   section as it was, the section is shown as it was in the store that was read.
   */
  ghost predicate Restores(taken: Buckets, b: Buckets, edited: Config, section: Section) {
    Untouched(edited, Snapshot(taken), section) ==> Same(Snapshot(Import(b, edited)), Snapshot(taken), section)
  }

  lemma OwnAllowlist(b: Buckets)
    requires WellFormed(b) && Carried(b, Allowed)
    ensures Snapshot(b).allowlist == Cursor(b.allowlist.Keys)
    ensures Snapshot(b).allowlistEntries == PlainEntries(Snapshot(b).allowlist)
    ensures Domains(Snapshot(b).allowlist) == Snapshot(b).allowlist
  {
    AllPlain(b.allowlist, Cursor(b.allowlist.Keys));
    DomainsBack(b.allowlist.Keys);
  }

  /** A section that can be carried over comes back as it was read, whatever was committed in between. */
  lemma CarriedIsRestored(taken: Buckets, b: Buckets, edited: Config, section: Section)
    requires WellFormed(taken) && MayFollow(taken, b) && Carried(taken, section)
    ensures Restores(taken, b, edited, section)
  {
    ImportShows(b, edited);
    match section
    case Lists => BlocklistsBack(taken.blocklists);
    case Local => LocalBack(taken.localDns);
    case Allowed => OwnAllowlist(taken);
    case _ =>
  }

  lemma LostIsNotRestored(taken: Buckets, b: Buckets, section: Section)
    requires !Carried(taken, section)
    ensures !Restores(taken, b, Snapshot(taken), section)
  {
    var own := Snapshot(taken);
    ImportShows(b, own);
    ImportedPlain(b, own);
    RichCount(taken.allowlist, Cursor(taken.allowlist.Keys));
  }

  /** Section by section: every edit that leaves it alone restores it exactly when it can be carried over. */
  lemma SectionRestoredIff(taken: Buckets, b: Buckets, section: Section)
    requires WellFormed(taken) && MayFollow(taken, b)
    ensures (forall edited :: Restores(taken, b, edited, section)) <==> Carried(taken, section)
  {
    if Carried(taken, section) {
      forall edited ensures Restores(taken, b, edited, section) {
        CarriedIsRestored(taken, b, edited, section);
      }
    } else {
      LostIsNotRestored(taken, b, section);
    }
  }

  /**
   So what was committed to such a section after the snapshot was read survives the import
   if and only if the section is shown alike before and after that.
   */
  lemma CommitSurvivesIff(taken: Buckets, b: Buckets, edited: Config, section: Section)
    requires WellFormed(taken) && MayFollow(taken, b) && Carried(taken, section)
    requires Untouched(edited, Snapshot(taken), section)
    ensures Same(Snapshot(Import(b, edited)), Snapshot(b), section) <==> Same(Snapshot(taken), Snapshot(b), section)
  {
    CarriedIsRestored(taken, b, edited, section);
  }

  /** A snapshot shows fewer plain domains than entries exactly when some stored entry is rich. */
  lemma {:induction false} RichCount(m: map<string, AllowValue>, keys: seq<string>)
    requires forall k :: k in keys ==> k in m
    ensures |PlainDomains(m, keys)| <= |keys|
    ensures |PlainDomains(m, keys)| == |keys| <==> forall k :: k in keys ==> m[k].Plain?
  {
    if keys != [] {
      RichCount(m, keys[1..]);
      assert keys == [keys[0]] + keys[1..];
    }
  }

  lemma LocalRowsBack(m: map<string, LocalEntry>)
    requires forall k :: k in m ==> m[k].id == k
    ensures PutAll(LocalIds(Rows(m)), Rows(m)) == m
  {
    var rows, ids := Rows(m), Cursor(m.Keys);
    assert LocalIds(rows) == ids;
    PutAllRows(ids, rows);
    forall k | k in m ensures PutAll(ids, rows)[k] == m[k] {
      var i :| 0 <= i < |ids| && ids[i] == k;
    }
  }

  lemma LocalSnoc(rows: seq<LocalEntry>, e: LocalEntry)
    ensures PutAll(LocalIds(rows + [e]), rows + [e]) == PutAll(LocalIds(rows), rows)[e.id := e]
  {
    assert LocalIds(rows + [e])[..|rows|] == LocalIds(rows) && (rows + [e])[..|rows|] == rows;
  }

  /** Appending an entry to the shown list stores the old entries and the new one. */
  lemma AppendedEntryIsAdded(b: Buckets, e: LocalEntry, c: Config)
    requires forall k :: k in b.localDns ==> b.localDns[k].id == k
    requires c.localDns == Rows(b.localDns) + [e]
    ensures Rows(b.localDns) == Snapshot(b).localDns && Import(b, c).localDns == b.localDns[e.id := e]
  {
    LocalRowsBack(b.localDns);
    LocalSnoc(Rows(b.localDns), e);
  }

  /** Cutting a domain out of the shown list, whatever the entries beside it say, stores the others. */
  lemma CutDomainIsRemoved(b: Buckets, i: nat, c: Config)
    requires WellFormed(b) && Carried(b, Allowed) && i < |Snapshot(b).allowlist|
    requires c.allowlist == Snapshot(b).allowlist[..i] + Snapshot(b).allowlist[i + 1..]
    ensures Snapshot(Import(b, c)).allowlist == Cursor(b.allowlist.Keys - {Snapshot(b).allowlist[i]})
  {
    OwnAllowlist(b);
    ImportShows(b, c);
    DomainsWithout(b.allowlist.Keys, i);
  }

  lemma DomainsWithout(keys: set<string>, i: nat)
    requires i < |Cursor(keys)| && forall k :: k in keys ==> Lower(k) == k
    ensures var s := Cursor(keys); Domains(s[..i] + s[i + 1..]) == Cursor(keys - {s[i]})
  {
    var s := Cursor(keys);
    forall j | 0 <= j < |s| && j != i ensures s[j] != s[i] { LessTotal(s[i], s[j]); }
    ElementsWithout(s, i);
    var rest := s[..i] + s[i + 1..];
    assert forall j :: 0 <= j < |rest| ==> rest[j] in Elements(s) - {s[i]};
    assert LowerAll(rest) == rest;
    assert Elements(s) == keys;
  }

  lemma ElementsWithout(s: seq<string>, i: nat)
    requires i < |s| && forall j :: 0 <= j < |s| && j != i ==> s[j] != s[i]
    ensures Elements(s[..i] + s[i + 1..]) == Elements(s) - {s[i]}
  {
    var rest := s[..i] + s[i + 1..];
    forall x | x in Elements(s) - {s[i]} ensures x in rest {
      var j :| 0 <= j < |s| && s[j] == x;
      assert rest[if j < i then j else j - 1] == x;
    }
    assert forall j :: 0 <= j < |rest| ==> rest[j] == s[if j < i then j else j + 1];
  }

  lemma SameEverywhere(a: Config, b: Config)
    ensures a == b <==> forall section :: Same(a, b, section)
  {
    if forall section :: Same(a, b, section) {
      assert Same(a, b, Lists) && Same(a, b, Allowed) && Same(a, b, Local) && Same(a, b, Dns) && Same(a, b, Policy);
      assert Same(a, b, PauseMax) && Same(a, b, BlockPage) && Same(a, b, Pause) && Same(a, b, Rules);
      assert Same(a, b, Queries) && Same(a, b, Login);
    }
  }

  /**
   Importing a store's own snapshot changes nothing a snapshot shows, exactly when no
   allowlist entry is rich, no global pause is set and no listen block is stored.
   */
  lemma OwnSnapshotIsNoOp(b: Buckets)
    requires WellFormed(b)
    ensures Snapshot(Import(b, Snapshot(b))) == Snapshot(b) <==> NothingLost(b)
  {
    forall section ensures Same(Snapshot(Import(b, Snapshot(b))), Snapshot(b), section) <==> Carried(b, section) {
      OwnSection(b, section);
    }
    SameEverywhere(Snapshot(Import(b, Snapshot(b))), Snapshot(b));
    NothingLostIff(b);
  }

  lemma OwnSection(b: Buckets, section: Section)
    requires WellFormed(b)
    ensures Same(Snapshot(Import(b, Snapshot(b))), Snapshot(b), section) <==> Carried(b, section)
  {
    assert Untouched(Snapshot(b), Snapshot(b), section);
    if Carried(b, section) {
      CarriedIsRestored(b, b, Snapshot(b), section);
    } else {
      LostIsNotRestored(b, b, section);
    }
  }

  /** A document that an import stores without loss. */
  ghost predicate Importable(b: Buckets, c: Config) {
    && Ascending(BlocklistIds(c.blocklists))
    && Ascending(c.allowlist) && LowerAll(c.allowlist) == c.allowlist
    && c.allowlistEntries == PlainEntries(c.allowlist)
    && Ascending(LocalIds(c.localDns))
    && c.dns.listen == NO_LISTEN && c.globalPause.None?
    && c.pauseMaxSeconds >= 0 && (b.settings.filtering.None? ==> c.pauseMaxSeconds != 0)
  }

  /** A document comes back exactly as imported if and only if nothing in it needs normalising. */
  lemma ImportThenSnapshot(b: Buckets, c: Config)
    ensures Snapshot(Import(b, c)) == c <==> Importable(b, c)
  {
    ImportShows(b, c);
    if Importable(b, c) {
      PutThenWalk(BlocklistIds(c.blocklists), c.blocklists);
      PutThenWalk(LocalIds(c.localDns), c.localDns);
      CursorUnique(c.allowlist, Elements(c.allowlist));
    } else if Shown(b, c) == c {
      ShownIsImportable(b, c);
    }
  }

  lemma ShownIsImportable(b: Buckets, c: Config)
    requires Shown(b, c) == c
    ensures Importable(b, c)
  {
    BlocklistsUnderIds(c.blocklists);
    assert BlocklistIds(c.blocklists) == Cursor(PutAll(BlocklistIds(c.blocklists), c.blocklists).Keys);
    LocalUnderIds(c.localDns);
    assert LocalIds(c.localDns) == Cursor(PutAll(LocalIds(c.localDns), c.localDns).Keys);
    DomainsAreLower(c.allowlist);
  }

  lemma DomainsAreLower(allowlist: seq<string>)
    requires Domains(allowlist) == allowlist
    ensures Ascending(allowlist) && LowerAll(allowlist) == allowlist
  {
    assert forall i :: 0 <= i < |allowlist| ==> allowlist[i] in Elements(LowerAll(allowlist));
    forall i | 0 <= i < |allowlist| ensures Lower(allowlist[i]) == allowlist[i] {
      var j :| 0 <= j < |allowlist| && LowerAll(allowlist)[j] == allowlist[i];
      LowerIdempotent(allowlist[j]);
    }
  }

  lemma {:induction false} BlocklistsUnderIds(xs: seq<Blocklist>)
    ensures forall k :: k in PutAll(BlocklistIds(xs), xs) ==> PutAll(BlocklistIds(xs), xs)[k].id == k
  {
    if xs != [] {
      BlocklistsUnderIds(xs[..|xs| - 1]);
      assert BlocklistIds(xs)[..|xs| - 1] == BlocklistIds(xs[..|xs| - 1]);
    }
  }

  lemma {:induction false} LocalUnderIds(xs: seq<LocalEntry>)
    ensures forall k :: k in PutAll(LocalIds(xs), xs) ==> PutAll(LocalIds(xs), xs)[k].id == k
  {
    if xs != [] {
      LocalUnderIds(xs[..|xs| - 1]);
      assert LocalIds(xs)[..|xs| - 1] == LocalIds(xs[..|xs| - 1]);
    }
  }

  /** After an import every entry is plain and there are no more entries than domains imported. */
  lemma ImportedPlain(b: Buckets, c: Config)
    ensures |Snapshot(Import(b, c)).allowlistEntries| <= |c.allowlist|
    ensures Snapshot(Import(b, c)).globalPause.None? && Snapshot(Import(b, c)).dns.listen == NO_LISTEN
  {
    var m := Import(b, c).allowlist;
    PutAllSize(LowerAll(c.allowlist), Plains(|c.allowlist|));
    CursorSize(m.Keys);
  }

  lemma {:induction false} PutAllSize<V>(keys: seq<string>, rows: seq<V>)
    requires |keys| == |rows|
    ensures |PutAll(keys, rows)| <= |keys|
  {
    if keys != [] {
      PutAllSize(keys[..|keys| - 1], rows[..|rows| - 1]);
    }
  }

  lemma {:induction false} CursorSize(keys: set<string>)
    ensures |Cursor(keys)| == |keys|
    decreases |keys|
  {
    if keys != {} {
      CursorSize(keys - {Least(keys)});
    }
  }
}
