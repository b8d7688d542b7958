/**
 What a store holds after a log, said cell by cell: each cell of a bucket holds what the
 last entry that wrote it wrote. The writes of a cell are listed here for themselves, the
 commands that make them side by side.
 */
module LastWrites {
  import opened Wrappers
  import opened Strings
  import opened StoreModel
  import opened KeyOrder
  import opened Replication
  import Bindings
  import C = ConfigImport

  /** The parts of the settings that are written on their own. */
  datatype Part = Dns | Policy | PauseMax | BlockPage | Queries | Rules | Pause | Login

  /** Buckets with one row, and the three rows about the resolvers. */
  datatype Single = Secret | Leases | Resolvers | AttemptedAt | Failure

  datatype Cell =
    | Document(bucket: DocBucket, key: string)
    | Hour(node: string, hour: nat)
    | Snapshot(single: Single)
    | ListRow(id: string) | Allowed(key: string) | LocalRow(id: string)
    | Setting(part: Part)
    | JoinToken(hash: string)
    | ProfileRow(id: string)
    | BindingRow(key: string)
    | AnomalyRow(id: string)
    | Client(ip: string)

  datatype Value =
    | Text(text: string) | Number(number: int) | ListValue(list: C.Blocklist) | AllowedValue(allowed: C.AllowValue)
    | LocalValue(local: C.LocalEntry) | DnsValue(dns: C.DnsConfig) | PauseValue(pause: C.PauseState)
    | LoginValue(login: C.Credentials) | TokenValue(token: Token) | ProfileValue(profile: Profile)
    | BindingValue(binding: Bindings.Binding) | AnomalyValue(anomaly: Anomaly) | ClientValue(client: DynamicClient)

  function HeldDocument(db: Db, bucket: DocBucket, key: string): Option<Value> {
    if bucket in db.docs && key in db.docs[bucket] then Some(Text(db.docs[bucket][key])) else None
  }

  function HeldHour(db: Db, node: string, hour: nat): Option<Value> {
    if node in db.stats && hour in db.stats[node] then Some(Text(db.stats[node][hour])) else None
  }

  function HeldText(text: Option<string>): Option<Value> {
    if text.Some? then Some(Text(text.value)) else None
  }

  function HeldSnapshot(db: Db, single: Single): Option<Value> {
    match single
    case Secret => HeldText(db.secret)
    case Leases => HeldText(db.leaseSnapshot)
    case Resolvers => HeldText(db.doh.snapshot)
    case AttemptedAt => HeldText(db.doh.attemptedAt)
    case Failure => HeldText(db.doh.error)
  }

  function HeldList(db: Db, id: string): Option<Value> {
    if id in db.config.blocklists then Some(ListValue(db.config.blocklists[id])) else None
  }

  function HeldAllowed(db: Db, key: string): Option<Value> {
    if key in db.config.allowlist then Some(AllowedValue(db.config.allowlist[key])) else None
  }

  function HeldLocal(db: Db, id: string): Option<Value> {
    if id in db.config.localDns then Some(LocalValue(db.config.localDns[id])) else None
  }

  /** The parts of a filtering record that was never written are empty. */
  function HeldSetting(db: Db, part: Part): Option<Value> {
    var s := db.config.settings;
    match part
    case Dns => if s.dns.Some? then Some(DnsValue(s.dns.value)) else None
    case Policy => Some(Text(if s.filtering.Some? then s.filtering.value.blockPolicy else ""))
    case PauseMax => Some(Number(if s.filtering.Some? then s.filtering.value.pauseMaxSeconds else 0))
    case BlockPage => Some(Text(if s.filtering.Some? then s.filtering.value.blockPage else ""))
    case Queries => HeldText(s.queryLog)
    case Rules => HeldText(s.customRules)
    case Pause => if s.globalPause.Some? then Some(PauseValue(s.globalPause.value)) else None
    case Login => if db.config.auth.Some? then Some(LoginValue(db.config.auth.value)) else None
  }

  function HeldToken(db: Db, hash: string): Option<Value> {
    if hash in db.tokens then Some(TokenValue(db.tokens[hash])) else None
  }

  function HeldProfile(db: Db, id: string): Option<Value> {
    if id in db.profiles then Some(ProfileValue(db.profiles[id])) else None
  }

  function HeldBinding(db: Db, key: string): Option<Value> {
    if key in db.bindings then Some(BindingValue(db.bindings[key])) else None
  }

  function HeldAnomaly(db: Db, id: string): Option<Value> {
    if id in db.anomalies then Some(AnomalyValue(db.anomalies[id])) else None
  }

  function HeldClient(db: Db, ip: string): Option<Value> {
    if ip in db.newDynamic then Some(ClientValue(db.newDynamic[ip])) else None
  }

  /** What a cell holds. */
  function Held(db: Db, cell: Cell): Option<Value> {
    match cell
    case Document(bucket, key) => HeldDocument(db, bucket, key)
    case Hour(node, hour) => HeldHour(db, node, hour)
    case Snapshot(single) => HeldSnapshot(db, single)
    case ListRow(id) => HeldList(db, id)
    case Allowed(key) => HeldAllowed(db, key)
    case LocalRow(id) => HeldLocal(db, id)
    case Setting(part) => HeldSetting(db, part)
    case JoinToken(hash) => HeldToken(db, hash)
    case ProfileRow(id) => HeldProfile(db, id)
    case BindingRow(key) => HeldBinding(db, key)
    case AnomalyRow(id) => HeldAnomaly(db, id)
    case Client(ip) => HeldClient(db, ip)
  }

  // ----------------------------------------------------------------------------
  // The writes of a cell
  // ----------------------------------------------------------------------------

  /** What an entry does to a cell. */
  datatype Write = Keep | Put(value: Value) | Drop

  /** Hardware addresses are keyed in lower case, and deleting a schedule drops its document. */
  ghost function DocumentWrite(cmd: Command, bucket: DocBucket, key: string): Write {
    if cmd.Upsert? && cmd.bucket == bucket && key == (if bucket == DhcpStatic then Lower(cmd.id) else cmd.id) then
      Put(Text(cmd.doc))
    else if cmd.Remove? && cmd.bucket == bucket && key == (if bucket == DhcpStatic then Lower(cmd.id) else cmd.id) then
      Drop
    else if cmd.ScheduleDelete? && bucket == Schedules && key == cmd.id then Drop
    else Keep
  }

  /** Hours and cutoffs are read as unsigned numbers; a cutoff drops the hours below it. */
  ghost function HourWrite(cmd: Command, node: string, hour: nat): Write {
    if cmd.StatsCommitHour? && node == cmd.nodeId && hour == cmd.hourUnix % 0x1_0000_0000_0000_0000 then
      Put(Text(cmd.aggregate))
    else if cmd.StatsPrune? && hour < cmd.beforeUnix % 0x1_0000_0000_0000_0000 then Drop
    else Keep
  }

  /** One cell each; a failed attempt keeps the resolvers that were found before. */
  ghost function SnapshotWrite(cmd: Command, single: Single): Write {
    match cmd
    case SecretSet(secret) => if single == Secret then Put(Text(secret)) else Keep
    case LeasesReplace(s) => if single == Leases then Put(Text(s)) else Keep
    case DohReplace(s, at, e) =>
      if single == Resolvers then Put(Text(s))
      else if single == AttemptedAt then Put(Text(at))
      else if single == Failure then Put(Text(e))
      else Keep
    case DohFailure(at, e) =>
      if single == AttemptedAt then Put(Text(at)) else if single == Failure then Put(Text(e)) else Keep
    case _ => Keep
  }

  ghost predicate LastList(rows: seq<C.Blocklist>, id: string, i: int) {
    0 <= i < |rows| && rows[i].id == id && forall j :: i < j < |rows| ==> rows[j].id != id
  }

  /** A list is put, dropped, switched if it is there, or replaced by the last row of an imported document. */
  ghost function ListWrite(db: Db, cmd: Command, id: string): Write {
    match cmd
    case BlocklistUpsert(list) => if list.id == id then Put(ListValue(list)) else Keep
    case BlocklistDelete(gone) => if gone == id then Drop else Keep
    case BlocklistSetEnabled(other, on) =>
      if other == id && id in db.config.blocklists then
        var row := db.config.blocklists[id];
        Put(ListValue(C.Blocklist(row.id, on, row.body)))
      else Keep
    case ConfigImportAll(c) =>
      if exists i :: LastList(c.blocklists, id, i) then
        var i :| LastList(c.blocklists, id, i);
        Put(ListValue(c.blocklists[i]))
      else Drop
    case _ => Keep
  }

  ghost predicate LastLocal(rows: seq<C.LocalEntry>, id: string, i: int) {
    0 <= i < |rows| && rows[i].id == id && forall j :: i < j < |rows| ==> rows[j].id != id
  }

  ghost function LocalWrite(cmd: Command, id: string): Write {
    match cmd
    case LocalDnsUpsert(e) => if e.id == id then Put(LocalValue(e)) else Keep
    case LocalDnsDelete(gone) => if gone == id then Drop else Keep
    case ConfigImportAll(c) =>
      if exists i :: LastLocal(c.localDns, id, i) then
        var i :| LastLocal(c.localDns, id, i);
        Put(LocalValue(c.localDns[i]))
      else Drop
    case _ => Keep
  }

  ghost predicate Names(domains: seq<string>, key: string) {
    exists i :: 0 <= i < |domains| && Lower(domains[i]) == key
  }

  /** Domains are keyed in lower case; an entry without metadata is stored as a bare domain, and so is every import. */
  ghost function AllowedWrite(cmd: Command, key: string): Write {
    match cmd
    case AllowlistAdd(e) =>
      if Lower(e.domain) != key then Keep
      else if e.expiresAt == None && e.note == "" && e.scheduleId == "" then Put(AllowedValue(C.Plain))
      else Put(AllowedValue(C.Rich(C.AllowEntry(key, e.expiresAt, e.note, e.scheduleId))))
    case AllowlistRemove(domain) => if Lower(domain) == key then Drop else Keep
    case ConfigImportAll(c) => if Names(c.allowlist, key) then Put(AllowedValue(C.Plain)) else Drop
    case _ => Keep
  }

  /**
   A patch writes the parts it names. An import writes them all, without the listen block and without a
   pause; on a store that never had filtering settings the ceiling 0 is stored as -1.
   */
  ghost function SettingWrite(db: Db, cmd: Command, part: Part): Write {
    match cmd
    case SettingsPatch(dns, filtering, queries) =>
      if part == Dns && dns.Some? then Put(DnsValue(dns.value))
      else if part == Policy && filtering.Some? && filtering.value.blockPolicy.Some? then
        Put(Text(filtering.value.blockPolicy.value))
      else if part == PauseMax && filtering.Some? && filtering.value.pauseMaxSeconds.Some? then
        Put(Number(filtering.value.pauseMaxSeconds.value))
      else if part == Queries && queries.Some? then Put(Text(queries.value))
      else Keep
    case CustomRulesSet(rules) => if part == Rules then Put(Text(rules)) else Keep
    case GlobalPauseSet(pause) => if part == Pause then Put(PauseValue(pause)) else Keep
    case GlobalPauseClear => if part == Pause then Drop else Keep
    case AuthSetCredentials(c) => if part == Login then Put(LoginValue(c)) else Keep
    case ConfigImportAll(c) => ImportedSetting(db, c, part)
    case _ => Keep
  }

  ghost function ImportedSetting(db: Db, c: C.Config, part: Part): Write {
    match part
    case Dns => Put(DnsValue(C.DnsConfig(C.Listen(0, false, false, 0, 0), c.dns.body)))
    case Policy => Put(Text(c.blockPolicy))
    case PauseMax =>
      Put(Number(if db.config.settings.filtering == None && c.pauseMaxSeconds == 0 then -1 else c.pauseMaxSeconds))
    case BlockPage => Put(Text(c.blockPage))
    case Queries => Put(Text(c.queryLog))
    case Rules => Put(Text(c.customRules))
    case Pause => Drop
    case Login => Put(LoginValue(c.credentials))
  }

  /** A consume writes the time into a token that is known, unconsumed and not past its expiry; 0 is no expiry. */
  ghost function TokenWrite(db: Db, cmd: Command, hash: string): Write {
    if cmd.TokenCreate? && cmd.hash == hash then Put(TokenValue(cmd.token))
    else if cmd.TokenConsume? && cmd.hash == hash && hash in db.tokens && db.tokens[hash].consumedUnix == 0
      && (db.tokens[hash].expiresUnix == 0 || cmd.consumedAt <= db.tokens[hash].expiresUnix) then
      var row := db.tokens[hash];
      Put(TokenValue(Token(row.expiresUnix, row.createdBy, cmd.consumedAt)))
    else Keep
  }

  /** The default profile is never dropped; a pause and a resume write the pause of a profile that is there. */
  ghost function ProfileWrite(db: Db, cmd: Command, id: string): Write {
    match cmd
    case ProfileUpsert(p) => if p.id == id then Put(ProfileValue(p)) else Keep
    case ProfileDelete(gone) => if gone == id && id != "default" then Drop else Keep
    case ProfilePauseSet(other, _, until, reason, ips) =>
      if other == id && id in db.profiles then
        var row := db.profiles[id];
        Put(ProfileValue(Profile(row.id, Some(C.PauseState(until, reason, [], ips)), row.body)))
      else Keep
    case ProfilePauseClear(other, _) =>
      if other == id && id in db.profiles then
        Put(ProfileValue(Profile(db.profiles[id].id, None, db.profiles[id].body)))
      else Keep
    case _ => Keep
  }

  /** Deleting a schedule drops every binding whose key begins with its id and a separator. */
  ghost function BindingWrite(cmd: Command, key: string): Write {
    match cmd
    case BindingPut(b) =>
      if key == b.scheduleId + ":" + b.profileId + ":" + b.blocklistId then Put(BindingValue(b)) else Keep
    case BindingDelete(b) => if key == b.scheduleId + ":" + b.profileId + ":" + b.blocklistId then Drop else Keep
    case ScheduleDelete(id) => if id + ":" <= key then Drop else Keep
    case _ => Keep
  }

  /** An anomaly needs an id; it is acknowledged if it is there, and swept once it is older than the cutoff. */
  ghost function AnomalyWrite(db: Db, cmd: Command, id: string): Write {
    match cmd
    case AnomalyAppend(a) => if a.id == id && id != "" then Put(AnomalyValue(a)) else Keep
    case AnomalyAcknowledge(other, at) =>
      if other == id && id in db.anomalies then
        var row := db.anomalies[id];
        Put(AnomalyValue(Anomaly(row.id, row.detectedAt, Some(at), row.body)))
      else Keep
    case AnomalySweep(before) =>
      if id in db.anomalies && db.anomalies[id].detectedAt < before * 1_000_000_000 then Drop else Keep
    case _ => Keep
  }

  /** A dismissal keeps when the address was first seen, and leaves a mark for an address that never was. */
  ghost function ClientWrite(db: Db, cmd: Command, ip: string): Write {
    if cmd.DynamicClientDismiss? && cmd.clientIp == ip then
      Put(ClientValue(DynamicClient(
        if ip in db.newDynamic then db.newDynamic[ip].firstSeen else 0, true, cmd.dismissedAt)))
    else Keep
  }

  ghost function WriteOf(db: Db, cmd: Command, cell: Cell): Write {
    match cell
    case Document(bucket, key) => DocumentWrite(cmd, bucket, key)
    case Hour(node, hour) => HourWrite(cmd, node, hour)
    case ListRow(id) => ListWrite(db, cmd, id)
    case Allowed(key) => AllowedWrite(cmd, key)
    case LocalRow(id) => LocalWrite(cmd, id)
    case Setting(part) => SettingWrite(db, cmd, part)
    case Snapshot(single) => SnapshotWrite(cmd, single)
    case JoinToken(hash) => TokenWrite(db, cmd, hash)
    case ProfileRow(id) => ProfileWrite(db, cmd, id)
    case BindingRow(key) => BindingWrite(cmd, key)
    case AnomalyRow(id) => AnomalyWrite(db, cmd, id)
    case Client(ip) => ClientWrite(db, cmd, ip)
  }

  ghost predicate Written(before: Option<Value>, w: Write, after: Option<Value>) {
    match w
    case Keep => after == before
    case Put(v) => after == Some(v)
    case Drop => after == None
  }

  // ----------------------------------------------------------------------------
  // One entry
  // ----------------------------------------------------------------------------

  ghost predicate IsWritten(db: Db, cmd: Command, after: Db, cell: Cell) {
    Written(Held(db, cell), WriteOf(db, cmd, cell), Held(after, cell))
  }

  lemma DocumentIs(db: Db, after: Db, cmd: Command, bucket: DocBucket, key: string)
    requires DocumentsAfter(db, cmd, after)
    ensures IsWritten(db, cmd, after, Document(bucket, key))
  {
    DocumentWritten(db, after, cmd, bucket, key);
  }

  lemma DocumentStep(db: Db, cmd: Command, now: Time, bucket: DocBucket, key: string)
    ensures IsWritten(db, cmd, Apply(db, cmd, now), Document(bucket, key))
  {
    DocumentsApplied(db, cmd, now);
    DocumentIs(db, Apply(db, cmd, now), cmd, bucket, key);
  }

  ghost predicate DocumentsAfter(db: Db, cmd: Command, after: Db) {
    match cmd
    case Upsert(bucket, id, doc) =>
      after.docs == db.docs[bucket := Docs(db, bucket)[if bucket == DhcpStatic then Lower(id) else id := doc]]
    case Remove(bucket, id) =>
      after.docs == db.docs[bucket := Docs(db, bucket) - {if bucket == DhcpStatic then Lower(id) else id}]
    case ScheduleDelete(id) => after.docs == db.docs[Schedules := Docs(db, Schedules) - {id}]
    case _ => after.docs == db.docs
  }

  lemma DocumentsApplied(db: Db, cmd: Command, now: Time)
    ensures DocumentsAfter(db, cmd, Apply(db, cmd, now))
  {
    match cmd
    case Upsert(bucket, id, doc) => Upserted(db, bucket, id, doc, now);
    case Remove(bucket, id) => Removed(db, bucket, id, now);
    case ScheduleDelete(id) => ScheduleDeleted(db, id, now);
    case _ => DocumentsKept(db, cmd, now);
  }

  lemma UpsertWritten(db: Db, after: Db, cmd: Command, bucket: DocBucket, key: string)
    requires cmd.Upsert? && DocumentsAfter(db, cmd, after)
    ensures Written(HeldDocument(db, bucket, key), DocumentWrite(cmd, bucket, key), HeldDocument(after, bucket, key))
  {
  }

  lemma RemoveWritten(db: Db, after: Db, cmd: Command, bucket: DocBucket, key: string)
    requires cmd.Remove? && DocumentsAfter(db, cmd, after)
    ensures Written(HeldDocument(db, bucket, key), DocumentWrite(cmd, bucket, key), HeldDocument(after, bucket, key))
  {
  }

  lemma DocumentWritten(db: Db, after: Db, cmd: Command, bucket: DocBucket, key: string)
    requires DocumentsAfter(db, cmd, after)
    ensures Written(HeldDocument(db, bucket, key), DocumentWrite(cmd, bucket, key), HeldDocument(after, bucket, key))
  {
    if cmd.Upsert? {
      UpsertWritten(db, after, cmd, bucket, key);
    } else if cmd.Remove? {
      RemoveWritten(db, after, cmd, bucket, key);
    }
  }

  lemma Upserted(db: Db, bucket: DocBucket, id: string, doc: C.Json, now: Time)
    ensures Apply(db, Upsert(bucket, id, doc), now).docs ==
      db.docs[bucket := Docs(db, bucket)[if bucket == DhcpStatic then Lower(id) else id := doc]]
  {
  }

  lemma Removed(db: Db, bucket: DocBucket, id: string, now: Time)
    ensures Apply(db, Remove(bucket, id), now).docs ==
      db.docs[bucket := Docs(db, bucket) - {if bucket == DhcpStatic then Lower(id) else id}]
  {
  }

  lemma ScheduleDeleted(db: Db, id: string, now: Time)
    ensures Apply(db, ScheduleDelete(id), now).docs == db.docs[Schedules := Docs(db, Schedules) - {id}]
  {
  }

  lemma DocumentsKept(db: Db, cmd: Command, now: Time)
    requires !cmd.Upsert? && !cmd.Remove? && !cmd.ScheduleDelete?
    ensures Apply(db, cmd, now).docs == db.docs
  {
    if !AreaOf(cmd).ScheduleArea? { AreaFrame(db, cmd, now); }
  }

  ghost predicate BindingsAfter(db: Db, cmd: Command, after: Db) {
    match cmd
    case BindingPut(b) => after.bindings == db.bindings[b.Key() := b]
    case BindingDelete(b) => after.bindings == db.bindings - {b.Key()}
    case ScheduleDelete(id) => after.bindings == Bindings.WithoutPrefix(db.bindings, id + ":")
    case _ => after.bindings == db.bindings
  }

  lemma BindingsApplied(db: Db, cmd: Command, now: Time)
    ensures BindingsAfter(db, cmd, Apply(db, cmd, now))
  {
    if !AreaOf(cmd).ScheduleArea? { AreaFrame(db, cmd, now); }
  }

  lemma BindingWritten(db: Db, after: Db, cmd: Command, key: string)
    requires BindingsAfter(db, cmd, after)
    ensures Written(HeldBinding(db, key), BindingWrite(cmd, key), HeldBinding(after, key))
  {
  }

  lemma BindingRowIs(db: Db, after: Db, cmd: Command, key: string)
    requires BindingsAfter(db, cmd, after)
    ensures IsWritten(db, cmd, after, BindingRow(key))
  {
    BindingWritten(db, after, cmd, key);
  }

  lemma BindingRowStep(db: Db, cmd: Command, now: Time, key: string)
    ensures IsWritten(db, cmd, Apply(db, cmd, now), BindingRow(key))
  {
    BindingsApplied(db, cmd, now);
    BindingRowIs(db, Apply(db, cmd, now), cmd, key);
  }

  ghost predicate HoursAfter(db: Db, cmd: Command, after: Db) {
    after.stats ==
      if cmd.StatsCommitHour? then WithHour(db.stats, cmd.nodeId, ToU64(cmd.hourUnix), cmd.aggregate)
      else if cmd.StatsPrune? then PrunedStats(db.stats, cmd.beforeUnix)
      else db.stats
  }

  lemma HoursApplied(db: Db, cmd: Command, now: Time)
    ensures HoursAfter(db, cmd, Apply(db, cmd, now))
  {
    match cmd
    case StatsCommitHour(node, hour, doc) =>
      assert Apply(db, cmd, now) == db.(stats := WithHour(db.stats, node, ToU64(hour), doc));
    case StatsPrune(before) => assert Apply(db, cmd, now) == db.(stats := PrunedStats(db.stats, before));
    case _ => HoursKept(db, cmd, now);
  }

  lemma HoursKept(db: Db, cmd: Command, now: Time)
    requires !cmd.StatsCommitHour? && !cmd.StatsPrune?
    ensures Apply(db, cmd, now).stats == db.stats
  {
    if !AreaOf(cmd).ObservedArea? { AreaFrame(db, cmd, now); }
  }

  lemma HourWritten(db: Db, after: Db, cmd: Command, node: string, hour: nat)
    requires HoursAfter(db, cmd, after)
    ensures Written(HeldHour(db, node, hour), HourWrite(cmd, node, hour), HeldHour(after, node, hour))
  {
  }

  lemma HourIs(db: Db, after: Db, cmd: Command, node: string, hour: nat)
    requires HoursAfter(db, cmd, after)
    ensures IsWritten(db, cmd, after, Hour(node, hour))
  {
    HourWritten(db, after, cmd, node, hour);
  }

  lemma HourStep(db: Db, cmd: Command, now: Time, node: string, hour: nat)
    ensures IsWritten(db, cmd, Apply(db, cmd, now), Hour(node, hour))
  {
    HoursApplied(db, cmd, now);
    HourIs(db, Apply(db, cmd, now), cmd, node, hour);
  }

  ghost predicate AnomaliesAfter(db: Db, cmd: Command, after: Db) {
    match cmd
    case AnomalyAppend(a) => after.anomalies == if a.id == "" then db.anomalies else db.anomalies[a.id := a]
    case AnomalyAcknowledge(id, at) =>
      after.anomalies ==
        if id in db.anomalies then db.anomalies[id := db.anomalies[id].(acknowledgedUnix := Some(at))]
        else db.anomalies
    case AnomalySweep(before) => after.anomalies == SweptAnomalies(db.anomalies, before)
    case _ => after.anomalies == db.anomalies
  }

  lemma AnomaliesApplied(db: Db, cmd: Command, now: Time)
    ensures AnomaliesAfter(db, cmd, Apply(db, cmd, now))
  {
    if !AreaOf(cmd).ObservedArea? { AreaFrame(db, cmd, now); }
  }

  lemma AnomalyWritten(db: Db, after: Db, cmd: Command, id: string)
    requires AnomaliesAfter(db, cmd, after)
    ensures Written(HeldAnomaly(db, id), AnomalyWrite(db, cmd, id), HeldAnomaly(after, id))
  {
  }

  lemma AnomalyRowIs(db: Db, after: Db, cmd: Command, id: string)
    requires AnomaliesAfter(db, cmd, after)
    ensures IsWritten(db, cmd, after, AnomalyRow(id))
  {
    AnomalyWritten(db, after, cmd, id);
  }

  lemma AnomalyRowStep(db: Db, cmd: Command, now: Time, id: string)
    ensures IsWritten(db, cmd, Apply(db, cmd, now), AnomalyRow(id))
  {
    AnomaliesApplied(db, cmd, now);
    AnomalyRowIs(db, Apply(db, cmd, now), cmd, id);
  }

  ghost predicate ClientsAfter(db: Db, cmd: Command, after: Db) {
    after.newDynamic ==
      if cmd.DynamicClientDismiss? then Dismissed(db.newDynamic, cmd.clientIp, cmd.dismissedAt) else db.newDynamic
  }

  lemma ClientsApplied(db: Db, cmd: Command, now: Time)
    ensures ClientsAfter(db, cmd, Apply(db, cmd, now))
  {
    if !cmd.DynamicClientDismiss? { AreaFrame(db, cmd, now); }
  }

  lemma ClientWritten(db: Db, after: Db, cmd: Command, ip: string)
    requires ClientsAfter(db, cmd, after)
    ensures Written(HeldClient(db, ip), ClientWrite(db, cmd, ip), HeldClient(after, ip))
  {
  }

  lemma ClientIs(db: Db, after: Db, cmd: Command, ip: string)
    requires ClientsAfter(db, cmd, after)
    ensures IsWritten(db, cmd, after, Client(ip))
  {
    ClientWritten(db, after, cmd, ip);
  }

  lemma ClientStep(db: Db, cmd: Command, now: Time, ip: string)
    ensures IsWritten(db, cmd, Apply(db, cmd, now), Client(ip))
  {
    ClientsApplied(db, cmd, now);
    ClientIs(db, Apply(db, cmd, now), cmd, ip);
  }

  ghost predicate TokensFollow(db: Db, cmd: Command, after: Db) {
    match cmd
    case TokenCreate(hash, token) => after.tokens == db.tokens[hash := token]
    case TokenConsume(hash, at) =>
      after.tokens == (match ConsumeToken(db.tokens, hash, at) case Ok(tokens) => tokens case Err(_) => db.tokens)
    case _ => after.tokens == db.tokens
  }

  lemma TokensApplied(db: Db, cmd: Command, now: Time)
    ensures TokensFollow(db, cmd, Apply(db, cmd, now))
  {
    if !AreaOf(cmd).ClusterArea? { AreaFrame(db, cmd, now); }
  }

  lemma TokenWritten(db: Db, after: Db, cmd: Command, hash: string)
    requires TokensFollow(db, cmd, after)
    ensures Written(HeldToken(db, hash), TokenWrite(db, cmd, hash), HeldToken(after, hash))
  {
  }

  lemma JoinTokenIs(db: Db, after: Db, cmd: Command, hash: string)
    requires TokensFollow(db, cmd, after)
    ensures IsWritten(db, cmd, after, JoinToken(hash))
  {
    TokenWritten(db, after, cmd, hash);
  }

  lemma JoinTokenStep(db: Db, cmd: Command, now: Time, hash: string)
    ensures IsWritten(db, cmd, Apply(db, cmd, now), JoinToken(hash))
  {
    TokensApplied(db, cmd, now);
    JoinTokenIs(db, Apply(db, cmd, now), cmd, hash);
  }

  lemma SecretApplied(db: Db, cmd: Command, now: Time)
    ensures Apply(db, cmd, now).secret == if cmd.SecretSet? then Some(cmd.secret) else db.secret
  {
    if !AreaOf(cmd).ClusterArea? { AreaFrame(db, cmd, now); }
  }

  /** The profile rows after a command: one row is put or dropped, or they are as before. */
  ghost predicate ProfilesAfter(db: Db, cmd: Command, after: Db) {
    match cmd
    case ProfileUpsert(p) => after.profiles == db.profiles[p.id := p]
    case ProfileDelete(id) => after.profiles == if id == "default" then db.profiles else db.profiles - {id}
    case ProfilePauseSet(id, _, until, reason, ips) =>
      after.profiles ==
        if id in db.profiles then
          db.profiles[id := db.profiles[id].(pause := Some(C.PauseState(until, reason, [], ips)))]
        else db.profiles
    case ProfilePauseClear(id, _) =>
      after.profiles ==
        if id in db.profiles then db.profiles[id := db.profiles[id].(pause := None)] else db.profiles
    case _ => after.profiles == db.profiles
  }

  lemma ProfilesApplied(db: Db, cmd: Command, now: Time)
    ensures ProfilesAfter(db, cmd, Apply(db, cmd, now))
  {
    if !AreaOf(cmd).ProfileArea? { AreaFrame(db, cmd, now); }
  }

  lemma ProfileWritten(db: Db, after: Db, cmd: Command, id: string)
    requires ProfilesAfter(db, cmd, after)
    ensures Written(HeldProfile(db, id), ProfileWrite(db, cmd, id), HeldProfile(after, id))
  {
  }

  lemma ProfileRowIs(db: Db, after: Db, cmd: Command, id: string)
    requires ProfilesAfter(db, cmd, after)
    ensures IsWritten(db, cmd, after, ProfileRow(id))
  {
    ProfileWritten(db, after, cmd, id);
  }

  lemma ProfileRowStep(db: Db, cmd: Command, now: Time, id: string)
    ensures IsWritten(db, cmd, Apply(db, cmd, now), ProfileRow(id))
  {
    ProfilesApplied(db, cmd, now);
    ProfileRowIs(db, Apply(db, cmd, now), cmd, id);
  }

  ghost predicate SnapshotsAfter(db: Db, cmd: Command, after: Db) {
    && after.secret == (if cmd.SecretSet? then Some(cmd.secret) else db.secret)
    && after.leaseSnapshot == (if cmd.LeasesReplace? then Some(cmd.snapshot) else db.leaseSnapshot)
    && after.doh ==
      if cmd.DohReplace? then DohState(Some(cmd.snapshot), Some(cmd.attemptedAt), Some(cmd.error))
      else if cmd.DohFailure? then DohState(db.doh.snapshot, Some(cmd.attemptedAt), Some(cmd.error))
      else db.doh
  }

  lemma SnapshotsApplied(db: Db, cmd: Command, now: Time)
    ensures SnapshotsAfter(db, cmd, Apply(db, cmd, now))
  {
    match cmd
    case LeasesReplace(s) => LeasesReplaced(db, s, now);
    case DohReplace(s, at, e) => ResolversReplaced(db, s, at, e, now);
    case DohFailure(at, e) => ResolversFailed(db, at, e, now);
    case _ =>
      SecretApplied(db, cmd, now);
      SnapshotsKept(db, cmd, now);
  }

  lemma SnapshotsKept(db: Db, cmd: Command, now: Time)
    requires !cmd.LeasesReplace? && !cmd.DohReplace? && !cmd.DohFailure?
    ensures Apply(db, cmd, now).leaseSnapshot == db.leaseSnapshot && Apply(db, cmd, now).doh == db.doh
  {
    if !AreaOf(cmd).ObservedArea? { AreaFrame(db, cmd, now); }
  }

  lemma LeasesReplaced(db: Db, s: C.Json, now: Time)
    ensures Apply(db, LeasesReplace(s), now) == db.(leaseSnapshot := Some(s))
  {
  }

  lemma ResolversReplaced(db: Db, s: C.Json, at: string, e: string, now: Time)
    ensures Apply(db, DohReplace(s, at, e), now) == db.(doh := DohState(Some(s), Some(at), Some(e)))
  {
  }

  lemma ResolversFailed(db: Db, at: string, e: string, now: Time)
    ensures Apply(db, DohFailure(at, e), now) == db.(doh := DohState(db.doh.snapshot, Some(at), Some(e)))
  {
  }

  lemma SnapshotWritten(db: Db, after: Db, cmd: Command, single: Single)
    requires SnapshotsAfter(db, cmd, after)
    ensures IsWritten(db, cmd, after, Snapshot(single))
  {
  }

  lemma SnapshotStep(db: Db, cmd: Command, now: Time, single: Single)
    ensures IsWritten(db, cmd, Apply(db, cmd, now), Snapshot(single))
  {
    SnapshotsApplied(db, cmd, now);
    SnapshotWritten(db, Apply(db, cmd, now), cmd, single);
  }

  // The cells behind the configuration document

  ghost predicate ConfigAfter(db: Db, cmd: Command, after: Db) {
    if AreaOf(cmd).ConfigArea? then
      after.config == (match ApplyConfig(db.config, cmd) case Ok(b) => b case Err(_) => db.config)
    else after.config == db.config
  }

  lemma ConfigApplied(db: Db, cmd: Command, now: Time)
    ensures ConfigAfter(db, cmd, Apply(db, cmd, now))
  {
    if !AreaOf(cmd).ConfigArea? { AreaFrame(db, cmd, now); }
  }

  /** Rows put one after the other leave the last one of each key. */
  lemma {:induction false} PutAllLast<V>(keys: seq<string>, rows: seq<V>, k: string, i: int)
    requires |keys| == |rows| && 0 <= i < |keys| && keys[i] == k && forall j :: i < j < |keys| ==> keys[j] != k
    ensures k in PutAll(keys, rows) && PutAll(keys, rows)[k] == rows[i]
  {
    var n := |keys| - 1;
    if i < n { PutAllLast(keys[..n], rows[..n], k, i); }
  }

  lemma {:induction false} PutAllOnly<V>(keys: seq<string>, rows: seq<V>, k: string)
    requires |keys| == |rows| && k !in keys
    ensures k !in PutAll(keys, rows)
  {
    if keys != [] {
      var n := |keys| - 1;
      PutAllOnly(keys[..n], rows[..n], k);
    }
  }

  lemma ListImported(b: C.Buckets, c: C.Config, id: string)
    ensures var m := C.Import(b, c).blocklists;
      && (forall i :: LastList(c.blocklists, id, i) ==> id in m && m[id] == c.blocklists[i])
      && ((forall i :: !LastList(c.blocklists, id, i)) ==> id !in m)
  {
    var keys := C.BlocklistIds(c.blocklists);
    forall i | LastList(c.blocklists, id, i)
      ensures id in C.Import(b, c).blocklists && C.Import(b, c).blocklists[id] == c.blocklists[i]
    {
      PutAllLast(keys, c.blocklists, id, i);
    }
    if id in keys {
      var i := LastOf(keys, id);
      assert LastList(c.blocklists, id, i);
    } else {
      PutAllOnly(keys, c.blocklists, id);
    }
  }

  lemma {:induction false} LastOf(keys: seq<string>, k: string) returns (i: nat)
    requires k in keys
    ensures i < |keys| && keys[i] == k && forall j :: i < j < |keys| ==> keys[j] != k
  {
    var n := |keys| - 1;
    if keys[n] == k {
      i := n;
    } else {
      i := LastOf(keys[..n], k);
    }
  }

  lemma LocalImported(b: C.Buckets, c: C.Config, id: string)
    ensures var m := C.Import(b, c).localDns;
      && (forall i :: LastLocal(c.localDns, id, i) ==> id in m && m[id] == c.localDns[i])
      && ((forall i :: !LastLocal(c.localDns, id, i)) ==> id !in m)
  {
    var keys := C.LocalIds(c.localDns);
    forall i | LastLocal(c.localDns, id, i)
      ensures id in C.Import(b, c).localDns && C.Import(b, c).localDns[id] == c.localDns[i]
    {
      PutAllLast(keys, c.localDns, id, i);
    }
    if id in keys {
      var i := LastOf(keys, id);
      assert LastLocal(c.localDns, id, i);
    } else {
      PutAllOnly(keys, c.localDns, id);
    }
  }

  lemma AllowedImported(b: C.Buckets, c: C.Config, key: string)
    ensures var m := C.Import(b, c).allowlist;
      (key in m <==> Names(c.allowlist, key)) && (key in m ==> m[key] == C.Plain)
  {
    var keys := C.LowerAll(c.allowlist);
    C.PutAllPlains(keys);
    assert key in keys <==> Names(c.allowlist, key) by {
      if Names(c.allowlist, key) {
        var i :| 0 <= i < |c.allowlist| && Lower(c.allowlist[i]) == key;
        assert keys[i] == key;
      }
    }
  }

  ghost predicate ListsAfter(db: Db, cmd: Command, after: Db) {
    var m := db.config.blocklists;
    match cmd
    case BlocklistUpsert(list) => after.config.blocklists == m[list.id := list]
    case BlocklistDelete(id) => after.config.blocklists == m - {id}
    case BlocklistSetEnabled(id, on) =>
      after.config.blocklists == if id in m then m[id := m[id].(enabled := on)] else m
    case ConfigImportAll(c) => after.config.blocklists == C.Import(db.config, c).blocklists
    case _ => after.config.blocklists == m
  }

  lemma ListsFollow(db: Db, after: Db, cmd: Command)
    requires ConfigAfter(db, cmd, after)
    ensures ListsAfter(db, cmd, after)
  {
  }

  lemma ListWritten(db: Db, after: Db, cmd: Command, id: string)
    requires ListsAfter(db, cmd, after)
    ensures Written(HeldList(db, id), ListWrite(db, cmd, id), HeldList(after, id))
  {
    if cmd.ConfigImportAll? { ListImported(db.config, cmd.config, id); }
  }

  ghost predicate DomainsAfter(db: Db, cmd: Command, after: Db) {
    var m := db.config.allowlist;
    match cmd
    case AllowlistAdd(e) => after.config.allowlist == m[Lower(e.domain) := AllowValueOf(e)]
    case AllowlistRemove(domain) => after.config.allowlist == m - {Lower(domain)}
    case ConfigImportAll(c) => after.config.allowlist == C.Import(db.config, c).allowlist
    case _ => after.config.allowlist == m
  }

  lemma DomainsFollow(db: Db, after: Db, cmd: Command)
    requires ConfigAfter(db, cmd, after)
    ensures DomainsAfter(db, cmd, after)
  {
  }

  lemma AllowedWritten(db: Db, after: Db, cmd: Command, key: string)
    requires DomainsAfter(db, cmd, after)
    ensures Written(HeldAllowed(db, key), AllowedWrite(cmd, key), HeldAllowed(after, key))
  {
    if cmd.ConfigImportAll? { AllowedImported(db.config, cmd.config, key); }
  }

  ghost predicate LocalsAfter(db: Db, cmd: Command, after: Db) {
    var m := db.config.localDns;
    match cmd
    case LocalDnsUpsert(e) => after.config.localDns == m[e.id := e]
    case LocalDnsDelete(id) => after.config.localDns == m - {id}
    case ConfigImportAll(c) => after.config.localDns == C.Import(db.config, c).localDns
    case _ => after.config.localDns == m
  }

  lemma LocalsFollow(db: Db, after: Db, cmd: Command)
    requires ConfigAfter(db, cmd, after)
    ensures LocalsAfter(db, cmd, after)
  {
  }

  lemma LocalWritten(db: Db, after: Db, cmd: Command, id: string)
    requires LocalsAfter(db, cmd, after)
    ensures Written(HeldLocal(db, id), LocalWrite(cmd, id), HeldLocal(after, id))
  {
    if cmd.ConfigImportAll? { LocalImported(db.config, cmd.config, id); }
  }

  lemma SettingPatched(db: Db, after: Db, cmd: Command, part: Part)
    requires ConfigAfter(db, cmd, after) && cmd.SettingsPatch?
    ensures Written(HeldSetting(db, part), SettingWrite(db, cmd, part), HeldSetting(after, part))
  {
  }

  lemma SettingImported(db: Db, after: Db, cmd: Command, part: Part)
    requires ConfigAfter(db, cmd, after) && cmd.ConfigImportAll?
    ensures Written(HeldSetting(db, part), SettingWrite(db, cmd, part), HeldSetting(after, part))
  {
  }

  lemma SettingSet(db: Db, after: Db, cmd: Command, part: Part)
    requires ConfigAfter(db, cmd, after)
    requires cmd.CustomRulesSet? || cmd.GlobalPauseSet? || cmd.GlobalPauseClear? || cmd.AuthSetCredentials?
    ensures Written(HeldSetting(db, part), SettingWrite(db, cmd, part), HeldSetting(after, part))
  {
  }

  lemma SettingKept(db: Db, after: Db, cmd: Command)
    requires ConfigAfter(db, cmd, after)
    requires !cmd.SettingsPatch? && !cmd.ConfigImportAll? && !cmd.CustomRulesSet? && !cmd.GlobalPauseSet?
    requires !cmd.GlobalPauseClear? && !cmd.AuthSetCredentials?
    ensures after.config.settings == db.config.settings && after.config.auth == db.config.auth
  {
  }

  lemma SettingStep(db: Db, after: Db, cmd: Command, part: Part)
    requires ConfigAfter(db, cmd, after)
    ensures Written(HeldSetting(db, part), SettingWrite(db, cmd, part), HeldSetting(after, part))
  {
    if cmd.SettingsPatch? {
      SettingPatched(db, after, cmd, part);
    } else if cmd.ConfigImportAll? {
      SettingImported(db, after, cmd, part);
    } else if cmd.CustomRulesSet? || cmd.GlobalPauseSet? || cmd.GlobalPauseClear? || cmd.AuthSetCredentials? {
      SettingSet(db, after, cmd, part);
    } else {
      SettingKept(db, after, cmd);
    }
  }

  /** Every entry does to every cell what is said of the cell, and nothing more; at any clock. */
  lemma EntryWrites(db: Db, cmd: Command, now: Time, cell: Cell)
    ensures IsWritten(db, cmd, Apply(db, cmd, now), cell)
  {
    match cell
    case Document(bucket, key) => DocumentStep(db, cmd, now, bucket, key);
    case Hour(node, hour) => HourStep(db, cmd, now, node, hour);
    case Snapshot(single) => SnapshotStep(db, cmd, now, single);
    case JoinToken(hash) => JoinTokenStep(db, cmd, now, hash);
    case ProfileRow(id) => ProfileRowStep(db, cmd, now, id);
    case BindingRow(key) => BindingRowStep(db, cmd, now, key);
    case AnomalyRow(id) => AnomalyRowStep(db, cmd, now, id);
    case Client(ip) => ClientStep(db, cmd, now, ip);
    case _ => ConfigCellStep(db, cmd, now, cell);
  }

  lemma ListIs(db: Db, after: Db, cmd: Command, id: string)
    requires ConfigAfter(db, cmd, after)
    ensures IsWritten(db, cmd, after, ListRow(id))
  {
    ListsFollow(db, after, cmd);
    ListWritten(db, after, cmd, id);
  }

  lemma AllowedIs(db: Db, after: Db, cmd: Command, key: string)
    requires ConfigAfter(db, cmd, after)
    ensures IsWritten(db, cmd, after, Allowed(key))
  {
    DomainsFollow(db, after, cmd);
    AllowedWritten(db, after, cmd, key);
  }

  lemma LocalIs(db: Db, after: Db, cmd: Command, id: string)
    requires ConfigAfter(db, cmd, after)
    ensures IsWritten(db, cmd, after, LocalRow(id))
  {
    LocalsFollow(db, after, cmd);
    LocalWritten(db, after, cmd, id);
  }

  lemma SettingIs(db: Db, after: Db, cmd: Command, part: Part)
    requires ConfigAfter(db, cmd, after)
    ensures IsWritten(db, cmd, after, Setting(part))
  {
    SettingStep(db, after, cmd, part);
  }

  lemma ConfigCellStep(db: Db, cmd: Command, now: Time, cell: Cell)
    requires cell.Setting? || cell.ListRow? || cell.Allowed? || cell.LocalRow?
    ensures IsWritten(db, cmd, Apply(db, cmd, now), cell)
  {
    var after := Apply(db, cmd, now);
    ConfigApplied(db, cmd, now);
    match cell
    case ListRow(id) => ListIs(db, after, cmd, id);
    case Allowed(key) => AllowedIs(db, after, cmd, key);
    case LocalRow(id) => LocalIs(db, after, cmd, id);
    case Setting(part) => SettingIs(db, after, cmd, part);
  }

  // ----------------------------------------------------------------------------
  // A whole log
  // ----------------------------------------------------------------------------

  /** What entry i does to the cell, at its place in the log. */
  ghost function WriteAt(start: Db, log: seq<Command>, i: nat, cell: Cell): Write
    requires i < |log|
  {
    WriteOf(Canonical(start, log[..i]), log[i], cell)
  }

  ghost predicate IsLastWrite(start: Db, log: seq<Command>, i: nat, cell: Cell) {
    && i < |log| && !WriteAt(start, log, i, cell).Keep?
    && forall j :: i < j < |log| ==> WriteAt(start, log, j, cell).Keep?
  }

  /** A cell over time, next to what was done to it. */
  lemma {:induction false} LastOfWrites(held: seq<Option<Value>>, writes: seq<Write>, i: nat)
    requires |held| == |writes| + 1
    requires forall k :: 0 <= k < |writes| ==> Written(held[k], writes[k], held[k + 1])
    requires i < |writes| && forall j :: i < j < |writes| ==> writes[j].Keep?
    ensures !writes[i].Keep? ==> Written(None, writes[i], held[|writes|])
    ensures writes[i].Keep? ==> held[|writes|] == held[i]
  {
    var n := |writes| - 1;
    assert Written(held[n], writes[n], held[n + 1]);
    if i < n { LastOfWrites(held[..n + 1], writes[..n], i); }
  }

  lemma LogWrites(start: Db, log: seq<Command>, cell: Cell) returns (held: seq<Option<Value>>, writes: seq<Write>)
    ensures |held| == |writes| + 1 && |writes| == |log|
    ensures forall k :: 0 <= k <= |log| ==> held[k] == Held(Canonical(start, log[..k]), cell)
    ensures forall k :: 0 <= k < |log| ==> writes[k] == WriteAt(start, log, k, cell)
    ensures forall k :: 0 <= k < |log| ==> Written(held[k], writes[k], held[k + 1])
  {
    held := seq(|log| + 1, k requires 0 <= k <= |log| => Held(Canonical(start, log[..k]), cell));
    writes := seq(|log|, k requires 0 <= k < |log| => WriteAt(start, log, k, cell));
    forall k | 0 <= k < |log| ensures Written(held[k], writes[k], held[k + 1]) {
      LogStep(start, log, k, cell);
    }
  }

  lemma LogStep(start: Db, log: seq<Command>, k: nat, cell: Cell)
    requires k < |log|
    ensures Written(
      Held(Canonical(start, log[..k]), cell), WriteAt(start, log, k, cell), Held(Canonical(start, log[..k + 1]), cell))
  {
    var longer := log[..k + 1];
    assert longer[..k] == log[..k] && Canonical(start, longer) == Apply(Canonical(start, log[..k]), log[k], 1);
    EntryWrites(Canonical(start, log[..k]), log[k], 1, cell);
  }

  /** After every log each cell holds what the last entry that wrote it wrote, whatever happened to the others. */
  lemma LastWriteStays(start: Db, log: seq<Command>, cell: Cell, i: nat)
    requires IsLastWrite(start, log, i, cell)
    ensures Written(None, WriteAt(start, log, i, cell), Held(Canonical(start, log), cell))
  {
    var held, writes := LogWrites(start, log, cell);
    LastOfWrites(held, writes, i);
    assert log[..|log|] == log;
  }

  /** A cell that no entry wrote holds what it held at the start. */
  lemma UnwrittenStays(start: Db, log: seq<Command>, cell: Cell)
    requires forall j :: 0 <= j < |log| ==> WriteAt(start, log, j, cell).Keep?
    ensures Held(Canonical(start, log), cell) == Held(start, cell)
  {
    if log != [] {
      var held, writes := LogWrites(start, log, cell);
      LastOfWrites(held, writes, 0);
      assert log[..|log|] == log && log[..0] == [];
    }
  }

  // ----------------------------------------------------------------------------
  // Refusals
  // ----------------------------------------------------------------------------

  /** What a command needs to be there, and what it may not do. */
  predicate Refused(db: Db, cmd: Command) {
    match cmd
    case BlocklistSetEnabled(id, _) => id !in db.config.blocklists
    case ProfileDelete(id) => id == "default"
    case ProfilePauseSet(id, _, _, _, _) => id !in db.profiles
    case ProfilePauseClear(id, _) => id !in db.profiles
    case TokenConsume(hash, at) =>
      hash !in db.tokens || db.tokens[hash].consumedUnix != 0
      || (db.tokens[hash].expiresUnix != 0 && db.tokens[hash].expiresUnix < at)
    case AnomalyAppend(a) => a.id == ""
    case AnomalyAcknowledge(id, _) => id !in db.anomalies
    case Unknown(_) => true
    case _ => false
  }

  lemma RefusedEdit(db: Db, cmd: Command, now: Time)
    requires AreaOf(cmd).ConfigArea? || AreaOf(cmd).ScheduleArea?
    ensures ApplyTx(db, cmd, now).Err? <==> Refused(db, cmd)
  {
  }

  lemma RefusedObservation(db: Db, cmd: Command, now: Time)
    requires AreaOf(cmd).ObservedArea?
    ensures ApplyTx(db, cmd, now).Err? <==> Refused(db, cmd)
  {
  }

  lemma RefusedApart(db: Db, cmd: Command, now: Time)
    requires AreaOf(cmd).ProfileArea? || AreaOf(cmd).ClusterArea? || AreaOf(cmd).NoArea?
    ensures ApplyTx(db, cmd, now).Err? <==> Refused(db, cmd)
  {
  }

  /** These commands are refused, no others, and a refused command changes nothing. */
  lemma RefusedIff(db: Db, cmd: Command, now: Time)
    ensures ApplyTx(db, cmd, now).Err? <==> Refused(db, cmd)
    ensures Refused(db, cmd) ==> Apply(db, cmd, now) == db
  {
    match AreaOf(cmd)
    case ConfigArea | ScheduleArea => RefusedEdit(db, cmd, now);
    case ObservedArea => RefusedObservation(db, cmd, now);
    case _ => RefusedApart(db, cmd, now);
  }

  // ----------------------------------------------------------------------------
  // Writes outside the log
  // ----------------------------------------------------------------------------

  /** Tracking lists an address that has no entry, as first seen then; one with an entry stays as it is. */
  lemma TrackOutcome(db: Db, ip: string, t: Time)
    ensures var after := Local(db, Track(ip, t));
      && after == db.(newDynamic := after.newDynamic)
      && after.newDynamic.Keys == db.newDynamic.Keys + {ip}
      && (forall a :: a in db.newDynamic ==> after.newDynamic[a] == db.newDynamic[a])
      && (ip !in db.newDynamic ==> after.newDynamic[ip].firstSeen == t && !after.newDynamic[ip].dismissed)
  {
  }

  /** A certificate's expiry and a backup are rows of buckets of their own. */
  lemma NodeLocalOutcome(db: Db, w: StoreModel.LocalWrite)
    requires !w.Track?
    ensures var after := Local(db, w);
      && after == db.(certExpiry := after.certExpiry, backups := after.backups)
      && (w.CertExpiry? ==>
        after.backups == db.backups && after.certExpiry == map[w.nodeId := w.expiry] + (db.certExpiry - {w.nodeId}))
      && (!w.CertExpiry? ==> after.certExpiry == db.certExpiry && after.backups - {w.key} == db.backups - {w.key})
      && (w.BackupPut? ==> w.key in after.backups && after.backups[w.key] == w.doc)
      && (w.BackupDelete? ==> w.key !in after.backups)
  {
  }
}
