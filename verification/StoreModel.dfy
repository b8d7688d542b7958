/**
 The replicated store: one record of buckets, the commands of the replicated log, and
 what applying a command does. A failed command leaves the buckets as they were.

 Buckets that hold one encoded document per key and that no command inspects are
 kept together as documents; Upsert and Remove stand for the commands that put
 or delete one of them:
   shared_allowlist.*, member.*, schedule.upsert, category_override.upsert, api_token.*,
   dnscrypt.keys.set, webhooks.update, dhcp_server.*, dhcp6_server.*, tls_renew.config.set,
   device.*
 */
module StoreModel {
  import opened Wrappers
  import opened Strings
  import AuditLog
  import ConfigImport
  import Bindings

  type Json = ConfigImport.Json

  /** Instants; the zero time is 0. */
  type Time = int
  const ZERO_TIME: Time := 0
  const NANOS_PER_SECOND := 1_000_000_000

  const PAUSE_HISTORY_CAP := 50

  datatype DocBucket =
    | SharedAllowlists | Members | Schedules | Categories | ApiTokens | DnsCryptKeys | Webhooks
    | DhcpServer | DhcpStatic | DhcpLeases | Dhcp6Server | Dhcp6Static | Dhcp6Leases | TlsRenew | Devices

  datatype Token = Token(expiresUnix: int, createdBy: string, consumedUnix: int)
  datatype Profile = Profile(id: string, pause: Option<ConfigImport.PauseState>, body: Json)
  datatype PauseEntry = PauseEntry(
    startedAt: Time, endedAt: Time, scope: string, reason: string, clientIps: seq<string>)
  datatype Anomaly = Anomaly(id: string, detectedAt: Time, acknowledgedUnix: Option<int>, body: Json)
  datatype DynamicClient = DynamicClient(firstSeen: Time, dismissed: bool, dismissedAt: Time)
  datatype DohState = DohState(snapshot: Option<Json>, attemptedAt: Option<string>, error: Option<string>)

  datatype Db = Db(
    docs: map<DocBucket, map<string, Json>>,
    config: ConfigImport.Buckets,
    secret: Option<string>,
    tokens: map<string, Token>,
    stats: map<string, map<nat, Json>>,
    profiles: map<string, Profile>,
    bindings: map<string, Bindings.Binding>,
    audit: AuditLog.AuditBucket,
    doh: DohState,
    leaseSnapshot: Option<Json>,
    anomalies: map<string, Anomaly>,
    pauseHistory: map<string, seq<PauseEntry>>,
    newDynamic: map<string, DynamicClient>,
    certExpiry: map<string, Time>,
    backups: map<string, Json>)

  const EMPTY := Db(
    map[], ConfigImport.EMPTY, None, map[], map[], map[], map[], AuditLog.EMPTY, DohState(None, None, None),
    None, map[], map[], map[], map[], map[])

  datatype Command =
    | BlocklistUpsert(blocklist: ConfigImport.Blocklist)
    | BlocklistDelete(id: string)
    | BlocklistSetEnabled(id: string, enabled: bool)
    | AllowlistAdd(entry: ConfigImport.AllowEntry)
    | AllowlistRemove(domain: string)
    | LocalDnsUpsert(local: ConfigImport.LocalEntry)
    | LocalDnsDelete(id: string)
    | SettingsPatch(dns: Option<ConfigImport.DnsConfig>, filtering: Option<FilteringPatch>, queryLog: Option<Json>)
    | CustomRulesSet(rules: string)
    | GlobalPauseSet(pause: ConfigImport.PauseState)
    | GlobalPauseClear
    | AuthSetCredentials(credentials: ConfigImport.Credentials)
    | ConfigImportAll(config: ConfigImport.Config)
    | TokenCreate(hash: string, token: Token)
    | TokenConsume(hash: string, consumedAt: int)
    | StatsCommitHour(nodeId: string, hourUnix: Int64, aggregate: Json)
    | StatsPrune(beforeUnix: Int64)
    | SecretSet(secret: string)
    | ProfileUpsert(profile: Profile)
    | ProfileDelete(id: string)
    | ProfilePauseSet(profileId: string, startedAt: Time, resumesAt: Time, reason: string, clientIps: seq<string>)
    | ProfilePauseClear(profileId: string, endedAt: Time)
    | PauseHistoryAppend(profileId: string, history: PauseEntry)
    | ScheduleDelete(id: string)
    | BindingPut(binding: Bindings.Binding)
    | BindingDelete(binding: Bindings.Binding)
    | AuditAppend(audit: AuditLog.AuditEntry)
    | DohReplace(snapshot: Json, attemptedAt: string, error: string)
    | DohFailure(attemptedAt: string, error: string)
    | LeasesReplace(snapshot: Json)
    | AnomalyAppend(anomaly: Anomaly)
    | AnomalyAcknowledge(id: string, atUnix: int)
    | AnomalySweep(beforeUnix: Int64)
    | DynamicClientDismiss(clientIp: string, dismissedAt: Time)
    | Upsert(bucket: DocBucket, id: string, doc: Json)
    | Remove(bucket: DocBucket, id: string)
    | Unknown(kind: string)

  datatype FilteringPatch = FilteringPatch(blockPolicy: Option<string>, pauseMaxSeconds: Option<int>)

  // ----------------------------------------------------------------------------
  // Pieces
  // ----------------------------------------------------------------------------

  function Docs(db: Db, bucket: DocBucket): map<string, Json> {
    if bucket in db.docs then db.docs[bucket] else map[]
  }

  /** Hardware addresses are keyed in lower case; every other id is the key. */
  function DocKey(bucket: DocBucket, id: string): string {
    if bucket.DhcpStatic? then Lower(id) else id
  }

  /** A signed 64-bit value read as an unsigned one. */
  function ToU64(n: Int64): nat {
    if n < 0 then n + U64_MODULUS else n
  }

  function WithHour(stats: map<string, map<nat, Json>>, node: string, hour: nat, aggregate: Json)
    : map<string, map<nat, Json>>
  {
    stats[node := (if node in stats then stats[node] else map[])[hour := aggregate]]
  }

  function PrunedHours(hours: map<nat, Json>, from: nat): map<nat, Json> {
    map hour | hour in hours && hour >= from :: hours[hour]
  }

  function PrunedStats(stats: map<string, map<nat, Json>>, beforeUnix: Int64): map<string, map<nat, Json>> {
    map node | node in stats :: PrunedHours(stats[node], ToU64(beforeUnix))
  }

  function SweptAnomalies(anomalies: map<string, Anomaly>, beforeUnix: int): map<string, Anomaly> {
    map id | id in anomalies && anomalies[id].detectedAt >= beforeUnix * NANOS_PER_SECOND :: anomalies[id]
  }

  function History(db: Db, profileId: string): seq<PauseEntry> {
    if profileId in db.pauseHistory then db.pauseHistory[profileId] else []
  }

  /** Newest first, at most PAUSE_HISTORY_CAP entries. */
  function Prepended(entries: seq<PauseEntry>, e: PauseEntry): seq<PauseEntry> {
    var all := [e] + entries;
    if |all| > PAUSE_HISTORY_CAP then all[..PAUSE_HISTORY_CAP] else all
  }

  /** Ends the first entry that is still open. */
  function Closed(entries: seq<PauseEntry>, at: Time): (r: seq<PauseEntry>)
    ensures |r| == |entries|
  {
    if entries == [] then []
    else if entries[0].endedAt == ZERO_TIME then [entries[0].(endedAt := at)] + entries[1..]
    else [entries[0]] + Closed(entries[1..], at)
  }

  function AllowValueOf(e: ConfigImport.AllowEntry): ConfigImport.AllowValue {
    if ConfigImport.IsRich(e) then ConfigImport.Rich(e.(domain := Lower(e.domain))) else ConfigImport.Plain
  }

  function Patched(s: ConfigImport.Settings, cmd: Command): ConfigImport.Settings
    requires cmd.SettingsPatch?
  {
    var stored := ConfigImport.Unwrap(s.filtering, ConfigImport.StoredFiltering("", 0, ConfigImport.ZERO_DOCUMENT));
    s.(
      dns := if cmd.dns.Some? then cmd.dns else s.dns,
      filtering := if cmd.filtering.None? then s.filtering else
        Some(stored.(
          blockPolicy := ConfigImport.Unwrap(cmd.filtering.value.blockPolicy, stored.blockPolicy),
          pauseMaxSeconds := ConfigImport.Unwrap(cmd.filtering.value.pauseMaxSeconds, stored.pauseMaxSeconds))),
      queryLog := if cmd.queryLog.Some? then cmd.queryLog else s.queryLog)
  }

  // ----------------------------------------------------------------------------
  // Applying a command
  // ----------------------------------------------------------------------------

  /** Commands on the buckets behind the configuration document. */
  function ApplyConfig(b: ConfigImport.Buckets, cmd: Command): Result<ConfigImport.Buckets>
    requires AreaOf(cmd).ConfigArea?
  {
    match cmd
    case BlocklistUpsert(bl) => Ok(b.(blocklists := b.blocklists[bl.id := bl]))
    case BlocklistDelete(id) => Ok(b.(blocklists := b.blocklists - {id}))
    case BlocklistSetEnabled(id, enabled) =>
      if id !in b.blocklists then Err("blocklist not found")
      else Ok(b.(blocklists := b.blocklists[id := b.blocklists[id].(enabled := enabled)]))
    case AllowlistAdd(e) => Ok(b.(allowlist := b.allowlist[Lower(e.domain) := AllowValueOf(e)]))
    case AllowlistRemove(domain) => Ok(b.(allowlist := b.allowlist - {Lower(domain)}))
    case LocalDnsUpsert(e) => Ok(b.(localDns := b.localDns[e.id := e]))
    case LocalDnsDelete(id) => Ok(b.(localDns := b.localDns - {id}))
    case SettingsPatch(_, _, _) => Ok(b.(settings := Patched(b.settings, cmd)))
    case CustomRulesSet(rules) => Ok(b.(settings := b.settings.(customRules := Some(rules))))
    case GlobalPauseSet(pause) => Ok(b.(settings := b.settings.(globalPause := Some(pause))))
    case GlobalPauseClear => Ok(b.(settings := b.settings.(globalPause := None)))
    case AuthSetCredentials(c) => Ok(b.(auth := Some(c)))
    case ConfigImportAll(c) => Ok(ConfigImport.Import(b, c))
  }

  /** The part of the store a command writes. */
  datatype Area = ConfigArea | ScheduleArea | ProfileArea | ClusterArea | ObservedArea | NoArea

  function AreaOf(cmd: Command): Area {
    match cmd
    case BlocklistUpsert(_) | BlocklistDelete(_) | BlocklistSetEnabled(_, _) | AllowlistAdd(_) | AllowlistRemove(_)
      | LocalDnsUpsert(_) | LocalDnsDelete(_) | SettingsPatch(_, _, _) | CustomRulesSet(_) | GlobalPauseSet(_)
      | GlobalPauseClear | AuthSetCredentials(_) | ConfigImportAll(_) => ConfigArea
    case ScheduleDelete(_) | BindingPut(_) | BindingDelete(_) | Upsert(_, _, _) | Remove(_, _) => ScheduleArea
    case ProfileUpsert(_) | ProfileDelete(_) | ProfilePauseSet(_, _, _, _, _) | ProfilePauseClear(_, _)
      | PauseHistoryAppend(_, _) => ProfileArea
    case TokenCreate(_, _) | TokenConsume(_, _) | SecretSet(_) | AuditAppend(_) => ClusterArea
    case StatsCommitHour(_, _, _) | StatsPrune(_) | DohReplace(_, _, _) | DohFailure(_, _) | LeasesReplace(_)
      | AnomalyAppend(_) | AnomalyAcknowledge(_, _) | AnomalySweep(_) | DynamicClientDismiss(_, _) => ObservedArea
    case Unknown(_) => NoArea
  }

  /** Single use: an unknown, consumed or expired token is refused; otherwise it is marked consumed. */
  function ConsumeToken(tokens: map<string, Token>, hash: string, at: int): Result<map<string, Token>> {
    if hash !in tokens then Err("token not found")
    else if tokens[hash].consumedUnix != 0 then Err("token already consumed")
    else if tokens[hash].expiresUnix != 0 && at > tokens[hash].expiresUnix then Err("token expired")
    else Ok(tokens[hash := tokens[hash].(consumedUnix := at)])
  }

  /** Pausing a profile also opens an entry of its pause history. */
  function PauseProfile(db: Db, cmd: Command): Result<Db>
    requires cmd.ProfilePauseSet?
  {
    if cmd.profileId !in db.profiles then Err("profile not found")
    else
      var pause := ConfigImport.PauseState(cmd.resumesAt, cmd.reason, [], cmd.clientIps);
      var scope := if |cmd.clientIps| > 0 then "per-client" else "profile";
      var e := PauseEntry(cmd.startedAt, ZERO_TIME, scope, cmd.reason, cmd.clientIps);
      Ok(db.(
        profiles := db.profiles[cmd.profileId := db.profiles[cmd.profileId].(pause := Some(pause))],
        pauseHistory := db.pauseHistory[cmd.profileId := Prepended(History(db, cmd.profileId), e)]))
  }

  /** The end time written by a resume: the payload's, or this node's clock when that is the zero time. */
  function EndTime(endedAt: Time, now: Time): Time {
    if endedAt == ZERO_TIME then now else endedAt
  }

  function ResumeProfile(db: Db, profileId: string, endedAt: Time, now: Time): Result<Db> {
    if profileId !in db.profiles then Err("profile not found")
    else
      Ok(db.(
        profiles := db.profiles[profileId := db.profiles[profileId].(pause := None)],
        pauseHistory :=
          if profileId !in db.pauseHistory then db.pauseHistory
          else db.pauseHistory[profileId := Closed(db.pauseHistory[profileId], EndTime(endedAt, now))]))
  }

  /** Keeps a tombstone, so that local tracking cannot list the address again. */
  function Dismissed(clients: map<string, DynamicClient>, ip: string, at: Time): map<string, DynamicClient> {
    var firstSeen := if ip in clients then clients[ip].firstSeen else ZERO_TIME;
    clients[ip := DynamicClient(firstSeen, true, at)]
  }

  /** Schedules with their bindings, and the documents no command inspects. */
  function ApplySchedule(db: Db, cmd: Command): Result<Db>
    requires AreaOf(cmd).ScheduleArea?
  {
    match cmd
    case ScheduleDelete(id) =>
      Ok(db.(
        bindings := Bindings.WithoutPrefix(db.bindings, Bindings.SchedulePrefix(id)),
        docs := db.docs[Schedules := Docs(db, Schedules) - {id}]))
    case BindingPut(b) => Ok(db.(bindings := db.bindings[b.Key() := b]))
    case BindingDelete(b) => Ok(db.(bindings := db.bindings - {b.Key()}))
    case Upsert(bucket, id, doc) => Ok(db.(docs := db.docs[bucket := Docs(db, bucket)[DocKey(bucket, id) := doc]]))
    case Remove(bucket, id) => Ok(db.(docs := db.docs[bucket := Docs(db, bucket) - {DocKey(bucket, id)}]))
  }

  /** Profiles, their pauses and their pause history; `now` is this node's clock. */
  function ApplyProfile(db: Db, cmd: Command, now: Time): Result<Db>
    requires AreaOf(cmd).ProfileArea?
  {
    match cmd
    case ProfileUpsert(p) => Ok(db.(profiles := db.profiles[p.id := p]))
    case ProfileDelete(id) =>
      if id == "default" then Err("cannot delete the reserved default profile")
      else Ok(db.(profiles := db.profiles - {id}))
    case ProfilePauseSet(_, _, _, _, _) => PauseProfile(db, cmd)
    case ProfilePauseClear(id, endedAt) => ResumeProfile(db, id, endedAt, now)
    case PauseHistoryAppend(id, e) => Ok(db.(pauseHistory := db.pauseHistory[id := Prepended(History(db, id), e)]))
  }

  /** Join tokens, the cluster secret and the audit log. */
  function ApplyCluster(db: Db, cmd: Command): Result<Db>
    requires AreaOf(cmd).ClusterArea?
  {
    match cmd
    case TokenCreate(hash, token) => Ok(db.(tokens := db.tokens[hash := token]))
    case TokenConsume(hash, at) =>
      (match ConsumeToken(db.tokens, hash, at)
       case Ok(tokens) => Ok(db.(tokens := tokens))
       case Err(e) => Err(e))
    case SecretSet(secret) => Ok(db.(secret := Some(secret)))
    case AuditAppend(p) => Ok(db.(audit := AuditLog.Append(db.audit, p)))
  }

  /** What the cluster observes: statistics, resolver and lease snapshots, anomalies, new clients. */
  function ApplyObserved(db: Db, cmd: Command): Result<Db>
    requires AreaOf(cmd).ObservedArea?
  {
    match cmd
    case StatsCommitHour(node, hour, agg) => Ok(db.(stats := WithHour(db.stats, node, ToU64(hour), agg)))
    case StatsPrune(before) => Ok(db.(stats := PrunedStats(db.stats, before)))
    case DohReplace(s, at, e) => Ok(db.(doh := DohState(Some(s), Some(at), Some(e))))
    case DohFailure(at, e) => Ok(db.(doh := db.doh.(attemptedAt := Some(at), error := Some(e))))
    case LeasesReplace(s) => Ok(db.(leaseSnapshot := Some(s)))
    case AnomalyAppend(a) =>
      if a.id == "" then Err("anomaly id empty") else Ok(db.(anomalies := db.anomalies[a.id := a]))
    case AnomalyAcknowledge(id, at) =>
      if id !in db.anomalies then Err("anomaly not found")
      else Ok(db.(anomalies := db.anomalies[id := db.anomalies[id].(acknowledgedUnix := Some(at))]))
    case AnomalySweep(before) => Ok(db.(anomalies := SweptAnomalies(db.anomalies, before)))
    case DynamicClientDismiss(ip, at) => Ok(db.(newDynamic := Dismissed(db.newDynamic, ip, at)))
  }

  /** The transaction of one command; `now` is this node's clock when it applies the command. */
  function ApplyTx(db: Db, cmd: Command, now: Time): Result<Db> {
    match AreaOf(cmd)
    case ConfigArea =>
      (match ApplyConfig(db.config, cmd)
       case Ok(b) => Ok(db.(config := b))
       case Err(e) => Err(e))
    case ScheduleArea => ApplySchedule(db, cmd)
    case ProfileArea => ApplyProfile(db, cmd, now)
    case ClusterArea => ApplyCluster(db, cmd)
    case ObservedArea => ApplyObserved(db, cmd)
    case NoArea => Err("unknown command kind")
  }

  /** The buckets after a command: unchanged when it fails. */
  function Apply(db: Db, cmd: Command, now: Time): Db {
    match ApplyTx(db, cmd, now)
    case Ok(next) => next
    case Err(_) => db
  }

  // ----------------------------------------------------------------------------
  // Frames
  // ----------------------------------------------------------------------------

  lemma ScheduleFrame(db: Db, cmd: Command)
    requires AreaOf(cmd).ScheduleArea? && ApplySchedule(db, cmd).Ok?
    ensures var r := ApplySchedule(db, cmd).value; r == db.(bindings := r.bindings, docs := r.docs)
  {
  }

  lemma ProfileFrame(db: Db, cmd: Command, now: Time)
    requires AreaOf(cmd).ProfileArea? && ApplyProfile(db, cmd, now).Ok?
    ensures var r := ApplyProfile(db, cmd, now).value; r == db.(profiles := r.profiles, pauseHistory := r.pauseHistory)
  {
  }

  lemma ClusterFrame(db: Db, cmd: Command)
    requires AreaOf(cmd).ClusterArea? && ApplyCluster(db, cmd).Ok?
    ensures var r := ApplyCluster(db, cmd).value;
      r == db.(
        tokens := if cmd.TokenCreate? || cmd.TokenConsume? then r.tokens else db.tokens,
        secret := r.secret, audit := if cmd.AuditAppend? then r.audit else db.audit)
  {
  }

  lemma ObservedFrame(db: Db, cmd: Command)
    requires AreaOf(cmd).ObservedArea? && ApplyObserved(db, cmd).Ok?
    ensures var r := ApplyObserved(db, cmd).value;
      r == db.(
        stats := r.stats, doh := r.doh, leaseSnapshot := r.leaseSnapshot, anomalies := r.anomalies,
        newDynamic := if cmd.DynamicClientDismiss? then r.newDynamic else db.newDynamic)
  {
  }

  /** The buckets that a command leaves alone: those of other areas, and always the node-local ones. */
  predicate Framed(db: Db, cmd: Command, r: Db) {
    && r.certExpiry == db.certExpiry && r.backups == db.backups
    && (!AreaOf(cmd).ConfigArea? ==> r.config == db.config)
    && (!AreaOf(cmd).ScheduleArea? ==> r.bindings == db.bindings && r.docs == db.docs)
    && (!AreaOf(cmd).ProfileArea? ==> r.profiles == db.profiles && r.pauseHistory == db.pauseHistory)
    && (!cmd.TokenCreate? && !cmd.TokenConsume? ==> r.tokens == db.tokens)
    && (!cmd.AuditAppend? ==> r.audit == db.audit)
    && (!AreaOf(cmd).ClusterArea? ==> r.secret == db.secret)
    && (!cmd.DynamicClientDismiss? ==> r.newDynamic == db.newDynamic)
    && (!AreaOf(cmd).ObservedArea? ==>
      r.stats == db.stats && r.doh == db.doh && r.leaseSnapshot == db.leaseSnapshot && r.anomalies == db.anomalies)
  }

  lemma NothingFramed(db: Db, cmd: Command)
    ensures Framed(db, cmd, db)
  {
  }

  lemma ScheduleFramed(db: Db, cmd: Command, now: Time)
    requires AreaOf(cmd).ScheduleArea?
    ensures Framed(db, cmd, Apply(db, cmd, now))
  {
    NothingFramed(db, cmd);
    if ApplySchedule(db, cmd).Ok? { ScheduleFrame(db, cmd); }
  }

  lemma ProfileFramed(db: Db, cmd: Command, now: Time)
    requires AreaOf(cmd).ProfileArea?
    ensures Framed(db, cmd, Apply(db, cmd, now))
  {
    NothingFramed(db, cmd);
    if ApplyProfile(db, cmd, now).Ok? { ProfileFrame(db, cmd, now); }
  }

  lemma ClusterFramed(db: Db, cmd: Command, now: Time)
    requires AreaOf(cmd).ClusterArea?
    ensures Framed(db, cmd, Apply(db, cmd, now))
  {
    NothingFramed(db, cmd);
    if ApplyCluster(db, cmd).Ok? { ClusterFrame(db, cmd); }
  }

  lemma ObservedFramed(db: Db, cmd: Command, now: Time)
    requires AreaOf(cmd).ObservedArea?
    ensures Framed(db, cmd, Apply(db, cmd, now))
  {
    NothingFramed(db, cmd);
    if ApplyObserved(db, cmd).Ok? { ObservedFrame(db, cmd); }
  }

  lemma ConfigFramed(db: Db, cmd: Command, now: Time)
    requires AreaOf(cmd).ConfigArea?
    ensures Framed(db, cmd, Apply(db, cmd, now))
  {
    NothingFramed(db, cmd);
    var b := ApplyConfig(db.config, cmd);
    if b.Ok? { ConfigOnly(db, cmd, b.value); }
  }

  lemma ConfigOnly(db: Db, cmd: Command, b: ConfigImport.Buckets)
    requires AreaOf(cmd).ConfigArea?
    ensures Framed(db, cmd, db.(config := b))
  {
  }

  /** A command changes only the buckets of its own area; none writes the node-local buckets. */
  lemma AreaFrame(db: Db, cmd: Command, now: Time)
    ensures Framed(db, cmd, Apply(db, cmd, now))
  {
    match AreaOf(cmd)
    case ScheduleArea => ScheduleFramed(db, cmd, now);
    case ProfileArea => ProfileFramed(db, cmd, now);
    case ClusterArea => ClusterFramed(db, cmd, now);
    case ObservedArea => ObservedFramed(db, cmd, now);
    case ConfigArea => ConfigFramed(db, cmd, now);
    case NoArea => NothingFramed(db, cmd);
  }

  // ----------------------------------------------------------------------------
  // Writes outside the log
  // ----------------------------------------------------------------------------

  /** What a node writes to its own database without going through the log. */
  datatype LocalWrite =
    | Track(clientIp: string, firstSeen: Time)
    | CertExpiry(nodeId: string, expiry: Time)
    | BackupPut(key: string, doc: Json)
    | BackupDelete(key: string)

  function Local(db: Db, w: LocalWrite): Db {
    match w
    case Track(ip, t) =>
      if ip in db.newDynamic then db
      else db.(newDynamic := db.newDynamic[ip := DynamicClient(t, false, ZERO_TIME)])
    case CertExpiry(node, t) => db.(certExpiry := db.certExpiry[node := t])
    case BackupPut(key, doc) => db.(backups := db.backups[key := doc])
    case BackupDelete(key) => db.(backups := db.backups - {key})
  }
}
