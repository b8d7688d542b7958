/**
 Entries of the log that a node applies again to a database that holds them already: after
 a restart without an image, or a restore of an image copied later than its index.
 */
module Reapply {
  import opened Wrappers
  import opened Strings
  import opened StoreModel
  import opened Replication
  import Bindings
  import ConfigImport

  /** A log applied to a database, entry i at the time clock(i). */
  function Reapplied(db: Db, log: seq<Command>, clock: nat -> Time): Db {
    if log == [] then db
    else
      var n := |log| - 1;
      Apply(Reapplied(db, log[..n], clock), log[n], clock(n))
  }

  /** The number of audit appends in a log. */
  function Appends(log: seq<Command>): nat {
    if log == [] then 0 else Appends(log[..|log| - 1]) + if log[|log| - 1].AuditAppend? then 1 else 0
  }

  lemma {:induction false} ReappliedCounts(db: Db, log: seq<Command>, clock: nat -> Time)
    requires db.audit.counter + Appends(log) < U64_MODULUS
    ensures Reapplied(db, log, clock).audit.counter == db.audit.counter + Appends(log)
    ensures Appends(log) == 0 ==> Reapplied(db, log, clock).audit == db.audit
  {
    if log != [] {
      var n := |log| - 1;
      ReappliedCounts(db, log[..n], clock);
      if !log[n].AuditAppend? {
        AreaFrame(Reapplied(db, log[..n], clock), log[n], clock(n));
      }
    }
  }

  /**
   Entries applied again to a database that holds them already: by a node that restarts
   before it has an image, from the first entry on, and after a restore of an image whose
   database was copied later than its index, from that index on. The audit log is what the others
   have if and only if these entries append nothing to it: every append gets a second number.
   */
  lemma AppliedAgain(r: Replica, from: nat, log: seq<Command>, start: Db, clock: nat -> Time)
    requires Tracks(r, log, start) && from <= r.applied
    requires r.db.audit.counter + Appends(log[from..r.applied]) < U64_MODULUS
    ensures var again, twice := Reapplied(r.db, log[from..r.applied], clock), log[from..r.applied];
      && again.audit.counter == r.db.audit.counter + Appends(twice)
      && (again.audit == Canonical(start, log[..r.applied]).audit <==> Appends(twice) == 0)
      && (Appends(twice) > 0 ==> !Agree(again, Canonical(start, log[..r.applied])))
  {
    ReappliedCounts(r.db, log[from..r.applied], clock);
  }

  // ----------------------------------------------------------------------------
  // One command applied twice
  // ----------------------------------------------------------------------------

  lemma PutTwice<K, V>(m: map<K, V>, k: K, v: V)
    ensures m[k := v][k := v] == m[k := v]
  {
  }

  lemma RemovedTwice<K, V>(m: map<K, V>, k: K)
    ensures m - {k} - {k} == m - {k}
  {
  }

  /** The list holds as many entries as it can, but for one, and they all are this one. */
  predicate Full(entries: seq<PauseEntry>, e: PauseEntry) {
    |entries| >= PAUSE_HISTORY_CAP - 1 && forall i :: 0 <= i < PAUSE_HISTORY_CAP - 1 ==> entries[i] == e
  }

  lemma PrependedTwiceIff(entries: seq<PauseEntry>, e: PauseEntry)
    ensures Prepended(Prepended(entries, e), e) == Prepended(entries, e) <==> Full(entries, e)
  {
    var once := Prepended(entries, e);
    var twice := Prepended(once, e);
    assert once[0] == e && forall i :: 0 < i < |once| ==> once[i] == entries[i - 1];
    assert twice[0] == e && forall i :: 0 < i < |twice| ==> twice[i] == once[i - 1];
    if twice == once {
      AllTheSame(once, e);
      assert forall i :: 0 <= i < PAUSE_HISTORY_CAP - 1 ==> entries[i] == once[i + 1];
    }
  }

  lemma {:induction false} AllTheSame(s: seq<PauseEntry>, e: PauseEntry)
    requires s != [] && s[0] == e && forall i :: 0 < i < |s| ==> s[i] == s[i - 1]
    ensures forall i :: 0 <= i < |s| ==> s[i] == e
  {
    var n := 1;
    while n < |s|
      invariant 1 <= n <= |s| && forall i :: 0 <= i < n ==> s[i] == e
    {
      assert s[n] == s[n - 1];
      n := n + 1;
    }
  }

  function OpenEntries(entries: seq<PauseEntry>): nat {
    if entries == [] then 0 else (if entries[0].endedAt == ZERO_TIME then 1 else 0) + OpenEntries(entries[1..])
  }

  lemma {:induction false} OpenEntriesIff(entries: seq<PauseEntry>)
    ensures OpenEntries(entries) > 0 <==> HasOpenEntry(entries)
  {
    if entries != [] {
      OpenEntriesIff(entries[1..]);
      assert forall i :: 0 < i < |entries| ==> entries[i] == entries[1..][i - 1];
    }
  }

  lemma {:induction false} ClosedCounts(entries: seq<PauseEntry>, at: Time)
    requires at != ZERO_TIME
    ensures OpenEntries(Closed(entries, at)) == if OpenEntries(entries) == 0 then 0 else OpenEntries(entries) - 1
  {
    if entries != [] {
      ClosedCounts(entries[1..], at);
      assert Closed(entries, at)[1..] ==
        if entries[0].endedAt == ZERO_TIME then entries[1..] else Closed(entries[1..], at);
    }
  }

  lemma {:induction false} ClosedChanges(entries: seq<PauseEntry>, at: Time)
    requires at != ZERO_TIME
    ensures Closed(entries, at) == entries <==> !HasOpenEntry(entries)
  {
    OpenEntriesIff(entries);
    OpenEntriesIff(Closed(entries, at));
    ClosedCounts(entries, at);
    ClosedWithoutOpen(entries, at, at);
  }

  lemma ClosedTwiceIff(entries: seq<PauseEntry>, s: Time, t: Time)
    requires s != ZERO_TIME && t != ZERO_TIME
    ensures Closed(Closed(entries, s), t) == Closed(entries, s) <==> OpenEntries(entries) <= 1
  {
    ClosedCounts(entries, s);
    OpenEntriesIff(Closed(entries, s));
    ClosedChanges(Closed(entries, s), t);
  }

  /** Applying the command a second time changes nothing. */
  predicate Repeatable(db: Db, cmd: Command) {
    match cmd
    case AuditAppend(_) => false
    case PauseHistoryAppend(id, e) => Full(History(db, id), e)
    case ProfilePauseSet(id, _, _, _, _) => id in db.profiles ==> Full(History(db, id), PauseOf(cmd))
    case ProfilePauseClear(id, _) => id in db.profiles ==> OpenEntries(History(db, id)) <= 1
    case ConfigImportAll(c) => db.config.settings.filtering.Some? || c.pauseMaxSeconds != 0
    case _ => true
  }

  /** The entry that a pause opens. */
  function PauseOf(cmd: Command): PauseEntry
    requires cmd.ProfilePauseSet?
  {
    PauseEntry(
      cmd.startedAt, ZERO_TIME, if |cmd.clientIps| > 0 then "per-client" else "profile", cmd.reason, cmd.clientIps)
  }

  lemma HistoryTwiceIff(db: Db, cmd: Command, s: Time, t: Time)
    requires cmd.PauseHistoryAppend?
    ensures Apply(Apply(db, cmd, s), cmd, t) == Apply(db, cmd, s) <==> Repeatable(db, cmd)
  {
    var id, once, twice := cmd.profileId, Apply(db, cmd, s), Apply(Apply(db, cmd, s), cmd, t);
    PrependedTwiceIff(History(db, id), cmd.history);
    assert twice.pauseHistory[id] == Prepended(once.pauseHistory[id], cmd.history);
    assert twice.pauseHistory == once.pauseHistory[id := twice.pauseHistory[id]];
    assert twice == once.(pauseHistory := twice.pauseHistory);
  }

  lemma PauseTwiceIff(db: Db, cmd: Command, s: Time, t: Time)
    requires cmd.ProfilePauseSet? && cmd.profileId in db.profiles
    ensures Apply(Apply(db, cmd, s), cmd, t) == Apply(db, cmd, s) <==> Repeatable(db, cmd)
  {
    var id, once, twice := cmd.profileId, Apply(db, cmd, s), Apply(Apply(db, cmd, s), cmd, t);
    PrependedTwiceIff(History(db, id), PauseOf(cmd));
    assert twice.pauseHistory[id] == Prepended(once.pauseHistory[id], PauseOf(cmd));
    assert twice.pauseHistory == once.pauseHistory[id := twice.pauseHistory[id]];
    assert twice.profiles == once.profiles;
    assert twice == once.(pauseHistory := twice.pauseHistory);
  }

  lemma ResumeTwiceIff(db: Db, cmd: Command, s: Time, t: Time)
    requires cmd.ProfilePauseClear? && cmd.profileId in db.profiles && s != ZERO_TIME && t != ZERO_TIME
    ensures Apply(Apply(db, cmd, s), cmd, t) == Apply(db, cmd, s) <==> Repeatable(db, cmd)
  {
    var id, once, twice := cmd.profileId, Apply(db, cmd, s), Apply(Apply(db, cmd, s), cmd, t);
    assert twice.profiles == once.profiles;
    assert twice == once.(pauseHistory := twice.pauseHistory);
    if id in db.pauseHistory {
      ClosedTwiceIff(db.pauseHistory[id], EndTime(cmd.endedAt, s), EndTime(cmd.endedAt, t));
      assert once.pauseHistory[id] == Closed(db.pauseHistory[id], EndTime(cmd.endedAt, s));
      assert twice.pauseHistory == once.pauseHistory[id := twice.pauseHistory[id]];
    }
  }

  lemma ProfileTwiceIff(db: Db, cmd: Command, s: Time, t: Time)
    requires AreaOf(cmd).ProfileArea? && s != ZERO_TIME && t != ZERO_TIME
    ensures Apply(Apply(db, cmd, s), cmd, t) == Apply(db, cmd, s) <==> Repeatable(db, cmd)
  {
    match cmd
    case ProfileUpsert(p) => PutTwice(db.profiles, p.id, p);
    case ProfileDelete(id) => RemovedTwice(db.profiles, id);
    case ProfilePauseSet(id, _, _, _, _) =>
      if id in db.profiles { PauseTwiceIff(db, cmd, s, t); } else { UnknownTwice(db, cmd, s, t); }
    case ProfilePauseClear(id, _) =>
      if id in db.profiles { ResumeTwiceIff(db, cmd, s, t); } else { UnknownTwice(db, cmd, s, t); }
    case PauseHistoryAppend(id, e) => HistoryTwiceIff(db, cmd, s, t);
  }

  lemma UnknownTwice(db: Db, cmd: Command, s: Time, t: Time)
    requires (cmd.ProfilePauseSet? || cmd.ProfilePauseClear?) && cmd.profileId !in db.profiles
    ensures Apply(db, cmd, s) == db == Apply(db, cmd, t)
  {
  }

  lemma ImportTwiceIff(b: ConfigImport.Buckets, c: ConfigImport.Config)
    ensures ConfigImport.Import(ConfigImport.Import(b, c), c) == ConfigImport.Import(b, c) <==>
      b.settings.filtering.Some? || c.pauseMaxSeconds != 0
  {
  }

  lemma BucketsTwice(b: ConfigImport.Buckets, cmd: Command)
    requires AreaOf(cmd).ConfigArea? && !cmd.ConfigImportAll? && ApplyConfig(b, cmd).Ok?
    ensures ApplyConfig(ApplyConfig(b, cmd).value, cmd) == ApplyConfig(b, cmd)
  {
    match cmd
    case BlocklistUpsert(l) => PutTwice(b.blocklists, l.id, l);
    case BlocklistDelete(id) => RemovedTwice(b.blocklists, id);
    case BlocklistSetEnabled(id, enabled) => PutTwice(b.blocklists, id, b.blocklists[id].(enabled := enabled));
    case AllowlistAdd(e) => PutTwice(b.allowlist, Lower(e.domain), AllowValueOf(e));
    case AllowlistRemove(domain) => RemovedTwice(b.allowlist, Lower(domain));
    case LocalDnsUpsert(e) => PutTwice(b.localDns, e.id, e);
    case LocalDnsDelete(id) => RemovedTwice(b.localDns, id);
    case SettingsPatch(_, _, _) => assert Patched(Patched(b.settings, cmd), cmd) == Patched(b.settings, cmd);
    case _ =>
  }

  lemma ConfigApplied(db: Db, cmd: Command, now: Time)
    requires AreaOf(cmd).ConfigArea?
    ensures Apply(db, cmd, now) ==
      match ApplyConfig(db.config, cmd) case Ok(b) => db.(config := b) case Err(_) => db
  {
  }

  lemma ConfigTwiceIff(db: Db, cmd: Command, s: Time, t: Time)
    requires AreaOf(cmd).ConfigArea?
    ensures Apply(Apply(db, cmd, s), cmd, t) == Apply(db, cmd, s) <==> Repeatable(db, cmd)
  {
    ConfigApplied(db, cmd, s);
    ConfigApplied(Apply(db, cmd, s), cmd, t);
    if cmd.ConfigImportAll? {
      ImportTwiceIff(db.config, cmd.config);
    } else if ApplyConfig(db.config, cmd).Ok? {
      BucketsTwice(db.config, cmd);
    } else {
      ConfigApplied(db, cmd, t);
    }
  }

  /** Writing a family of documents twice. */
  lemma DocsTwice(db: Db, bucket: DocBucket, docs: map<string, Json>)
    ensures Docs(db.(docs := db.docs[bucket := docs]), bucket) == docs
    ensures db.docs[bucket := docs][bucket := docs] == db.docs[bucket := docs]
  {
  }

  lemma UpsertTwice(db: Db, cmd: Command, s: Time, t: Time)
    requires cmd.Upsert?
    ensures Apply(Apply(db, cmd, s), cmd, t) == Apply(db, cmd, s)
  {
    var docs := Docs(db, cmd.bucket)[DocKey(cmd.bucket, cmd.id) := cmd.doc];
    assert Apply(db, cmd, s) == db.(docs := db.docs[cmd.bucket := docs]);
    DocsTwice(db, cmd.bucket, docs);
    PutTwice(Docs(db, cmd.bucket), DocKey(cmd.bucket, cmd.id), cmd.doc);
  }

  lemma RemoveTwice(db: Db, cmd: Command, s: Time, t: Time)
    requires cmd.Remove?
    ensures Apply(Apply(db, cmd, s), cmd, t) == Apply(db, cmd, s)
  {
    var docs := Docs(db, cmd.bucket) - {DocKey(cmd.bucket, cmd.id)};
    assert Apply(db, cmd, s) == db.(docs := db.docs[cmd.bucket := docs]);
    DocsTwice(db, cmd.bucket, docs);
    RemovedTwice(Docs(db, cmd.bucket), DocKey(cmd.bucket, cmd.id));
  }

  lemma CascadeTwice(m: map<string, Bindings.Binding>, prefix: string)
    ensures Bindings.WithoutPrefix(Bindings.WithoutPrefix(m, prefix), prefix) == Bindings.WithoutPrefix(m, prefix)
  {
  }

  lemma DeleteTwice(db: Db, cmd: Command, s: Time, t: Time)
    requires cmd.ScheduleDelete?
    ensures Apply(Apply(db, cmd, s), cmd, t) == Apply(db, cmd, s)
  {
    var docs := Docs(db, Schedules) - {cmd.id};
    var bindings := Bindings.WithoutPrefix(db.bindings, Bindings.SchedulePrefix(cmd.id));
    assert Apply(db, cmd, s) == db.(bindings := bindings, docs := db.docs[Schedules := docs]);
    DocsTwice(db, Schedules, docs);
    RemovedTwice(Docs(db, Schedules), cmd.id);
    CascadeTwice(db.bindings, Bindings.SchedulePrefix(cmd.id));
  }

  lemma ScheduleTwice(db: Db, cmd: Command, s: Time, t: Time)
    requires AreaOf(cmd).ScheduleArea?
    ensures Apply(Apply(db, cmd, s), cmd, t) == Apply(db, cmd, s)
  {
    match cmd
    case ScheduleDelete(_) => DeleteTwice(db, cmd, s, t);
    case BindingPut(b) => PutTwice(db.bindings, b.Key(), b);
    case BindingDelete(b) => RemovedTwice(db.bindings, b.Key());
    case Upsert(_, _, _) => UpsertTwice(db, cmd, s, t);
    case Remove(_, _) => RemoveTwice(db, cmd, s, t);
  }

  lemma ClusterTwiceIff(db: Db, cmd: Command, s: Time, t: Time)
    requires AreaOf(cmd).ClusterArea?
    ensures Apply(Apply(db, cmd, s), cmd, t) == Apply(db, cmd, s) <==> Repeatable(db, cmd)
  {
  }

  lemma PrunedTwice(stats: map<string, map<nat, Json>>, before: Int64)
    ensures PrunedStats(PrunedStats(stats, before), before) == PrunedStats(stats, before)
  {
    var once := PrunedStats(stats, before);
    forall node | node in once ensures PrunedHours(once[node], ToU64(before)) == once[node] { }
  }

  lemma DismissedTwice(clients: map<string, DynamicClient>, ip: string, at: Time)
    ensures Dismissed(Dismissed(clients, ip, at), ip, at) == Dismissed(clients, ip, at)
  {
  }

  lemma SweptTwice(anomalies: map<string, Anomaly>, before: int)
    ensures SweptAnomalies(SweptAnomalies(anomalies, before), before) == SweptAnomalies(anomalies, before)
  {
  }

  lemma AppendTwice(db: Db, cmd: Command, s: Time, t: Time)
    requires cmd.AnomalyAppend?
    ensures Apply(Apply(db, cmd, s), cmd, t) == Apply(db, cmd, s)
  {
    var a := cmd.anomaly;
    PutTwice(db.anomalies, a.id, a);
    if a.id != "" { assert Apply(db, cmd, s) == db.(anomalies := db.anomalies[a.id := a]); }
  }

  lemma AcknowledgeTwice(db: Db, cmd: Command, s: Time, t: Time)
    requires cmd.AnomalyAcknowledge?
    ensures Apply(Apply(db, cmd, s), cmd, t) == Apply(db, cmd, s)
  {
    if cmd.id in db.anomalies {
      var a := db.anomalies[cmd.id].(acknowledgedUnix := Some(cmd.atUnix));
      PutTwice(db.anomalies, cmd.id, a);
      assert Apply(db, cmd, s) == db.(anomalies := db.anomalies[cmd.id := a]);
    } else {
      assert Apply(db, cmd, s) == db;
    }
  }

  lemma WithHourTwice(stats: map<string, map<nat, Json>>, node: string, hour: nat, aggregate: Json)
    ensures WithHour(WithHour(stats, node, hour, aggregate), node, hour, aggregate) ==
      WithHour(stats, node, hour, aggregate)
  {
    var hours := if node in stats then stats[node] else map[];
    PutTwice(hours, hour, aggregate);
    PutTwice(stats, node, hours[hour := aggregate]);
  }

  lemma StatsTwice(db: Db, cmd: Command, s: Time, t: Time)
    requires cmd.StatsCommitHour? || cmd.StatsPrune?
    ensures Apply(Apply(db, cmd, s), cmd, t) == Apply(db, cmd, s)
  {
    match cmd
    case StatsCommitHour(node, hour, agg) => WithHourTwice(db.stats, node, ToU64(hour), agg);
    case StatsPrune(before) => PrunedTwice(db.stats, before);
  }

  lemma ObservedTwice(db: Db, cmd: Command, s: Time, t: Time)
    requires AreaOf(cmd).ObservedArea?
    ensures Apply(Apply(db, cmd, s), cmd, t) == Apply(db, cmd, s)
  {
    match cmd
    case StatsCommitHour(_, _, _) => StatsTwice(db, cmd, s, t);
    case StatsPrune(_) => StatsTwice(db, cmd, s, t);
    case AnomalyAppend(_) => AppendTwice(db, cmd, s, t);
    case AnomalyAcknowledge(_, _) => AcknowledgeTwice(db, cmd, s, t);
    case AnomalySweep(before) => SweptTwice(db.anomalies, before);
    case DynamicClientDismiss(ip, at) => DismissedTwice(db.newDynamic, ip, at);
    case _ =>
  }

  /**
   Exactly the commands that a second application leaves without effect, in every database
   and at any clocks: all but an audit append; a pause or an entry of the pause history, unless the
   history is full of that entry; a resume that finds two open entries; and the first import
   ever of a document without a pause ceiling.
   */
  lemma RepeatableIff(db: Db, cmd: Command, s: Time, t: Time)
    requires s != ZERO_TIME && t != ZERO_TIME
    ensures Apply(Apply(db, cmd, s), cmd, t) == Apply(db, cmd, s) <==> Repeatable(db, cmd)
  {
    match AreaOf(cmd)
    case ConfigArea => ConfigTwiceIff(db, cmd, s, t);
    case ScheduleArea => ScheduleTwice(db, cmd, s, t);
    case ProfileArea => ProfileTwiceIff(db, cmd, s, t);
    case ClusterArea => ClusterTwiceIff(db, cmd, s, t);
    case ObservedArea => ObservedTwice(db, cmd, s, t);
    case NoArea =>
  }

  /** Agreement sees every such effect. */
  lemma AgreementSees(db: Db, cmd: Command, s: Time, t: Time)
    requires s != ZERO_TIME && t != ZERO_TIME
    ensures Agree(Apply(Apply(db, cmd, s), cmd, t), Apply(db, cmd, s)) <==> Repeatable(db, cmd)
  {
    RepeatableIff(db, cmd, s, t);
    if !cmd.DynamicClientDismiss? {
      AreaFrame(Apply(db, cmd, s), cmd, t);
    }
  }

  /**
   A replica that applies its last entry once more, as after a restore of an image copied
   one entry late: it still agrees with the others if and only if that entry is repeatable.
   */
  lemma LastEntryAgainIff(r: Replica, log: seq<Command>, start: Db, t: Time)
    requires Tracks(r, log, start) && 0 < r.applied && Stamped(log[r.applied - 1]) && t != ZERO_TIME
    ensures Agree(Apply(r.db, log[r.applied - 1], t), Canonical(start, log[..r.applied])) <==>
      Repeatable(Canonical(start, log[..r.applied - 1]), log[r.applied - 1])
  {
    var n := r.applied - 1;
    var before, now := Canonical(start, log[..n]), Canonical(start, log[..n + 1]);
    assert log[..n + 1][..n] == log[..n];
    assert now == Apply(before, log[n], 1);
    ApplyAgrees(r.db, now, log[n], t, t);
    AgreementSees(before, log[n], 1, t);
  }
}
