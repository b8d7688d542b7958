/**
 The store object: the single entry point Apply used by the log, the writes a node makes
 outside the log, and the swap of the whole database on restore.
 */
module StoreObject {
  import opened Wrappers
  import opened StoreModel
  import AuditLog
  import ConfigImport
  import Bindings

  class Store {
    var db: Db

    constructor ()
      ensures db == EMPTY
    {
      db := EMPTY;
    }

    /** Applies one command in one transaction; on an error nothing is committed. */
    method Apply(cmd: Command, now: Time) returns (err: Option<string>)
      modifies this
      ensures db == StoreModel.Apply(old(db), cmd, now)
      ensures err == match ApplyTx(old(db), cmd, now) case Ok(_) => None case Err(e) => Some(e)
    {
      var tx := RunTx(db, cmd, now);
      if tx.Err? {
        return Some(tx.error);
      }
      db := tx.value;
      err := None;
    }

    /** Local tracking: an address already listed or dismissed is left alone. */
    method TrackNewDynamicClient(clientIp: string, firstSeen: Time)
      modifies this
      ensures db == Local(old(db), Track(clientIp, firstSeen))
    {
      if clientIp in db.newDynamic {
        return;
      }
      db := db.(newDynamic := db.newDynamic[clientIp := DynamicClient(firstSeen, false, ZERO_TIME)]);
    }

    method SetNodeCertExpiry(nodeId: string, expiry: Time)
      modifies this
      ensures db == Local(old(db), CertExpiry(nodeId, expiry))
    {
      db := db.(certExpiry := db.certExpiry[nodeId := expiry]);
    }

    method PutBackup(key: string, doc: Json)
      modifies this
      ensures db == Local(old(db), BackupPut(key, doc))
    {
      db := db.(backups := db.backups[key := doc]);
    }

    method DeleteBackup(key: string)
      modifies this
      ensures db == Local(old(db), BackupDelete(key))
    {
      db := db.(backups := db.backups - {key});
    }

    /** Replaces the database by a snapshot image. */
    method Restore(image: Db)
      modifies this
      ensures db == image
    {
      db := image;
    }
  }

  /** The commands that loop over a bucket; the others are single reads and writes. */
  method RunTx(tx: Db, cmd: Command, now: Time) returns (r: Result<Db>)
    ensures r == ApplyTx(tx, cmd, now)
  {
    if cmd.ScheduleDelete? {
      r := DeleteSchedule(tx, cmd.id, now);
    } else if cmd.AuditAppend? {
      var b := AuditLog.AppendAndSweep(tx.audit, cmd.audit);
      r := Ok(tx.(audit := b));
    } else if cmd.ConfigImportAll? {
      var b := ConfigImport.WipeAndRewrite(tx.config, cmd.config);
      r := Ok(tx.(config := b));
    } else if cmd.StatsPrune? {
      var kept := PruneStats(tx.stats, cmd.beforeUnix);
      r := Ok(tx.(stats := kept));
    } else if cmd.AnomalySweep? {
      var kept := SweepAnomalies(tx.anomalies, cmd.beforeUnix);
      r := Ok(tx.(anomalies := kept));
    } else if cmd.ProfilePauseClear? {
      r := ClearPause(tx, cmd.profileId, cmd.endedAt, now);
    } else {
      r := ApplyTx(tx, cmd, now);
    }
  }

  /** Deletes the bindings by key prefix, then the schedule. */
  method DeleteSchedule(tx: Db, id: string, now: Time) returns (r: Result<Db>)
    ensures r == ApplyTx(tx, ScheduleDelete(id), now)
  {
    var kept := Bindings.DropPrefix(tx.bindings, Bindings.SchedulePrefix(id));
    r := Ok(tx.(bindings := kept, docs := tx.docs[Schedules := Docs(tx, Schedules) - {id}]));
  }

  /** Walks the bucket of every node; the hours are compared as unsigned numbers. */
  method PruneStats(stats: map<string, map<nat, Json>>, before: Int64) returns (r: map<string, map<nat, Json>>)
    ensures r == PrunedStats(stats, before)
  {
    r := stats;
    var rest := stats.Keys;
    while rest != {}
      invariant rest <= stats.Keys && r.Keys == stats.Keys
      invariant forall node :: node in stats && node in rest ==> r[node] == stats[node]
      invariant forall node :: node in stats && node !in rest ==> r[node] == PrunedHours(stats[node], ToU64(before))
      decreases rest
    {
      var node :| node in rest;
      var kept := PruneHours(r[node], ToU64(before));
      r := r[node := kept];
      rest := rest - {node};
    }
  }

  method PruneHours(hours: map<nat, Json>, from: nat) returns (r: map<nat, Json>)
    ensures r == PrunedHours(hours, from)
  {
    r := hours;
    var rest := hours.Keys;
    while rest != {}
      invariant rest <= r.Keys
      invariant forall hour :: hour in r <==> hour in hours && (hour in rest || hour >= from)
      invariant forall hour :: hour in r ==> r[hour] == hours[hour]
      decreases rest
    {
      var hour :| hour in rest;
      if hour < from {
        r := r - {hour};
      }
      rest := rest - {hour};
    }
  }

  method SweepAnomalies(anomalies: map<string, Anomaly>, before: int) returns (r: map<string, Anomaly>)
    ensures r == SweptAnomalies(anomalies, before)
  {
    r := anomalies;
    var rest := anomalies.Keys;
    while rest != {}
      invariant rest <= r.Keys
      invariant forall id :: id in r <==>
        id in anomalies && (id in rest || anomalies[id].detectedAt >= before * NANOS_PER_SECOND)
      invariant forall id :: id in r ==> r[id] == anomalies[id]
      decreases rest
    {
      var id :| id in rest;
      if anomalies[id].detectedAt < before * NANOS_PER_SECOND {
        r := r - {id};
      }
      rest := rest - {id};
    }
  }

  method ClearPause(tx: Db, id: string, endedAt: Time, now: Time) returns (r: Result<Db>)
    ensures r == ResumeProfile(tx, id, endedAt, now)
  {
    if id !in tx.profiles {
      return Err("profile not found");
    }
    var history := tx.pauseHistory;
    if id in history {
      var entries := CloseOpenEntry(history[id], EndTime(endedAt, now));
      history := history[id := entries];
    }
    r := Ok(tx.(profiles := tx.profiles[id := tx.profiles[id].(pause := None)], pauseHistory := history));
  }

  /** Ends the most recent entry that is still open, by a scan from the front. */
  method CloseOpenEntry(entries: seq<PauseEntry>, at: Time) returns (r: seq<PauseEntry>)
    ensures r == Closed(entries, at)
  {
    r := entries;
    for i := 0 to |entries|
      invariant r == entries
      invariant Closed(entries, at) == entries[..i] + Closed(entries[i..], at)
    {
      if entries[i].endedAt == ZERO_TIME {
        r := entries[i := entries[i].(endedAt := at)];
        assert r == entries[..i] + ([entries[i].(endedAt := at)] + entries[i..][1..]);
        break;
      }
      assert entries[i..][1..] == entries[i + 1..];
      assert entries[..i] + ([entries[i]] + Closed(entries[i + 1..], at))
          == entries[..i + 1] + Closed(entries[i + 1..], at);
    }
  }
}
