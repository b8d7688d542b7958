/** What holds of every store reached by replaying a log from an empty database. */
module StoreInvariants {
  import opened Wrappers
  import opened Strings
  import opened StoreModel
  import ConfigImport
  import KeyOrder
  import Bindings
  import Replication

  function Replay(log: seq<Command>): Db {
    Replication.Canonical(EMPTY, log)
  }

  // ----------------------------------------------------------------------------
  // The configuration buckets
  // ----------------------------------------------------------------------------

  lemma {:induction false} PutAllKeyed<V>(keys: seq<string>, rows: seq<V>, k: string) returns (i: int)
    requires |keys| == |rows| && k in KeyOrder.PutAll(keys, rows)
    ensures 0 <= i < |keys| && keys[i] == k && KeyOrder.PutAll(keys, rows)[k] == rows[i]
  {
    var n := |keys| - 1;
    if k == keys[n] {
      i := n;
    } else {
      i := PutAllKeyed(keys[..n], rows[..n], k);
    }
  }

  lemma ImportWellFormed(b: ConfigImport.Buckets, c: ConfigImport.Config)
    ensures ConfigImport.WellFormed(ConfigImport.Import(b, c))
  {
    var r := ConfigImport.Import(b, c);
    forall k | k in r.blocklists ensures r.blocklists[k].id == k {
      var i := PutAllKeyed(ConfigImport.BlocklistIds(c.blocklists), c.blocklists, k);
    }
    forall k | k in r.localDns ensures r.localDns[k].id == k {
      var i := PutAllKeyed(ConfigImport.LocalIds(c.localDns), c.localDns, k);
    }
    forall k | k in r.allowlist ensures Lower(k) == k && r.allowlist[k].Plain? {
      var i := PutAllKeyed(ConfigImport.LowerAll(c.allowlist), ConfigImport.Plains(|c.allowlist|), k);
      LowerIdempotent(c.allowlist[i]);
    }
  }

  lemma AddWellFormed(b: ConfigImport.Buckets, e: ConfigImport.AllowEntry)
    requires ConfigImport.WellFormed(b)
    ensures ConfigImport.WellFormed(b.(allowlist := b.allowlist[Lower(e.domain) := AllowValueOf(e)]))
  {
    LowerIdempotent(e.domain);
  }

  lemma ConfigStaysWellFormed(b: ConfigImport.Buckets, cmd: Command)
    requires ConfigImport.WellFormed(b) && AreaOf(cmd).ConfigArea? && ApplyConfig(b, cmd).Ok?
    ensures ConfigImport.WellFormed(ApplyConfig(b, cmd).value)
  {
    if cmd.ConfigImportAll? {
      ImportWellFormed(b, cmd.config);
    } else if cmd.AllowlistAdd? {
      AddWellFormed(b, cmd.entry);
    }
  }

  lemma {:induction false} ReachableConfig(log: seq<Command>)
    ensures ConfigImport.WellFormed(Replay(log).config)
  {
    if log != [] {
      var before, cmd := Replay(log[..|log| - 1]), log[|log| - 1];
      ReachableConfig(log[..|log| - 1]);
      if AreaOf(cmd).ConfigArea? {
        if ApplyConfig(before.config, cmd).Ok? {
          ConfigStaysWellFormed(before.config, cmd);
        }
      } else {
        AreaFrame(before, cmd, 1);
      }
    }
  }

  /**
   In every reachable store, importing the store's own snapshot leaves the snapshot as it
   was exactly when nothing in the store is beyond what an import carries.
   */
  lemma ReachableImportNoOp(log: seq<Command>, now: Time)
    ensures var db := Replay(log);
      var own := ConfigImport.Snapshot(db.config);
      ConfigImport.Snapshot(Apply(db, ConfigImportAll(own), now).config) == own <==> ConfigImport.NothingLost(db.config)
  {
    ReachableConfig(log);
    ConfigImport.OwnSnapshotIsNoOp(Replay(log).config);
    ImportApplied(Replay(log), ConfigImport.Snapshot(Replay(log).config), now);
  }

  lemma ImportApplied(db: Db, c: ConfigImport.Config, now: Time)
    ensures Apply(db, ConfigImportAll(c), now) == db.(config := ConfigImport.Import(db.config, c))
  {
  }

  lemma ConfigMayFollow(b: ConfigImport.Buckets, cmd: Command)
    requires AreaOf(cmd).ConfigArea? && ApplyConfig(b, cmd).Ok?
    ensures ConfigImport.MayFollow(b, ApplyConfig(b, cmd).value)
  {
  }

  lemma StepMayFollow(db: Db, cmd: Command)
    ensures ConfigImport.MayFollow(db.config, Apply(db, cmd, 1).config)
  {
    if AreaOf(cmd).ConfigArea? {
      ConfigStepMayFollow(db, cmd);
    } else {
      AreaFrame(db, cmd, 1);
    }
  }

  lemma ConfigStepMayFollow(db: Db, cmd: Command)
    requires AreaOf(cmd).ConfigArea?
    ensures ConfigImport.MayFollow(db.config, Apply(db, cmd, 1).config)
  {
    var r := ApplyConfig(db.config, cmd);
    assert ApplyTx(db, cmd, 1) == match r case Ok(b) => Ok(db.(config := b)) case Err(e) => Err(e);
    if r.Ok? { ConfigMayFollow(db.config, cmd); }
  }

  lemma ReplaySnoc(log: seq<Command>, cmd: Command)
    ensures Replay(log + [cmd]) == Apply(Replay(log), cmd, 1)
  {
    assert (log + [cmd])[..|log|] == log;
  }

  /** No command removes the filtering settings. */
  lemma {:induction false} LogMayFollow(before: seq<Command>, more: seq<Command>)
    ensures ConfigImport.MayFollow(Replay(before).config, Replay(before + more).config)
  {
    if more == [] {
      assert before + more == before;
    } else {
      var n := |more| - 1;
      LogMayFollow(before, more[..n]);
      assert before + more == (before + more[..n]) + [more[n]];
      ReplaySnoc(before + more[..n], more[n]);
      StepMayFollow(Replay(before + more[..n]), more[n]);
    }
  }

  /**
   A configuration edit as the program makes it: the snapshot is read after `before`, edited
   in any way, and imported when `more` was committed too. What is shown then is the edited
   document normalised, no other bucket changes, and each section that the edit left alone
   and an import can carry over is shown as it was read.
   */
  lemma EditByImport(before: seq<Command>, more: seq<Command>, edited: ConfigImport.Config, now: Time)
    ensures var taken, db := Replay(before).config, Replay(before + more);
      && Apply(db, ConfigImportAll(edited), now) == db.(config := ConfigImport.Import(db.config, edited))
      && ConfigImport.Snapshot(ConfigImport.Import(db.config, edited)) == ConfigImport.Shown(db.config, edited)
      && forall section :: ConfigImport.Carried(taken, section) ==>
        ConfigImport.Restores(taken, db.config, edited, section)
  {
    var taken, db := Replay(before).config, Replay(before + more);
    ReachableConfig(before);
    LogMayFollow(before, more);
    ImportApplied(db, edited, now);
    ConfigImport.ImportShows(db.config, edited);
    forall section | ConfigImport.Carried(taken, section)
      ensures ConfigImport.Restores(taken, db.config, edited, section)
    {
      ConfigImport.CarriedIsRestored(taken, db.config, edited, section);
    }
  }

  /** So what `more` committed to such a section survives if and only if it shows nothing new there. */
  lemma CommitSurvivesIff(
      before: seq<Command>, more: seq<Command>, edited: ConfigImport.Config, section: ConfigImport.Section, now: Time)
    requires ConfigImport.Carried(Replay(before).config, section)
    requires ConfigImport.Untouched(edited, ConfigImport.Snapshot(Replay(before).config), section)
    ensures var db := Replay(before + more);
      var own := ConfigImport.Snapshot(db.config);
      ConfigImport.Same(ConfigImport.Snapshot(Apply(db, ConfigImportAll(edited), now).config), own, section) <==>
      ConfigImport.Same(ConfigImport.Snapshot(Replay(before).config), own, section)
  {
    ReachableConfig(before);
    LogMayFollow(before, more);
    ImportApplied(Replay(before + more), edited, now);
    ConfigImport.CommitSurvivesIff(Replay(before).config, Replay(before + more).config, edited, section);
  }

  lemma BlocklistRowsBack(m: map<string, ConfigImport.Blocklist>)
    requires forall k :: k in m ==> m[k].id == k
    ensures KeyOrder.PutAll(ConfigImport.BlocklistIds(KeyOrder.Rows(m)), KeyOrder.Rows(m)) == m
  {
    var rows, ids := KeyOrder.Rows(m), KeyOrder.Cursor(m.Keys);
    assert ConfigImport.BlocklistIds(rows) == ids;
    KeyOrder.PutAllRows(ids, rows);
    forall k | k in m ensures KeyOrder.PutAll(ids, rows)[k] == m[k] {
      var i :| 0 <= i < |ids| && ids[i] == k;
    }
  }

  /**
   A blocklist that is put while an edit of something else is under way, a new one or the
   refreshed content of an old one, is lost: the bucket is what it was when the edit began.
   */
  lemma PutMeanwhileIsLost(
      before: seq<Command>, put: ConfigImport.Blocklist, edited: ConfigImport.Config, now: Time)
    requires edited.blocklists == ConfigImport.Snapshot(Replay(before).config).blocklists
    ensures var db := Replay(before + [BlocklistUpsert(put)]);
      && put.id in db.config.blocklists && db.config.blocklists[put.id] == put
      && Apply(db, ConfigImportAll(edited), now).config.blocklists == Replay(before).config.blocklists
  {
    ReplaySnoc(before, BlocklistUpsert(put));
    ImportApplied(Replay(before + [BlocklistUpsert(put)]), edited, now);
    ReachableConfig(before);
    BlocklistRowsBack(Replay(before).config.blocklists);
  }

  // ----------------------------------------------------------------------------
  // Schedule bindings
  // ----------------------------------------------------------------------------

  lemma {:induction false} ReachableBindings(log: seq<Command>)
    ensures Bindings.Keyed(Replay(log).bindings)
  {
    if log != [] {
      var before, cmd := Replay(log[..|log| - 1]), log[|log| - 1];
      ReachableBindings(log[..|log| - 1]);
      if AreaOf(cmd).ScheduleArea? {
        BindingsStayKeyed(before, cmd, 1);
      } else {
        AreaFrame(before, cmd, 1);
      }
    }
  }

  lemma BindingsStayKeyed(db: Db, cmd: Command, now: Time)
    requires Bindings.Keyed(db.bindings) && AreaOf(cmd).ScheduleArea?
    ensures Bindings.Keyed(Apply(db, cmd, now).bindings)
  {
  }

  lemma DeleteTakesPrefix(db: Db, id: string, now: Time)
    ensures
      Apply(db, ScheduleDelete(id), now).bindings
      == Bindings.WithoutPrefix(db.bindings, Bindings.SchedulePrefix(id))
  {
  }

  /**
   In every reachable store, deleting a schedule removes that schedule's bindings and no
   others, if and only if it reaches no stored binding of another schedule.
   */
  lemma ReachableCascade(log: seq<Command>, id: string, now: Time)
    ensures var m := Replay(log).bindings;
      Apply(Replay(log), ScheduleDelete(id), now).bindings == Bindings.WithoutSchedule(m, id) <==>
      forall k :: k in m ==> !Bindings.Reached(m[k], id)
  {
    ReachableBindings(log);
    Bindings.CascadeExactIff(Replay(log).bindings, id);
    DeleteTakesPrefix(Replay(log), id, now);
  }

  // ----------------------------------------------------------------------------
  // The stores of the replicas
  // ----------------------------------------------------------------------------

  /**
   After every run of the replicated system, each replica agrees with the store reached by
   the log it has applied; so what holds of every reachable store holds of its buckets.
   */
  lemma ReplicasAreReached(s: Replication.System, steps: seq<Replication.Step>, n: Replication.NodeId)
    requires Replication.Initial(s, EMPTY) && n in Replication.After(s, steps, EMPTY).replicas
    ensures var t := Replication.After(s, steps, EMPTY);
      var r := t.replicas[n];
      && r.applied <= |t.log| && Replication.Agree(r.db, Replay(t.log[..r.applied]))
      && ConfigImport.WellFormed(r.db.config) && Bindings.Keyed(r.db.bindings)
  {
    Replication.InitialInv(s, EMPTY);
    Replication.RunKeepsInv(s, steps, EMPTY);
    var t := Replication.After(s, steps, EMPTY);
    ReachableConfig(t.log[..t.replicas[n].applied]);
    ReachableBindings(t.log[..t.replicas[n].applied]);
  }
}
