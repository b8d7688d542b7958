/**
 Replicas of the store driven by one committed log. A replica applies the log in order,
 each entry at its own clock; it also writes to its own database outside the log, saves
 images of that database and may swap it for an image saved by any replica.
 */
module Replication {
  import opened Wrappers
  import opened StoreModel

  // ----------------------------------------------------------------------------
  // Agreement
  // ----------------------------------------------------------------------------

  /** Who has been dismissed from the new-client list, and when. */
  function Dismissals(clients: map<string, DynamicClient>): map<string, Time> {
    map ip | ip in clients && clients[ip].dismissed :: clients[ip].dismissedAt
  }

  /** The addresses on the alert list. */
  function Listed(db: Db): set<string> {
    set ip | ip in db.newDynamic && !db.newDynamic[ip].dismissed
  }

  /** The same in every replicated bucket; of the tracked clients, only the dismissals. */
  predicate Agree(a: Db, b: Db) {
    && a.docs == b.docs
    && a.config == b.config
    && a.secret == b.secret
    && a.tokens == b.tokens
    && a.stats == b.stats
    && a.profiles == b.profiles
    && a.bindings == b.bindings
    && a.audit == b.audit
    && a.doh == b.doh
    && a.leaseSnapshot == b.leaseSnapshot
    && a.anomalies == b.anomalies
    && a.pauseHistory == b.pauseHistory
    && Dismissals(a.newDynamic) == Dismissals(b.newDynamic)
  }

  predicate HasOpenEntry(entries: seq<PauseEntry>) {
    exists i :: 0 <= i < |entries| && entries[i].endedAt == ZERO_TIME
  }

  /** Applying the command never consults the local clock. */
  predicate ClockFree(db: Db, cmd: Command) {
    cmd.ProfilePauseClear? ==>
      || cmd.endedAt != ZERO_TIME
      || cmd.profileId !in db.profiles
      || !HasOpenEntry(History(db, cmd.profileId))
  }

  lemma {:induction false} ClosedWithoutOpen(entries: seq<PauseEntry>, s: Time, t: Time)
    ensures !HasOpenEntry(entries) ==> Closed(entries, s) == Closed(entries, t) == entries
    ensures HasOpenEntry(entries) && s != t ==> Closed(entries, s) != Closed(entries, t)
  {
    if entries != [] {
      var rest := entries[1..];
      ClosedWithoutOpen(rest, s, t);
      assert entries == [entries[0]] + rest;
      if entries[0].endedAt != ZERO_TIME {
        assert forall i :: 0 <= i < |rest| ==> rest[i] == entries[i + 1];
        assert HasOpenEntry(entries) ==> HasOpenEntry(rest);
        assert Closed(entries, s)[1..] == Closed(rest, s) && Closed(entries, t)[1..] == Closed(rest, t);
      } else {
        assert Closed(entries, s)[0].endedAt == s && Closed(entries, t)[0].endedAt == t;
      }
    }
  }

  lemma SameAtAllClocks(db: Db, cmd: Command, s: Time, t: Time)
    requires ClockFree(db, cmd)
    ensures Apply(db, cmd, s) == Apply(db, cmd, t)
  {
    if cmd.ProfilePauseClear? && cmd.profileId in db.pauseHistory {
      ClosedWithoutOpen(db.pauseHistory[cmd.profileId], s, t);
    }
  }

  lemma DiffersBetweenClocks(db: Db, cmd: Command, s: Time, t: Time)
    requires !ClockFree(db, cmd) && s != t
    ensures Apply(db, cmd, s) != Apply(db, cmd, t)
  {
    var id := cmd.profileId;
    ClosedWithoutOpen(db.pauseHistory[id], s, t);
    assert Apply(db, cmd, s).pauseHistory[id] != Apply(db, cmd, t).pauseHistory[id];
  }

  /** A command is applied alike at all clocks exactly when it is clock-free in that state. */
  lemma ClockFreeExact(db: Db, cmd: Command)
    ensures ClockFree(db, cmd) <==>
      forall s, t | s != ZERO_TIME && t != ZERO_TIME :: Apply(db, cmd, s) == Apply(db, cmd, t)
  {
    if ClockFree(db, cmd) {
      forall s, t ensures Apply(db, cmd, s) == Apply(db, cmd, t) {
        SameAtAllClocks(db, cmd, s, t);
      }
    } else {
      DiffersBetweenClocks(db, cmd, 1, 2);
    }
  }

  predicate AgreeResult(a: Result<Db>, b: Result<Db>) {
    (a.Ok? <==> b.Ok?) && (a.Ok? ==> Agree(a.value, b.value))
  }

  lemma ScheduleAgrees(a: Db, b: Db, cmd: Command)
    requires Agree(a, b) && AreaOf(cmd).ScheduleArea?
    ensures AgreeResult(ApplySchedule(a, cmd), ApplySchedule(b, cmd))
  {
  }

  lemma ProfileAgrees(a: Db, b: Db, cmd: Command, s: Time, t: Time)
    requires Agree(a, b) && ClockFree(a, cmd) && AreaOf(cmd).ProfileArea?
    ensures AgreeResult(ApplyProfile(a, cmd, s), ApplyProfile(b, cmd, t))
  {
    if cmd.ProfilePauseClear? {
      ClosedWithoutOpen(History(a, cmd.profileId), s, t);
    }
  }

  lemma ObservedAgrees(a: Db, b: Db, cmd: Command)
    requires Agree(a, b) && AreaOf(cmd).ObservedArea?
    ensures AgreeResult(ApplyObserved(a, cmd), ApplyObserved(b, cmd))
  {
    if cmd.DynamicClientDismiss? {
      DismissalsAfter(a.newDynamic, cmd.clientIp, cmd.dismissedAt);
      DismissalsAfter(b.newDynamic, cmd.clientIp, cmd.dismissedAt);
    }
  }

  lemma ConfigAgrees(a: Db, b: Db, cmd: Command)
    requires Agree(a, b) && AreaOf(cmd).ConfigArea?
    ensures AgreeResult(ApplyTx(a, cmd, 0), ApplyTx(b, cmd, 0))
    ensures forall s :: ApplyTx(a, cmd, s) == ApplyTx(a, cmd, 0)
  {
  }

  lemma ClusterAgrees(a: Db, b: Db, cmd: Command)
    requires Agree(a, b) && AreaOf(cmd).ClusterArea?
    ensures AgreeResult(ApplyCluster(a, cmd), ApplyCluster(b, cmd))
  {
  }

  lemma TxAgrees(a: Db, b: Db, cmd: Command, s: Time, t: Time)
    requires Agree(a, b) && ClockFree(a, cmd)
    ensures AgreeResult(ApplyTx(a, cmd, s), ApplyTx(b, cmd, t))
  {
    match AreaOf(cmd)
    case ConfigArea => ConfigAgrees(a, b, cmd);
    case ScheduleArea => ScheduleAgrees(a, b, cmd);
    case ProfileArea => ProfileAgrees(a, b, cmd, s, t);
    case ClusterArea => ClusterAgrees(a, b, cmd);
    case ObservedArea => ObservedAgrees(a, b, cmd);
    case NoArea =>
  }

  /** Agreeing databases stay in agreement under a command, and fail it together. */
  lemma ApplyAgrees(a: Db, b: Db, cmd: Command, s: Time, t: Time)
    requires Agree(a, b) && ClockFree(a, cmd)
    ensures Agree(Apply(a, cmd, s), Apply(b, cmd, t))
    ensures ApplyTx(a, cmd, s).Ok? <==> ApplyTx(b, cmd, t).Ok?
  {
    TxAgrees(a, b, cmd, s, t);
  }

  lemma DismissalsAfter(m: map<string, DynamicClient>, ip: string, at: Time)
    ensures Dismissals(Dismissed(m, ip, at)) == Dismissals(m)[ip := at]
  {
  }

  /** Writing outside the log never moves a replica out of agreement. */
  lemma LocalAgrees(a: Db, w: LocalWrite)
    ensures Agree(a, Local(a, w))
  {
    if w.Track? && w.clientIp !in a.newDynamic {
      TrackingKeepsDismissals(a.newDynamic, w.clientIp, DynamicClient(w.firstSeen, false, ZERO_TIME));
    }
  }

  lemma TrackingKeepsDismissals(m: map<string, DynamicClient>, ip: string, c: DynamicClient)
    requires ip !in m && !c.dismissed
    ensures Dismissals(m[ip := c]) == Dismissals(m)
  {
  }

  // ----------------------------------------------------------------------------
  // The system
  // ----------------------------------------------------------------------------

  type NodeId = string

  /** A database and the number of log entries applied to it. */
  datatype Replica = Replica(db: Db, applied: nat)

  datatype System = System(log: seq<Command>, replicas: map<NodeId, Replica>, images: set<Replica>)

  datatype Step =
    | Commit(cmd: Command)
    | ApplyNext(node: NodeId, now: Time)
    | WriteLocally(node: NodeId, write: LocalWrite)
    | SaveImage(node: NodeId)
    | RestoreImage(node: NodeId, image: Replica)
    | Join(node: NodeId)

  /** The times of resume commands are taken once, by the leader that proposes them. */
  predicate Stamped(cmd: Command) {
    cmd.ProfilePauseClear? ==> cmd.endedAt != ZERO_TIME
  }

  predicate Initial(s: System, start: Db) {
    s.log == [] && s.images == {} && forall n :: n in s.replicas ==> s.replicas[n] == Replica(start, 0)
  }

  /** The system after a step; a step that is not enabled changes nothing. */
  function Do(s: System, step: Step, start: Db): System {
    match step
    case Commit(cmd) => if Stamped(cmd) then s.(log := s.log + [cmd]) else s
    case ApplyNext(n, now) =>
      if n in s.replicas && s.replicas[n].applied < |s.log| then
        var r := s.replicas[n];
        Place(s, n, Replica(Apply(r.db, s.log[r.applied], now), r.applied + 1))
      else s
    case WriteLocally(n, w) =>
      if n in s.replicas then Place(s, n, s.replicas[n].(db := Local(s.replicas[n].db, w))) else s
    case SaveImage(n) => if n in s.replicas then s.(images := s.images + {s.replicas[n]}) else s
    case RestoreImage(n, image) => if n in s.replicas && image in s.images then Place(s, n, image) else s
    case Join(n) => if n !in s.replicas then Place(s, n, Replica(start, 0)) else s
  }

  function Place(s: System, n: NodeId, r: Replica): System {
    s.(replicas := s.replicas[n := r])
  }

  /** The system after a run of steps. */
  function After(s: System, steps: seq<Step>, start: Db): System {
    if steps == [] then s else Do(After(s, steps[..|steps| - 1], start), steps[|steps| - 1], start)
  }

  /** The log applied from the start with no local writes, at one fixed clock. */
  function Canonical(start: Db, log: seq<Command>): Db {
    if log == [] then start else Apply(Canonical(start, log[..|log| - 1]), log[|log| - 1], 1)
  }

  /** A replica is where the canonical replay of its log prefix is. */
  ghost predicate Tracks(r: Replica, log: seq<Command>, start: Db) {
    r.applied <= |log| && Agree(r.db, Canonical(start, log[..r.applied]))
  }

  ghost predicate Inv(s: System, start: Db) {
    && (forall i :: 0 <= i < |s.log| ==> Stamped(s.log[i]))
    && (forall n :: n in s.replicas ==> Tracks(s.replicas[n], s.log, start))
    && (forall r :: r in s.images ==> Tracks(r, s.log, start))
  }

  lemma TracksLonger(r: Replica, log: seq<Command>, longer: seq<Command>, start: Db)
    requires Tracks(r, log, start) && log <= longer
    ensures Tracks(r, longer, start)
  {
    assert log[..r.applied] == longer[..r.applied];
  }

  lemma TracksNext(r: Replica, log: seq<Command>, now: Time, start: Db)
    requires Tracks(r, log, start) && r.applied < |log| && Stamped(log[r.applied])
    ensures Tracks(Replica(Apply(r.db, log[r.applied], now), r.applied + 1), log, start)
  {
    var longer := log[..r.applied + 1];
    assert longer[..r.applied] == log[..r.applied];
    ApplyAgrees(r.db, Canonical(start, log[..r.applied]), log[r.applied], now, 1);
  }

  lemma CommitKeepsInv(s: System, cmd: Command, start: Db)
    requires Inv(s, start) && Stamped(cmd)
    ensures Inv(s.(log := s.log + [cmd]), start)
  {
    var t := s.(log := s.log + [cmd]);
    forall n | n in t.replicas ensures Tracks(t.replicas[n], t.log, start) {
      TracksLonger(s.replicas[n], s.log, t.log, start);
    }
    forall r | r in t.images ensures Tracks(r, t.log, start) {
      TracksLonger(r, s.log, t.log, start);
    }
  }

  lemma PlaceKeepsInv(s: System, n: NodeId, r: Replica, start: Db)
    requires Inv(s, start) && Tracks(r, s.log, start)
    ensures Inv(Place(s, n, r), start)
  {
  }

  lemma ApplyKeepsInv(s: System, n: NodeId, now: Time, start: Db)
    requires Inv(s, start) && n in s.replicas && s.replicas[n].applied < |s.log|
    ensures Inv(Do(s, ApplyNext(n, now), start), start)
  {
    var r := s.replicas[n];
    TracksNext(r, s.log, now, start);
    PlaceKeepsInv(s, n, Replica(Apply(r.db, s.log[r.applied], now), r.applied + 1), start);
  }

  lemma WriteKeepsInv(s: System, n: NodeId, w: LocalWrite, start: Db)
    requires Inv(s, start) && n in s.replicas
    ensures Inv(Do(s, WriteLocally(n, w), start), start)
  {
    LocalAgrees(s.replicas[n].db, w);
    PlaceKeepsInv(s, n, s.replicas[n].(db := Local(s.replicas[n].db, w)), start);
  }

  lemma SaveKeepsInv(s: System, n: NodeId, start: Db)
    requires Inv(s, start) && n in s.replicas
    ensures Inv(Do(s, SaveImage(n), start), start)
  {
  }

  lemma RestoreKeepsInv(s: System, n: NodeId, image: Replica, start: Db)
    requires Inv(s, start) && n in s.replicas && image in s.images
    ensures Inv(Do(s, RestoreImage(n, image), start), start)
  {
    PlaceKeepsInv(s, n, image, start);
  }

  lemma JoinKeepsInv(s: System, n: NodeId, start: Db)
    requires Inv(s, start) && n !in s.replicas
    ensures Inv(Do(s, Join(n), start), start)
  {
    PlaceKeepsInv(s, n, Replica(start, 0), start);
  }

  lemma StepKeepsInv(s: System, step: Step, start: Db)
    requires Inv(s, start)
    ensures Inv(Do(s, step, start), start)
  {
    if Do(s, step, start) != s {
      match step
      case Commit(cmd) => CommitKeepsInv(s, cmd, start);
      case ApplyNext(n, now) => ApplyKeepsInv(s, n, now, start);
      case WriteLocally(n, w) => WriteKeepsInv(s, n, w, start);
      case SaveImage(n) => SaveKeepsInv(s, n, start);
      case RestoreImage(n, image) => RestoreKeepsInv(s, n, image, start);
      case Join(n) => JoinKeepsInv(s, n, start);
    }
  }

  lemma StepGrowsLog(s: System, step: Step, start: Db)
    ensures s.log <= Do(s, step, start).log
  {
  }

  /** The invariant holds after every run, and the log only grows. */
  lemma {:induction false} RunKeepsInv(s: System, steps: seq<Step>, start: Db)
    requires Inv(s, start)
    ensures Inv(After(s, steps, start), start) && s.log <= After(s, steps, start).log
  {
    if steps != [] {
      RunKeepsInv(s, steps[..|steps| - 1], start);
      StepKeepsInv(After(s, steps[..|steps| - 1], start), steps[|steps| - 1], start);
      StepGrowsLog(After(s, steps[..|steps| - 1], start), steps[|steps| - 1], start);
    }
  }

  lemma InitialInv(s: System, start: Db)
    requires Initial(s, start)
    ensures Inv(s, start)
  {
    assert s.log[..0] == [];
  }

  /**
   Replica agreement: in any run, two replicas that have applied equally many entries agree
   on every replicated bucket, at whatever moments they are looked at (after `steps` and
   after `steps` and `more`), whatever each wrote locally, and whether they got there by
   replay or by restoring an image.
   */
  lemma ReplicasAgree(s: System, steps: seq<Step>, more: seq<Step>, start: Db, m: NodeId, n: NodeId)
    requires Initial(s, start)
    requires m in After(s, steps, start).replicas && n in After(After(s, steps, start), more, start).replicas
    requires
      After(s, steps, start).replicas[m].applied == After(After(s, steps, start), more, start).replicas[n].applied
    ensures Agree(After(s, steps, start).replicas[m].db, After(After(s, steps, start), more, start).replicas[n].db)
  {
    InitialInv(s, start);
    RunKeepsInv(s, steps, start);
    var s1 := After(s, steps, start);
    RunKeepsInv(s1, more, start);
    var s2 := After(s1, more, start);
    TracksLonger(s1.replicas[m], s1.log, s2.log, start);
  }

  // ----------------------------------------------------------------------------
  // Dismissals
  // ----------------------------------------------------------------------------

  lemma NewDynamicFrame(db: Db, cmd: Command, now: Time)
    requires !cmd.DynamicClientDismiss?
    ensures Apply(db, cmd, now).newDynamic == db.newDynamic
  {
    AreaFrame(db, cmd, now);
  }

  /** Only a dismissal touches the dismissals. */
  lemma DismissalFrame(db: Db, cmd: Command, now: Time)
    ensures Dismissals(Apply(db, cmd, now).newDynamic) ==
      if cmd.DynamicClientDismiss? then Dismissals(db.newDynamic)[cmd.clientIp := cmd.dismissedAt]
      else Dismissals(db.newDynamic)
  {
    if cmd.DynamicClientDismiss? {
      DismissalsAfter(db.newDynamic, cmd.clientIp, cmd.dismissedAt);
    } else {
      NewDynamicFrame(db, cmd, now);
    }
  }

  /** The last dismissal of an address in a log, if any. */
  function LastDismissal(log: seq<Command>, ip: string): Option<Time> {
    if log == [] then None
    else if log[|log| - 1].DynamicClientDismiss? && log[|log| - 1].clientIp == ip then Some(log[|log| - 1].dismissedAt)
    else LastDismissal(log[..|log| - 1], ip)
  }

  lemma {:induction false} CanonicalDismissals(start: Db, log: seq<Command>, ip: string)
    ensures LastDismissal(log, ip).Some? ==>
      ip in Dismissals(Canonical(start, log).newDynamic)
      && Dismissals(Canonical(start, log).newDynamic)[ip] == LastDismissal(log, ip).value
  {
    if log != [] {
      var before := log[..|log| - 1];
      CanonicalDismissals(start, before, ip);
      DismissalFrame(Canonical(start, before), log[|log| - 1], 1);
    }
  }

  /** The entries a replica has applied. */
  function AppliedLog(s: System, n: NodeId): seq<Command>
    requires n in s.replicas
  {
    if s.replicas[n].applied <= |s.log| then s.log[..s.replicas[n].applied] else s.log
  }

  /**
   Once a replica has applied a dismissal the address is never on its alert list again,
   however often the node tracks it locally, and every replica shows the time of the last
   dismissal it has applied.
   */
  lemma DismissedStaysHidden(s: System, steps: seq<Step>, start: Db, n: NodeId, ip: string)
    requires Initial(s, start) && n in After(s, steps, start).replicas
    requires LastDismissal(AppliedLog(After(s, steps, start), n), ip).Some?
    ensures var db := After(s, steps, start).replicas[n].db;
      && ip !in Listed(db) && ip in Dismissals(db.newDynamic)
      && Dismissals(db.newDynamic)[ip] == LastDismissal(AppliedLog(After(s, steps, start), n), ip).value
  {
    InitialInv(s, start);
    RunKeepsInv(s, steps, start);
    CanonicalDismissals(start, AppliedLog(After(s, steps, start), n), ip);
  }
}
