/** What pausing and resuming a profile do to the store, said of profiles and history entries one by one. */
module Pauses {
  import opened Wrappers
  import opened StoreModel
  import ConfigImport

  /** The entry is the most recent one that is still open: the history has the newest first. */
  predicate IsNewestOpen(entries: seq<PauseEntry>, i: nat) {
    i < |entries| && entries[i].endedAt == ZERO_TIME && forall j :: 0 <= j < i ==> entries[j].endedAt != ZERO_TIME
  }

  lemma {:induction false} ClosedOneByOne(entries: seq<PauseEntry>, at: Time)
    ensures |Closed(entries, at)| == |entries|
    ensures forall i :: 0 <= i < |entries| ==>
      Closed(entries, at)[i] == if IsNewestOpen(entries, i) then entries[i].(endedAt := at) else entries[i]
  {
    if entries != [] {
      var rest := entries[1..];
      ClosedOneByOne(rest, at);
      forall i | 0 <= i < |entries|
        ensures Closed(entries, at)[i] == if IsNewestOpen(entries, i) then entries[i].(endedAt := at) else entries[i]
      {
        if i > 0 {
          assert entries[0].endedAt != ZERO_TIME ==> (IsNewestOpen(entries, i) <==> IsNewestOpen(rest, i - 1)) by {
            assert forall j :: 0 < j < |entries| ==> entries[j] == rest[j - 1];
          }
        }
      }
    }
  }

  /** All profiles but one are the same. */
  ghost predicate SameOthers(before: map<string, Profile>, after: map<string, Profile>, id: string) {
    before.Keys == after.Keys && forall p :: p in before && p != id ==> after[p] == before[p]
  }

  /** A resume of a known profile leaves it without a pause and otherwise as it was, and no other profile changed. */
  lemma ResumeClears(db: Db, id: string, endedAt: Time, now: Time)
    requires id in db.profiles
    ensures var after := Apply(db, ProfilePauseClear(id, endedAt), now);
      && ApplyTx(db, ProfilePauseClear(id, endedAt), now).Ok?
      && SameOthers(db.profiles, after.profiles, id)
      && after.profiles[id].pause.None?
      && after.profiles[id].id == db.profiles[id].id && after.profiles[id].body == db.profiles[id].body
  {
  }

  /** The newest open entry of a history got the end time, and every other entry is as it was. */
  ghost predicate Ended(before: seq<PauseEntry>, after: seq<PauseEntry>, at: Time) {
    && |after| == |before|
    && forall i :: 0 <= i < |before| ==>
      after[i] == if IsNewestOpen(before, i) then before[i].(endedAt := at) else before[i]
  }

  /** Of all histories only that of one profile changed, and there the newest open entry ended. */
  ghost predicate OnlyEnded(
      before: map<string, seq<PauseEntry>>, after: map<string, seq<PauseEntry>>, id: string, at: Time)
  {
    && after.Keys == before.Keys
    && (forall p :: p in before && p != id ==> after[p] == before[p])
    && (id in before ==> Ended(before[id], after[id], at))
  }

  lemma ClosingEnds(m: map<string, seq<PauseEntry>>, id: string, at: Time)
    requires id in m
    ensures OnlyEnded(m, m[id := Closed(m[id], at)], id, at)
  {
    ClosedOneByOne(m[id], at);
  }

  lemma HistoryAfterResume(db: Db, id: string, endedAt: Time, now: Time)
    requires id in db.profiles
    ensures Apply(db, ProfilePauseClear(id, endedAt), now).pauseHistory ==
      if id in db.pauseHistory then
        db.pauseHistory[id := Closed(db.pauseHistory[id], if endedAt != 0 then endedAt else now)]
      else db.pauseHistory
  {
  }

  lemma NothingEnds(m: map<string, seq<PauseEntry>>, id: string, at: Time)
    requires id !in m
    ensures OnlyEnded(m, m, id, at)
  {
  }

  /** In its history the newest open entry ends at the time given, or now; no other history changes. */
  lemma ResumeEnds(db: Db, id: string, endedAt: Time, now: Time)
    requires id in db.profiles
    ensures OnlyEnded(
      db.pauseHistory, Apply(db, ProfilePauseClear(id, endedAt), now).pauseHistory, id,
      if endedAt != 0 then endedAt else now)
  {
    var at := if endedAt != 0 then endedAt else now;
    HistoryAfterResume(db, id, endedAt, now);
    if id in db.pauseHistory { ClosingEnds(db.pauseHistory, id, at); } else { NothingEnds(db.pauseHistory, id, at); }
  }

  /** A resume or a pause of an unknown profile is refused and changes nothing. */
  lemma UnknownIsRefused(db: Db, cmd: Command, now: Time)
    requires cmd.ProfilePauseSet? || cmd.ProfilePauseClear?
    requires cmd.profileId !in db.profiles
    ensures ApplyTx(db, cmd, now) == Err("profile not found") && Apply(db, cmd, now) == db
  {
  }

  /**
   A pause of a known profile holds until the time given, for the addresses given, and
   changes nothing else about profiles; its history has a new open entry in front, with the scope and
   the reason of the pause, and keeps the newest of the others, fifty in all.
   */
  lemma PauseOutcome(db: Db, cmd: Command, now: Time)
    requires cmd.ProfilePauseSet? && cmd.profileId in db.profiles
    ensures var id, after := cmd.profileId, Apply(db, cmd, now);
      && SameOthers(db.profiles, after.profiles, id)
      && after.profiles[id].id == db.profiles[id].id && after.profiles[id].body == db.profiles[id].body
      && after.profiles[id].pause.Some?
      && after.profiles[id].pause.value.resumesAt == cmd.resumesAt
      && after.profiles[id].pause.value.reason == cmd.reason
      && after.profiles[id].pause.value.clientIps == cmd.clientIps
      && after.profiles[id].pause.value.profileIds == []
      && after.pauseHistory.Keys == db.pauseHistory.Keys + {id}
      && (forall p :: p in db.pauseHistory && p != id ==> after.pauseHistory[p] == db.pauseHistory[p])
      && Recorded(after.pauseHistory[id], if id in db.pauseHistory then db.pauseHistory[id] else [])
      && var e := after.pauseHistory[id][0];
        e.startedAt == cmd.startedAt && e.endedAt == ZERO_TIME && e.reason == cmd.reason
        && e.clientIps == cmd.clientIps && e.scope == (if cmd.clientIps == [] then "profile" else "per-client")
  {
  }

  /** One entry in front of the old ones, of which the oldest may have gone: fifty in all are kept. */
  predicate Recorded(after: seq<PauseEntry>, before: seq<PauseEntry>) {
    && |after| == (if |before| < 50 then |before| + 1 else 50)
    && forall i :: 1 <= i < |after| && i <= |before| ==> after[i] == before[i - 1]
  }

  /** So does an entry appended to the history by itself. */
  lemma AppendOutcome(db: Db, id: string, e: PauseEntry, now: Time)
    ensures var after := Apply(db, PauseHistoryAppend(id, e), now);
      && after.profiles == db.profiles && id in after.pauseHistory
      && after.pauseHistory[id] != [] && after.pauseHistory[id][0] == e
      && Recorded(after.pauseHistory[id], if id in db.pauseHistory then db.pauseHistory[id] else [])
  {
  }

  /** Pausing a profile that was not paused, and resuming it, leaves the profiles as they were. */
  lemma PauseThenResume(db: Db, cmd: Command, endedAt: Time, s: Time, t: Time)
    requires cmd.ProfilePauseSet? && cmd.profileId in db.profiles && db.profiles[cmd.profileId].pause.None?
    ensures Apply(Apply(db, cmd, s), ProfilePauseClear(cmd.profileId, endedAt), t).profiles == db.profiles
  {
    var id, paused := cmd.profileId, Apply(db, cmd, s);
    var after := Apply(paused, ProfilePauseClear(id, endedAt), t);
    PauseOutcome(db, cmd, s);
    ResumeClears(paused, id, endedAt, t);
    forall p | p in db.profiles ensures after.profiles[p] == db.profiles[p] {
      assert p != id ==> after.profiles[p] == paused.profiles[p] == db.profiles[p];
    }
  }
}
