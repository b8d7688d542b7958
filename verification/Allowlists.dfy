/**
 Allowlists: entries that may expire, and may be in force only while a schedule is. The
 engine splits them once, when it is built.
 */
module Allowlists {
  import opened Wrappers
  import opened DomainSets
  import opened Schedules

  datatype AllowEntry = AllowEntry(domain: string, expiresAt: Option<int>, scheduleId: string)

  /** The domains always allowed, and for each schedule those allowed while it is active. */
  datatype Allow = Allow(always: set<string>, scheduled: map<string, set<string>>)

  predicate Live(e: AllowEntry, built: int) {
    e.expiresAt.None? || built < e.expiresAt.value
  }

  /** The entry puts the apex into the bucket of the schedule; "" is the bucket always in force. */
  predicate Puts(e: AllowEntry, built: int, schedule: string, apex: string) {
    Live(e, built) && apex != "" && Normal(e.domain) == apex && e.scheduleId == schedule
  }

  ghost predicate SomePuts(entries: seq<AllowEntry>, built: int, schedule: string, apex: string) {
    exists i :: 0 <= i < |entries| && Puts(entries[i], built, schedule, apex)
  }

  predicate InBucket(a: Allow, schedule: string, apex: string) {
    if schedule == "" then apex in a.always else schedule in a.scheduled && apex in a.scheduled[schedule]
  }

  ghost predicate IsSplit(entries: seq<AllowEntry>, built: int, a: Allow) {
    && (forall s :: s in a.scheduled ==> s != "" && a.scheduled[s] != {})
    && (forall s, apex :: InBucket(a, s, apex) <==> SomePuts(entries, built, s, apex))
  }

  function Put(a: Allow, schedule: string, apex: string): Allow {
    if schedule == "" then a.(always := a.always + {apex})
    else
      var bucket := if schedule in a.scheduled then a.scheduled[schedule] else {};
      a.(scheduled := a.scheduled[schedule := bucket + {apex}])
  }

  lemma PutAddsOne(a: Allow, schedule: string, apex: string)
    ensures forall s, d :: InBucket(Put(a, schedule, apex), s, d) <==> InBucket(a, s, d) || (s == schedule && d == apex)
  {
  }

  lemma SplitSnoc(entries: seq<AllowEntry>, i: nat, built: int, a: Allow)
    requires i < |entries| && IsSplit(entries[..i], built, a)
    ensures
      var e := entries[i];
      IsSplit(entries[..i + 1], built,
        if Live(e, built) && Normal(e.domain) != "" then Put(a, e.scheduleId, Normal(e.domain)) else a)
  {
    var e, before, after := entries[i], entries[..i], entries[..i + 1];
    var b := if Live(e, built) && Normal(e.domain) != "" then Put(a, e.scheduleId, Normal(e.domain)) else a;
    assert forall j :: 0 <= j < i ==> before[j] == after[j];
    assert after[i] == e;
    forall s, apex ensures InBucket(b, s, apex) <==> SomePuts(after, built, s, apex) {
      assert SomePuts(after, built, s, apex) <==> SomePuts(before, built, s, apex) || Puts(e, built, s, apex);
      PutAddsOne(a, e.scheduleId, Normal(e.domain));
      assert InBucket(a, s, apex) <==> SomePuts(before, built, s, apex);
    }
  }

  method SplitAllowlistEntries(entries: seq<AllowEntry>, built: int) returns (a: Allow)
    ensures IsSplit(entries, built, a)
  {
    a := Allow({}, map[]);
    var i := 0;
    while i < |entries|
      invariant 0 <= i <= |entries|
      invariant IsSplit(entries[..i], built, a)
    {
      var e := entries[i];
      SplitSnoc(entries, i, built, a);
      i := i + 1;
      if e.expiresAt.Some? && built >= e.expiresAt.value {
        continue;
      }
      var d := Normal(e.domain);
      if d == "" {
        continue;
      }
      if e.scheduleId == "" {
        a := a.(always := a.always + {d});
      } else {
        var bucket := if e.scheduleId in a.scheduled then a.scheduled[e.scheduleId] else {};
        a := a.(scheduled := a.scheduled[e.scheduleId := bucket + {d}]);
      }
    }
    assert entries[..i] == entries;
  }

  ghost predicate Allows(a: Allow, schedules: seq<Schedule>, domain: string, now: Clock) {
    Covered(a.always, domain)
    || exists s :: s in a.scheduled && Covered(a.scheduled[s], domain) && ScheduleOn(schedules, s, now)
  }

  method CheckAllow(a: Allow, schedules: seq<Schedule>, domain: string, now: Clock) returns (r: bool)
    ensures r <==> Allows(a, schedules, domain, now)
  {
    var always := Matches(a.always, domain);
    if always {
      return true;
    }
    var rest := a.scheduled.Keys;
    while rest != {}
      invariant rest <= a.scheduled.Keys
      invariant forall s :: s in a.scheduled && s !in rest ==>
        !(Covered(a.scheduled[s], domain) && ScheduleOn(schedules, s, now))
      decreases rest
    {
      var s :| s in rest;
      rest := rest - {s};
      var covered := Matches(a.scheduled[s], domain);
      if covered {
        var schedule := FindSchedule(schedules, s);
        if schedule.Some? {
          var active := ScheduleActive(schedule.value, now);
          if active {
            return true;
          }
        }
      }
    }
    return false;
  }

  /** An entry that has not expired and covers the domain, and whose schedule, if any, is active. */
  ghost predicate EntryAllows(e: AllowEntry, built: int, schedules: seq<Schedule>, domain: string, now: Clock) {
    (e.expiresAt.Some? ==> built < e.expiresAt.value) && Normal(e.domain) != "" && Under(domain, Normal(e.domain))
    && (e.scheduleId == "" || ScheduleOn(schedules, e.scheduleId, now))
  }

  /** The split list allows exactly what some entry allows. */
  lemma SplitKeepsMeaning(
      entries: seq<AllowEntry>, built: int, a: Allow, schedules: seq<Schedule>, domain: string, now: Clock)
    requires IsSplit(entries, built, a)
    ensures Allows(a, schedules, domain, now) <==>
      exists i :: 0 <= i < |entries| && EntryAllows(entries[i], built, schedules, domain, now)
  {
    if Covered(a.always, domain) {
      var apex :| apex in a.always && Under(domain, apex);
      assert InBucket(a, "", apex);
      assert SomePuts(entries, built, "", apex);
      var i :| 0 <= i < |entries| && Puts(entries[i], built, "", apex);
      assert EntryAllows(entries[i], built, schedules, domain, now);
    } else if Allows(a, schedules, domain, now) {
      var s :| s in a.scheduled && Covered(a.scheduled[s], domain) && ScheduleOn(schedules, s, now);
      var apex :| apex in a.scheduled[s] && Under(domain, apex);
      assert InBucket(a, s, apex);
      assert SomePuts(entries, built, s, apex);
      var i :| 0 <= i < |entries| && Puts(entries[i], built, s, apex);
      assert EntryAllows(entries[i], built, schedules, domain, now);
    }
    forall i | 0 <= i < |entries| && EntryAllows(entries[i], built, schedules, domain, now)
      ensures Allows(a, schedules, domain, now)
    {
      var s, apex := entries[i].scheduleId, Normal(entries[i].domain);
      assert Puts(entries[i], built, s, apex) && SomePuts(entries, built, s, apex);
      assert InBucket(a, s, apex);
    }
  }

  ghost predicate Within(a: Allow, b: Allow) {
    && a.always <= b.always
    && forall s :: s in a.scheduled ==> s in b.scheduled && a.scheduled[s] <= b.scheduled[s]
  }

  lemma AllowsMonotone(a: Allow, b: Allow, schedules: seq<Schedule>, domain: string, now: Clock)
    requires Within(a, b) && Allows(a, schedules, domain, now)
    ensures Allows(b, schedules, domain, now)
  {
    if Covered(a.always, domain) {
      CoveredMonotone(a.always, b.always, domain);
    } else {
      var s :| s in a.scheduled && Covered(a.scheduled[s], domain) && ScheduleOn(schedules, s, now);
      CoveredMonotone(a.scheduled[s], b.scheduled[s], domain);
    }
  }

  /** Adding entries only enlarges what is allowed. */
  lemma MoreEntriesWithin(entries: seq<AllowEntry>, more: seq<AllowEntry>, built: int, a: Allow, b: Allow)
    requires IsSplit(entries, built, a) && IsSplit(entries + more, built, b)
    ensures Within(a, b)
  {
    forall s, apex | InBucket(a, s, apex) ensures InBucket(b, s, apex) {
      var i :| 0 <= i < |entries| && Puts(entries[i], built, s, apex);
      assert (entries + more)[i] == entries[i];
      assert SomePuts(entries + more, built, s, apex);
    }
    forall apex | apex in a.always ensures apex in b.always {
      assert InBucket(a, "", apex);
    }
    forall s | s in a.scheduled ensures s in b.scheduled && a.scheduled[s] <= b.scheduled[s] {
      var apex :| apex in a.scheduled[s];
      assert InBucket(a, s, apex);
      assert forall d :: d in a.scheduled[s] ==> InBucket(a, s, d);
    }
  }

  /** Built later from the same entries, an allowlist allows nothing more. */
  lemma LaterBuildAllowsNoMore(
      entries: seq<AllowEntry>, early: int, late: int, a: Allow, b: Allow, schedules: seq<Schedule>, domain: string,
      now: Clock)
    requires early <= late && IsSplit(entries, early, a) && IsSplit(entries, late, b)
    requires Allows(b, schedules, domain, now)
    ensures Allows(a, schedules, domain, now)
  {
    SplitKeepsMeaning(entries, early, a, schedules, domain, now);
    SplitKeepsMeaning(entries, late, b, schedules, domain, now);
    var i :| 0 <= i < |entries| && EntryAllows(entries[i], late, schedules, domain, now);
    assert EntryAllows(entries[i], early, schedules, domain, now);
  }
}
