/** Schedule windows, and how bindings switch a blocklist on and off for a profile. */
module Schedules {
  import opened Wrappers
  import opened Strings

  datatype Window = Window(days: seq<string>, start: string, end: string)
  datatype Schedule = Schedule(id: string, mode: string, windows: seq<Window>)
  datatype Binding = Binding(profileId: string, blocklistId: string, scheduleId: string)

  /** The wall clock: the short name of the day and the minute of the day. */
  datatype Clock = Clock(day: string, minute: int)

  datatype ScheduleResult = NoBinding | Applies | Suppresses

  const ALLOW_INSIDE := "allow_only_inside"

  // ----------------------------------------------------------------------------
  // Windows
  // ----------------------------------------------------------------------------

  predicate IsDigit(c: char) {
    '0' <= c <= '9'
  }

  function Digits(s: string): Option<nat> {
    if s == [] then Some(0)
    else
      var last, before := s[|s| - 1], Digits(s[..|s| - 1]);
      if IsDigit(last) && before.Some? then Some(10 * before.value + (last as int - '0' as int)) else None
  }

  /** A decimal number with an optional sign. */
  function Atoi(s: string): Option<int> {
    var sign := s != [] && (s[0] == '+' || s[0] == '-');
    var body := if sign then s[1..] else s;
    var n := Digits(body);
    if body == [] || n.None? then None
    else
      var v: int := n.value;
      Some(if sign && s[0] == '-' then -v else v)
  }

  function ParseHHMM(s: string): (r: Option<int>)
    ensures r.Some? ==> 0 <= r.value < 1440
  {
    var colon := IndexOf(s, ':');
    if colon < 0 then None
    else
      var h, m := Atoi(s[..colon]), Atoi(s[colon + 1..]);
      if h.None? || m.None? || h.value < 0 || h.value > 23 || m.value < 0 || m.value > 59 then None
      else Some(h.value * 60 + m.value)
  }

  function TwoDigits(n: int): string
    requires 0 <= n < 100
  {
    [(n / 10 + '0' as int) as char, (n % 10 + '0' as int) as char]
  }

  lemma ReadTwoDigits(n: int)
    requires 0 <= n < 100
    ensures Atoi(TwoDigits(n)) == Some(n)
    ensures ':' !in TwoDigits(n)
  {
    var s := TwoDigits(n);
    assert s[..1] == [s[0]] && s[..1][..0] == [];
    assert Digits(s[..1]) == Some(n / 10);
  }

  /** Every time of day written HH:MM is read as its minute of the day. */
  lemma ClockTimesParse(h: int, m: int)
    requires 0 <= h < 24 && 0 <= m < 60
    ensures ParseHHMM(TwoDigits(h) + ":" + TwoDigits(m)) == Some(h * 60 + m)
  {
    var s := TwoDigits(h) + ":" + TwoDigits(m);
    ReadTwoDigits(h);
    ReadTwoDigits(m);
    assert s[2] == ':' && s[..2] == TwoDigits(h) && s[3..] == TwoDigits(m);
    assert IndexOf(s, ':') == 2 by {
      var i := IndexOf(s, ':');
      assert s[0] == s[..2][0] && s[1] == s[..2][1];
    }
  }

  function TimeInWindow(minute: int, start: string, end: string): bool {
    var s, e := ParseHHMM(start), ParseHHMM(end);
    if s.None? || e.None? || s == e then false
    else if s.value < e.value then s.value <= minute < e.value
    else minute >= s.value || minute < e.value
  }

  /** Minutes from one minute of the day to the next occurrence of another. */
  function Later(a: int, b: int): int {
    if b >= a then b - a else b - a + 1440
  }

  /** A window is the stretch of clock from its start to its end, across midnight if need be. */
  lemma WindowIsClockInterval(minute: int, start: string, end: string)
    requires 0 <= minute < 1440 && ParseHHMM(start).Some? && ParseHHMM(end).Some?
    ensures
      var s, e := ParseHHMM(start).value, ParseHHMM(end).value;
      TimeInWindow(minute, start, end) <==> Later(s, minute) < Later(s, e)
  {
  }

  predicate OnDay(days: seq<string>, day: string) {
    exists i :: 0 <= i < |days| && Lower(days[i]) == Lower(day)
  }

  predicate Active(s: Schedule, now: Clock) {
    exists i :: 0 <= i < |s.windows| && OnDay(s.windows[i].days, now.day)
      && TimeInWindow(now.minute, s.windows[i].start, s.windows[i].end)
  }

  method ContainsDay(days: seq<string>, day: string) returns (r: bool)
    ensures r <==> OnDay(days, day)
  {
    var i := 0;
    while i < |days|
      invariant 0 <= i <= |days|
      invariant forall j :: 0 <= j < i ==> Lower(days[j]) != Lower(day)
    {
      if Lower(days[i]) == Lower(day) {
        return true;
      }
      i := i + 1;
    }
    return false;
  }

  method ScheduleActive(s: Schedule, now: Clock) returns (r: bool)
    ensures r <==> Active(s, now)
  {
    var i := 0;
    while i < |s.windows|
      invariant 0 <= i <= |s.windows|
      invariant forall j :: 0 <= j < i ==>
        !(OnDay(s.windows[j].days, now.day) && TimeInWindow(now.minute, s.windows[j].start, s.windows[j].end))
    {
      var today := ContainsDay(s.windows[i].days, now.day);
      if today && TimeInWindow(now.minute, s.windows[i].start, s.windows[i].end) {
        return true;
      }
      i := i + 1;
    }
    return false;
  }

  // ----------------------------------------------------------------------------
  // Bindings
  // ----------------------------------------------------------------------------

  /** The first schedule with the id. */
  function Find(schedules: seq<Schedule>, id: string): (r: Option<Schedule>)
    ensures r.Some? <==> exists i :: 0 <= i < |schedules| && schedules[i].id == id
  {
    if schedules == [] then None
    else if schedules[0].id == id then Some(schedules[0])
    else
      assert forall i :: 0 < i < |schedules| ==> schedules[i] == schedules[1..][i - 1];
      Find(schedules[1..], id)
  }

  ghost predicate ScheduleOn(schedules: seq<Schedule>, id: string, now: Clock) {
    Find(schedules, id).Some? && Active(Find(schedules, id).value, now)
  }

  /** A binding of the pair to a schedule that exists. */
  predicate Binds(b: Binding, schedules: seq<Schedule>, profileId: string, blocklistId: string) {
    b.profileId == profileId && b.blocklistId == blocklistId && Find(schedules, b.scheduleId).Some?
  }

  /** Inside the window of a blocking schedule, or outside that of an allowing one. */
  predicate Enforces(s: Schedule, now: Clock) {
    if s.mode == ALLOW_INSIDE then !Active(s, now) else Active(s, now)
  }

  predicate SomeBinds(bindings: seq<Binding>, schedules: seq<Schedule>, profileId: string, blocklistId: string) {
    exists i :: 0 <= i < |bindings| && Binds(bindings[i], schedules, profileId, blocklistId)
  }

  predicate SomeEnforces(
      bindings: seq<Binding>, schedules: seq<Schedule>, profileId: string, blocklistId: string, now: Clock)
  {
    exists i :: 0 <= i < |bindings| && Binds(bindings[i], schedules, profileId, blocklistId)
      && Enforces(Find(schedules, bindings[i].scheduleId).value, now)
  }

  /** The list is bypassed: it is bound, and no binding enforces it now. */
  predicate Suppressed(
      bindings: seq<Binding>, schedules: seq<Schedule>, profileId: string, blocklistId: string, now: Clock)
  {
    SomeBinds(bindings, schedules, profileId, blocklistId)
    && !SomeEnforces(bindings, schedules, profileId, blocklistId, now)
  }

  method FindSchedule(schedules: seq<Schedule>, id: string) returns (r: Option<Schedule>)
    ensures r == Find(schedules, id)
  {
    var i := 0;
    while i < |schedules|
      invariant 0 <= i <= |schedules|
      invariant Find(schedules, id) == Find(schedules[i..], id)
    {
      assert schedules[i..][1..] == schedules[i + 1..];
      if schedules[i].id == id {
        return Some(schedules[i]);
      }
      i := i + 1;
    }
    return None;
  }

  /** Any enforcing binding wins, then any other; without a binding the list applies as normal. */
  method EvaluateSchedules(
    bindings: seq<Binding>, schedules: seq<Schedule>, profileId: string, blocklistId: string, now: Clock)
    returns (r: ScheduleResult)
    ensures r == NoBinding <==> !SomeBinds(bindings, schedules, profileId, blocklistId)
    ensures r == Applies <==> SomeEnforces(bindings, schedules, profileId, blocklistId, now)
    ensures r == Suppresses <==> Suppressed(bindings, schedules, profileId, blocklistId, now)
  {
    var bound, applies, suppresses := false, false, false;
    var i := 0;
    while i < |bindings|
      invariant 0 <= i <= |bindings|
      invariant bound <==> SomeBinds(bindings[..i], schedules, profileId, blocklistId)
      invariant applies <==> SomeEnforces(bindings[..i], schedules, profileId, blocklistId, now)
      invariant bound <==> applies || suppresses
    {
      var b := bindings[i];
      BindingsSnoc(bindings, i, schedules, profileId, blocklistId, now);
      i := i + 1;
      if b.profileId != profileId || b.blocklistId != blocklistId {
        continue;
      }
      var s := FindSchedule(schedules, b.scheduleId);
      if s.None? {
        continue;
      }
      bound := true;
      var active := ScheduleActive(s.value, now);
      if s.value.mode == ALLOW_INSIDE {
        if active { suppresses := true; } else { applies := true; }
      } else {
        if active { applies := true; } else { suppresses := true; }
      }
    }
    assert bindings[..i] == bindings;
    if !bound {
      return NoBinding;
    }
    if applies {
      return Applies;
    }
    if suppresses {
      return Suppresses;
    }
    return NoBinding;
  }

  lemma BindingsSnoc(
    bindings: seq<Binding>, i: nat, schedules: seq<Schedule>, profileId: string, blocklistId: string, now: Clock)
    requires i < |bindings|
    ensures SomeBinds(bindings[..i + 1], schedules, profileId, blocklistId) <==>
      SomeBinds(bindings[..i], schedules, profileId, blocklistId)
      || Binds(bindings[i], schedules, profileId, blocklistId)
    ensures SomeEnforces(bindings[..i + 1], schedules, profileId, blocklistId, now) <==>
      SomeEnforces(bindings[..i], schedules, profileId, blocklistId, now)
      || (Binds(bindings[i], schedules, profileId, blocklistId)
        && Enforces(Find(schedules, bindings[i].scheduleId).value, now))
  {
    var before, after := bindings[..i], bindings[..i + 1];
    assert forall j :: 0 <= j < i ==> before[j] == after[j];
    assert after[i] == bindings[i];
  }

  // ----------------------------------------------------------------------------
  // What suspends a list
  // ----------------------------------------------------------------------------

  /** A number may be written with a sign. */
  lemma SignedNumbers(n: int)
    requires 0 <= n < 100
    ensures Atoi("+" + TwoDigits(n)) == Some(n) && Atoi("-" + TwoDigits(n)) == Some(-n)
  {
    ReadTwoDigits(n);
    assert ("+" + TwoDigits(n))[1..] == TwoDigits(n) && ("-" + TwoDigits(n))[1..] == TwoDigits(n);
  }

  /** The same letters, whether capital or small. */
  predicate SameLetters(a: string, b: string) {
    |a| == |b| && forall i :: 0 <= i < |a| ==> LowerChar(a[i]) == LowerChar(b[i])
  }

  /** Some window of the schedule holds the minute, on one of the days that it lists. */
  ghost predicate InWindow(s: Schedule, now: Clock, i: int) {
    && 0 <= i < |s.windows|
    && (exists d :: d in s.windows[i].days && SameLetters(d, now.day))
    && ParseHHMM(s.windows[i].start).Some? && ParseHHMM(s.windows[i].end).Some?
    && var from, to := ParseHHMM(s.windows[i].start).value, ParseHHMM(s.windows[i].end).value;
      Later(from, now.minute) < Later(from, to)
  }

  lemma DayListedIff(days: seq<string>, day: string)
    ensures OnDay(days, day) <==> exists d :: d in days && SameLetters(d, day)
  {
    forall d | d in days && SameLetters(d, day) ensures OnDay(days, day) {
      var i :| 0 <= i < |days| && days[i] == d;
      assert Lower(days[i]) == Lower(day);
    }
    if OnDay(days, day) {
      var i :| 0 <= i < |days| && Lower(days[i]) == Lower(day);
      assert forall k :: 0 <= k < |day| ==> Lower(days[i])[k] == Lower(day)[k];
      assert days[i] in days && SameLetters(days[i], day);
    }
  }

  /** A schedule is on exactly inside its windows, each from its start to its end on the days it lists. */
  lemma ActiveIff(s: Schedule, now: Clock)
    requires 0 <= now.minute < 1440
    ensures Active(s, now) <==> exists i :: InWindow(s, now, i)
  {
    forall i | 0 <= i < |s.windows|
      ensures InWindow(s, now, i) <==>
        OnDay(s.windows[i].days, now.day) && TimeInWindow(now.minute, s.windows[i].start, s.windows[i].end)
    {
      var w := s.windows[i];
      DayListedIff(w.days, now.day);
      if ParseHHMM(w.start).Some? && ParseHHMM(w.end).Some? { WindowIsClockInterval(now.minute, w.start, w.end); }
    }
  }

  /** Binding k is of the pair, and row j holds the schedule that it names: the first of its id. */
  predicate BoundBy(
      bindings: seq<Binding>, schedules: seq<Schedule>, profileId: string, blocklistId: string, k: int, j: int)
  {
    && 0 <= k < |bindings| && bindings[k].profileId == profileId && bindings[k].blocklistId == blocklistId
    && 0 <= j < |schedules| && schedules[j].id == bindings[k].scheduleId
    && forall i :: 0 <= i < j ==> schedules[i].id != bindings[k].scheduleId
  }

  lemma {:induction false} FindFirst(schedules: seq<Schedule>, id: string, j: nat)
    requires j < |schedules| && schedules[j].id == id && forall i :: 0 <= i < j ==> schedules[i].id != id
    ensures Find(schedules, id) == Some(schedules[j])
  {
    if j > 0 { FindFirst(schedules[1..], id, j - 1); }
  }

  lemma {:induction false} FoundAt(schedules: seq<Schedule>, id: string) returns (j: nat)
    requires Find(schedules, id).Some?
    ensures j < |schedules| && schedules[j].id == id && Find(schedules, id) == Some(schedules[j])
    ensures forall i :: 0 <= i < j ==> schedules[i].id != id
  {
    if schedules[0].id == id {
      j := 0;
    } else {
      var n := FoundAt(schedules[1..], id);
      j := n + 1;
      assert forall i :: 1 <= i < j ==> schedules[i] == schedules[1..][i - 1];
    }
  }

  /** A schedule by its id is on exactly when the first row with the id is. */
  lemma ScheduleOnIff(schedules: seq<Schedule>, id: string, now: Clock)
    ensures ScheduleOn(schedules, id, now) <==>
      exists j :: 0 <= j < |schedules| && schedules[j].id == id && (forall i :: 0 <= i < j ==> schedules[i].id != id)
        && Active(schedules[j], now)
  {
    forall j | 0 <= j < |schedules| && schedules[j].id == id && (forall i :: 0 <= i < j ==> schedules[i].id != id)
      ensures Find(schedules, id) == Some(schedules[j])
    {
      FindFirst(schedules, id, j);
    }
    if Find(schedules, id).Some? { var j := FoundAt(schedules, id); }
  }

  /** Inside its windows an allowing schedule suspends the lists bound to it; any other one does outside them. */
  predicate Suspends(s: Schedule, now: Clock) {
    Active(s, now) <==> s.mode == "allow_only_inside"
  }

  /** A list is suspended for a profile exactly when it is bound, and every schedule it is bound to suspends it. */
  lemma SuspendedIff(
      bindings: seq<Binding>, schedules: seq<Schedule>, profileId: string, blocklistId: string, now: Clock)
    ensures Suppressed(bindings, schedules, profileId, blocklistId, now) <==>
      && (exists k, j :: BoundBy(bindings, schedules, profileId, blocklistId, k, j))
      && forall k, j :: BoundBy(bindings, schedules, profileId, blocklistId, k, j) ==> Suspends(schedules[j], now)
  {
    forall k, j | BoundBy(bindings, schedules, profileId, blocklistId, k, j)
      ensures Binds(bindings[k], schedules, profileId, blocklistId)
      ensures Find(schedules, bindings[k].scheduleId) == Some(schedules[j])
    {
      FindFirst(schedules, bindings[k].scheduleId, j);
    }
    forall k | 0 <= k < |bindings| && Binds(bindings[k], schedules, profileId, blocklistId)
      ensures exists j :: BoundBy(bindings, schedules, profileId, blocklistId, k, j)
    {
      var j := FoundAt(schedules, bindings[k].scheduleId);
      assert BoundBy(bindings, schedules, profileId, blocklistId, k, j);
    }
  }
}
