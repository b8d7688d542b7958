/**
 The shadow writer: a goroutine that mirrors the store into a file. It is woken through a
 channel that holds one signal, where further signals are dropped, and it debounces.
 */
module ShadowWriter {
  import opened Wrappers

  /** A committed state of the store; what the file holds of it. */
  type Content = int

  /** Start subscribes, spawns the goroutine, and signals once, in this order. */
  datatype Starter = NotStarted | Subscribed | Spawned | Started

  /** The goroutine that applies the log commits, then calls the subscribers. */
  datatype Applier = Resting | Committed

  datatype After = Loop | Leave

  /**
   Waiting: in the outer select. Debouncing: a signal was consumed, and the timer runs.
   Draining: a signal was consumed after the stop. Writing: the store was read.
   */
  datatype Writer = Absent | Waiting | Debouncing | Draining | Writing(content: Content, after: After) | Exited

  /** owed: the file missed a state for a reason no signal tells: a failed write or a restored store. */
  datatype State = State(
    store: Content, file: Option<Content>, starter: Starter, applier: Applier, signal: bool, done: bool,
    writer: Writer, ghost owed: bool)

  datatype Step =
    | Commit(content: Content) | Notify
    | Subscribe | Spawn | FirstNotify
    | Take | Coalesce | TimerFires | StopWhileDebouncing | StopWhileWaiting | DrainRead | Write
    | Close
    | WriteFails | Restore(content: Content)

  predicate Enabled(s: State, step: Step) {
    match step
    case Commit(_) => s.applier == Resting
    case Notify => s.applier == Committed
    case Subscribe => s.starter == NotStarted
    case Spawn => s.starter == Subscribed
    case FirstNotify => s.starter == Spawned
    case Take => s.writer == Waiting && s.signal
    case Coalesce => s.writer == Debouncing && s.signal
    case TimerFires => s.writer == Debouncing
    case StopWhileDebouncing => s.writer == Debouncing && s.done
    case StopWhileWaiting => s.writer == Waiting && s.done
    case DrainRead => s.writer == Draining
    case Write => s.writer.Writing?
    case WriteFails => s.writer.Writing?
    case Close => true
    case Restore(_) => true
  }

  function Next(a: After): Writer {
    if a == Loop then Waiting else Exited
  }

  /** A step that is not enabled does nothing. */
  ghost function Do(s: State, step: Step): State {
    if !Enabled(s, step) then s
    else
      match step
      case Commit(c) => s.(store := c, applier := Committed)
      case Notify =>
        if s.starter == NotStarted then s.(applier := Resting)
        else s.(applier := Resting, signal := true, owed := false)
      case Subscribe => s.(starter := Subscribed)
      case Spawn => s.(starter := Spawned, writer := Waiting)
      case FirstNotify => s.(starter := Started, signal := true, owed := false)
      case Take => s.(signal := false, writer := Debouncing)
      case Coalesce => s.(signal := false)
      case TimerFires => s.(writer := Writing(s.store, Loop))
      case StopWhileDebouncing => s.(writer := Writing(s.store, Loop))
      case StopWhileWaiting => if s.signal then s.(signal := false, writer := Draining) else s.(writer := Exited)
      case DrainRead => s.(writer := Writing(s.store, Leave))
      case Write => s.(file := Some(s.writer.content), writer := Next(s.writer.after))
      case WriteFails => s.(writer := Next(s.writer.after), owed := true)
      case Close => s.(done := true)
      case Restore(c) => s.(store := c, owed := true)
  }

  ghost function Run(s: State, steps: seq<Step>): State {
    if steps == [] then s else Do(Run(s, steps[..|steps| - 1]), steps[|steps| - 1])
  }

  /** Any store, and any file left behind by an earlier process. */
  ghost predicate Initial(s: State) {
    s.starter == NotStarted && s.applier == Resting && !s.signal && !s.done && s.writer == Absent && !s.owed
  }

  predicate UpToDate(s: State) {
    s.file == Some(s.store)
  }

  // ----------------------------------------------------------------------------
  // No update is lost
  // ----------------------------------------------------------------------------

  /** The writer is bound to write what the store holds now. */
  predicate WillWrite(s: State) {
    s.writer == Debouncing || s.writer == Draining || (s.writer.Writing? && s.writer.content == s.store)
  }

  /** A signal is pending, or the writer is bound to write, or there is nothing to write and none under way. */
  predicate Covered(s: State) {
    s.signal || WillWrite(s) || (UpToDate(s) && !s.writer.Writing?)
  }

  ghost predicate Inv(s: State) {
    && (Covered(s) || s.owed || s.applier == Committed || s.starter != Started)
    && (s.writer == Absent <==> s.starter == NotStarted || s.starter == Subscribed)
  }

  lemma StepKeepsInv(s: State, step: Step)
    requires Inv(s)
    ensures Inv(Do(s, step))
  {
  }

  lemma {:induction false} RunKeepsInv(s: State, steps: seq<Step>)
    requires Inv(s)
    ensures Inv(Run(s, steps))
  {
    if steps != [] {
      RunKeepsInv(s, steps[..|steps| - 1]);
      StepKeepsInv(Run(s, steps[..|steps| - 1]), steps[|steps| - 1]);
    }
  }

  /**
   Once started, when the file lags the store, an apply is about to signal, a signal is
   pending, or the writer is bound to write: unless a write failed or the store was
   restored, and nothing was signalled since.
   */
  lemma NoLostWrite(s: State, steps: seq<Step>)
    requires Initial(s)
    ensures
      var r := Run(s, steps);
      r.starter == Started && !r.owed && !UpToDate(r) ==> r.applier == Committed || r.signal || WillWrite(r)
  {
    RunKeepsInv(s, steps);
  }

  predicate AtRest(s: State) {
    s.starter == Started && s.applier == Resting && !s.signal && s.writer == Waiting
  }

  /** At rest, with no write owed, the file is the latest state. */
  lemma IdleMeansUpToDate(s: State, steps: seq<Step>)
    requires Initial(s) && AtRest(Run(s, steps)) && !Run(s, steps).owed
    ensures UpToDate(Run(s, steps))
  {
    RunKeepsInv(s, steps);
  }

  // ----------------------------------------------------------------------------
  // Stopping
  // ----------------------------------------------------------------------------

  /** What may still happen once the store is left alone and writes succeed. */
  predicate Settling(step: Step) {
    !step.Commit? && !step.Restore? && !step.WriteFails?
  }

  ghost predicate AllSettling(steps: seq<Step>) {
    forall i :: 0 <= i < |steps| ==> Settling(steps[i])
  }

  /** However a stop goes on from here: when the writer has left, the file is the latest state. */
  ghost predicate FlushedByStop(s: State) {
    forall after :: AllSettling(after) && Run(Do(s, Close), after).writer == Exited ==>
      UpToDate(Run(Do(s, Close), after))
  }

  /** From the stop on: what is left to write is known, and the writer leaves only after it. */
  ghost predicate Stopping(s: State) {
    && s.done && (s.writer == Absent <==> s.starter == NotStarted || s.starter == Subscribed)
    && (s.writer == Exited ==> UpToDate(s))
    && (s.writer.Writing? ==> s.writer.content == s.store || (s.writer.after == Loop && s.signal))
    && (s.writer == Waiting || s.writer == Absent ==> UpToDate(s) || s.signal)
  }

  lemma StepKeepsStopping(s: State, step: Step)
    requires Stopping(s) && Settling(step)
    ensures Stopping(Do(s, step))
  {
  }

  lemma {:induction false} StoppingStays(s: State, steps: seq<Step>)
    requires Stopping(s) && AllSettling(steps)
    ensures Stopping(Run(s, steps))
  {
    if steps != [] {
      StoppingStays(s, steps[..|steps| - 1]);
      assert Settling(steps[|steps| - 1]);
      StepKeepsStopping(Run(s, steps[..|steps| - 1]), steps[|steps| - 1]);
    }
  }

  lemma {:induction false} NotDoneNotLeaving(s: State, steps: seq<Step>)
    requires Initial(s) && !Run(s, steps).done
    ensures
      var w := Run(s, steps).writer;
      w != Exited && w != Draining && (w.Writing? ==> w.after == Loop)
  {
    if steps != [] {
      NotDoneNotLeaving(s, steps[..|steps| - 1]);
    }
  }

  /** The steps by which a writer that has nothing to wait for leaves. */
  function WayOut(s: State): seq<Step> {
    if s.starter == NotStarted then [Subscribe, Spawn, StopWhileWaiting]
    else if s.starter == Subscribed then [Spawn, StopWhileWaiting]
    else if s.writer.Writing? then [Write, StopWhileWaiting]
    else [StopWhileWaiting]
  }

  lemma RunTwo(s: State, a: Step, b: Step)
    ensures Run(s, [a, b]) == Do(Do(s, a), b)
  {
    assert [a, b][..1] == [a] && [a][..0] == [];
    assert Run(s, [a]) == Do(s, a);
  }

  lemma UncoveredLeaves(s: State)
    requires s.done && !Covered(s) && s.writer != Exited && (s.writer.Writing? ==> s.writer.after == Loop)
    requires s.writer == Absent <==> s.starter == NotStarted || s.starter == Subscribed
    ensures Run(s, WayOut(s)).writer == Exited && !UpToDate(Run(s, WayOut(s)))
  {
    if s.starter == NotStarted {
      assert WayOut(s)[..2] == [Subscribe, Spawn];
      RunTwo(s, Subscribe, Spawn);
    } else if s.starter == Subscribed {
      RunTwo(s, Spawn, StopWhileWaiting);
    } else if s.writer.Writing? {
      RunTwo(s, Write, StopWhileWaiting);
    } else {
      assert [StopWhileWaiting][..0] == [];
    }
  }

  /**
   Exactly when a stop flushes, at every point of every run before it, with applies in
   flight, writes owed and even a start under way: if and only if at that point a signal
   is pending, or the writer is bound to write the latest state, or the file has it and
   nothing is being written.
   */
  lemma StopFlushesIff(s: State, before: seq<Step>)
    requires Initial(s) && !Run(s, before).done
    ensures FlushedByStop(Run(s, before)) <==> Covered(Run(s, before))
  {
    var r := Run(s, before);
    RunKeepsInv(s, before);
    NotDoneNotLeaving(s, before);
    if Covered(r) {
      forall after | AllSettling(after) ensures Stopping(Run(Do(r, Close), after)) {
        StoppingStays(Do(r, Close), after);
      }
    } else {
      UncoveredLeaves(Do(r, Close));
      assert AllSettling(WayOut(Do(r, Close)));
    }
  }

  /** Once started it flushes while no apply is in flight and no write is owed. */
  lemma StopFlushes(s: State, before: seq<Step>, after: seq<Step>)
    requires Initial(s)
    requires
      var r := Run(s, before);
      r.starter == Started && r.applier == Resting && !r.done && !r.owed
    requires AllSettling(after)
    ensures
      var r := Run(Do(Run(s, before), Close), after);
      r.store == Run(s, before).store && (r.writer == Exited ==> UpToDate(r))
  {
    RunKeepsInv(s, before);
    StopFlushesIff(s, before);
    StoreStays(Do(Run(s, before), Close), after);
  }

  /** An apply caught at rest between its commit and its signal is not flushed. */
  lemma StopMidApplyLoses(s: State, c: Content)
    requires AtRest(s) && !s.done && UpToDate(s) && c != s.store
    ensures
      var r := Do(Do(Do(Do(s, Commit(c)), Close), StopWhileWaiting), Notify);
      r.writer == Exited && r.applier == Resting && !UpToDate(r)
  {
  }

  lemma {:induction false} StoreStays(s: State, steps: seq<Step>)
    requires AllSettling(steps)
    ensures Run(s, steps).store == s.store
  {
    if steps != [] {
      StoreStays(s, steps[..|steps| - 1]);
      assert Settling(steps[|steps| - 1]);
    }
  }

  // ----------------------------------------------------------------------------
  // Progress
  // ----------------------------------------------------------------------------

  /** What the goroutines do next once nothing else is committed: signal, finish the write, take the signal. */
  function CatchUp(s: State): seq<Step> {
    if s.applier == Committed then [Notify] + CatchUpWriter(s.writer, true)
    else CatchUpWriter(s.writer, s.signal)
  }

  function CatchUpWriter(w: Writer, signal: bool): seq<Step> {
    if w == Debouncing then (if signal then [Coalesce] else []) + [TimerFires, Write]
    else if w.Writing? then [Write] + if signal then [Take, TimerFires, Write] else []
    else if signal then [Take, TimerFires, Write]
    else []
  }

  /** Started, and the writer has not been told to leave. */
  predicate AtWork(s: State) {
    s.starter == Started && s.writer != Absent && s.writer != Draining && s.writer != Exited
    && (s.writer.Writing? ==> s.writer.after == Loop)
  }

  ghost predicate CaughtUp(s: State, r: State) {
    AtRest(r) && UpToDate(r) && r.store == s.store
  }

  lemma {:induction false} RunConcat(s: State, a: seq<Step>, b: seq<Step>)
    ensures Run(s, a + b) == Run(Run(s, a), b)
  {
    if b == [] {
      assert a + b == a;
    } else {
      var n := |b| - 1;
      RunConcat(s, a, b[..n]);
      assert (a + b)[..|a + b| - 1] == a + b[..n];
    }
  }

  lemma RunOne(s: State, step: Step)
    ensures Run(s, [step]) == Do(s, step)
  {
    assert [step][..0] == [];
  }

  lemma TakeAndWrite(s: State)
    requires AtWork(s) && s.applier == Resting && s.writer == Waiting && s.signal
    ensures CaughtUp(s, Run(s, [Take, TimerFires, Write]))
  {
    var three := [Take, TimerFires, Write];
    assert three[..2] == [Take, TimerFires] && three[..2][..1] == [Take] && three[..2][..1][..0] == [];
    assert Run(s, three[..2][..1]) == Do(s, Take);
    assert Run(s, three[..2]) == Do(Do(s, Take), TimerFires);
  }

  lemma WriterCatchesUp(s: State)
    requires AtWork(s) && s.applier == Resting && Covered(s)
    ensures CaughtUp(s, Run(s, CatchUpWriter(s.writer, s.signal)))
  {
    if s.writer == Debouncing {
      var s1 := if s.signal then Do(s, Coalesce) else s;
      RunOne(s, Coalesce);
      RunTwo(s1, TimerFires, Write);
      RunConcat(s, if s.signal then [Coalesce] else [], [TimerFires, Write]);
    } else if s.writer.Writing? {
      RunOne(s, Write);
      if s.signal {
        TakeAndWrite(Do(s, Write));
        RunConcat(s, [Write], [Take, TimerFires, Write]);
      } else {
        assert [Write] + [] == [Write];
      }
    } else if s.signal {
      TakeAndWrite(s);
    }
  }

  /**
   Progress: from every point of every run at which the writer is started and not stopped,
   at most five steps of the goroutines themselves bring it to rest with the file up to date;
   unless a write is owed, and there is neither a signal pending or on its way nor a write to come.
   */
  lemma CatchesUp(s: State, steps: seq<Step>)
    requires Initial(s) && Run(s, steps).starter == Started && !Run(s, steps).done
    requires Run(s, steps).owed ==> Covered(Run(s, steps)) || Run(s, steps).applier == Committed
    ensures
      var r := Run(s, steps);
      |CatchUp(r)| <= 5 && AllSettling(CatchUp(r)) && CaughtUp(r, Run(r, CatchUp(r)))
  {
    var r := Run(s, steps);
    RunKeepsInv(s, steps);
    NotDoneNotLeaving(s, steps);
    if r.applier == Committed {
      RunOne(r, Notify);
      WriterCatchesUp(Do(r, Notify));
      RunConcat(r, [Notify], CatchUpWriter(r.writer, true));
    } else {
      WriterCatchesUp(r);
    }
  }

  // ----------------------------------------------------------------------------
  // What is not signalled
  // ----------------------------------------------------------------------------

  /** A restored snapshot signals nobody: the writer stays at rest and the file keeps the old state. */
  lemma RestoreIsNotMirrored(s: State, c: Content)
    requires AtRest(s) && UpToDate(s) && c != s.store
    ensures AtRest(Do(s, Restore(c))) && !UpToDate(Do(s, Restore(c)))
  {
  }

  /** ... until the next apply is signalled, after which nothing is owed. */
  lemma NextApplyCatchesUp(s: State, c: Content)
    requires AtRest(s)
    ensures
      var r := Run(s, [Commit(c), Notify, Take, TimerFires, Write]);
      AtRest(r) && !r.owed && UpToDate(r) && r.store == c
  {
    var s1, s2 := Do(s, Commit(c)), Do(Do(s, Commit(c)), Notify);
    var s3 := Do(s2, Take);
    var s4 := Do(s3, TimerFires);
    var five := [Commit(c), Notify, Take, TimerFires, Write];
    assert five[..4] == [Commit(c), Notify, Take, TimerFires] && five[..4][..3] == [Commit(c), Notify, Take];
    assert five[..4][..3][..2] == [Commit(c), Notify] && five[..4][..3][..2][..1] == [Commit(c)];
    assert five[..4][..3][..2][..1][..0] == [];
    assert Run(s, five[..4][..3][..2][..1]) == s1;
    assert Run(s, five[..4][..3][..2]) == s2;
    assert Run(s, five[..4][..3]) == s3;
    assert Run(s, five[..4]) == s4;
  }
}
