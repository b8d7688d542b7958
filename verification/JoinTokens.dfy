/**
 Enrollment of new nodes. Any number of enrollment calls run at the same time, on
 whichever nodes are leader at the moment: each checks the token against the local store,
 submits a consume command to the log, and adds the voter when the command succeeded.
 */
module JoinTokens {
  import opened Wrappers
  import opened StoreModel
  import Replication

  // ----------------------------------------------------------------------------
  // The token bucket along a log
  // ----------------------------------------------------------------------------

  function TokensAfter(start: Db, log: seq<Command>): map<string, Token> {
    Replication.Canonical(start, log).tokens
  }

  /** Entry i of the log is a consume of `hash` that succeeds when it is applied. */
  ghost predicate Consumes(start: Db, log: seq<Command>, i: nat, hash: string) {
    && i < |log| && log[i].TokenConsume? && log[i].hash == hash
    && ConsumeToken(TokensAfter(start, log[..i]), hash, log[i].consumedAt).Ok?
  }

  /** Tokens are issued unconsumed under hashes never seen before, and no consume carries time zero. */
  ghost predicate Proper(start: Db, log: seq<Command>) {
    && (forall i :: 0 <= i < |log| && log[i].TokenConsume? ==> log[i].consumedAt != 0)
    && (forall i :: 0 <= i < |log| && log[i].TokenCreate? ==>
      Fresh(start, log[..i], log[i].hash) && log[i].token.consumedUnix == 0)
  }

  ghost predicate Fresh(start: Db, log: seq<Command>, hash: string) {
    hash !in start.tokens && forall j :: 0 <= j < |log| && log[j].TokenCreate? ==> log[j].hash != hash
  }

  /** A token that was consumed and whose hash is not issued again is never consumable again. */
  ghost predicate Spent(tokens: map<string, Token>, hash: string) {
    hash in tokens && tokens[hash].consumedUnix != 0
  }

  lemma TokensApply(db: Db, cmd: Command)
    ensures Apply(db, cmd, 1).tokens ==
      match cmd
      case TokenCreate(hash, token) => db.tokens[hash := token]
      case TokenConsume(hash, at) =>
        (match ConsumeToken(db.tokens, hash, at) case Ok(t) => t case Err(_) => db.tokens)
      case _ => db.tokens
  {
    if !cmd.TokenCreate? && !cmd.TokenConsume? {
      AreaFrame(db, cmd, 1);
    }
  }

  lemma TokensStep(start: Db, log: seq<Command>, cmd: Command)
    ensures TokensAfter(start, log + [cmd]) ==
      match cmd
      case TokenCreate(hash, token) => TokensAfter(start, log)[hash := token]
      case TokenConsume(hash, at) =>
        (match ConsumeToken(TokensAfter(start, log), hash, at) case Ok(t) => t case Err(_) => TokensAfter(start, log))
      case _ => TokensAfter(start, log)
  {
    assert (log + [cmd])[..|log|] == log;
    TokensApply(Replication.Canonical(start, log), cmd);
  }

  /** A hash in the bucket was there at the start or was issued. */
  lemma {:induction false} KnownHash(start: Db, log: seq<Command>, hash: string)
    requires Fresh(start, log, hash)
    ensures hash !in TokensAfter(start, log)
  {
    if log != [] {
      var n := |log| - 1;
      KnownHash(start, log[..n], hash);
      TokensStep(start, log[..n], log[n]);
      assert log == log[..n] + [log[n]];
    }
  }

  lemma {:induction false} SpentStays(start: Db, log: seq<Command>, i: nat, hash: string, k: nat)
    requires Proper(start, log) && Consumes(start, log, i, hash) && i < k <= |log|
    ensures Spent(TokensAfter(start, log[..k]), hash)
  {
    var n := k - 1;
    assert log[..k] == log[..n] + [log[n]];
    TokensStep(start, log[..n], log[n]);
    if n > i {
      SpentStays(start, log, i, hash, n);
      if log[n].TokenCreate? && log[n].hash == hash {
        KnownHashPrefix(start, log, i, n, hash);
      }
    }
  }

  lemma KnownHashPrefix(start: Db, log: seq<Command>, i: nat, n: nat, hash: string)
    requires i <= n < |log| && hash in TokensAfter(start, log[..i])
    ensures !Fresh(start, log[..n], hash)
  {
    if Fresh(start, log[..n], hash) {
      assert forall j :: 0 <= j < i ==> log[..i][j] == log[..n][j];
      KnownHash(start, log[..i], hash);
    }
  }

  /** Along any proper log, at most one consume of a token succeeds. */
  lemma OneConsume(start: Db, log: seq<Command>, i: nat, j: nat, hash: string)
    requires Proper(start, log) && Consumes(start, log, i, hash) && Consumes(start, log, j, hash)
    ensures i == j
  {
    if i < j {
      SpentStays(start, log, i, hash, j);
    } else if j < i {
      SpentStays(start, log, j, hash, i);
    }
  }

  /** Consuming twice in a row works exactly when the first carried time zero and the second is in time. */
  lemma ConsumeTwice(tokens: map<string, Token>, hash: string, s: int, t: int)
    requires ConsumeToken(tokens, hash, s).Ok?
    ensures ConsumeToken(ConsumeToken(tokens, hash, s).value, hash, t).Ok? <==>
      s == 0 && (tokens[hash].expiresUnix == 0 || t <= tokens[hash].expiresUnix)
  {
  }

  // ----------------------------------------------------------------------------
  // The protocol
  // ----------------------------------------------------------------------------

  type CallId = nat

  datatype Phase = Begun | Checked | Waiting(entry: nat) | AddingVoter(entry: nat) | Failed

  datatype Call = Call(hash: string, phase: Phase)

  datatype System = System(log: seq<Command>, calls: map<CallId, Call>)

  datatype Step =
    | Issue(hash: string, expiresUnix: int, issuedBy: string)
    | Other(cmd: Command)
    | Enroll(call: CallId, hash: string)
    | Check(call: CallId, seen: nat, now: int)
    | Submit(call: CallId, now: int)
    | Reply(call: CallId)
    | GiveUp(call: CallId)

  /** The check against a local store, which may lag behind the log. */
  predicate TokenLooksGood(tokens: map<string, Token>, hash: string, now: int) {
    hash in tokens && tokens[hash].consumedUnix == 0 && now <= tokens[hash].expiresUnix
  }

  function Move(s: System, call: CallId, phase: Phase): System
    requires call in s.calls
  {
    s.(calls := s.calls[call := s.calls[call].(phase := phase)])
  }

  /** The system after a step; a step that is not enabled changes nothing. */
  ghost function Do(s: System, step: Step, start: Db): System {
    match step
    case Issue(hash, expires, issuer) =>
      if Fresh(start, s.log, hash) then s.(log := s.log + [TokenCreate(hash, Token(expires, issuer, 0))]) else s
    case Other(cmd) => if cmd.TokenCreate? || cmd.TokenConsume? then s else s.(log := s.log + [cmd])
    case Enroll(c, hash) => if c in s.calls then s else s.(calls := s.calls[c := Call(hash, Begun)])
    case Check(c, seen, now) =>
      if c in s.calls && s.calls[c].phase.Begun? && seen <= |s.log| then
        if TokenLooksGood(TokensAfter(start, s.log[..seen]), s.calls[c].hash, now) then Move(s, c, Checked)
        else Move(s, c, Failed)
      else s
    case Submit(c, now) =>
      if c in s.calls && s.calls[c].phase.Checked? && now != 0 then
        Move(s, c, Waiting(|s.log|)).(log := s.log + [TokenConsume(s.calls[c].hash, now)])
      else s
    case Reply(c) =>
      if c in s.calls && s.calls[c].phase.Waiting? then
        if Consumes(start, s.log, s.calls[c].phase.entry, s.calls[c].hash) then
          Move(s, c, AddingVoter(s.calls[c].phase.entry))
        else Move(s, c, Failed)
      else s
    case GiveUp(c) => if c in s.calls && !s.calls[c].phase.AddingVoter? then Move(s, c, Failed) else s
  }

  ghost function After(steps: seq<Step>, start: Db): System {
    if steps == [] then System([], map[]) else Do(After(steps[..|steps| - 1], start), steps[|steps| - 1], start)
  }

  /** The log entry a call owns, if it has submitted one. */
  function Entry(c: Call): Option<nat> {
    match c.phase
    case Waiting(i) => Some(i)
    case AddingVoter(i) => Some(i)
    case _ => None
  }

  ghost predicate CallInv(s: System, c: Call, start: Db) {
    && (Entry(c).Some? ==>
      Entry(c).value < |s.log| && s.log[Entry(c).value].TokenConsume? && s.log[Entry(c).value].hash == c.hash)
    && (c.phase.AddingVoter? ==> Consumes(start, s.log, c.phase.entry, c.hash))
  }

  ghost predicate Inv(s: System, start: Db) {
    && Proper(start, s.log)
    && (forall c :: c in s.calls ==> CallInv(s, s.calls[c], start))
    && (forall c, d :: c in s.calls && d in s.calls && c != d && Entry(s.calls[c]).Some? ==>
      Entry(s.calls[c]) != Entry(s.calls[d]))
  }

  lemma LogGrows(s: System, cmd: Command, start: Db)
    requires Inv(s, start)
    requires cmd.TokenConsume? ==> cmd.consumedAt != 0
    requires cmd.TokenCreate? ==> Fresh(start, s.log, cmd.hash) && cmd.token.consumedUnix == 0
    ensures Inv(s.(log := s.log + [cmd]), start)
  {
    var t := s.(log := s.log + [cmd]);
    ProperGrows(start, s.log, cmd);
    forall c | c in t.calls ensures CallInv(t, t.calls[c], start) {
      assert CallInv(s, s.calls[c], start);
      if s.calls[c].phase.AddingVoter? {
        assert t.log[..s.calls[c].phase.entry] == s.log[..s.calls[c].phase.entry];
      }
    }
  }

  lemma ProperGrows(start: Db, log: seq<Command>, cmd: Command)
    requires Proper(start, log)
    requires cmd.TokenConsume? ==> cmd.consumedAt != 0
    requires cmd.TokenCreate? ==> Fresh(start, log, cmd.hash) && cmd.token.consumedUnix == 0
    ensures Proper(start, log + [cmd])
  {
    var longer := log + [cmd];
    forall i | 0 <= i < |longer| && longer[i].TokenCreate?
      ensures Fresh(start, longer[..i], longer[i].hash) && longer[i].token.consumedUnix == 0
    {
      assert longer[..i] == log[..i];
      assert log[..|log|] == log;
    }
  }

  lemma MoveKeepsInv(s: System, c: CallId, phase: Phase, start: Db)
    requires Inv(s, start) && c in s.calls
    requires Entry(Call(s.calls[c].hash, phase)).Some? ==> Entry(Call(s.calls[c].hash, phase)) == Entry(s.calls[c])
    requires CallInv(s, Call(s.calls[c].hash, phase), start)
    ensures Inv(Move(s, c, phase), start)
  {
  }

  lemma SubmitKeepsInv(s: System, c: CallId, now: int, start: Db)
    requires Inv(s, start) && c in s.calls && s.calls[c].phase.Checked? && now != 0
    ensures Inv(Do(s, Submit(c, now), start), start)
  {
    var cmd := TokenConsume(s.calls[c].hash, now);
    LogGrows(s, cmd, start);
    var s1 := s.(log := s.log + [cmd]);
    var t := Do(s, Submit(c, now), start);
    assert CallInv(s1, Call(s.calls[c].hash, Waiting(|s.log|)), start);
    forall d | d in s.calls && Entry(s.calls[d]).Some? ensures Entry(s.calls[d]).value < |s.log| {
      assert CallInv(s, s.calls[d], start);
    }
    forall d | d in t.calls ensures CallInv(t, t.calls[d], start) {
      assert d != c ==> CallInv(s1, s1.calls[d], start);
    }
  }

  lemma StepKeepsInv(s: System, step: Step, start: Db)
    requires Inv(s, start)
    ensures Inv(Do(s, step, start), start)
  {
    match step
    case Issue(hash, expires, issuer) =>
      if Fresh(start, s.log, hash) { LogGrows(s, TokenCreate(hash, Token(expires, issuer, 0)), start); }
    case Other(cmd) => if !cmd.TokenCreate? && !cmd.TokenConsume? { LogGrows(s, cmd, start); }
    case Enroll(c, hash) =>
    case Check(c, seen, now) =>
      if c in s.calls {
        MoveKeepsInv(s, c, Checked, start);
        MoveKeepsInv(s, c, Failed, start);
      }
    case Submit(c, now) =>
      if c in s.calls && s.calls[c].phase.Checked? && now != 0 { SubmitKeepsInv(s, c, now, start); }
    case Reply(c) => ReplyKeepsInv(s, c, start);
    case GiveUp(c) => if c in s.calls { MoveKeepsInv(s, c, Failed, start); }
  }

  lemma ReplyKeepsInv(s: System, c: CallId, start: Db)
    requires Inv(s, start)
    ensures Inv(Do(s, Reply(c), start), start)
  {
    if c in s.calls && s.calls[c].phase.Waiting? {
      var i := s.calls[c].phase.entry;
      assert CallInv(s, s.calls[c], start);
      if Consumes(start, s.log, i, s.calls[c].hash) {
        MoveKeepsInv(s, c, AddingVoter(i), start);
      } else {
        MoveKeepsInv(s, c, Failed, start);
      }
    }
  }

  lemma {:induction false} RunKeepsInv(steps: seq<Step>, start: Db)
    ensures Inv(After(steps, start), start)
  {
    if steps != [] {
      RunKeepsInv(steps[..|steps| - 1], start);
      StepKeepsInv(After(steps[..|steps| - 1], start), steps[|steps| - 1], start);
    }
  }

  /** Over every interleaving, two calls that reach AddVoter carry different tokens. */
  lemma TokensAreSingleUse(steps: seq<Step>, start: Db, c: CallId, d: CallId)
    requires var s := After(steps, start);
      c in s.calls && d in s.calls && s.calls[c].phase.AddingVoter? && s.calls[d].phase.AddingVoter?
    ensures c != d ==> After(steps, start).calls[c].hash != After(steps, start).calls[d].hash
  {
    RunKeepsInv(steps, start);
    var s := After(steps, start);
    assert CallInv(s, s.calls[c], start) && CallInv(s, s.calls[d], start);
    if c != d && s.calls[c].hash == s.calls[d].hash {
      OneConsume(start, s.log, s.calls[c].phase.entry, s.calls[d].phase.entry, s.calls[c].hash);
    }
  }

  /**
   A call that reaches AddVoter did so with a token the bucket held when its consume was
   applied, still unconsumed, and with a consume time not past the token's expiry.
   */
  lemma VotersHadValidTokens(steps: seq<Step>, start: Db, c: CallId)
    requires c in After(steps, start).calls && After(steps, start).calls[c].phase.AddingVoter?
    ensures var s := After(steps, start);
      var i := s.calls[c].phase.entry;
      && i < |s.log| && s.log[i].TokenConsume? && s.log[i].hash == s.calls[c].hash
      && var tokens := TokensAfter(start, s.log[..i]);
      && s.log[i].hash in tokens && tokens[s.log[i].hash].consumedUnix == 0
      && (tokens[s.log[i].hash].expiresUnix != 0 ==> s.log[i].consumedAt <= tokens[s.log[i].hash].expiresUnix)
  {
    RunKeepsInv(steps, start);
    assert CallInv(After(steps, start), After(steps, start).calls[c], start);
  }

  /** Issuing a consumed hash again reopens it: single use rests on fresh hashes. */
  lemma ReissueReopens(tokens: map<string, Token>, hash: string, token: Token, at: int)
    requires token.consumedUnix == 0 && (token.expiresUnix == 0 || at <= token.expiresUnix)
    ensures ConsumeToken(tokens[hash := token], hash, at).Ok?
  {
  }

  // ----------------------------------------------------------------------------
  // Who gets in
  // ----------------------------------------------------------------------------

  /** A call that checks against the whole log, submits and hears the outcome without a pause in between. */
  ghost function Straight(s: System, c: CallId, now: int, start: Db): (r: System)
    requires c in s.calls
    ensures c in r.calls && r.calls[c].hash == s.calls[c].hash
  {
    Do(Do(Do(s, Check(c, |s.log|, now), start), Submit(c, now), start), Reply(c), start)
  }

  /**
   From every point of every run, such a call adds its voter if and only if the bucket then
   holds its token unconsumed and not past its expiry; else it has failed.
   */
  lemma EnrolledIff(steps: seq<Step>, start: Db, c: CallId, now: int)
    requires c in After(steps, start).calls && After(steps, start).calls[c].phase.Begun? && now != 0
    ensures var s := After(steps, start);
      var hash, tokens, phase := s.calls[c].hash, TokensAfter(start, s.log), Straight(s, c, now, start).calls[c].phase;
      && (phase.AddingVoter? <==>
        hash in tokens && tokens[hash].consumedUnix == 0 && now <= tokens[hash].expiresUnix)
      && (!phase.AddingVoter? ==> phase == Failed)
  {
    var s := After(steps, start);
    assert s.log[..|s.log|] == s.log;
    assert (s.log + [TokenConsume(s.calls[c].hash, now)])[..|s.log|] == s.log;
  }

  lemma AfterSnoc(steps: seq<Step>, step: Step, start: Db)
    ensures After(steps + [step], start) == Do(After(steps, start), step, start)
  {
    assert (steps + [step])[..|steps|] == steps;
  }

  /** Issuing a token and enrolling with it, without a pause. */
  function IssueAndEnroll(
      steps: seq<Step>, seen: nat, c: CallId, hash: string, expires: int, issuer: string, now: int): seq<Step>
  {
    var begun := steps + [Issue(hash, expires, issuer)] + [Enroll(c, hash)];
    begun + [Check(c, seen + 1, now)] + [Submit(c, now)] + [Reply(c)]
  }

  lemma StraightAfter(steps: seq<Step>, start: Db, c: CallId, now: int)
    requires c in After(steps, start).calls
    ensures var s := After(steps, start);
      After(steps + [Check(c, |s.log|, now)] + [Submit(c, now)] + [Reply(c)], start) == Straight(s, c, now, start)
  {
    var check, submit := Check(c, |After(steps, start).log|, now), Submit(c, now);
    AfterSnoc(steps, check, start);
    AfterSnoc(steps + [check], submit, start);
    AfterSnoc(steps + [check] + [submit], Reply(c), start);
  }

  lemma IssuedAndBegun(
      steps: seq<Step>, start: Db, c: CallId, hash: string, expires: int, issuer: string)
    requires c !in After(steps, start).calls && Fresh(start, After(steps, start).log, hash)
    ensures var s, t := After(steps, start), After(steps + [Issue(hash, expires, issuer)] + [Enroll(c, hash)], start);
      && t.log == s.log + [TokenCreate(hash, Token(expires, issuer, 0))]
      && t.calls == s.calls[c := Call(hash, Begun)]
  {
    AfterSnoc(steps, Issue(hash, expires, issuer), start);
    AfterSnoc(steps + [Issue(hash, expires, issuer)], Enroll(c, hash), start);
  }

  lemma IssuedIsAdmitted(
      begun: seq<Step>, start: Db, log: seq<Command>, c: CallId, hash: string, token: Token, now: int)
    requires After(begun, start).log == log + [TokenCreate(hash, token)]
    requires c in After(begun, start).calls && After(begun, start).calls[c] == Call(hash, Begun)
    requires now != 0 && now <= token.expiresUnix && token.consumedUnix == 0
    ensures var call := Straight(After(begun, start), c, now, start).calls[c];
      call.hash == hash && call.phase.AddingVoter?
  {
    TokensStep(start, log, TokenCreate(hash, token));
    EnrolledIff(begun, start, c, now);
  }

  /** A token issued under a fresh hash admits its first caller in time. */
  lemma FreshTokenAdmits(
      steps: seq<Step>, start: Db, c: CallId, hash: string, expires: int, issuer: string, now: int)
    requires c !in After(steps, start).calls && Fresh(start, After(steps, start).log, hash)
    requires now != 0 && now <= expires
    ensures var log := After(steps, start).log;
      var calls := After(IssueAndEnroll(steps, |log|, c, hash, expires, issuer, now), start).calls;
      c in calls && calls[c].hash == hash && calls[c].phase.AddingVoter?
  {
    var log := After(steps, start).log;
    var begun := steps + [Issue(hash, expires, issuer)] + [Enroll(c, hash)];
    IssuedAndBegun(steps, start, c, hash, expires, issuer);
    IssuedIsAdmitted(begun, start, log, c, hash, Token(expires, issuer, 0), now);
    StraightAfter(begun, start, c, now);
  }

  /** Whatever else the cluster commits in a run is in the log, and no command leaves it. */
  lemma {:induction false} OthersAreLogged(steps: seq<Step>, start: Db, i: nat)
    requires i < |steps| && steps[i].Other? && !steps[i].cmd.TokenCreate? && !steps[i].cmd.TokenConsume?
    ensures steps[i].cmd in After(steps, start).log
  {
    var n := |steps| - 1;
    var before := After(steps[..n], start);
    if i < n {
      OthersAreLogged(steps[..n], start, i);
      var k :| 0 <= k < |before.log| && before.log[k] == steps[i].cmd;
      assert After(steps, start).log[k] == before.log[k];
    } else {
      assert After(steps, start).log[|before.log|] == steps[n].cmd;
    }
  }

  lemma StepKeepsVoter(s: System, step: Step, start: Db, c: CallId)
    requires c in s.calls && s.calls[c].phase.AddingVoter?
    ensures c in Do(s, step, start).calls && Do(s, step, start).calls[c] == s.calls[c]
  {
  }

  lemma {:induction false} VoterStays(steps: seq<Step>, more: seq<Step>, start: Db, c: CallId)
    requires c in After(steps, start).calls && After(steps, start).calls[c].phase.AddingVoter?
    ensures c in After(steps + more, start).calls
    ensures After(steps + more, start).calls[c] == After(steps, start).calls[c]
  {
    if more == [] {
      assert steps + more == steps;
    } else {
      var n := |more| - 1;
      VoterStays(steps, more[..n], start, c);
      assert steps + more == (steps + more[..n]) + [more[n]];
      AfterSnoc(steps + more[..n], more[n], start);
      StepKeepsVoter(After(steps + more[..n], start), more[n], start, c);
    }
  }

  /** And after it admits nobody else, whatever happens. */
  lemma AdmitsNobodyElse(steps: seq<Step>, more: seq<Step>, start: Db, c: CallId, d: CallId)
    requires c in After(steps, start).calls && After(steps, start).calls[c].phase.AddingVoter?
    requires d != c && d in After(steps + more, start).calls
    requires After(steps + more, start).calls[d].hash == After(steps, start).calls[c].hash
    ensures !After(steps + more, start).calls[d].phase.AddingVoter?
  {
    VoterStays(steps, more, start, c);
    if After(steps + more, start).calls[d].phase.AddingVoter? {
      TokensAreSingleUse(steps + more, start, c, d);
    }
  }
}
