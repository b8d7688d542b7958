/**
 The filter: the precedence pipeline that decides whether a client's query is blocked,
 and the declarative rule it amounts to.
 */
module FilterEngine {
  import opened Wrappers
  import opened Strings
  import opened DomainSets
  import opened Schedules
  import opened Allowlists
  import opened Profiles
  import Custom = CustomRules

  datatype Policy = Inherit | NxDomain | NullAddress | NoData | Redirect

  datatype Blocklist = Blocklist(id: string, policy: Policy, apices: set<string>, managed: bool)

  datatype Shared = Shared(allow: Allow, profileIds: set<string>)

  /** A pause until some instant, or none; no profiles named means all of them. */
  datatype GlobalPause = GlobalPause(until: Option<int>, profileIds: set<string>)

  /** clients is None when the whole profile is paused, else the addresses that are. */
  datatype ProfilePause = ProfilePause(until: int, clients: Option<seq<Ip>>)

  datatype Engine = Engine(
    allow: Allow, blocklists: seq<Blocklist>, rules: seq<Custom.Rule>, profiles: seq<Profile>,
    schedules: seq<Schedule>, bindings: seq<Binding>, shared: seq<Shared>,
    globalPause: GlobalPause, profilePauses: map<string, ProfilePause>)

  datatype Now = Now(instant: int, clock: Clock)

  /** list: the list that blocks, or "custom_rule". */
  datatype Verdict = Verdict(block: bool, policy: Policy, list: string, pauseActive: bool)

  const ALLOW := Verdict(false, Inherit, "", false)
  const CUSTOM_ALLOW := Verdict(false, Inherit, "custom_rule", false)
  const CUSTOM_BLOCK := Verdict(true, Inherit, "custom_rule", false)

  function BlockedBy(bl: Blocklist): Verdict {
    Verdict(true, bl.policy, bl.id, false)
  }

  // ----------------------------------------------------------------------------
  // Pauses
  // ----------------------------------------------------------------------------

  predicate GlobalPauseOn(e: Engine, now: Now) {
    e.globalPause.until.Some? && now.instant < e.globalPause.until.value
  }

  predicate AllPaused(e: Engine, now: Now) {
    GlobalPauseOn(e, now) && e.globalPause.profileIds == {}
  }

  /** A pause scoped to addresses holds for those only, even if there are none. */
  predicate OwnPause(e: Engine, pid: string, ip: Option<Ip>, now: Now) {
    pid in e.profilePauses && now.instant < e.profilePauses[pid].until
    && (e.profilePauses[pid].clients.None? || (ip.Some? && ip.value in e.profilePauses[pid].clients.value))
  }

  predicate Paused(e: Engine, pid: string, ip: Option<Ip>, now: Now) {
    OwnPause(e, pid, ip, now) || (GlobalPauseOn(e, now) && pid in e.globalPause.profileIds)
  }

  method IsPaused(e: Engine, pid: string, ip: Option<Ip>, now: Now) returns (paused: bool)
    ensures paused <==> Paused(e, pid, ip, now)
  {
    paused := false;
    if pid in e.profilePauses && now.instant < e.profilePauses[pid].until {
      var clients := e.profilePauses[pid].clients;
      if clients.Some? {
        var i := 0;
        while i < |clients.value|
          invariant 0 <= i <= |clients.value| && !paused
          invariant forall j :: 0 <= j < i ==> Some(clients.value[j]) != ip
        {
          if Some(clients.value[i]) == ip {
            paused := true;
            break;
          }
          i := i + 1;
        }
      } else {
        paused := true;
      }
    }
    if !paused && GlobalPauseOn(e, now) && pid in e.globalPause.profileIds {
      paused := true;
    }
  }

  // ----------------------------------------------------------------------------
  // Allowing
  // ----------------------------------------------------------------------------

  /** The first profile with the id. */
  function FindProfile(profiles: seq<Profile>, id: string): Option<Profile> {
    if profiles == [] then None
    else if profiles[0].id == id then Some(profiles[0])
    else FindProfile(profiles[1..], id)
  }

  ghost predicate ProfileAllows(e: Engine, pid: string, domain: string, now: Now) {
    FindProfile(e.profiles, pid).Some?
    && Allows(FindProfile(e.profiles, pid).value.allow, e.schedules, domain, now.clock)
  }

  ghost predicate SharedAllows(e: Engine, i: nat, pids: seq<string>, domain: string, now: Now) {
    i < |e.shared| && (exists pid :: pid in pids && pid in e.shared[i].profileIds)
    && Allows(e.shared[i].allow, e.schedules, domain, now.clock)
  }

  /** Some allowlist lets the domain through: the global one, a matched profile's, or one shared with it. */
  ghost predicate Allowed(e: Engine, pids: seq<string>, domain: string, now: Now) {
    Allows(e.allow, e.schedules, domain, now.clock)
    || (exists pid :: pid in pids && ProfileAllows(e, pid, domain, now))
    || (exists i: nat :: SharedAllows(e, i, pids, domain, now))
  }

  method Find(profiles: seq<Profile>, id: string) returns (r: Option<Profile>)
    ensures r == FindProfile(profiles, id)
  {
    var i := 0;
    while i < |profiles|
      invariant 0 <= i <= |profiles| && FindProfile(profiles, id) == FindProfile(profiles[i..], id)
    {
      assert profiles[i..][1..] == profiles[i + 1..];
      if profiles[i].id == id {
        return Some(profiles[i]);
      }
      i := i + 1;
    }
    return None;
  }

  method CheckProfiles(e: Engine, pids: seq<string>, domain: string, now: Now) returns (r: bool)
    ensures r <==> exists pid :: pid in pids && ProfileAllows(e, pid, domain, now)
  {
    var i := 0;
    while i < |pids|
      invariant 0 <= i <= |pids|
      invariant forall j :: 0 <= j < i ==> !ProfileAllows(e, pids[j], domain, now)
    {
      var p := Find(e.profiles, pids[i]);
      if p.Some? {
        var allows := CheckAllow(p.value.allow, e.schedules, domain, now.clock);
        if allows {
          assert pids[i] in pids && ProfileAllows(e, pids[i], domain, now);
          return true;
        }
      }
      i := i + 1;
    }
    return false;
  }

  method CheckShared(e: Engine, pids: seq<string>, domain: string, now: Now) returns (r: bool)
    ensures r <==> exists i: nat :: SharedAllows(e, i, pids, domain, now)
  {
    var i := 0;
    while i < |e.shared|
      invariant 0 <= i <= |e.shared|
      invariant forall k: nat :: k < i ==> !SharedAllows(e, k, pids, domain, now)
    {
      var j := 0;
      while j < |pids|
        invariant 0 <= j <= |pids|
        invariant forall k :: 0 <= k < j ==> pids[k] !in e.shared[i].profileIds
      {
        if pids[j] in e.shared[i].profileIds {
          var allows := CheckAllow(e.shared[i].allow, e.schedules, domain, now.clock);
          if allows {
            assert SharedAllows(e, i, pids, domain, now);
            return true;
          }
          break;
        }
        j := j + 1;
      }
      i := i + 1;
    }
    return false;
  }

  // ----------------------------------------------------------------------------
  // Blocking
  // ----------------------------------------------------------------------------

  /** The first list in the order given that covers the domain. */
  ghost function FirstCovering(lists: seq<Blocklist>, domain: string): Option<Blocklist> {
    if lists == [] then None
    else if Covered(lists[0].apices, domain) then Some(lists[0])
    else FirstCovering(lists[1..], domain)
  }

  predicate Referenced(profiles: seq<Profile>, id: string) {
    exists i :: 0 <= i < |profiles| && id in profiles[i].blocklists
  }

  /** The lists that no profile refers to, without the managed ones: they apply to everybody. */
  function Orphans(e: Engine, lists: seq<Blocklist>): seq<Blocklist> {
    if lists == [] then []
    else
      (if lists[0].managed || Referenced(e.profiles, lists[0].id) then [] else [lists[0]]) + Orphans(e, lists[1..])
  }

  /** Of several lists with one id the last counts. */
  function FindList(lists: seq<Blocklist>, id: string): Option<Blocklist> {
    if lists == [] then None
    else if lists[|lists| - 1].id == id then Some(lists[|lists| - 1])
    else FindList(lists[..|lists| - 1], id)
  }

  ghost predicate ListApplies(e: Engine, pid: string, id: string, domain: string, now: Now) {
    FindList(e.blocklists, id).Some? && Covered(FindList(e.blocklists, id).value.apices, domain)
    && !Suppressed(e.bindings, e.schedules, pid, id, now.clock)
  }

  ghost function FirstApplying(e: Engine, pid: string, ids: seq<string>, domain: string, now: Now): Option<Blocklist> {
    if ids == [] then None
    else if ListApplies(e, pid, ids[0], domain, now) then FindList(e.blocklists, ids[0])
    else FirstApplying(e, pid, ids[1..], domain, now)
  }

  /** The list by which a profile blocks; the default profile, if nobody defined it, uses them all. */
  ghost function ProfileBlock(e: Engine, pid: string, domain: string, now: Now): Option<Blocklist> {
    var p := FindProfile(e.profiles, pid);
    if p.Some? then FirstApplying(e, pid, p.value.blocklists, domain, now)
    else if pid == "default" then FirstCovering(e.blocklists, domain)
    else None
  }

  /** The first matched profile that is not paused and blocks. */
  ghost function MatchedBlock(
      e: Engine, pids: seq<string>, ip: Option<Ip>, domain: string, now: Now): Option<Blocklist>
  {
    if pids == [] then None
    else
      var first := if Paused(e, pids[0], ip, now) then None else ProfileBlock(e, pids[0], domain, now);
      if first.Some? then first else MatchedBlock(e, pids[1..], ip, domain, now)
  }

  ghost function Block(e: Engine, pids: seq<string>, ip: Option<Ip>, domain: string, now: Now): Option<Blocklist> {
    var m := MatchedBlock(e, pids, ip, domain, now);
    if m.Some? then m else FirstCovering(Orphans(e, e.blocklists), domain)
  }

  method WalkGlobal(lists: seq<Blocklist>, domain: string) returns (r: Option<Blocklist>)
    ensures r == FirstCovering(lists, domain)
  {
    var i := 0;
    while i < |lists|
      invariant 0 <= i <= |lists| && FirstCovering(lists, domain) == FirstCovering(lists[i..], domain)
    {
      assert lists[i..][1..] == lists[i + 1..];
      var covers := Matches(lists[i].apices, domain);
      if covers {
        return Some(lists[i]);
      }
      i := i + 1;
    }
    return None;
  }

  method IsReferenced(profiles: seq<Profile>, id: string) returns (r: bool)
    ensures r <==> Referenced(profiles, id)
  {
    var i := 0;
    while i < |profiles|
      invariant 0 <= i <= |profiles|
      invariant forall k :: 0 <= k < i ==> id !in profiles[k].blocklists
    {
      var j := 0;
      while j < |profiles[i].blocklists|
        invariant 0 <= j <= |profiles[i].blocklists|
        invariant forall k :: 0 <= k < j ==> profiles[i].blocklists[k] != id
      {
        if profiles[i].blocklists[j] == id {
          return true;
        }
        j := j + 1;
      }
      i := i + 1;
    }
    return false;
  }

  method WalkOrphans(e: Engine, domain: string) returns (r: Option<Blocklist>)
    ensures r == FirstCovering(Orphans(e, e.blocklists), domain)
  {
    var lists := e.blocklists;
    var i := 0;
    while i < |lists|
      invariant 0 <= i <= |lists|
      invariant FirstCovering(Orphans(e, lists), domain) == FirstCovering(Orphans(e, lists[i..]), domain)
    {
      OrphansStep(e, lists, i, domain);
      var bl := lists[i];
      i := i + 1;
      if bl.managed {
        continue;
      }
      var referenced := IsReferenced(e.profiles, bl.id);
      if referenced {
        continue;
      }
      var covers := Matches(bl.apices, domain);
      if covers {
        return Some(bl);
      }
    }
    return None;
  }

  lemma OrphansStep(e: Engine, lists: seq<Blocklist>, i: nat, domain: string)
    requires i < |lists|
    ensures FirstCovering(Orphans(e, lists[i..]), domain) ==
      if !lists[i].managed && !Referenced(e.profiles, lists[i].id) && Covered(lists[i].apices, domain)
      then Some(lists[i])
      else FirstCovering(Orphans(e, lists[i + 1..]), domain)
  {
    assert lists[i..][1..] == lists[i + 1..];
    assert ([lists[i]] + Orphans(e, lists[i + 1..]))[1..] == Orphans(e, lists[i + 1..]);
    assert [] + Orphans(e, lists[i + 1..]) == Orphans(e, lists[i + 1..]);
  }

  method FindBlocklist(lists: seq<Blocklist>, id: string) returns (r: Option<Blocklist>)
    ensures r == FindList(lists, id)
  {
    r := None;
    var i := 0;
    while i < |lists|
      invariant 0 <= i <= |lists| && r == FindList(lists[..i], id)
    {
      assert lists[..i + 1][..i] == lists[..i];
      if lists[i].id == id { r := Some(lists[i]); }
      i := i + 1;
    }
    assert lists[..i] == lists;
  }

  method WalkProfile(e: Engine, pid: string, ids: seq<string>, domain: string, now: Now) returns (r: Option<Blocklist>)
    ensures r == FirstApplying(e, pid, ids, domain, now)
  {
    var i := 0;
    while i < |ids|
      invariant 0 <= i <= |ids|
      invariant FirstApplying(e, pid, ids, domain, now) == FirstApplying(e, pid, ids[i..], domain, now)
    {
      assert ids[i..][1..] == ids[i + 1..];
      var bl := FindBlocklist(e.blocklists, ids[i]);
      if bl.Some? {
        var covers := Matches(bl.value.apices, domain);
        if covers {
          var res := EvaluateSchedules(e.bindings, e.schedules, pid, ids[i], now.clock);
          if res != Suppresses {
            return bl;
          }
        }
      }
      i := i + 1;
    }
    return None;
  }

  method WalkMatched(e: Engine, pids: seq<string>, ip: Option<Ip>, domain: string, now: Now)
    returns (r: Option<Blocklist>, wasPaused: bool)
    ensures r == MatchedBlock(e, pids, ip, domain, now)
    ensures r.None? ==> (wasPaused <==> exists pid :: pid in pids && Paused(e, pid, ip, now))
  {
    wasPaused := false;
    var i := 0;
    while i < |pids|
      invariant 0 <= i <= |pids|
      invariant MatchedBlock(e, pids, ip, domain, now) == MatchedBlock(e, pids[i..], ip, domain, now)
      invariant wasPaused <==> exists j :: 0 <= j < i && Paused(e, pids[j], ip, now)
    {
      assert pids[i..][1..] == pids[i + 1..];
      var pid := pids[i];
      i := i + 1;
      var paused := IsPaused(e, pid, ip, now);
      if paused {
        wasPaused := true;
        continue;
      }
      var p := Find(e.profiles, pid);
      r := None;
      if p.Some? {
        r := WalkProfile(e, pid, p.value.blocklists, domain, now);
      } else if pid == "default" {
        r := WalkGlobal(e.blocklists, domain);
      }
      if r.Some? {
        return r, wasPaused;
      }
    }
    return None, wasPaused;
  }

  // ----------------------------------------------------------------------------
  // The decision
  // ----------------------------------------------------------------------------

  ghost function AfterAllow(e: Engine, pids: seq<string>, ip: Option<Ip>, domain: string, now: Now): Verdict {
    var b := Block(e, pids, ip, domain, now);
    if b.Some? then BlockedBy(b.value)
    else Verdict(false, Inherit, "", exists pid :: pid in pids && Paused(e, pid, ip, now))
  }

  ghost function Decision(e: Engine, rx: Custom.Regexes, query: string, c: Client, now: Now): Verdict {
    var domain, pids := Lower(query), Matched(e.profiles, c);
    if AllPaused(e, now) then ALLOW.(pauseActive := true)
    else if Custom.SomeRule(e.rules, rx, true, domain) then CUSTOM_ALLOW
    else if Custom.SomeRule(e.rules, rx, false, domain) then CUSTOM_BLOCK
    else if Allowed(e, pids, domain, now) then ALLOW
    else AfterAllow(e, pids, c.ip, domain, now)
  }

  method EvaluateForClientID(e: Engine, rx: Custom.Regexes, query: string, c: Client, now: Now) returns (r: Verdict)
    ensures r == Decision(e, rx, query, c, now)
  {
    var domain := Lower(query);
    if AllPaused(e, now) {
      return ALLOW.(pauseActive := true);
    }
    var matched, isAllow := Custom.Evaluate(e.rules, rx, domain);
    if matched {
      return if isAllow then CUSTOM_ALLOW else CUSTOM_BLOCK;
    }
    var allows := CheckAllow(e.allow, e.schedules, domain, now.clock);
    if allows {
      return ALLOW;
    }
    var pids := ProfilesMatching(e.profiles, c);
    allows := CheckProfiles(e, pids, domain, now);
    if allows {
      return ALLOW;
    }
    allows := CheckShared(e, pids, domain, now);
    if allows {
      return ALLOW;
    }
    var bl, wasPaused := WalkMatched(e, pids, c.ip, domain, now);
    if bl.None? {
      bl := WalkOrphans(e, domain);
    }
    if bl.Some? {
      return BlockedBy(bl.value);
    }
    r := Verdict(false, Inherit, "", wasPaused);
  }

  /** The form for queries without a client. */
  ghost function PlainDecision(e: Engine, rx: Custom.Regexes, query: string, now: Now): Verdict {
    var domain := Lower(query);
    if Custom.SomeRule(e.rules, rx, true, domain) then CUSTOM_ALLOW
    else if Custom.SomeRule(e.rules, rx, false, domain) then CUSTOM_BLOCK
    else if Allows(e.allow, e.schedules, domain, now.clock) then ALLOW
    else
      var b := FirstCovering(e.blocklists, domain);
      if b.Some? then BlockedBy(b.value) else ALLOW
  }

  method Evaluate(e: Engine, rx: Custom.Regexes, query: string, now: Now) returns (r: Verdict)
    ensures r == PlainDecision(e, rx, query, now)
  {
    var domain := Lower(query);
    var matched, isAllow := Custom.Evaluate(e.rules, rx, domain);
    if matched {
      return if isAllow then CUSTOM_ALLOW else CUSTOM_BLOCK;
    }
    var allows := CheckAllow(e.allow, e.schedules, domain, now.clock);
    if allows {
      return ALLOW;
    }
    var bl := WalkGlobal(e.blocklists, domain);
    r := if bl.Some? then BlockedBy(bl.value) else ALLOW;
  }
}
