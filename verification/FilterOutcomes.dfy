/**
 Which verdict a query gets, said of the engine's rows one by one: whose allowlist lets it
 through, which list of which profile blocks it, and which list blocks for everybody.
 */
module FilterOutcomes {
  import opened Wrappers
  import opened Strings
  import opened DomainSets
  import opened Allowlists
  import opened Schedules
  import opened Profiles
  import Custom = CustomRules
  import opened FilterEngine
  import opened FilterProperties

  // ----------------------------------------------------------------------------
  // Rows
  // ----------------------------------------------------------------------------

  /** The profile of an id is the first row with it. */
  predicate IsProfile(e: Engine, pid: string, i: int) {
    0 <= i < |e.profiles| && e.profiles[i].id == pid && forall j :: 0 <= j < i ==> e.profiles[j].id != pid
  }

  /** The blocklist of an id is the last row with it. */
  predicate IsList(e: Engine, id: string, m: int) {
    0 <= m < |e.blocklists| && e.blocklists[m].id == id
    && forall j :: m < j < |e.blocklists| ==> e.blocklists[j].id != id
  }

  predicate IsDefined(e: Engine, pid: string) {
    exists i :: 0 <= i < |e.profiles| && e.profiles[i].id == pid
  }

  lemma {:induction false} ProfileFound(ps: seq<Profile>, pid: string, i: nat)
    requires i < |ps| && ps[i].id == pid && forall j :: 0 <= j < i ==> ps[j].id != pid
    ensures FindProfile(ps, pid) == Some(ps[i])
  {
    if i > 0 { ProfileFound(ps[1..], pid, i - 1); }
  }

  lemma {:induction false} NoProfileFound(ps: seq<Profile>, pid: string)
    requires forall j :: 0 <= j < |ps| ==> ps[j].id != pid
    ensures FindProfile(ps, pid) == None
  {
    if ps != [] { NoProfileFound(ps[1..], pid); }
  }

  lemma {:induction false} FirstProfile(ps: seq<Profile>, pid: string) returns (i: nat)
    requires exists k :: 0 <= k < |ps| && ps[k].id == pid
    ensures i < |ps| && ps[i].id == pid && forall j :: 0 <= j < i ==> ps[j].id != pid
  {
    if ps[0].id == pid {
      i := 0;
    } else {
      assert exists k :: 0 <= k < |ps[1..]| && ps[1..][k].id == pid by {
        var k :| 0 <= k < |ps| && ps[k].id == pid;
        assert ps[1..][k - 1] == ps[k];
      }
      var n := FirstProfile(ps[1..], pid);
      assert forall j :: 1 <= j < n + 1 ==> ps[j] == ps[1..][j - 1];
      i := n + 1;
    }
  }

  lemma {:induction false} ListFound(lists: seq<Blocklist>, id: string, m: nat)
    requires m < |lists| && lists[m].id == id && forall j :: m < j < |lists| ==> lists[j].id != id
    ensures FindList(lists, id) == Some(lists[m])
  {
    if m < |lists| - 1 { ListFound(lists[..|lists| - 1], id, m); }
  }

  lemma {:induction false} FoundList(lists: seq<Blocklist>, id: string) returns (m: nat)
    requires FindList(lists, id).Some?
    ensures m < |lists| && lists[m].id == id && forall j :: m < j < |lists| ==> lists[j].id != id
  {
    var n := |lists| - 1;
    if lists[n].id == id {
      m := n;
    } else {
      m := FoundList(lists[..n], id);
    }
  }

  // ----------------------------------------------------------------------------
  // Allowlists
  // ----------------------------------------------------------------------------

  /** A row of a matched profile whose own allowlist lets the domain through. */
  ghost predicate RowAllows(e: Engine, pids: seq<string>, i: int, domain: string, now: Now) {
    0 <= i < |e.profiles| && e.profiles[i].id in pids && IsProfile(e, e.profiles[i].id, i)
    && Allows(e.profiles[i].allow, e.schedules, domain, now.clock)
  }

  /** A shared allowlist that names one of the profiles and lets the domain through. */
  ghost predicate SharedRowAllows(e: Engine, pids: seq<string>, i: int, domain: string, now: Now) {
    0 <= i < |e.shared| && (exists k :: 0 <= k < |pids| && pids[k] in e.shared[i].profileIds)
    && Allows(e.shared[i].allow, e.schedules, domain, now.clock)
  }

  /** Whose allowlist lets a domain through: everybody's, a matched profile's, or one shared with such a profile. */
  lemma AllowedIff(e: Engine, pids: seq<string>, domain: string, now: Now)
    ensures Allowed(e, pids, domain, now) <==>
      || Allows(e.allow, e.schedules, domain, now.clock)
      || (exists i :: RowAllows(e, pids, i, domain, now))
      || (exists i :: SharedRowAllows(e, pids, i, domain, now))
  {
    forall pid | pid in pids && ProfileAllows(e, pid, domain, now)
      ensures exists i :: RowAllows(e, pids, i, domain, now)
    {
      var i := RowOf(e, pid);
      ProfileFound(e.profiles, pid, i);
      assert RowAllows(e, pids, i, domain, now);
    }
    forall i | RowAllows(e, pids, i, domain, now) ensures ProfileAllows(e, e.profiles[i].id, domain, now) {
      ProfileFound(e.profiles, e.profiles[i].id, i);
    }
    forall i: nat | SharedAllows(e, i, pids, domain, now) ensures SharedRowAllows(e, pids, i, domain, now) {
      var pid :| pid in pids && pid in e.shared[i].profileIds;
    }
    forall i: nat | SharedRowAllows(e, pids, i, domain, now) ensures SharedAllows(e, i, pids, domain, now) {
      var k :| 0 <= k < |pids| && pids[k] in e.shared[i].profileIds;
      assert pids[k] in pids;
    }
  }

  lemma RowOf(e: Engine, pid: string) returns (i: nat)
    requires FindProfile(e.profiles, pid).Some?
    ensures IsProfile(e, pid, i)
  {
    if forall j :: 0 <= j < |e.profiles| ==> e.profiles[j].id != pid { NoProfileFound(e.profiles, pid); }
    i := FirstProfile(e.profiles, pid);
  }

  // ----------------------------------------------------------------------------
  // Blocking lists
  // ----------------------------------------------------------------------------

  /** The list in this row covers the domain, and no schedule suspends it for the profile. */
  ghost predicate InForce(e: Engine, pid: string, id: string, m: int, domain: string, now: Now) {
    IsList(e, id, m) && Covered(e.blocklists[m].apices, domain)
    && !Suppressed(e.bindings, e.schedules, pid, id, now.clock)
  }

  lemma AppliesIff(e: Engine, pid: string, id: string, domain: string, now: Now)
    ensures ListApplies(e, pid, id, domain, now) <==> exists m :: InForce(e, pid, id, m, domain, now)
    ensures forall m :: IsList(e, id, m) ==> FindList(e.blocklists, id) == Some(e.blocklists[m])
  {
    forall m | IsList(e, id, m) ensures FindList(e.blocklists, id) == Some(e.blocklists[m]) {
      ListFound(e.blocklists, id, m);
    }
    if ListApplies(e, pid, id, domain, now) {
      var m := FoundList(e.blocklists, id);
      assert InForce(e, pid, id, m, domain, now);
    }
  }

  /** The j-th list of the profile in row i is the first of its lists in force, and it is in row m. */
  ghost predicate IsFirstInForce(e: Engine, pid: string, i: int, j: int, m: int, domain: string, now: Now) {
    && IsProfile(e, pid, i)
    && 0 <= j < |e.profiles[i].blocklists| && InForce(e, pid, e.profiles[i].blocklists[j], m, domain, now)
    && forall k, n :: 0 <= k < j ==> !InForce(e, pid, e.profiles[i].blocklists[k], n, domain, now)
  }

  lemma {:induction false} FirstOfIds(
      e: Engine, pid: string, ids: seq<string>, j: nat, m: int, domain: string, now: Now)
    requires j < |ids| && InForce(e, pid, ids[j], m, domain, now)
    requires forall k, n :: 0 <= k < j ==> !InForce(e, pid, ids[k], n, domain, now)
    ensures FirstApplying(e, pid, ids, domain, now) == Some(e.blocklists[m])
  {
    AppliesIff(e, pid, ids[0], domain, now);
    if j > 0 {
      assert forall k, n :: 0 <= k < j - 1 ==> !InForce(e, pid, ids[1..][k], n, domain, now) by {
        assert forall k :: 0 <= k < j - 1 ==> ids[1..][k] == ids[k + 1];
      }
      FirstOfIds(e, pid, ids[1..], j - 1, m, domain, now);
    }
  }

  lemma ProfileBlocksBy(e: Engine, pid: string, i: int, j: int, m: int, domain: string, now: Now)
    requires IsFirstInForce(e, pid, i, j, m, domain, now)
    ensures ProfileBlock(e, pid, domain, now) == Some(e.blocklists[m])
  {
    ProfileFound(e.profiles, pid, i);
    FirstOfIds(e, pid, e.profiles[i].blocklists, j, m, domain, now);
  }

  /** The profile has no list in force. */
  ghost predicate BlocksNothing(e: Engine, pid: string, domain: string, now: Now) {
    (forall i, j, m :: IsProfile(e, pid, i) && 0 <= j < |e.profiles[i].blocklists| ==>
      !InForce(e, pid, e.profiles[i].blocklists[j], m, domain, now))
    && (pid == "default" && !IsDefined(e, pid) ==> !SomeCovers(e.blocklists, domain))
  }

  lemma NothingBlockedBy(e: Engine, pid: string, domain: string, now: Now)
    requires BlocksNothing(e, pid, domain, now)
    ensures ProfileBlock(e, pid, domain, now) == None
  {
    if IsDefined(e, pid) {
      var i := FirstProfile(e.profiles, pid);
      ProfileFound(e.profiles, pid, i);
      var ids := e.profiles[i].blocklists;
      forall k | 0 <= k < |ids| ensures !ListApplies(e, pid, ids[k], domain, now) {
        AppliesIff(e, pid, ids[k], domain, now);
        assert forall m :: !InForce(e, pid, e.profiles[i].blocklists[k], m, domain, now);
      }
      FirstApplyingIff(e, pid, ids, domain, now);
    } else {
      NoProfileFound(e.profiles, pid);
      FirstCoveringIff(e.blocklists, domain);
    }
  }

  /** The profile is paused for the address, or has no list in force. */
  ghost predicate PassesOver(e: Engine, pid: string, ip: Option<Ip>, domain: string, now: Now) {
    Paused(e, pid, ip, now) || BlocksNothing(e, pid, domain, now)
  }

  lemma {:induction false} FirstUnpaused(
      e: Engine, pids: seq<string>, k: nat, ip: Option<Ip>, domain: string, now: Now)
    requires k <= |pids| && forall h :: 0 <= h < k ==> PassesOver(e, pids[h], ip, domain, now)
    ensures MatchedBlock(e, pids, ip, domain, now) == MatchedBlock(e, pids[k..], ip, domain, now)
  {
    if k > 0 {
      if !Paused(e, pids[0], ip, now) { NothingBlockedBy(e, pids[0], domain, now); }
      assert pids[1..][k - 1..] == pids[k..];
      FirstUnpaused(e, pids[1..], k - 1, ip, domain, now);
    } else {
      assert pids[0..] == pids;
    }
  }

  /** The query gets as far as the blocklists. */
  ghost predicate Unsettled(e: Engine, rx: Custom.Regexes, domain: string, pids: seq<string>, now: Now) {
    !AllPaused(e, now) && !CustomAllows(e, rx, domain) && !CustomBlocks(e, rx, domain)
    && !Allowed(e, pids, domain, now)
  }

  /**
   The first list in force of the first matched profile that is neither paused nor without one blocks
   the query, under its own name and policy, whatever other lists cover the domain.
   */
  lemma FirstListDecides(
      e: Engine, rx: Custom.Regexes, query: string, c: Client, now: Now, k: nat, i: int, j: int, m: int)
    requires Unsettled(e, rx, Lower(query), Matched(e.profiles, c), now)
    requires k < |Matched(e.profiles, c)|
    requires forall h :: 0 <= h < k ==> PassesOver(e, Matched(e.profiles, c)[h], c.ip, Lower(query), now)
    requires !Paused(e, Matched(e.profiles, c)[k], c.ip, now)
    requires IsFirstInForce(e, Matched(e.profiles, c)[k], i, j, m, Lower(query), now)
    ensures Decision(e, rx, query, c, now) == Verdict(true, e.blocklists[m].policy, e.blocklists[m].id, false)
  {
    var domain, pids := Lower(query), Matched(e.profiles, c);
    FirstUnpaused(e, pids, k, c.ip, domain, now);
    ProfileBlocksBy(e, pids[k], i, j, m, domain, now);
    assert pids[k..][0] == pids[k];
  }

  /** The list in this row is managed by nobody and no profile names it. */
  predicate IsOrphan(e: Engine, m: int) {
    0 <= m < |e.blocklists| && !e.blocklists[m].managed
    && forall p :: p in e.profiles ==> e.blocklists[m].id !in p.blocklists
  }

  lemma OrphanIff(e: Engine, m: int)
    requires 0 <= m < |e.blocklists|
    ensures IsOrphan(e, m) <==> !e.blocklists[m].managed && !Referenced(e.profiles, e.blocklists[m].id)
  {
    forall p | p in e.profiles && e.blocklists[m].id in p.blocklists
      ensures Referenced(e.profiles, e.blocklists[m].id)
    {
      var i :| 0 <= i < |e.profiles| && e.profiles[i] == p;
    }
  }

  lemma {:induction false} FirstOrphan(e: Engine, lists: seq<Blocklist>, m: nat, domain: string)
    requires m < |lists| && !lists[m].managed && !Referenced(e.profiles, lists[m].id)
    requires Covered(lists[m].apices, domain)
    requires forall n :: 0 <= n < m ==>
      lists[n].managed || Referenced(e.profiles, lists[n].id) || !Covered(lists[n].apices, domain)
    ensures FirstCovering(Orphans(e, lists), domain) == Some(lists[m])
  {
    OrphansStep(e, lists, 0, domain);
    assert lists[0..] == lists;
    if m > 0 { FirstOrphan(e, lists[1..], m - 1, domain); }
  }

  /** If no matched profile blocks, the first orphan that covers the domain does, for every client. */
  lemma OrphanDecides(e: Engine, rx: Custom.Regexes, query: string, c: Client, now: Now, m: nat)
    requires Unsettled(e, rx, Lower(query), Matched(e.profiles, c), now)
    requires forall h :: 0 <= h < |Matched(e.profiles, c)| ==>
      PassesOver(e, Matched(e.profiles, c)[h], c.ip, Lower(query), now)
    requires IsOrphan(e, m) && Covered(e.blocklists[m].apices, Lower(query))
    requires forall n :: 0 <= n < m ==> !IsOrphan(e, n) || !Covered(e.blocklists[n].apices, Lower(query))
    ensures Decision(e, rx, query, c, now) == Verdict(true, e.blocklists[m].policy, e.blocklists[m].id, false)
  {
    var domain, pids := Lower(query), Matched(e.profiles, c);
    FirstUnpaused(e, pids, |pids|, c.ip, domain, now);
    forall n | 0 <= n <= m ensures
      IsOrphan(e, n) <==> !e.blocklists[n].managed && !Referenced(e.profiles, e.blocklists[n].id)
    {
      OrphanIff(e, n);
    }
    FirstOrphan(e, e.blocklists, m, domain);
  }

  /** If no orphan covers it either, the query is let through; the answer says whether a matched profile is paused. */
  lemma NothingDecides(e: Engine, rx: Custom.Regexes, query: string, c: Client, now: Now)
    requires Unsettled(e, rx, Lower(query), Matched(e.profiles, c), now)
    requires forall h :: 0 <= h < |Matched(e.profiles, c)| ==>
      PassesOver(e, Matched(e.profiles, c)[h], c.ip, Lower(query), now)
    requires forall n :: 0 <= n < |e.blocklists| ==> !IsOrphan(e, n) || !Covered(e.blocklists[n].apices, Lower(query))
    ensures var v, pids := Decision(e, rx, query, c, now), Matched(e.profiles, c);
      && !v.block && v.list == ""
      && (v.pauseActive <==> exists h :: 0 <= h < |pids| && Paused(e, pids[h], c.ip, now))
  {
    var domain, pids := Lower(query), Matched(e.profiles, c);
    FirstUnpaused(e, pids, |pids|, c.ip, domain, now);
    forall n | 0 <= n < |e.blocklists| ensures
      IsOrphan(e, n) <==> !e.blocklists[n].managed && !Referenced(e.profiles, e.blocklists[n].id)
    {
      OrphanIff(e, n);
    }
    OrphansCoverIff(e, e.blocklists, domain);
    assert forall h :: 0 <= h < |pids| ==> pids[h] in pids;
  }

  /** A custom allow rule wins over a block rule, and either over all the lists, unless all profiles are paused. */
  lemma CustomDecides(e: Engine, rx: Custom.Regexes, query: string, c: Client, now: Now)
    requires e.globalPause.until.None? || e.globalPause.profileIds != {}
    requires CustomAllows(e, rx, Lower(query)) || CustomBlocks(e, rx, Lower(query))
    ensures var v := Decision(e, rx, query, c, now);
      v.list == "custom_rule" && (v.block <==> !CustomAllows(e, rx, Lower(query))) && !v.pauseActive
      && v.policy.Inherit?
  {
  }

  /** What an allowlist lets through is let through, unless a custom rule has decided. */
  lemma AllowlistDecides(e: Engine, rx: Custom.Regexes, query: string, c: Client, now: Now)
    requires Allowed(e, Matched(e.profiles, c), Lower(query), now) && !CustomBlocks(e, rx, Lower(query))
    ensures !Decision(e, rx, query, c, now).block
  {
  }

  /** Without a client the first list that covers the domain blocks, unless a rule or the global allowlist decides. */
  lemma PlainListDecides(e: Engine, rx: Custom.Regexes, query: string, now: Now, m: nat)
    requires !CustomAllows(e, rx, Lower(query)) && !CustomBlocks(e, rx, Lower(query))
    requires !Allows(e.allow, e.schedules, Lower(query), now.clock)
    requires m < |e.blocklists| && Covered(e.blocklists[m].apices, Lower(query))
    requires forall n :: 0 <= n < m ==> !Covered(e.blocklists[n].apices, Lower(query))
    ensures PlainDecision(e, rx, query, now) == Verdict(true, e.blocklists[m].policy, e.blocklists[m].id, false)
  {
    FirstCovers(e.blocklists, Lower(query), m);
  }

  lemma {:induction false} FirstCovers(lists: seq<Blocklist>, domain: string, m: nat)
    requires m < |lists| && Covered(lists[m].apices, domain)
    requires forall n :: 0 <= n < m ==> !Covered(lists[n].apices, domain)
    ensures FirstCovering(lists, domain) == Some(lists[m])
  {
    if m > 0 { FirstCovers(lists[1..], domain, m - 1); }
  }

  /** A global pause that names profiles pauses those, until it ends; it pauses no other. */
  lemma NamedPauseHolds(e: Engine, pid: string, ip: Option<Ip>, now: Now, until: int)
    requires e.globalPause.until == Some(until) && pid !in e.profilePauses
    ensures Paused(e, pid, ip, now) <==> now.instant < until && pid in e.globalPause.profileIds
  {
  }
}
