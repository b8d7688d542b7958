/** What the filter's decision means, whatever the order of its steps. */
module FilterProperties {
  import opened Wrappers
  import opened Strings
  import opened DomainSets
  import opened Allowlists
  import opened Profiles
  import Custom = CustomRules
  import opened FilterEngine

  // ----------------------------------------------------------------------------
  // When a query is blocked
  // ----------------------------------------------------------------------------

  ghost predicate SomeCovers(lists: seq<Blocklist>, domain: string) {
    exists i :: 0 <= i < |lists| && Covered(lists[i].apices, domain)
  }

  /** An unmanaged list that no profile refers to covers the domain. */
  ghost predicate OrphanCovers(e: Engine, lists: seq<Blocklist>, domain: string) {
    exists i :: 0 <= i < |lists| && !lists[i].managed && !Referenced(e.profiles, lists[i].id)
      && Covered(lists[i].apices, domain)
  }

  ghost predicate SomeApplies(e: Engine, pid: string, ids: seq<string>, domain: string, now: Now) {
    exists i :: 0 <= i < |ids| && ListApplies(e, pid, ids[i], domain, now)
  }

  /** One of the profile's lists applies; the default profile, if nobody defined it, has them all. */
  ghost predicate ProfileBlocks(e: Engine, pid: string, domain: string, now: Now) {
    var p := FindProfile(e.profiles, pid);
    if p.Some? then SomeApplies(e, pid, p.value.blocklists, domain, now)
    else pid == "default" && SomeCovers(e.blocklists, domain)
  }

  ghost predicate SomeProfileBlocks(e: Engine, pids: seq<string>, ip: Option<Ip>, domain: string, now: Now) {
    exists i :: 0 <= i < |pids| && !Paused(e, pids[i], ip, now) && ProfileBlocks(e, pids[i], domain, now)
  }

  ghost predicate CustomAllows(e: Engine, rx: Custom.Regexes, domain: string) {
    Custom.SomeRule(e.rules, rx, true, domain)
  }

  ghost predicate CustomBlocks(e: Engine, rx: Custom.Regexes, domain: string) {
    Custom.SomeRule(e.rules, rx, false, domain)
  }

  /** The declarative rule. */
  ghost predicate Blocks(e: Engine, rx: Custom.Regexes, query: string, c: Client, now: Now) {
    var domain, pids := Lower(query), Matched(e.profiles, c);
    && !AllPaused(e, now)
    && !CustomAllows(e, rx, domain)
    && (CustomBlocks(e, rx, domain)
      || (!Allowed(e, pids, domain, now)
        && (SomeProfileBlocks(e, pids, c.ip, domain, now) || OrphanCovers(e, e.blocklists, domain))))
  }

  lemma {:induction false} FirstCoveringIff(lists: seq<Blocklist>, domain: string)
    ensures FirstCovering(lists, domain).Some? <==> SomeCovers(lists, domain)
    ensures FirstCovering(lists, domain).Some? ==>
      FirstCovering(lists, domain).value in lists && Covered(FirstCovering(lists, domain).value.apices, domain)
  {
    if lists != [] {
      FirstCoveringIff(lists[1..], domain);
      assert forall i :: 0 < i < |lists| ==> lists[i] == lists[1..][i - 1];
    }
  }

  lemma {:induction false} OrphansCoverIff(e: Engine, lists: seq<Blocklist>, domain: string)
    ensures FirstCovering(Orphans(e, lists), domain).Some? <==> OrphanCovers(e, lists, domain)
    ensures FirstCovering(Orphans(e, lists), domain).Some? ==>
      FirstCovering(Orphans(e, lists), domain).value in lists
  {
    if lists != [] {
      OrphansCoverIff(e, lists[1..], domain);
      OrphansStep(e, lists, 0, domain);
      assert lists[0..] == lists;
      assert forall i :: 0 < i < |lists| ==> lists[i] == lists[1..][i - 1];
    }
  }

  lemma {:induction false} FirstApplyingIff(e: Engine, pid: string, ids: seq<string>, domain: string, now: Now)
    ensures FirstApplying(e, pid, ids, domain, now).Some? <==> SomeApplies(e, pid, ids, domain, now)
    ensures FirstApplying(e, pid, ids, domain, now).Some? ==>
      FirstApplying(e, pid, ids, domain, now).value in e.blocklists
      && Covered(FirstApplying(e, pid, ids, domain, now).value.apices, domain)
  {
    if ids != [] {
      FirstApplyingIff(e, pid, ids[1..], domain, now);
      FindListMember(e.blocklists, ids[0]);
      assert forall i :: 0 < i < |ids| ==> ids[i] == ids[1..][i - 1];
    }
  }

  lemma {:induction false} FindListMember(lists: seq<Blocklist>, id: string)
    ensures FindList(lists, id).Some? ==> FindList(lists, id).value in lists && FindList(lists, id).value.id == id
  {
    if lists != [] {
      FindListMember(lists[..|lists| - 1], id);
    }
  }

  lemma ProfileBlockIff(e: Engine, pid: string, domain: string, now: Now)
    ensures ProfileBlock(e, pid, domain, now).Some? <==> ProfileBlocks(e, pid, domain, now)
    ensures ProfileBlock(e, pid, domain, now).Some? ==>
      ProfileBlock(e, pid, domain, now).value in e.blocklists
      && Covered(ProfileBlock(e, pid, domain, now).value.apices, domain)
  {
    FirstCoveringIff(e.blocklists, domain);
    var p := FindProfile(e.profiles, pid);
    if p.Some? { FirstApplyingIff(e, pid, p.value.blocklists, domain, now); }
  }

  lemma {:induction false} MatchedBlockIff(e: Engine, pids: seq<string>, ip: Option<Ip>, domain: string, now: Now)
    ensures MatchedBlock(e, pids, ip, domain, now).Some? <==> SomeProfileBlocks(e, pids, ip, domain, now)
    ensures MatchedBlock(e, pids, ip, domain, now).Some? ==>
      MatchedBlock(e, pids, ip, domain, now).value in e.blocklists
      && Covered(MatchedBlock(e, pids, ip, domain, now).value.apices, domain)
  {
    if pids != [] {
      ProfileBlockIff(e, pids[0], domain, now);
      MatchedBlockIff(e, pids[1..], ip, domain, now);
      assert forall i :: 0 < i < |pids| ==> pids[i] == pids[1..][i - 1];
    }
  }

  /** The pipeline blocks a query exactly when the declarative rule does. */
  lemma BlockedIff(e: Engine, rx: Custom.Regexes, query: string, c: Client, now: Now)
    ensures Decision(e, rx, query, c, now).block <==> Blocks(e, rx, query, c, now)
  {
    var domain, pids := Lower(query), Matched(e.profiles, c);
    MatchedBlockIff(e, pids, c.ip, domain, now);
    OrphansCoverIff(e, e.blocklists, domain);
  }

  /** Whatever blocks a query is a custom rule, or a list that covers it, with its own policy. */
  lemma BlockNamesItsCause(e: Engine, rx: Custom.Regexes, query: string, c: Client, now: Now)
    requires Decision(e, rx, query, c, now).block
    ensures
      var v := Decision(e, rx, query, c, now);
      v == CUSTOM_BLOCK || exists bl :: bl in e.blocklists && Covered(bl.apices, Lower(query)) && v == BlockedBy(bl)
  {
    var domain, pids := Lower(query), Matched(e.profiles, c);
    MatchedBlockIff(e, pids, c.ip, domain, now);
    FirstCoveringIff(Orphans(e, e.blocklists), domain);
    OrphansCoverIff(e, e.blocklists, domain);
  }

  // ----------------------------------------------------------------------------
  // Allowing more never blocks more
  // ----------------------------------------------------------------------------

  predicate SameButAllow(p: Profile, q: Profile) {
    p.(allow := q.allow) == q
  }

  /** The same engine with larger allowlists: global, per profile, and shared; and more shared ones. */
  ghost predicate Enlarged(e: Engine, f: Engine) {
    && f == e.(allow := f.allow, profiles := f.profiles, shared := f.shared)
    && Within(e.allow, f.allow)
    && |e.profiles| == |f.profiles|
    && (forall i :: 0 <= i < |e.profiles| ==>
      SameButAllow(e.profiles[i], f.profiles[i]) && Within(e.profiles[i].allow, f.profiles[i].allow))
    && |e.shared| <= |f.shared|
    && (forall i :: 0 <= i < |e.shared| ==>
      Within(e.shared[i].allow, f.shared[i].allow) && e.shared[i].profileIds <= f.shared[i].profileIds)
  }

  ghost predicate SameSelectors(ps: seq<Profile>, qs: seq<Profile>) {
    |ps| == |qs| && forall i :: 0 <= i < |ps| ==> SameButAllow(ps[i], qs[i])
  }

  lemma {:induction false} SameFirstListing(ps: seq<Profile>, qs: seq<Profile>, t: Tier, key: string)
    requires SameSelectors(ps, qs)
    ensures FirstListing(ps, t, key) == FirstListing(qs, t, key)
  {
    if ps != [] {
      assert SameButAllow(ps[0], qs[0]);
      SameFirstListing(ps[1..], qs[1..], t, key);
    }
  }

  lemma {:induction false} SameByIp(ps: seq<Profile>, qs: seq<Profile>, ip: Option<Ip>, out: seq<string>)
    requires SameSelectors(ps, qs)
    ensures ByIp(ps, ip) == ByIp(qs, ip) && AddDynamic(ps, out) == AddDynamic(qs, out)
  {
    if ps != [] {
      var n := |ps| - 1;
      assert SameButAllow(ps[n], qs[n]);
      SameByIp(ps[..n], qs[..n], ip, out);
    }
  }

  lemma SameMatched(ps: seq<Profile>, qs: seq<Profile>, c: Client)
    requires SameSelectors(ps, qs)
    ensures Matched(ps, c) == Matched(qs, c)
  {
    SameFirstListing(ps, qs, ByClientId, c.clientId);
    SameFirstListing(ps, qs, ByMac, Lower(c.mac));
    SameFirstListing(ps, qs, ByHostname, c.hostname);
    SameByIp(ps, qs, c.ip, ByIp(ps, c.ip));
  }

  lemma {:induction false} FindEnlarged(ps: seq<Profile>, qs: seq<Profile>, id: string)
    requires SameSelectors(ps, qs) && forall i :: 0 <= i < |ps| ==> Within(ps[i].allow, qs[i].allow)
    ensures FindProfile(ps, id).Some? <==> FindProfile(qs, id).Some?
    ensures FindProfile(ps, id).Some? ==>
      SameButAllow(FindProfile(ps, id).value, FindProfile(qs, id).value)
      && Within(FindProfile(ps, id).value.allow, FindProfile(qs, id).value.allow)
  {
    if ps != [] {
      assert SameButAllow(ps[0], qs[0]);
      FindEnlarged(ps[1..], qs[1..], id);
    }
  }

  lemma AllowedMonotone(e: Engine, f: Engine, pids: seq<string>, domain: string, now: Now)
    requires Enlarged(e, f) && Allowed(e, pids, domain, now)
    ensures Allowed(f, pids, domain, now)
  {
    if Allows(e.allow, e.schedules, domain, now.clock) {
      AllowsMonotone(e.allow, f.allow, e.schedules, domain, now.clock);
    } else if exists pid :: pid in pids && ProfileAllows(e, pid, domain, now) {
      var pid :| pid in pids && ProfileAllows(e, pid, domain, now);
      FindEnlarged(e.profiles, f.profiles, pid);
      AllowsMonotone(FindProfile(e.profiles, pid).value.allow, FindProfile(f.profiles, pid).value.allow,
        e.schedules, domain, now.clock);
      assert ProfileAllows(f, pid, domain, now);
    } else {
      var i: nat :| SharedAllows(e, i, pids, domain, now);
      AllowsMonotone(e.shared[i].allow, f.shared[i].allow, e.schedules, domain, now.clock);
      assert SharedAllows(f, i, pids, domain, now);
    }
  }

  lemma SameBlocks(e: Engine, f: Engine, pids: seq<string>, ip: Option<Ip>, domain: string, now: Now)
    requires Enlarged(e, f)
    ensures SomeProfileBlocks(e, pids, ip, domain, now) <==> SomeProfileBlocks(f, pids, ip, domain, now)
    ensures OrphanCovers(e, e.blocklists, domain) <==> OrphanCovers(f, f.blocklists, domain)
  {
    forall pid
      ensures ProfileBlocks(e, pid, domain, now) <==> ProfileBlocks(f, pid, domain, now)
      ensures Paused(e, pid, ip, now) <==> Paused(f, pid, ip, now)
    {
      FindEnlarged(e.profiles, f.profiles, pid);
    }
    forall id ensures Referenced(e.profiles, id) <==> Referenced(f.profiles, id) {
      assert forall i :: 0 <= i < |e.profiles| ==> SameButAllow(e.profiles[i], f.profiles[i]);
    }
  }

  /** Enlarging allowlists never turns an allowed query into a blocked one. */
  lemma AllowingMoreBlocksNoMore(e: Engine, f: Engine, rx: Custom.Regexes, query: string, c: Client, now: Now)
    requires Enlarged(e, f) && !Decision(e, rx, query, c, now).block
    ensures !Decision(f, rx, query, c, now).block
  {
    var domain, pids := Lower(query), Matched(e.profiles, c);
    BlockedIff(e, rx, query, c, now);
    BlockedIff(f, rx, query, c, now);
    SameMatched(e.profiles, f.profiles, c);
    SameBlocks(e, f, pids, c.ip, domain, now);
    if Allowed(e, pids, domain, now) { AllowedMonotone(e, f, pids, domain, now); }
  }

  // ----------------------------------------------------------------------------
  // Identities and pauses
  // ----------------------------------------------------------------------------

  /** No pause of one of the profiles is scoped to addresses that tell the two apart. */
  ghost predicate PausedAlike(e: Engine, pids: seq<string>, a: Option<Ip>, b: Option<Ip>, now: Now) {
    forall i :: 0 <= i < |pids| ==>
      a == b || pids[i] !in e.profilePauses || e.profilePauses[pids[i]].clients.None?
      || now.instant >= e.profilePauses[pids[i]].until
      || ((a.Some? && a.value in e.profilePauses[pids[i]].clients.value) <==>
        (b.Some? && b.value in e.profilePauses[pids[i]].clients.value))
  }

  lemma {:induction false} SameMatchedBlock(
      e: Engine, pids: seq<string>, a: Option<Ip>, b: Option<Ip>, domain: string, now: Now)
    requires forall i :: 0 <= i < |pids| ==> (Paused(e, pids[i], a, now) <==> Paused(e, pids[i], b, now))
    ensures MatchedBlock(e, pids, a, domain, now) == MatchedBlock(e, pids, b, domain, now)
    ensures (exists pid :: pid in pids && Paused(e, pid, a, now)) <==>
      exists pid :: pid in pids && Paused(e, pid, b, now)
  {
    if pids != [] {
      SameMatchedBlock(e, pids[1..], a, b, domain, now);
    }
  }

  /**
   Two clients that differ only below the identity that decides get the same verdict, unless
   a pause scoped to addresses tells them apart.
   */
  lemma SameIdentitySameVerdict(e: Engine, rx: Custom.Regexes, query: string, c: Client, d: Client, now: Now)
    requires AlikeToDecidingTier(e.profiles, c, d) && PausedAlike(e, Matched(e.profiles, c), c.ip, d.ip, now)
    ensures Decision(e, rx, query, c, now) == Decision(e, rx, query, d, now)
  {
    BelowMakesNoDifference(e.profiles, c, d);
    SameMatchedBlock(e, Matched(e.profiles, c), c.ip, d.ip, Lower(query), now);
  }

  /** The engine without its global pause. */
  function Unpaused(e: Engine): Engine {
    e.(globalPause := GlobalPause(None, {}))
  }

  /** A global pause of all profiles lets everything through until it ends. */
  lemma PausedUntil(e: Engine, rx: Custom.Regexes, query: string, c: Client, now: Now, until: int)
    requires e.globalPause == GlobalPause(Some(until), {}) && now.instant < until
    ensures !Decision(e, rx, query, c, now).block && Decision(e, rx, query, c, now).pauseActive
  {
  }

  lemma SameButPause(e: Engine, f: Engine, pids: seq<string>, ip: Option<Ip>, domain: string, now: Now)
    requires f == Unpaused(e) && !GlobalPauseOn(e, now)
    ensures Allowed(e, pids, domain, now) <==> Allowed(f, pids, domain, now)
    ensures MatchedBlock(e, pids, ip, domain, now) == MatchedBlock(f, pids, ip, domain, now)
    ensures FirstCovering(Orphans(e, e.blocklists), domain) == FirstCovering(Orphans(f, f.blocklists), domain)
  {
    forall pid ensures Paused(e, pid, ip, now) <==> Paused(f, pid, ip, now) { }
    forall pid ensures ProfileBlock(e, pid, domain, now) == ProfileBlock(f, pid, domain, now) {
      var p := FindProfile(e.profiles, pid);
      if p.Some? { SameApplying(e, f, pid, p.value.blocklists, domain, now); }
    }
    forall pid ensures ProfileAllows(e, pid, domain, now) <==> ProfileAllows(f, pid, domain, now) { }
    forall i: nat ensures SharedAllows(e, i, pids, domain, now) <==> SharedAllows(f, i, pids, domain, now) { }
    SameWalk(e, f, pids, ip, domain, now);
    SameOrphans(e, f, e.blocklists);
  }

  lemma {:induction false} SameApplying(e: Engine, f: Engine, pid: string, ids: seq<string>, domain: string, now: Now)
    requires f == Unpaused(e)
    ensures FirstApplying(e, pid, ids, domain, now) == FirstApplying(f, pid, ids, domain, now)
  {
    if ids != [] {
      SameApplying(e, f, pid, ids[1..], domain, now);
    }
  }

  lemma {:induction false} SameWalk(e: Engine, f: Engine, pids: seq<string>, ip: Option<Ip>, domain: string, now: Now)
    requires forall pid :: Paused(e, pid, ip, now) <==> Paused(f, pid, ip, now)
    requires forall pid :: ProfileBlock(e, pid, domain, now) == ProfileBlock(f, pid, domain, now)
    ensures MatchedBlock(e, pids, ip, domain, now) == MatchedBlock(f, pids, ip, domain, now)
  {
    if pids != [] {
      SameWalk(e, f, pids[1..], ip, domain, now);
    }
  }

  lemma {:induction false} SameOrphans(e: Engine, f: Engine, lists: seq<Blocklist>)
    requires f.profiles == e.profiles
    ensures Orphans(e, lists) == Orphans(f, lists)
  {
    if lists != [] {
      SameOrphans(e, f, lists[1..]);
    }
  }

  /** From its end on, a global pause makes no difference, whatever profiles it names. */
  lemma PauseLifts(e: Engine, rx: Custom.Regexes, query: string, c: Client, now: Now)
    requires e.globalPause.until.None? || e.globalPause.until.value <= now.instant
    ensures Decision(e, rx, query, c, now) == Decision(Unpaused(e), rx, query, c, now)
  {
    var f, domain, pids := Unpaused(e), Lower(query), Matched(e.profiles, c);
    SameButPause(e, f, pids, c.ip, domain, now);
    forall pid ensures Paused(e, pid, c.ip, now) <==> Paused(f, pid, c.ip, now) { }
  }

  /** A profile's pause holds until it ends, for every client or for the addresses it names only. */
  lemma ProfilePauseHolds(e: Engine, pid: string, ip: Option<Ip>, now: Now)
    requires e.globalPause.until.None? && pid in e.profilePauses
    ensures var p := e.profilePauses[pid];
      Paused(e, pid, ip, now) <==>
        now.instant < p.until
        && (p.clients.Some? ==> exists i :: 0 <= i < |p.clients.value| && Some(p.clients.value[i]) == ip)
  {
  }

  /** A paused profile blocks nothing: without orphans a client of paused profiles only is let through. */
  lemma PausedProfilesBlockNothing(e: Engine, rx: Custom.Regexes, query: string, c: Client, now: Now)
    requires forall i :: 0 <= i < |Matched(e.profiles, c)| ==> Paused(e, Matched(e.profiles, c)[i], c.ip, now)
    requires !OrphanCovers(e, e.blocklists, Lower(query)) && !CustomBlocks(e, rx, Lower(query))
    ensures !Decision(e, rx, query, c, now).block
  {
    BlockedIff(e, rx, query, c, now);
  }

  // ----------------------------------------------------------------------------
  // Without profiles
  // ----------------------------------------------------------------------------

  /** No profiles, no registered device, and no pause that holds now. */
  predicate Bare(e: Engine, c: Client, now: Now) {
    e.profiles == [] && c.device.None? && !GlobalPauseOn(e, now) && !OwnPause(e, "default", c.ip, now)
  }

  /** A shared list names the default profile, and alone lets through what a blocklist covers. */
  ghost predicate OnlySharedAllows(e: Engine, rx: Custom.Regexes, domain: string, now: Now) {
    && !CustomAllows(e, rx, domain) && !CustomBlocks(e, rx, domain)
    && !Allows(e.allow, e.schedules, domain, now.clock)
    && (exists i: nat :: SharedAllows(e, i, ["default"], domain, now))
    && SomeCovers(e.blocklists, domain)
  }

  /** The two forms of the decision agree exactly when no shared list alone decides. */
  lemma BareAgreesIff(e: Engine, rx: Custom.Regexes, query: string, c: Client, now: Now)
    requires Bare(e, c, now)
    ensures Decision(e, rx, query, c, now) == PlainDecision(e, rx, query, now) <==>
      !OnlySharedAllows(e, rx, Lower(query), now)
  {
    var domain, pids := Lower(query), ["default"];
    BareMatchesDefault(e, c);
    FirstCoveringIff(e.blocklists, domain);
    OrphansCoverIff(e, e.blocklists, domain);
    assert !exists pid :: pid in pids && ProfileAllows(e, pid, domain, now);
    assert forall pid :: pid in pids ==> pid == "default";
    assert MatchedBlock(e, pids, c.ip, domain, now) == FirstCovering(e.blocklists, domain) by {
      assert pids[1..] == [];
    }
  }

  lemma BareMatchesDefault(e: Engine, c: Client)
    requires e.profiles == [] && c.device.None?
    ensures Matched(e.profiles, c) == ["default"]
  {
  }

  /** Such a list: it names the default profile, and allows a domain that a blocklist covers. */
  lemma SharedListMayDecideAlone(domain: string, rx: Custom.Regexes, now: Now) returns (e: Engine)
    requires domain != ""
    ensures e.profiles == [] && !GlobalPauseOn(e, now) && OnlySharedAllows(e, rx, Lower(domain), now)
  {
    var d := Lower(domain);
    var bl := Blocklist("bl", NxDomain, {d}, false);
    var sal := Shared(Allow({d}, map[]), {"default"});
    e := Engine(Allow({}, map[]), [bl], [], [], [], [], [sal], GlobalPause(None, {}), map[]);
    assert d in {d} && Under(d, d);
    assert Covered(e.blocklists[0].apices, d);
    assert "default" in ["default"] && SharedAllows(e, 0, ["default"], d, now);
  }
}
