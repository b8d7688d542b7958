/** Which profiles a client belongs to: tiers of identifiers, then addresses. */
module Profiles {
  import opened Wrappers
  import opened Strings
  import opened Allowlists

  /** Addresses as numbers; a block of addresses is a range of them. */
  type Ip = nat
  datatype Cidr = Cidr(first: Ip, last: Ip)

  datatype Profile = Profile(
    id: string, blocklists: seq<string>, allow: Allow, ips: seq<Ip>, cidrs: seq<Cidr>,
    clientIds: seq<string>, macs: seq<string>, hostnames: seq<string>, blockDynamic: bool)

  /**
   A client: what its query carries, the profile the device registry has for it, and
   whether its lease is dynamic.
   */
  datatype Client = Client(
    ip: Option<Ip>, clientId: string, mac: string, hostname: string, device: Option<string>, dynamicLease: bool)

  datatype Tier = ByClientId | ByMac | ByHostname

  function Keys(p: Profile, t: Tier): seq<string> {
    match t
    case ByClientId => p.clientIds
    case ByMac => p.macs
    case ByHostname => p.hostnames
  }

  /** The first profile that lists the key. */
  function FirstListing(profiles: seq<Profile>, t: Tier, key: string): Option<string> {
    if profiles == [] then None
    else if key in Keys(profiles[0], t) then Some(profiles[0].id)
    else FirstListing(profiles[1..], t, key)
  }

  predicate InBlock(cidrs: seq<Cidr>, ip: Ip) {
    exists i :: 0 <= i < |cidrs| && cidrs[i].first <= ip <= cidrs[i].last
  }

  predicate HasNoSelectors(p: Profile) {
    p.ips == [] && p.cidrs == [] && p.clientIds == [] && p.macs == [] && p.hostnames == []
  }

  /** The default profile takes clients without an address, and every client if it selects none. */
  predicate MatchesIp(p: Profile, ip: Option<Ip>) {
    if ip.None? then p.id == "default"
    else ip.value in p.ips || InBlock(p.cidrs, ip.value) || (p.id == "default" && HasNoSelectors(p))
  }

  function ByIp(profiles: seq<Profile>, ip: Option<Ip>): seq<string> {
    if profiles == [] then []
    else
      var n := |profiles| - 1;
      ByIp(profiles[..n], ip) + if MatchesIp(profiles[n], ip) then [profiles[n].id] else []
  }

  /** The profiles for dynamic clients that are not in the list yet are added to it. */
  function AddDynamic(profiles: seq<Profile>, out: seq<string>): seq<string> {
    if profiles == [] then out
    else
      var n := |profiles| - 1;
      var before := AddDynamic(profiles[..n], out);
      if profiles[n].blockDynamic && profiles[n].id !in before then before + [profiles[n].id] else before
  }

  function ByAddress(profiles: seq<Profile>, c: Client): seq<string> {
    var out := ByIp(profiles, c.ip);
    if c.dynamicLease then AddDynamic(profiles, out) else out
  }

  function Matched(profiles: seq<Profile>, c: Client): (r: seq<string>)
    ensures r != []
  {
    var id := if c.clientId != "" then FirstListing(profiles, ByClientId, c.clientId) else None;
    var mac := if c.mac != "" then FirstListing(profiles, ByMac, Lower(c.mac)) else None;
    var host := if c.hostname != "" then FirstListing(profiles, ByHostname, c.hostname) else None;
    if c.device.Some? then [c.device.value]
    else if id.Some? then [id.value]
    else if mac.Some? then [mac.value]
    else if host.Some? then [host.value]
    else if ByAddress(profiles, c) != [] then ByAddress(profiles, c)
    else ["default"]
  }

  method FindListing(profiles: seq<Profile>, t: Tier, key: string) returns (r: Option<string>)
    ensures r == FirstListing(profiles, t, key)
  {
    var i := 0;
    while i < |profiles|
      invariant 0 <= i <= |profiles|
      invariant FirstListing(profiles, t, key) == FirstListing(profiles[i..], t, key)
    {
      assert profiles[i..][1..] == profiles[i + 1..];
      var keys := Keys(profiles[i], t);
      var j := 0;
      while j < |keys|
        invariant 0 <= j <= |keys| && key !in keys[..j]
      {
        if keys[j] == key {
          return Some(profiles[i].id);
        }
        assert keys[..j + 1] == keys[..j] + [keys[j]];
        j := j + 1;
      }
      assert keys[..j] == keys;
      i := i + 1;
    }
    return None;
  }

  method MatchesProfileIp(p: Profile, ip: Option<Ip>) returns (r: bool)
    ensures r <==> MatchesIp(p, ip)
  {
    if ip.None? {
      return p.id == "default";
    }
    var i := 0;
    while i < |p.ips|
      invariant 0 <= i <= |p.ips| && ip.value !in p.ips[..i]
    {
      if p.ips[i] == ip.value {
        return true;
      }
      assert p.ips[..i + 1] == p.ips[..i] + [p.ips[i]];
      i := i + 1;
    }
    assert p.ips[..i] == p.ips;
    i := 0;
    while i < |p.cidrs|
      invariant 0 <= i <= |p.cidrs|
      invariant forall j :: 0 <= j < i ==> !(p.cidrs[j].first <= ip.value <= p.cidrs[j].last)
    {
      if p.cidrs[i].first <= ip.value <= p.cidrs[i].last {
        return true;
      }
      i := i + 1;
    }
    r := p.id == "default" && |p.ips| == 0 && |p.cidrs| == 0
      && |p.clientIds| == 0 && |p.macs| == 0 && |p.hostnames| == 0;
  }

  method MatchByAddress(profiles: seq<Profile>, c: Client) returns (out: seq<string>)
    ensures out == ByAddress(profiles, c)
  {
    out := [];
    var i := 0;
    while i < |profiles|
      invariant 0 <= i <= |profiles| && out == ByIp(profiles[..i], c.ip)
    {
      assert profiles[..i + 1][..i] == profiles[..i];
      var m := MatchesProfileIp(profiles[i], c.ip);
      if m { out := out + [profiles[i].id]; }
      i := i + 1;
    }
    assert profiles[..i] == profiles;
    if c.dynamicLease {
      ghost var found := out;
      i := 0;
      while i < |profiles|
        invariant 0 <= i <= |profiles| && out == AddDynamic(profiles[..i], found)
      {
        assert profiles[..i + 1][..i] == profiles[..i];
        if profiles[i].blockDynamic && profiles[i].id !in out { out := out + [profiles[i].id]; }
        i := i + 1;
      }
      assert profiles[..i] == profiles;
    }
  }

  method ProfilesMatching(profiles: seq<Profile>, c: Client) returns (r: seq<string>)
    ensures r == Matched(profiles, c)
  {
    if c.device.Some? {
      return [c.device.value];
    }
    if c.clientId != "" {
      var id := FindListing(profiles, ByClientId, c.clientId);
      if id.Some? {
        return [id.value];
      }
    }
    if c.mac != "" {
      var id := FindListing(profiles, ByMac, Lower(c.mac));
      if id.Some? {
        return [id.value];
      }
    }
    if c.hostname != "" {
      var id := FindListing(profiles, ByHostname, c.hostname);
      if id.Some? {
        return [id.value];
      }
    }
    r := MatchByAddress(profiles, c);
    if |r| == 0 { r := ["default"]; }
  }

  predicate Selects(p: Profile, c: Client) {
    MatchesIp(p, c.ip) || (c.dynamicLease && p.blockDynamic)
  }

  /** By address a client is in every profile that matches it, and in those for dynamic clients. */
  lemma {:induction false} InByIp(profiles: seq<Profile>, ip: Option<Ip>, id: string)
    ensures id in ByIp(profiles, ip) <==>
      exists i :: 0 <= i < |profiles| && profiles[i].id == id && MatchesIp(profiles[i], ip)
  {
    if profiles != [] {
      var before := profiles[..|profiles| - 1];
      InByIp(before, ip, id);
      assert forall i :: 0 <= i < |before| ==> before[i] == profiles[i];
    }
  }

  lemma {:induction false} InAddDynamic(profiles: seq<Profile>, out: seq<string>, id: string)
    ensures id in AddDynamic(profiles, out) <==>
      id in out || exists i :: 0 <= i < |profiles| && profiles[i].id == id && profiles[i].blockDynamic
  {
    if profiles != [] {
      var before := profiles[..|profiles| - 1];
      InAddDynamic(before, out, id);
      assert forall i :: 0 <= i < |before| ==> before[i] == profiles[i];
    }
  }

  lemma InByAddress(profiles: seq<Profile>, c: Client, id: string)
    ensures id in ByAddress(profiles, c) <==>
      exists i :: 0 <= i < |profiles| && profiles[i].id == id && Selects(profiles[i], c)
  {
    InByIp(profiles, c.ip, id);
    InAddDynamic(profiles, ByIp(profiles, c.ip), id);
  }

  // ----------------------------------------------------------------------------
  // Which tier decides
  // ----------------------------------------------------------------------------

  /** The first profile whose client ids hold the one of the client. */
  ghost predicate FirstByClientId(profiles: seq<Profile>, c: Client, i: nat) {
    i < |profiles| && c.clientId != "" && c.clientId in profiles[i].clientIds
    && forall j :: 0 <= j < i ==> c.clientId !in profiles[j].clientIds
  }

  /** The first profile whose hardware addresses hold that of the client, in lower case. */
  ghost predicate FirstByMac(profiles: seq<Profile>, c: Client, i: nat) {
    i < |profiles| && c.mac != "" && Lower(c.mac) in profiles[i].macs
    && forall j :: 0 <= j < i ==> Lower(c.mac) !in profiles[j].macs
  }

  ghost predicate FirstByHostname(profiles: seq<Profile>, c: Client, i: nat) {
    i < |profiles| && c.hostname != "" && c.hostname in profiles[i].hostnames
    && forall j :: 0 <= j < i ==> c.hostname !in profiles[j].hostnames
  }

  ghost predicate NoneByClientId(profiles: seq<Profile>, c: Client) {
    c.clientId == "" || forall j :: 0 <= j < |profiles| ==> c.clientId !in profiles[j].clientIds
  }

  ghost predicate NoneByMac(profiles: seq<Profile>, c: Client) {
    c.mac == "" || forall j :: 0 <= j < |profiles| ==> Lower(c.mac) !in profiles[j].macs
  }

  ghost predicate NoneByHostname(profiles: seq<Profile>, c: Client) {
    c.hostname == "" || forall j :: 0 <= j < |profiles| ==> c.hostname !in profiles[j].hostnames
  }

  lemma {:induction false} ListedFirst(profiles: seq<Profile>, t: Tier, key: string, i: nat)
    requires i < |profiles| && key in Keys(profiles[i], t)
    requires forall j :: 0 <= j < i ==> key !in Keys(profiles[j], t)
    ensures FirstListing(profiles, t, key) == Some(profiles[i].id)
  {
    if i > 0 {
      assert key !in Keys(profiles[0], t);
      assert forall j :: 0 <= j < i - 1 ==> profiles[1..][j] == profiles[j + 1];
      ListedFirst(profiles[1..], t, key, i - 1);
    }
  }

  lemma {:induction false} NotListed(profiles: seq<Profile>, t: Tier, key: string)
    requires forall j :: 0 <= j < |profiles| ==> key !in Keys(profiles[j], t)
    ensures FirstListing(profiles, t, key) == None
  {
    if profiles != [] {
      NotListed(profiles[1..], t, key);
    }
  }

  lemma UnlistedTiers(profiles: seq<Profile>, c: Client)
    ensures NoneByClientId(profiles, c) && c.clientId != "" ==> FirstListing(profiles, ByClientId, c.clientId) == None
    ensures NoneByMac(profiles, c) && c.mac != "" ==> FirstListing(profiles, ByMac, Lower(c.mac)) == None
    ensures NoneByHostname(profiles, c) && c.hostname != "" ==> FirstListing(profiles, ByHostname, c.hostname) == None
  {
    if NoneByClientId(profiles, c) && c.clientId != "" { NotListed(profiles, ByClientId, c.clientId); }
    if NoneByMac(profiles, c) && c.mac != "" { NotListed(profiles, ByMac, Lower(c.mac)); }
    if NoneByHostname(profiles, c) && c.hostname != "" { NotListed(profiles, ByHostname, c.hostname); }
  }

  /** A registered device decides, whatever else the client is. */
  lemma DeviceDecides(profiles: seq<Profile>, c: Client)
    requires c.device.Some?
    ensures Matched(profiles, c) == [c.device.value]
  {
  }

  /** Else the first profile that lists the client id, whatever the other identifiers and the address are. */
  lemma ClientIdDecides(profiles: seq<Profile>, c: Client, i: nat)
    requires c.device.None? && FirstByClientId(profiles, c, i)
    ensures Matched(profiles, c) == [profiles[i].id]
  {
    ListedFirst(profiles, ByClientId, c.clientId, i);
  }

  /** Else the first that lists the hardware address. */
  lemma MacDecides(profiles: seq<Profile>, c: Client, i: nat)
    requires c.device.None? && NoneByClientId(profiles, c) && FirstByMac(profiles, c, i)
    ensures Matched(profiles, c) == [profiles[i].id]
  {
    UnlistedTiers(profiles, c);
    ListedFirst(profiles, ByMac, Lower(c.mac), i);
  }

  /** Else the first that lists the host name. */
  lemma HostnameDecides(profiles: seq<Profile>, c: Client, i: nat)
    requires c.device.None? && NoneByClientId(profiles, c) && NoneByMac(profiles, c) && FirstByHostname(profiles, c, i)
    ensures Matched(profiles, c) == [profiles[i].id]
  {
    UnlistedTiers(profiles, c);
    ListedFirst(profiles, ByHostname, c.hostname, i);
  }

  /** The address is in some block of the profile, its first and its last address included, or listed by itself. */
  predicate HasAddress(p: Profile, ip: Ip) {
    (exists i :: 0 <= i < |p.ips| && p.ips[i] == ip)
    || exists i :: 0 <= i < |p.cidrs| && !(ip < p.cidrs[i].first || p.cidrs[i].last < ip)
  }

  /**
   A profile takes a client by its address: one it has; any, if it is the default profile and
   lists nothing at all; a client without an address, if it is the default profile; and one with a
   dynamic lease, if it is for those.
   */
  predicate TakesClient(p: Profile, c: Client) {
    || (c.ip.Some? && HasAddress(p, c.ip.value))
    || (p.id == "default" && c.ip.None?)
    || (p.id == "default" && |p.ips| + |p.cidrs| + |p.clientIds| + |p.macs| + |p.hostnames| == 0)
    || (p.blockDynamic && c.dynamicLease)
  }

  /** Else the client is in exactly the profiles that take it, or in the default one if none does. */
  lemma AddressDecides(profiles: seq<Profile>, c: Client, id: string)
    requires c.device.None? && NoneByClientId(profiles, c) && NoneByMac(profiles, c) && NoneByHostname(profiles, c)
    ensures id in Matched(profiles, c) <==>
      (exists i :: 0 <= i < |profiles| && profiles[i].id == id && TakesClient(profiles[i], c))
      || (id == "default" && forall i :: 0 <= i < |profiles| ==> !TakesClient(profiles[i], c))
  {
    UnlistedTiers(profiles, c);
    InByAddress(profiles, c, id);
    assert forall i :: 0 <= i < |profiles| ==> (Selects(profiles[i], c) <==> TakesClient(profiles[i], c));
    if ByAddress(profiles, c) == [] {
      forall i | 0 <= i < |profiles| ensures !TakesClient(profiles[i], c) { InByAddress(profiles, c, profiles[i].id); }
    } else {
      InByAddress(profiles, c, ByAddress(profiles, c)[0]);
    }
  }

  /** The clients are the same down to the tier that decides. */
  ghost predicate AlikeToDecidingTier(profiles: seq<Profile>, c: Client, d: Client) {
    && c.device == d.device
    && (c.device.None? ==> c.clientId == d.clientId)
    && (c.device.None? && NoneByClientId(profiles, c) ==> c.mac == d.mac)
    && (c.device.None? && NoneByClientId(profiles, c) && NoneByMac(profiles, c) ==> c.hostname == d.hostname)
    && (c.device.None? && NoneByClientId(profiles, c) && NoneByMac(profiles, c) && NoneByHostname(profiles, c) ==>
      c.ip == d.ip && c.dynamicLease == d.dynamicLease)
  }

  /** What lies below the deciding tier makes no difference. */
  lemma BelowMakesNoDifference(profiles: seq<Profile>, c: Client, d: Client)
    requires AlikeToDecidingTier(profiles, c, d)
    ensures Matched(profiles, c) == Matched(profiles, d)
  {
    UnlistedTiers(profiles, c);
    if c.device.None? && !NoneByClientId(profiles, c) {
      var i := FirstIndex(profiles, ByClientId, c.clientId);
    } else if c.device.None? && !NoneByMac(profiles, c) {
      var i := FirstIndex(profiles, ByMac, Lower(c.mac));
    } else if c.device.None? && !NoneByHostname(profiles, c) {
      var i := FirstIndex(profiles, ByHostname, c.hostname);
    }
  }

  lemma {:induction false} FirstIndex(profiles: seq<Profile>, t: Tier, key: string) returns (i: nat)
    requires exists j :: 0 <= j < |profiles| && key in Keys(profiles[j], t)
    ensures i < |profiles| && FirstListing(profiles, t, key) == Some(profiles[i].id)
  {
    if key in Keys(profiles[0], t) {
      i := 0;
    } else {
      var j :| 0 <= j < |profiles| && key in Keys(profiles[j], t);
      assert profiles[1..][j - 1] == profiles[j];
      var k := FirstIndex(profiles[1..], t, key);
      i := k + 1;
    }
  }
}
