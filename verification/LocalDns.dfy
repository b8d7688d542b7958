/**
 Locally configured DNS entries: the lookup and its walk along CNAME entries, which ends
 exactly on tables without a cycle (RFC 1034 sections 3.6.2 and 4.3.2).
 */
module LocalDns {
  import opened Wrappers
  import opened Strings
  import opened Walks

  /** v4 and v6: what the value parses to as an address of either kind. */
  datatype Entry = Entry(
    hostname: string, kind: string, value: string, ttl: nat, v4: Option<string>, v6: Option<string>)

  /** Entries by lower-case name with its trailing dot. */
  type Table = map<string, seq<Entry>>

  datatype Qtype = A | AAAA | CNAME | Other

  datatype Rr =
    | Cname(owner: string, target: string, ttl: nat)
    | Address(owner: string, qtype: Qtype, ip: string, ttl: nat)

  function ToFQDN(s: string): string {
    if HasSuffix(s, ".") then s else s + "."
  }

  function Key(name: string): string {
    ToFQDN(Lower(name))
  }

  /** The entries of a name, in order. */
  function EntriesFor(entries: seq<Entry>, key: string): seq<Entry> {
    if entries == [] then []
    else
      var n := |entries| - 1;
      EntriesFor(entries[..n], key) + if Key(entries[n].hostname) == key then [entries[n]] else []
  }

  function At(t: Table, key: string): seq<Entry> {
    if key in t then t[key] else []
  }

  ghost predicate IsTable(entries: seq<Entry>, t: Table) {
    forall k :: At(t, k) == EntriesFor(entries, k) && (k in t ==> t[k] != [])
  }

  method NewLocalResolver(entries: seq<Entry>) returns (t: Table)
    ensures IsTable(entries, t)
  {
    t := map[];
    var i := 0;
    while i < |entries|
      invariant 0 <= i <= |entries| && IsTable(entries[..i], t)
    {
      var k := Key(entries[i].hostname);
      AppendIsTable(entries, i, t);
      t := t[k := At(t, k) + [entries[i]]];
      i := i + 1;
    }
    assert entries[..i] == entries;
  }

  lemma AppendIsTable(entries: seq<Entry>, i: nat, t: Table)
    requires i < |entries| && IsTable(entries[..i], t)
    ensures var k := Key(entries[i].hostname); IsTable(entries[..i + 1], t[k := At(t, k) + [entries[i]]])
  {
    assert entries[..i + 1][..i] == entries[..i];
    var k := Key(entries[i].hostname);
    var t' := t[k := At(t, k) + [entries[i]]];
    forall k' ensures At(t', k') == EntriesFor(entries[..i + 1], k') {
      assert At(t, k') == EntriesFor(entries[..i], k');
    }
  }

  // ----------------------------------------------------------------------------
  // The walk along CNAME entries
  // ----------------------------------------------------------------------------

  function Ip(e: Entry, q: Qtype): Option<string> {
    if q == A && e.kind == "A" then e.v4 else if q == AAAA && e.kind == "AAAA" then e.v6 else None
  }

  /** The address records a name owns, in order; values that do not parse are skipped. */
  function Addresses(entries: seq<Entry>, owner: string, q: Qtype): seq<Rr> {
    if entries == [] then []
    else
      var n := |entries| - 1;
      Addresses(entries[..n], owner, q)
      + if Ip(entries[n], q).Some? then [Address(owner, q, Ip(entries[n], q).value, entries[n].ttl)] else []
  }

  /** The first CNAME entry. */
  function Alias(entries: seq<Entry>): Option<Entry> {
    if entries == [] then None
    else if entries[0].kind == "CNAME" then Some(entries[0])
    else Alias(entries[1..])
  }

  predicate HasAddress(entries: seq<Entry>, q: Qtype) {
    exists i :: 0 <= i < |entries| && Ip(entries[i], q).Some?
  }

  /** The name has an alias, and no address of the kind asked for. */
  predicate Continues(entries: seq<Entry>, q: Qtype) {
    !HasAddress(entries, q) && Alias(entries).Some?
  }

  function Target(entries: seq<Entry>): string
    requires Alias(entries).Some?
  {
    ToFQDN(Alias(entries).value.value)
  }

  /** Where the lookup of a name goes on. */
  function Graph(t: Table, q: Qtype): Edges {
    map k | k in t && Continues(t[k], q) :: Key(Target(t[k]))
  }

  lemma GraphStep(t: Table, q: Qtype, key: string, n: nat)
    requires key in t && Continues(t[key], q) && Ends(Graph(t, q), key, n)
    ensures n > 0 && Ends(Graph(t, q), Key(Target(t[key])), n - 1)
  {
  }

  function AliasRecord(entries: seq<Entry>, owner: string): Rr
    requires Alias(entries).Some?
  {
    Cname(owner, Target(entries), Alias(entries).value.ttl)
  }

  /**
   The answer to an address query, for a walk that ends within n steps. None is no answer:
   the name is not here, or has neither addresses of the kind nor an alias.
   */
  function Answer(t: Table, q: Qtype, name: string, n: nat): Option<seq<Rr>>
    requires Ends(Graph(t, q), Key(name), n)
    decreases n
  {
    var key := Key(name);
    if key !in t then None
    else if HasAddress(t[key], q) then Some(Addresses(t[key], name, q))
    else if Alias(t[key]).None? then None
    else
      GraphStep(t, q, key, n);
      Some([AliasRecord(t[key], name)] + Records(Answer(t, q, Target(t[key]), n - 1)))
  }

  function Records(answer: Option<seq<Rr>>): seq<Rr> {
    if answer.Some? then answer.value else []
  }

  /** For an alias query: every alias, each with the addresses of both kinds that its target has here. */
  function Aliases(t: Table, entries: seq<Entry>, name: string): seq<Rr> {
    if entries == [] then []
    else
      var n := |entries| - 1;
      Aliases(t, entries[..n], name)
      + if entries[n].kind == "CNAME" then AliasWithAddresses(t, entries[n], name) else []
  }

  function AliasWithAddresses(t: Table, e: Entry, name: string): seq<Rr> {
    var target := ToFQDN(e.value);
    [Cname(name, target, e.ttl)]
    + Addresses(At(t, Key(target)), target, A) + Addresses(At(t, Key(target)), target, AAAA)
  }

  ghost function Reply(t: Table, q: Qtype, name: string, n: nat): Option<seq<Rr>>
    requires q == A || q == AAAA ==> Ends(Graph(t, q), Key(name), n)
  {
    match q
    case A => Answer(t, q, name, n)
    case AAAA => Answer(t, q, name, n)
    case CNAME =>
      var rrs := Aliases(t, At(t, Key(name)), name);
      if rrs == [] then None else Some(rrs)
    case Other => None
  }

  // ----------------------------------------------------------------------------
  // The lookup
  // ----------------------------------------------------------------------------

  /** The ghost bound is a number of steps within which the walk from the name ends. */
  method Resolve(t: Table, name: string, q: Qtype, ghost n: nat) returns (r: Option<seq<Rr>>)
    requires q == A || q == AAAA ==> Ends(Graph(t, q), Key(name), n)
    ensures r == Reply(t, q, name, n)
    decreases n, 1
  {
    var key := Lower(name);
    if !HasSuffix(key, ".") { key := key + "."; }
    if key !in t {
      return None;
    }
    var candidates := t[key];
    if q == A || q == AAAA {
      var answer := AppendAddresses([], candidates, name, q);
      assert answer == Addresses(candidates, name, q);
      AddressesIff(candidates, name, q);
      AnswerHere(t, q, name, n);
      if |answer| > 0 {
        return Some(answer);
      }
      r := ResolveCname(t, name, q, candidates, n);
    } else if q == CNAME {
      var answer := ResolveAliases(t, candidates, name);
      return if |answer| == 0 then None else Some(answer);
    } else {
      return None;
    }
  }

  method ResolveAliases(t: Table, candidates: seq<Entry>, name: string) returns (answer: seq<Rr>)
    ensures answer == Aliases(t, candidates, name)
  {
    answer := [];
    var i := 0;
    while i < |candidates|
      invariant 0 <= i <= |candidates| && answer == Aliases(t, candidates[..i], name)
    {
      assert candidates[..i + 1][..i] == candidates[..i];
      if candidates[i].kind == "CNAME" { answer := AppendAlias(t, answer, candidates[i], name); }
      i := i + 1;
    }
    assert candidates[..i] == candidates;
  }

  method AppendAlias(t: Table, rrs: seq<Rr>, e: Entry, name: string) returns (r: seq<Rr>)
    ensures r == rrs + AliasWithAddresses(t, e, name)
  {
    var target := ToFQDN(e.value);
    r := [Cname(name, target, e.ttl)];
    r := AppendCnameTarget(t, r, target, A);
    r := AppendCnameTarget(t, r, target, AAAA);
    r := rrs + r;
  }

  /** Answers by the first alias, followed by what its target resolves to. */
  method ResolveCname(t: Table, name: string, q: Qtype, candidates: seq<Entry>, ghost n: nat)
    returns (r: Option<seq<Rr>>)
    requires (q == A || q == AAAA) && Ends(Graph(t, q), Key(name), n)
    requires Key(name) in t && t[Key(name)] == candidates && !HasAddress(candidates, q)
    ensures r == Answer(t, q, name, n)
    decreases n, 0
  {
    var alias := FirstAlias(candidates);
    AnswerHere(t, q, name, n);
    if alias.None? {
      return None;
    }
    var target := ToFQDN(alias.value.value);
    var resolved := Resolve(t, target, q, n - 1);
    r := Some([Cname(name, target, alias.value.ttl)] + if resolved.Some? then resolved.value else []);
  }

  method FirstAlias(candidates: seq<Entry>) returns (r: Option<Entry>)
    ensures r == Alias(candidates)
  {
    var i := 0;
    while i < |candidates|
      invariant 0 <= i <= |candidates| && Alias(candidates) == Alias(candidates[i..])
    {
      assert candidates[i..][1..] == candidates[i + 1..];
      if candidates[i].kind == "CNAME" {
        return Some(candidates[i]);
      }
      i := i + 1;
    }
    return None;
  }

  lemma AnswerHere(t: Table, q: Qtype, name: string, n: nat)
    requires Ends(Graph(t, q), Key(name), n) && Key(name) in t
    ensures HasAddress(t[Key(name)], q) ==> Answer(t, q, name, n) == Some(Addresses(t[Key(name)], name, q))
    ensures !HasAddress(t[Key(name)], q) && Alias(t[Key(name)]).None? ==> Answer(t, q, name, n) == None
    ensures Continues(t[Key(name)], q) ==>
      n > 0 && Ends(Graph(t, q), Key(Target(t[Key(name)])), n - 1)
      && Answer(t, q, name, n) ==
        Some([AliasRecord(t[Key(name)], name)] + Records(Answer(t, q, Target(t[Key(name)]), n - 1)))
  {
    if Continues(t[Key(name)], q) { GraphStep(t, q, Key(name), n); }
  }

  method AppendAddresses(rrs: seq<Rr>, candidates: seq<Entry>, owner: string, q: Qtype) returns (r: seq<Rr>)
    ensures r == rrs + Addresses(candidates, owner, q)
  {
    r := rrs;
    var i := 0;
    while i < |candidates|
      invariant 0 <= i <= |candidates| && r == rrs + Addresses(candidates[..i], owner, q)
    {
      assert candidates[..i + 1][..i] == candidates[..i];
      var ip := Ip(candidates[i], q);
      if ip.Some? { r := r + [Address(owner, q, ip.value, candidates[i].ttl)]; }
      i := i + 1;
    }
    assert candidates[..i] == candidates;
  }

  method AppendCnameTarget(t: Table, rrs: seq<Rr>, target: string, q: Qtype) returns (r: seq<Rr>)
    ensures r == rrs + Addresses(At(t, Key(target)), target, q)
  {
    var key := Lower(target);
    if !HasSuffix(key, ".") { key := key + "."; }
    if key !in t {
      return rrs;
    }
    r := AppendAddresses(rrs, t[key], target, q);
  }

  lemma {:induction false} AddressesIff(entries: seq<Entry>, owner: string, q: Qtype)
    ensures Addresses(entries, owner, q) == [] <==> !HasAddress(entries, q)
    ensures forall i :: 0 <= i < |Addresses(entries, owner, q)| ==>
      Addresses(entries, owner, q)[i].Address? && Addresses(entries, owner, q)[i].owner == owner
      && Addresses(entries, owner, q)[i].qtype == q
  {
    if entries != [] {
      var before := entries[..|entries| - 1];
      AddressesIff(before, owner, q);
      assert forall i :: 0 <= i < |before| ==> before[i] == entries[i];
    }
  }

  // ----------------------------------------------------------------------------
  // What an answer looks like
  // ----------------------------------------------------------------------------

  /**
   The records from a name on: an alias record for each name that has an alias and no
   address, then all the addresses of the first name that has some.
   */
  ghost predicate Chain(t: Table, q: Qtype, name: string, rrs: seq<Rr>)
    decreases rrs
  {
    var here := At(t, Key(name));
    if rrs == [] then !HasAddress(here, q) && Alias(here).None?
    else if rrs[0].Cname? then
      Continues(here, q) && rrs[0] == AliasRecord(here, name) && Chain(t, q, rrs[0].target, rrs[1..])
    else HasAddress(here, q) && rrs == Addresses(here, name, q)
  }

  lemma {:induction false} AnswerIsChain(t: Table, q: Qtype, name: string, n: nat)
    requires Ends(Graph(t, q), Key(name), n)
    ensures Chain(t, q, name, Records(Answer(t, q, name, n)))
    decreases n
  {
    var key := Key(name);
    if key in t && Continues(t[key], q) {
      GraphStep(t, q, key, n);
      AnswerIsChain(t, q, Target(t[key]), n - 1);
    } else if key in t {
      AddressesIff(t[key], name, q);
    }
  }

  lemma {:induction false} ChainUnique(t: Table, q: Qtype, name: string, a: seq<Rr>, b: seq<Rr>)
    requires Chain(t, q, name, a) && Chain(t, q, name, b)
    ensures a == b
    decreases |a|
  {
    AddressesIff(At(t, Key(name)), name, q);
    if a != [] && b != [] && a[0].Cname? && b[0].Cname? {
      ChainUnique(t, q, a[0].target, a[1..], b[1..]);
    }
  }

  /** Without a cycle every name has an answer, and the chain from the name is the only one. */
  lemma AnswerIffChain(t: Table, q: Qtype, name: string, rrs: seq<Rr>)
    requires Acyclic(Graph(t, q))
    ensures Ends(Graph(t, q), Key(name), |Graph(t, q)|)
    ensures rrs == Records(Answer(t, q, name, |Graph(t, q)|)) <==> Chain(t, q, name, rrs)
  {
    AcyclicEnds(Graph(t, q), Key(name));
    AnswerIsChain(t, q, name, |Graph(t, q)|);
    if Chain(t, q, name, rrs) { ChainUnique(t, q, name, rrs, Records(Answer(t, q, name, |Graph(t, q)|))); }
  }

  /** Who owns the record at an index: the target of the alias before it, the owner before it, or the name. */
  function OwnerAt(name: string, rrs: seq<Rr>, i: nat): string
    requires i < |rrs|
  {
    if i == 0 then name else if rrs[i - 1].Cname? then rrs[i - 1].target else rrs[i - 1].owner
  }

  /** Aliases linked from the name on, then only addresses of the kind, all of the last target. */
  ghost predicate Linked(name: string, rrs: seq<Rr>, q: Qtype) {
    && (forall i :: 0 <= i < |rrs| ==> rrs[i].owner == OwnerAt(name, rrs, i))
    && (forall i :: 0 < i < |rrs| && rrs[i].Cname? ==> rrs[i - 1].Cname?)
    && (forall i :: 0 <= i < |rrs| && rrs[i].Address? ==> rrs[i].qtype == q)
  }

  lemma {:induction false} ChainIsLinked(t: Table, q: Qtype, name: string, rrs: seq<Rr>)
    requires Chain(t, q, name, rrs)
    ensures Linked(name, rrs, q)
    decreases |rrs|
  {
    if rrs != [] {
      if rrs[0].Cname? {
        var rest := rrs[1..];
        ChainIsLinked(t, q, rrs[0].target, rest);
        forall i | 0 < i < |rrs|
          ensures rrs[i].owner == OwnerAt(name, rrs, i) && (rrs[i].Cname? ==> rrs[i - 1].Cname?)
        {
          assert rrs[i] == rest[i - 1] && rest[i - 1].owner == OwnerAt(rrs[0].target, rest, i - 1);
        }
        assert forall i :: 0 < i < |rrs| && rrs[i].Address? ==> rest[i - 1].qtype == q;
      } else {
        AddressesIff(At(t, Key(name)), name, q);
      }
    }
  }

  // ----------------------------------------------------------------------------
  // The addresses of a name
  // ----------------------------------------------------------------------------

  /** An entry that gives an IPv4 address to a query for A, or an IPv6 address to one for AAAA. */
  predicate Gives(e: Entry, q: Qtype, ip: string) {
    || (q == A && e.kind == "A" && e.v4 == Some(ip))
    || (q == AAAA && e.kind == "AAAA" && e.v6 == Some(ip))
  }

  function Giving(entries: seq<Entry>, q: Qtype): nat {
    if entries == [] then 0
    else
      var e := entries[|entries| - 1];
      Giving(entries[..|entries| - 1], q)
      + if (q == A && e.kind == "A" && e.v4.Some?) || (q == AAAA && e.kind == "AAAA" && e.v6.Some?) then 1 else 0
  }

  lemma {:induction false} GivingGrows(entries: seq<Entry>, q: Qtype, k: nat, ip: string)
    requires k < |entries| && Gives(entries[k], q, ip)
    ensures Giving(entries[..k], q) < Giving(entries, q)
  {
    var n := |entries| - 1;
    if k < n {
      assert entries[..n][..k] == entries[..k];
      GivingGrows(entries[..n], q, k, ip);
    }
  }

  /** One record for each entry that gives an address of the kind, in order, with its lifetime. */
  lemma {:induction false} AddressesInOrder(entries: seq<Entry>, owner: string, q: Qtype)
    ensures |Addresses(entries, owner, q)| == Giving(entries, q)
    ensures forall k, ip :: 0 <= k < |entries| && Gives(entries[k], q, ip) ==>
      Giving(entries[..k], q) < Giving(entries, q)
      && Addresses(entries, owner, q)[Giving(entries[..k], q)] == Address(owner, q, ip, entries[k].ttl)
  {
    if entries != [] {
      var n := |entries| - 1;
      AddressesInOrder(entries[..n], owner, q);
      forall k, ip | 0 <= k < |entries| && Gives(entries[k], q, ip)
        ensures Giving(entries[..k], q) < Giving(entries, q)
        ensures Addresses(entries, owner, q)[Giving(entries[..k], q)] == Address(owner, q, ip, entries[k].ttl)
      {
        GivingGrows(entries, q, k, ip);
        if k < n { assert entries[..n][..k] == entries[..k] && entries[..n][k] == entries[k]; }
      }
    }
  }

  /** The alias of a name is its first CNAME entry. */
  lemma {:induction false} AliasIsFirst(entries: seq<Entry>, i: nat)
    requires i < |entries| && entries[i].kind == "CNAME" && forall j :: 0 <= j < i ==> entries[j].kind != "CNAME"
    ensures Alias(entries) == Some(entries[i])
  {
    if i > 0 {
      assert forall j :: 0 <= j < i - 1 ==> entries[1..][j] == entries[j + 1];
      AliasIsFirst(entries[1..], i - 1);
    }
  }

  lemma {:induction false} NoAlias(entries: seq<Entry>)
    requires forall j :: 0 <= j < |entries| ==> entries[j].kind != "CNAME"
    ensures Alias(entries) == None
  {
    if entries != [] {
      NoAlias(entries[1..]);
    }
  }

  /** A name with an address of the kind asked for is answered by exactly its addresses, whatever its aliases. */
  lemma AddressesAnswer(t: Table, q: Qtype, name: string, n: nat, k: nat, ip: string)
    requires (q == A || q == AAAA) && Ends(Graph(t, q), Key(name), n)
    requires Key(name) in t && k < |t[Key(name)]| && Gives(t[Key(name)][k], q, ip)
    ensures Reply(t, q, name, n) == Some(Addresses(t[Key(name)], name, q))
    ensures Giving(t[Key(name)][..k], q) < |Addresses(t[Key(name)], name, q)|
    ensures Addresses(t[Key(name)], name, q)[Giving(t[Key(name)][..k], q)] == Address(name, q, ip, t[Key(name)][k].ttl)
  {
    AddressesInOrder(t[Key(name)], name, q);
    AnswerHere(t, q, name, n);
    assert HasAddress(t[Key(name)], q);
  }

  /** Else by its first alias, and what that one's target is answered by. */
  lemma AliasAnswers(t: Table, q: Qtype, name: string, n: nat, i: nat)
    requires (q == A || q == AAAA) && Ends(Graph(t, q), Key(name), n) && Key(name) in t
    requires var here := t[Key(name)];
      && (forall k, ip :: 0 <= k < |here| ==> !Gives(here[k], q, ip))
      && i < |here| && here[i].kind == "CNAME" && forall j :: 0 <= j < i ==> here[j].kind != "CNAME"
    ensures var e := t[Key(name)][i];
      && n > 0 && Ends(Graph(t, q), Key(ToFQDN(e.value)), n - 1)
      && Reply(t, q, name, n) == Some([Cname(name, ToFQDN(e.value), e.ttl)]
        + match Reply(t, q, ToFQDN(e.value), n - 1) case Some(rrs) => rrs case None => [])
  {
    var here := t[Key(name)];
    AliasIsFirst(here, i);
    forall k | 0 <= k < |here| ensures Ip(here[k], q).None? {
      if Ip(here[k], q).Some? { assert !Gives(here[k], q, Ip(here[k], q).value); }
    }
    AnswerHere(t, q, name, n);
  }

  /** A name that has neither, or is not here, has no answer. */
  lemma NothingAnswers(t: Table, q: Qtype, name: string, n: nat)
    requires (q == A || q == AAAA) && Ends(Graph(t, q), Key(name), n)
    requires Key(name) in t ==>
      forall k, ip :: 0 <= k < |t[Key(name)]| ==> !Gives(t[Key(name)][k], q, ip) && t[Key(name)][k].kind != "CNAME"
    ensures Reply(t, q, name, n) == None
  {
    if Key(name) in t {
      var here := t[Key(name)];
      forall k | 0 <= k < |here| ensures Ip(here[k], q).None? && here[k].kind != "CNAME" {
        assert !Gives(here[k], q, if Ip(here[k], q).Some? then Ip(here[k], q).value else "");
      }
      NoAlias(here);
      AnswerHere(t, q, name, n);
    }
  }

  /** Names are compared in lower case and with a trailing dot, which a name may lack. */
  lemma SpellingsOfAName(name: string)
    requires name != "" && name[|name| - 1] != '.'
    ensures Key(name) == Key(name + ".") == Key(Lower(name)) == Lower(name) + "."
  {
    LowerIdempotent(name);
    assert Lower(name + ".") == Lower(name) + ".";
    assert Lower(name)[|name| - 1] != '.';
  }

  lemma {:induction false} AliasesGrow(t: Table, entries: seq<Entry>, name: string, k: nat)
    requires k <= |entries|
    ensures Aliases(t, entries[..k], name) <= Aliases(t, entries, name)
  {
    if k < |entries| {
      var before := entries[..|entries| - 1];
      assert before[..k] == entries[..k];
      AliasesGrow(t, before, name, k);
    } else {
      assert entries[..k] == entries;
    }
  }

  /** Each alias of a name is followed by the addresses of its target, those of the first kind before the others. */
  lemma AliasesInOrder(t: Table, entries: seq<Entry>, name: string, k: nat) returns (own: seq<Rr>)
    requires k < |entries| && entries[k].kind == "CNAME"
    ensures Aliases(t, entries[..k], name) + own <= Aliases(t, entries, name)
    ensures own != [] && own[0] == Cname(name, ToFQDN(entries[k].value), entries[k].ttl)
    ensures var target := ToFQDN(entries[k].value);
      own[1..] == Addresses(At(t, Key(target)), target, A) + Addresses(At(t, Key(target)), target, AAAA)
  {
    own := AliasWithAddresses(t, entries[k], name);
    AliasesGrow(t, entries, name, k + 1);
    assert entries[..k + 1][..k] == entries[..k];
  }

  lemma {:induction false} NoAliases(t: Table, entries: seq<Entry>, name: string)
    requires forall k :: 0 <= k < |entries| ==> entries[k].kind != "CNAME"
    ensures Aliases(t, entries, name) == []
  {
    if entries != [] { NoAliases(t, entries[..|entries| - 1], name); }
  }

  /** A query for aliases is answered if and only if the name has one; queries for anything else are not. */
  lemma AliasQueryIff(t: Table, name: string, n: nat)
    ensures Reply(t, CNAME, name, n).Some? <==>
      Key(name) in t && exists k :: 0 <= k < |t[Key(name)]| && t[Key(name)][k].kind == "CNAME"
    ensures Reply(t, CNAME, name, n).Some? ==> Reply(t, CNAME, name, n).value == Aliases(t, t[Key(name)], name)
    ensures Reply(t, Other, name, n).None?
  {
    var here := At(t, Key(name));
    if k :| 0 <= k < |here| && here[k].kind == "CNAME" {
      var own := AliasesInOrder(t, here, name, k);
      assert Aliases(t, here, name)[|Aliases(t, here[..k], name)|].Cname?;
    } else {
      NoAliases(t, here, name);
    }
  }
}
