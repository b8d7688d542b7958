/**
 The response cache as the program keeps it: a map from keys to list elements and a list
 of the same elements, most recently used first. Elements are shared by reference: an
 element is named by an id, and its contents are in the element store. The object
 refines the list of LruSpec.
 */
module DnsCache {
  import opened Wrappers
  import opened LruSpec
  import Strings

  type Ref = nat

  /** The contents of the listed elements, in order. */
  function Pairs(order: seq<Ref>, elements: map<Ref, Pair>): (r: seq<Pair>)
    requires forall e :: e in order ==> e in elements
    ensures |r| == |order|
  {
    if order == [] then [] else [elements[order[0]]] + Pairs(order[1..], elements)
  }

  /** The list after unlinking an element. */
  function Unlinked(order: seq<Ref>, e: Ref): seq<Ref> {
    if order == [] then []
    else if order[0] == e then Unlinked(order[1..], e)
    else [order[0]] + Unlinked(order[1..], e)
  }

  ghost predicate NoRepeat(order: seq<Ref>) {
    forall i, j :: 0 <= i < j < |order| ==> order[i] != order[j]
  }

  /** Map and list hold the same elements, each under its own key and once. */
  ghost predicate Linked(items: map<Key, Ref>, order: seq<Ref>, elements: map<Ref, Pair>) {
    && (forall e :: e in order ==> e in elements && elements[e].key in items && items[elements[e].key] == e)
    && (forall k :: k in items ==> items[k] in order && elements[items[k]].key == k)
    && NoRepeat(order)
  }

  /** The name of a key, in either case, is the domain with its trailing dot. */
  function SameName(domain: string): string -> bool {
    var target := Strings.Lower(if Strings.HasSuffix(domain, ".") then domain else domain + ".");
    (name: string) => Strings.Lower(name) == target
  }

  class Cache {
    var maxEntries: int
    var items: map<Key, Ref>
    var order: seq<Ref>
    var elements: map<Ref, Pair>
    var nextRef: Ref
    var hits: nat
    var misses: nat
    var evictions: nat

    ghost predicate Valid()
      reads this
    {
      && Linked(items, order, elements)
      && (forall e :: e in elements ==> e < nextRef)
      && (maxEntries > 0 ==> |order| <= maxEntries)
    }

    ghost function Contents(): Lru
      requires Valid()
      reads this
    {
      Lru(maxEntries, Pairs(order, elements), hits, misses, evictions)
    }

    constructor (maxEntries: int)
      ensures Valid() && Contents() == Lru(maxEntries, [], 0, 0, 0)
    {
      this.maxEntries := maxEntries;
      items, order, elements, nextRef := map[], [], map[], 0;
      hits, misses, evictions := 0, 0, 0;
    }

    /** Unlinks an element and forgets its key. */
    method Unlink(e: Ref)
      requires Valid() && e in order
      modifies this`items, this`order
      ensures Valid()
      ensures Pairs(order, elements) == Drop(old(Pairs(order, elements)), {elements[e].key})
      ensures items == old(items) - {elements[e].key}
      ensures |order| == |old(order)| - 1
    {
      UnlinkedLinked(items, order, elements, e);
      items := items - {elements[e].key};
      order := Unlinked(order, e);
    }

    method MoveToFront(e: Ref)
      requires Valid() && e in order
      modifies this`order
      ensures Valid()
      ensures Pairs(order, elements) == [elements[e]] + Drop(old(Pairs(order, elements)), {elements[e].key})
    {
      MovedLinked(items, order, elements, e, elements[e].entry);
      assert elements[e := elements[e]] == elements;
      order := [e] + Unlinked(order, e);
    }

    method Expire(e: Ref)
      requires Valid() && e in order
      modifies this`items, this`order, this`evictions, this`misses
      ensures Valid()
      ensures Pairs(order, elements) == Drop(old(Pairs(order, elements)), {elements[e].key})
      ensures evictions == old(evictions) + 1 && misses == old(misses) + 1
    {
      Unlink(e);
      evictions := evictions + 1;
      misses := misses + 1;
    }

    method Get(key: Key, now: int) returns (reply: Option<Msg>)
      requires Valid()
      modifies this
      ensures Valid()
      ensures reply == GetReply(old(Contents()), key, now)
      ensures Contents() == LruSpec.Get(old(Contents()), key, now)
    {
      LookupPairs(items, order, elements, key);
      if key !in items {
        misses := misses + 1;
        return None;
      }
      var e := items[key];
      var entry := elements[e].entry;
      if entry.expiresAt - now <= 0 {
        Expire(e);
        return None;
      }
      hits := hits + 1;
      MoveToFront(e);
      reply := Some(Aged(entry, now));
    }

    method Set(key: Key, msg: Option<Msg>, now: int)
      requires Valid()
      modifies this
      ensures Valid()
      ensures Contents() == LruSpec.Set(old(Contents()), key, msg, now)
    {
      if !Cacheable(msg) {
        return;
      }
      var entry := NewEntry(msg.value, now);
      LookupPairs(items, order, elements, key);
      if key in items {
        Refresh(items[key], entry);
        return;
      }
      if maxEntries > 0 && |order| >= maxEntries {
        EvictOldest();
      }
      PushFront(key, entry);
    }

    /** Replaces the entry of an element in place and moves it to the front. */
    method Refresh(e: Ref, entry: Entry)
      requires Valid() && e in order
      modifies this`order, this`elements
      ensures Valid()
      ensures Pairs(order, elements) ==
        [Pair(old(elements)[e].key, entry)] + Drop(old(Pairs(order, elements)), {old(elements)[e].key})
    {
      MovedLinked(items, order, elements, e, entry);
      elements := elements[e := Pair(elements[e].key, entry)];
      order := [e] + Unlinked(order, e);
    }

    method PushFront(key: Key, entry: Entry)
      requires Valid() && key !in items && (maxEntries > 0 ==> |order| < maxEntries)
      modifies this`items, this`order, this`elements, this`nextRef
      ensures Valid()
      ensures Pairs(order, elements) == [Pair(key, entry)] + old(Pairs(order, elements))
    {
      var e := nextRef;
      var updated := elements[e := Pair(key, entry)];
      LinkedFrame(items, order, elements, e, updated[e]);
      LinkedFront(items, order, updated, e);
      nextRef := nextRef + 1;
      elements := updated;
      order := [e] + order;
      items := items[key := e];
    }

    /** Removes the element at the back. */
    method EvictOldest()
      requires Valid() && maxEntries > 0 && |order| >= maxEntries
      modifies this`items, this`order, this`evictions
      ensures Valid() && |order| < maxEntries
      ensures Pairs(order, elements) == old(Pairs(order, elements)[..|order| - 1])
      ensures items.Keys <= old(items).Keys
      ensures evictions == old(evictions) + 1
    {
      LinkedDistinct(items, order, elements);
      PairsAt(order, elements, |order| - 1);
      DropLast(Pairs(order, elements));
      Unlink(order[|order| - 1]);
      evictions := evictions + 1;
    }

    method PurgeAll() returns (n: nat)
      requires Valid()
      modifies this
      ensures Valid() && Contents() == LruSpec.PurgeAll(old(Contents()))
      ensures n == |old(Contents()).items|
    {
      n := |order|;
      items, order := map[], [];
    }

    method PurgeDomain(domain: string) returns (purged: nat)
      requires Valid()
      modifies this
      ensures Valid()
      ensures Contents() ==
        if domain == "" then old(Contents()) else LruSpec.PurgeNamed(old(Contents()), SameName(domain))
      ensures purged == |old(Contents()).items| - |Contents().items|
    {
      if domain == "" {
        return 0;
      }
      purged := PurgeNamed(SameName(domain));
    }

    method PurgeNamed(matches: string -> bool) returns (purged: nat)
      requires Valid()
      modifies this`items, this`order
      ensures Valid() && Contents() == LruSpec.PurgeNamed(old(Contents()), matches)
      ensures purged == |old(Contents()).items| - |Contents().items|
    {
      MapKeys(items, order, elements);
      MatchingIsNamed(Pairs(order, elements), matches);
      purged := UnlinkAll(matches);
    }

    /** Walks the map in any order and unlinks every element whose name matches. */
    method UnlinkAll(matches: string -> bool) returns (purged: nat)
      requires Valid()
      modifies this`items, this`order
      ensures Valid()
      ensures Pairs(order, elements) == Drop(old(Pairs(order, elements)), Matching(old(items).Keys, matches))
      ensures purged == |old(order)| - |order|
    {
      purged := 0;
      ghost var before, keys := Pairs(order, elements), items.Keys;
      var rest := items.Keys;
      assert keys - rest == {};
      DropNothing(before, Matching({}, matches));
      while rest != {}
        invariant Valid() && rest <= items.Keys && rest <= keys
        invariant Pairs(order, elements) == Drop(before, Matching(keys - rest, matches))
        invariant purged == |old(order)| - |order|
        decreases rest
      {
        var k :| k in rest;
        DropMatching(before, keys, rest, k, matches);
        if matches(k.name) {
          Unlink(items[k]);
          purged := purged + 1;
        }
        rest := rest - {k};
      }
      assert keys - rest == keys;
    }
  }

  ghost function Matching(keys: set<Key>, matches: string -> bool): set<Key> {
    set k | k in keys && matches(k.name)
  }

  lemma DropMatching(before: seq<Pair>, keys: set<Key>, rest: set<Key>, k: Key, matches: string -> bool)
    requires k in rest && rest <= keys
    ensures Drop(before, Matching(keys - (rest - {k}), matches)) ==
      if matches(k.name) then Drop(Drop(before, Matching(keys - rest, matches)), {k})
      else Drop(before, Matching(keys - rest, matches))
  {
    assert Matching(keys - (rest - {k}), matches) ==
      if matches(k.name) then Matching(keys - rest, matches) + {k} else Matching(keys - rest, matches);
    DropTwice(before, Matching(keys - rest, matches), {k});
  }

  lemma MatchingIsNamed(items: seq<Pair>, matches: string -> bool)
    ensures Matching(Keys(items), matches) == Named(items, matches)
  {
    assert forall p :: p in items ==> p.key in Keys(items);
  }

  // ----------------------------------------------------------------------------
  // Elements and their contents
  // ----------------------------------------------------------------------------

  lemma {:induction false} PairsAt(order: seq<Ref>, elements: map<Ref, Pair>, i: nat)
    requires forall e :: e in order ==> e in elements
    requires i < |order|
    ensures Pairs(order, elements)[i] == elements[order[i]]
  {
    if i > 0 {
      PairsAt(order[1..], elements, i - 1);
    }
  }

  lemma {:induction false} PairsFrame(order: seq<Ref>, elements: map<Ref, Pair>, updated: map<Ref, Pair>)
    requires forall e :: e in order ==> e in elements && e in updated && elements[e] == updated[e]
    ensures Pairs(order, elements) == Pairs(order, updated)
  {
    if order != [] {
      PairsFrame(order[1..], elements, updated);
    }
  }

  lemma LinkedDistinct(items: map<Key, Ref>, order: seq<Ref>, elements: map<Ref, Pair>)
    requires Linked(items, order, elements)
    ensures Distinct(Pairs(order, elements))
  {
    var ps := Pairs(order, elements);
    forall i, j | 0 <= i < j < |order| ensures ps[i].key != ps[j].key {
      PairsAt(order, elements, i);
      PairsAt(order, elements, j);
      assert order[i] in order && order[j] in order;
    }
  }

  /** The keys of the map are the keys of the list. */
  lemma MapKeys(items: map<Key, Ref>, order: seq<Ref>, elements: map<Ref, Pair>)
    requires Linked(items, order, elements)
    ensures Keys(Pairs(order, elements)) == items.Keys
  {
    var ps := Pairs(order, elements);
    forall k | k in items ensures k in Keys(ps) {
      var i :| 0 <= i < |order| && order[i] == items[k];
      PairsAt(order, elements, i);
      assert ps[i] in ps;
    }
    forall p | p in ps ensures p.key in items {
      var i :| 0 <= i < |ps| && ps[i] == p;
      PairsAt(order, elements, i);
      assert order[i] in order;
    }
  }

  lemma LookupPairs(items: map<Key, Ref>, order: seq<Ref>, elements: map<Ref, Pair>, key: Key)
    requires Linked(items, order, elements)
    ensures key in items <==> Lookup(Pairs(order, elements), key).Some?
    ensures key in items ==> Lookup(Pairs(order, elements), key) == Some(elements[items[key]].entry)
  {
    var ps := Pairs(order, elements);
    var r := Lookup(ps, key);
    MapKeys(items, order, elements);
    LookupMember(ps, key);
    if r.Some? {
      var i :| 0 <= i < |ps| && ps[i] == Pair(key, r.value);
      PairsAt(order, elements, i);
      assert order[i] in order;
    }
  }

  lemma {:induction false} UnlinkedMembers(order: seq<Ref>, e: Ref)
    requires NoRepeat(order) && e in order
    ensures forall x :: x in Unlinked(order, e) <==> x in order && x != e
    ensures |Unlinked(order, e)| == |order| - 1 && NoRepeat(Unlinked(order, e))
  {
    var tail := order[1..];
    assert forall i :: 0 <= i < |tail| ==> tail[i] == order[i + 1];
    if order[0] == e {
      UnlinkedAbsent(tail, e);
    } else {
      UnlinkedMembers(tail, e);
      var rest := Unlinked(tail, e);
      assert order[0] !in tail;
      assert forall i :: 0 <= i < |rest| ==> rest[i] in rest;
    }
  }

  lemma {:induction false} UnlinkedAbsent(order: seq<Ref>, e: Ref)
    requires e !in order
    ensures Unlinked(order, e) == order
  {
    if order != [] {
      UnlinkedAbsent(order[1..], e);
    }
  }

  lemma {:induction false} UnlinkedPairs(order: seq<Ref>, elements: map<Ref, Pair>, e: Ref)
    requires forall x :: x in order ==> x in elements
    requires forall x :: x in Unlinked(order, e) ==> x in order
    requires e in elements
    requires forall x :: x in order && x != e ==> elements[x].key != elements[e].key
    ensures Pairs(Unlinked(order, e), elements) == Drop(Pairs(order, elements), {elements[e].key})
  {
    if order != [] {
      var tail := order[1..];
      UnlinkedSubset(tail, e);
      UnlinkedPairs(tail, elements, e);
    }
  }

  lemma {:induction false} UnlinkedSubset(order: seq<Ref>, e: Ref)
    ensures forall x :: x in Unlinked(order, e) ==> x in order && x != e
  {
    if order != [] {
      UnlinkedSubset(order[1..], e);
    }
  }

  lemma UnlinkedLinked(items: map<Key, Ref>, order: seq<Ref>, elements: map<Ref, Pair>, e: Ref)
    requires Linked(items, order, elements) && e in order
    ensures Linked(items - {elements[e].key}, Unlinked(order, e), elements)
    ensures Pairs(Unlinked(order, e), elements) == Drop(Pairs(order, elements), {elements[e].key})
    ensures |Unlinked(order, e)| == |order| - 1 && e !in Unlinked(order, e)
  {
    UnlinkedMembers(order, e);
    KeysApart(items, order, elements, e);
    UnlinkedPairs(order, elements, e);
    WithoutLinked(items, order, elements, e, Unlinked(order, e));
  }

  lemma KeysApart(items: map<Key, Ref>, order: seq<Ref>, elements: map<Ref, Pair>, e: Ref)
    requires Linked(items, order, elements) && e in order
    ensures forall x :: x in order && x != e ==> elements[x].key != elements[e].key
  {
  }

  lemma WithoutLinked(items: map<Key, Ref>, order: seq<Ref>, elements: map<Ref, Pair>, e: Ref, rest: seq<Ref>)
    requires Linked(items, order, elements) && e in order
    requires NoRepeat(rest) && forall x :: x in rest <==> x in order && x != e
    ensures Linked(items - {elements[e].key}, rest, elements)
  {
  }

  /** Linking an element that is in neither the map nor the list, at the front. */
  lemma LinkedFront(items: map<Key, Ref>, order: seq<Ref>, elements: map<Ref, Pair>, e: Ref)
    requires e in elements && elements[e].key !in items && e !in order
    requires Linked(items, order, elements)
    ensures Linked(items[elements[e].key := e], [e] + order, elements)
    ensures Pairs([e] + order, elements) == [elements[e]] + Pairs(order, elements)
  {
    assert forall i :: 0 <= i < |order| ==> order[i] in order;
    assert ([e] + order)[1..] == order;
  }

  /** Contents written to an element outside the list leave the list alone. */
  lemma LinkedFrame(items: map<Key, Ref>, order: seq<Ref>, elements: map<Ref, Pair>, e: Ref, p: Pair)
    requires Linked(items, order, elements) && e !in order
    ensures Linked(items, order, elements[e := p])
    ensures Pairs(order, elements[e := p]) == Pairs(order, elements)
  {
    PairsFrame(order, elements, elements[e := p]);
  }

  /** Writing a listed element's entry and moving it to the front. */
  lemma MovedLinked(items: map<Key, Ref>, order: seq<Ref>, elements: map<Ref, Pair>, e: Ref, entry: Entry)
    requires Linked(items, order, elements) && e in order
    ensures Linked(items, [e] + Unlinked(order, e), elements[e := Pair(elements[e].key, entry)])
    ensures Pairs([e] + Unlinked(order, e), elements[e := Pair(elements[e].key, entry)]) ==
      [Pair(elements[e].key, entry)] + Drop(Pairs(order, elements), {elements[e].key})
    ensures |[e] + Unlinked(order, e)| == |order|
  {
    var key, p := elements[e].key, Pair(elements[e].key, entry);
    UnlinkedLinked(items, order, elements, e);
    LinkedFrame(items - {key}, Unlinked(order, e), elements, e, p);
    LinkedFront(items - {key}, Unlinked(order, e), elements[e := p], e);
    assert (items - {key})[key := e] == items;
  }

  lemma {:induction false} DropLast(items: seq<Pair>)
    requires Distinct(items) && items != []
    ensures Drop(items, {items[|items| - 1].key}) == items[..|items| - 1]
  {
    if |items| > 1 {
      DropLast(items[1..]);
      assert items[1..][..|items| - 2] == items[..|items| - 1][1..];
    }
  }

  // ----------------------------------------------------------------------------
  // What a purge of a domain takes
  // ----------------------------------------------------------------------------

  /** The same letters, whether capital or small. */
  predicate SameLetters(a: string, b: string) {
    |a| == |b| && forall i :: 0 <= i < |a| ==> Strings.LowerChar(a[i]) == Strings.LowerChar(b[i])
  }

  /** The name is the domain with a trailing dot, which the domain itself may have. */
  predicate IsDomain(name: string, domain: string)
    requires domain != ""
  {
    if domain[|domain| - 1] == '.' then SameLetters(name, domain) else SameLetters(name, domain + ".")
  }

  lemma SameNameIff(name: string, domain: string)
    requires domain != ""
    ensures SameName(domain)(name) <==> IsDomain(name, domain)
  {
    var target := if domain[|domain| - 1] == '.' then domain else domain + ".";
    assert Strings.HasSuffix(domain, ".") <==> domain[|domain| - 1] == '.';
    if Strings.Lower(name) == Strings.Lower(target) {
      forall i | 0 <= i < |name| ensures Strings.LowerChar(name[i]) == Strings.LowerChar(target[i]) {
        assert Strings.Lower(name)[i] == Strings.Lower(target)[i];
      }
    }
  }

  /** It takes exactly the entries of that name, of every type, and leaves the others with what they hold. */
  lemma PurgeTakesIff(l: Lru, domain: string, p: Pair)
    requires domain != "" && p in l.items
    ensures p in PurgeNamed(l, SameName(domain)).items <==> !IsDomain(p.key.name, domain)
  {
    SameNameIff(p.key.name, domain);
    DropMembers(l.items, Named(l.items, SameName(domain)));
  }
}
