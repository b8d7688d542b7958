/**
 Schedule bindings are stored under the composite key schedule:profile:blocklist, so
 that deleting a schedule can cascade by key prefix.
 */
module Bindings {
  import opened Strings

  const SEPARATOR := ':'

  datatype Binding = Binding(scheduleId: string, profileId: string, blocklistId: string) {
    function Key(): string {
      scheduleId + [SEPARATOR] + profileId + [SEPARATOR] + blocklistId
    }
  }

  function SchedulePrefix(scheduleId: string): string {
    scheduleId + [SEPARATOR]
  }

  function WithoutPrefix(m: map<string, Binding>, prefix: string): map<string, Binding> {
    map k | k in m && !HasPrefix(k, prefix) :: m[k]
  }

  /** The cascade as the program runs it: collect the keys with the prefix, then delete them. */
  method DropPrefix(m: map<string, Binding>, prefix: string) returns (r: map<string, Binding>)
    ensures r == WithoutPrefix(m, prefix)
  {
    var toDrop: set<string> := {};
    var rest := m.Keys;
    while rest != {}
      invariant rest <= m.Keys
      invariant toDrop == set k | k in m.Keys - rest && HasPrefix(k, prefix)
      decreases rest
    {
      var k :| k in rest;
      if HasPrefix(k, prefix) {
        toDrop := toDrop + {k};
      }
      rest := rest - {k};
    }
    r := m;
    while toDrop != {}
      invariant forall k :: k in r <==> k in m && (k in toDrop || !HasPrefix(k, prefix))
      invariant forall k :: k in toDrop ==> HasPrefix(k, prefix)
      invariant forall k :: k in r ==> r[k] == m[k]
      decreases toDrop
    {
      var k :| k in toDrop;
      r := r - {k};
      toDrop := toDrop - {k};
    }
  }

  // ----------------------------------------------------------------------------
  // Keys
  // ----------------------------------------------------------------------------

  /** Splitting at the first separator is unambiguous. */
  lemma FirstPart(a: string, x: string, b: string, y: string)
    requires SEPARATOR !in a && SEPARATOR !in b
    requires a + [SEPARATOR] + x == b + [SEPARATOR] + y
    ensures a == b && x == y
  {
    var s, t := a + [SEPARATOR] + x, b + [SEPARATOR] + y;
    assert s[|a|] == SEPARATOR && t[|b|] == SEPARATOR;
    assert forall i :: 0 <= i < |a| ==> s[i] in a;
    assert forall i :: 0 <= i < |b| ==> t[i] in b;
    assert |a| == |b|;
    assert a == s[..|a|] && b == t[..|b|];
    assert x == s[|a| + 1..] && y == t[|b| + 1..];
  }

  /** The composite key is injective when schedule and profile ids hold no separator; blocklist ids may. */
  lemma KeyInjective(a: Binding, b: Binding)
    requires SEPARATOR !in a.scheduleId && SEPARATOR !in a.profileId
    requires SEPARATOR !in b.scheduleId && SEPARATOR !in b.profileId
    ensures a.Key() == b.Key() ==> a == b
  {
    if a.Key() == b.Key() {
      var ra, rb := a.profileId + [SEPARATOR] + a.blocklistId, b.profileId + [SEPARATOR] + b.blocklistId;
      assert a.Key() == a.scheduleId + [SEPARATOR] + ra;
      assert b.Key() == b.scheduleId + [SEPARATOR] + rb;
      FirstPart(a.scheduleId, ra, b.scheduleId, rb);
      FirstPart(a.profileId, a.blocklistId, b.profileId, b.blocklistId);
    }
  }

  /** Two different schedule ids confuse the cascade when one continues the other past a separator. */
  predicate Confusable(deleted: string, other: string) {
    HasPrefix(other, SchedulePrefix(deleted)) || HasPrefix(deleted, SchedulePrefix(other))
  }

  /**
   Deleting a schedule can reach a binding of another schedule exactly when the two ids
   are confusable.
   */
  lemma PrefixReaches(deleted: string, other: string)
    requires deleted != other
    ensures Confusable(deleted, other) <==>
      exists p, l :: HasPrefix(Binding(other, p, l).Key(), SchedulePrefix(deleted))
  {
    var sd, so := SchedulePrefix(deleted), SchedulePrefix(other);
    if exists p, l :: HasPrefix(Binding(other, p, l).Key(), sd) {
      var p, l :| HasPrefix(Binding(other, p, l).Key(), sd);
      PrefixConfuses(deleted, other, p, l);
    }
    if HasPrefix(other, sd) {
      assert HasPrefix(Binding(other, "", "").Key(), sd);
    } else if HasPrefix(deleted, so) {
      var p := deleted[|so|..];
      assert deleted == so + p;
      assert Binding(other, p, "").Key() == sd;
      assert HasPrefix(Binding(other, p, "").Key(), sd);
    }
  }

  lemma PrefixConfuses(deleted: string, other: string, p: string, l: string)
    requires deleted != other && HasPrefix(Binding(other, p, l).Key(), SchedulePrefix(deleted))
    ensures Confusable(deleted, other)
  {
    var k, sd, so := Binding(other, p, l).Key(), SchedulePrefix(deleted), SchedulePrefix(other);
    assert k == so + (p + [SEPARATOR] + l);
    assert HasPrefix(k, so);
    assert sd == k[..|sd|] && deleted == sd[..|deleted|] == k[..|deleted|] && other == k[..|other|];
    if |sd| <= |other| {
      assert sd == k[..|sd|] == other[..|sd|];
    } else if |so| <= |deleted| {
      assert so == k[..|so|] == deleted[..|so|];
    }
  }

  /** Every stored binding is under its own key. */
  ghost predicate Keyed(m: map<string, Binding>) {
    forall k :: k in m ==> m[k].Key() == k
  }

  /**
   The cascade of a deleted schedule reaches a binding of another one: that one's id goes on
   past the deleted id and a separator, or the deleted id goes on past that one's id, and
   the rest of the key makes up what is missing.
   */
  predicate Reached(b: Binding, deleted: string) {
    var own := SchedulePrefix(b.scheduleId);
    b.scheduleId != deleted
    && (HasPrefix(b.scheduleId, SchedulePrefix(deleted))
      || (HasPrefix(deleted, own)
        && HasPrefix(b.profileId + [SEPARATOR] + b.blocklistId, SchedulePrefix(deleted[|own|..]))))
  }

  /** The key prefix takes the deleted schedule's own bindings, and exactly the others it reaches. */
  lemma PrefixTakesIff(b: Binding, deleted: string)
    ensures HasPrefix(b.Key(), SchedulePrefix(deleted)) <==> b.scheduleId == deleted || Reached(b, deleted)
  {
    var k, sd, own := b.Key(), SchedulePrefix(deleted), SchedulePrefix(b.scheduleId);
    var tail := b.profileId + [SEPARATOR] + b.blocklistId;
    assert k == own + tail;
    if HasPrefix(deleted, own) {
      var r := deleted[|own|..];
      assert sd == own + SchedulePrefix(r);
      assert k[|own|..] == tail && sd[|own|..] == SchedulePrefix(r);
      assert HasPrefix(k, sd) <==> HasPrefix(tail, SchedulePrefix(r)) by { PrefixUnder(own, tail, SchedulePrefix(r)); }
    }
    if b.scheduleId != deleted && HasPrefix(k, sd) {
      PrefixConfuses(deleted, b.scheduleId, b.profileId, b.blocklistId);
    }
    if HasPrefix(b.scheduleId, sd) {
      assert k[..|sd|] == b.scheduleId[..|sd|];
    }
  }

  lemma PrefixUnder(a: string, x: string, y: string)
    ensures HasPrefix(a + x, a + y) <==> HasPrefix(x, y)
  {
    if HasPrefix(a + x, a + y) {
      assert (a + x)[|a|..] == x && (a + y)[|a|..] == y;
      assert (a + x)[..|a + y|] == a + y;
      assert x[..|y|] == (a + x)[|a|..|a + y|];
    }
    if HasPrefix(x, y) {
      assert a + x == (a + y) + x[|y|..];
    }
  }

  function WithoutSchedule(m: map<string, Binding>, id: string): map<string, Binding> {
    map k | k in m && m[k].scheduleId != id :: m[k]
  }

  /**
   The cascade is exact, removing that schedule's bindings and no others, if and only if it
   reaches no stored binding of another schedule.
   */
  lemma CascadeExactIff(m: map<string, Binding>, id: string)
    requires Keyed(m)
    ensures WithoutPrefix(m, SchedulePrefix(id)) == WithoutSchedule(m, id) <==>
      forall k :: k in m ==> !Reached(m[k], id)
  {
    forall k | k in m ensures HasPrefix(k, SchedulePrefix(id)) <==> m[k].scheduleId == id || Reached(m[k], id) {
      PrefixTakesIff(m[k], id);
    }
    if k :| k in m && Reached(m[k], id) {
      assert k in WithoutSchedule(m, id) && k !in WithoutPrefix(m, SchedulePrefix(id));
    }
  }

  /** So it is exact while no other stored schedule id is confusable with the deleted one. */
  lemma CascadeExact(m: map<string, Binding>, id: string)
    requires Keyed(m)
    requires forall k :: k in m && m[k].scheduleId != id ==> !Confusable(id, m[k].scheduleId)
    ensures WithoutPrefix(m, SchedulePrefix(id)) == WithoutSchedule(m, id)
  {
    CascadeExactIff(m, id);
  }

  /** Ids without a separator are never confusable. */
  lemma PlainIdsNotConfusable(a: string, b: string)
    requires SEPARATOR !in a && SEPARATOR !in b
    ensures !Confusable(a, b)
  {
    ContinuedHasSeparator(a, b);
    ContinuedHasSeparator(b, a);
  }

  lemma ContinuedHasSeparator(a: string, b: string)
    ensures HasPrefix(b, SchedulePrefix(a)) ==> SEPARATOR in b
  {
    if HasPrefix(b, SchedulePrefix(a)) {
      assert b[|a|] == SchedulePrefix(a)[|a|];
    }
  }

  /** With a separator in an id the cascade reaches too far: deleting "a" drops a binding of "a:b". */
  lemma CascadeNeedsPlainIds()
    ensures var b := Binding("a:b", "p", "l");
      WithoutPrefix(map[b.Key() := b], SchedulePrefix("a")) == map[]
  {
    var b := Binding("a:b", "p", "l");
    assert b.Key() == "a:" + "b:p:l";
    assert HasPrefix(b.Key(), SchedulePrefix("a"));
  }
}
