/** Sets of apex domains, matched by stripping one label at a time. */
module DomainSets {
  import opened Strings

  /** An entry as it is stored: without a leading "*." and in lower case. */
  function Normal(entry: string): string {
    Lower(TrimPrefix(entry, "*."))
  }

  /** The domain is the apex or lies below it. */
  predicate Under(domain: string, apex: string) {
    domain == apex || HasSuffix(domain, "." + apex)
  }

  ghost predicate Covered(apices: set<string>, domain: string) {
    exists e :: e in apices && Under(domain, e)
  }

  method NewDomainSet(entries: seq<string>) returns (apices: set<string>)
    ensures forall a :: a in apices <==> a != "" && exists i :: 0 <= i < |entries| && a == Normal(entries[i])
  {
    apices := {};
    var i := 0;
    while i < |entries|
      invariant 0 <= i <= |entries|
      invariant forall a :: a in apices <==> a != "" && exists j :: 0 <= j < i && a == Normal(entries[j])
    {
      var e := Normal(entries[i]);
      if e != "" { apices := apices + {e}; }
      i := i + 1;
    }
  }

  /** Below an apex: the apex is what follows a dot. */
  lemma BelowAt(domain: string, apex: string)
    ensures HasSuffix(domain, "." + apex) <==>
      |domain| > |apex| && domain[|domain| - |apex| - 1] == '.' && domain[|domain| - |apex|..] == apex
  {
    if |domain| > |apex| {
      var at := |domain| - |apex| - 1;
      assert domain[at..] == [domain[at]] + domain[at + 1..];
    }
  }

  lemma StripBelow(domain: string, apex: string, dot: nat)
    requires dot < |domain| && domain[dot] == '.' && '.' !in domain[..dot]
    ensures HasSuffix(domain, "." + apex) <==> domain[dot + 1..] == apex || HasSuffix(domain[dot + 1..], "." + apex)
  {
    var rest, at := domain[dot + 1..], |domain| - |apex| - 1;
    BelowAt(domain, apex);
    BelowAt(rest, apex);
    if dot <= at {
      assert rest[at - dot..] == domain[at + 1..];
      if dot < at { assert rest[at - dot - 1] == domain[at]; }
    } else if 0 <= at {
      assert domain[at] == domain[..dot][at];
    }
  }

  /** What lies below an apex is the apex, or lies below it after its first label is stripped. */
  lemma StripLabel(domain: string, apex: string)
    requires domain != apex
    ensures Under(domain, apex) <==>
      IndexOf(domain, '.') >= 0 && Under(domain[IndexOf(domain, '.') + 1..], apex)
  {
    var dot := IndexOf(domain, '.');
    if dot >= 0 {
      StripBelow(domain, apex, dot);
    } else {
      BelowAt(domain, apex);
    }
  }

  lemma CoveredStep(apices: set<string>, domain: string)
    requires domain !in apices
    ensures Covered(apices, domain) <==>
      IndexOf(domain, '.') >= 0 && Covered(apices, domain[IndexOf(domain, '.') + 1..])
  {
    forall e | e in apices
      ensures Under(domain, e) <==> IndexOf(domain, '.') >= 0 && Under(domain[IndexOf(domain, '.') + 1..], e)
    {
      StripLabel(domain, e);
    }
  }

  /** The label-stripping lookup decides the suffix specification. */
  method Matches(apices: set<string>, domain: string) returns (r: bool)
    ensures r <==> Covered(apices, domain)
  {
    var d := domain;
    while true
      invariant Covered(apices, domain) <==> Covered(apices, d)
      decreases |d|
    {
      if d in apices {
        assert Under(d, d);
        return true;
      }
      var dot := IndexOf(d, '.');
      CoveredStep(apices, d);
      if dot < 0 {
        return false;
      }
      d := d[dot + 1..];
    }
  }

  lemma CoveredMonotone(apices: set<string>, more: set<string>, domain: string)
    requires apices <= more && Covered(apices, domain)
    ensures Covered(more, domain)
  {
  }
}
