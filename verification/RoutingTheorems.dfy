/** Resolution ignores domain letter case, takes at most one alias hop and is a fixed point. */
module RoutingTheorems {
  import opened Options
  import opened Text
  import opened Addresses
  import opened Routing

  // ---------------------------------------------------------------- letter case

  lemma {:induction false} FindDomainFolds(ds: Domains, a: string, b: string)
    requires Fold(a) == Fold(b)
    ensures FindDomain(ds, a) == FindDomain(ds, b)
  {
    if ds != [] {
      FindDomainFolds(ds[1..], a, b);
    }
  }

  lemma {:induction false} FindRecipientFolds(list: seq<string>, a: string, b: string)
    requires SameMailbox(a, b)
    ensures FindRecipient(list, a) == FindRecipient(list, b)
  {
    if list != [] {
      FindRecipientFolds(list[1..], a, b);
    }
  }

  lemma {:induction false} FindAliasFolds(list: seq<Alias>, a: string, b: string)
    requires SameMailbox(a, b)
    ensures FindAlias(list, a) == FindAlias(list, b)
  {
    if list != [] {
      FindAliasFolds(list[1..], a, b);
    }
  }

  lemma CanonicalIgnoresCase(ds: Domains, a: string, b: string)
    requires SameMailbox(a, b)
    ensures Canonical(ds, a) == Canonical(ds, b)
  {
    SameMailboxSameValidity(a, b);
    var x, y := Split(a).value, Split(b).value;
    FindDomainFolds(ds, x.domain, y.domain);
    var d := FindDomain(ds, x.domain);
    if d.Some? {
      FindRecipientFolds(d.value.recipients, a, b);
      FindAliasFolds(d.value.aliases, a, b);
    }
  }

  /** Two spellings of one mailbox resolve alike, in every configuration. */
  lemma ResolutionIgnoresCase(ds: Domains, a: string, b: string)
    requires SameMailbox(a, b)
    ensures Resolve(ds, a) == Resolve(ds, b)
  {
    CanonicalIgnoresCase(ds, a, b);
    var x, y := Split(a).value, Split(b).value;
    FindDomainFolds(ds, x.domain, y.domain);
    var d := FindDomain(ds, x.domain);
    if d.Some? {
      FindAliasFolds(d.value.aliases, a, b);
    }
  }

  // ---------------------------------------------------------------- fixed point

  /** The canonical spelling names the same mailbox. */
  lemma CanonicalIsSameMailbox(ds: Domains, a: string)
    requires Canonical(ds, a).Some?
    ensures SameMailbox(Canonical(ds, a).value.address, a)
  {
    var m, l := Split(a).value, Canonical(ds, a).value;
    if FindRecipient(l.owner.recipients, a).None? {
      FoldKeepsAt(m.domain);
      FoldTwice(l.owner.name);
      SplitJoin(Mailbox(m.local, Fold(l.owner.name)));
    }
  }

  lemma CanonicalIsFixed(ds: Domains, a: string)
    requires Canonical(ds, a).Some?
    ensures Canonical(ds, Canonical(ds, a).value.address) == Canonical(ds, a)
  {
    CanonicalIsSameMailbox(ds, a);
    CanonicalIgnoresCase(ds, Canonical(ds, a).value.address, a);
  }

  /** Resolving a destination returns it with the same hosts. */
  lemma ResolutionIsFixed(ds: Domains, a: string)
    requires Resolve(ds, a).Some?
    ensures var r := Resolve(ds, a).value;
            Resolve(ds, r.destination) == Some(Recipient(r.destination, r.destination, r.hosts))
  {
    if Canonical(ds, a).Some? {
      CanonicalIsFixed(ds, a);
    } else {
      var hop := FindAlias(FindDomain(ds, Split(a).value.domain).value.aliases, a).value;
      CanonicalIsFixed(ds, hop.target);
    }
  }

  // ---------------------------------------------------------------- validated configurations

  /** The domain that owns an address is the one the lookup finds. */
  lemma OwnerFound(ds: Domains, d: Domain, a: string)
    requires WellFormed(ds) && d in ds && Within(a, d)
    ensures FindDomain(ds, Split(a).value.domain) == Some(d)
  {
    var name := Split(a).value.domain;
    var e := FindDomain(ds, name).value;
    var i :| 0 <= i < |ds| && ds[i] == d;
    var j :| 0 <= j < |ds| && ds[j] == e;
    SameName(ds, i, j);
  }

  lemma SameName(ds: Domains, i: nat, j: nat)
    requires Distinct(Names(ds)) && i < |ds| && j < |ds| && Fold(ds[i].name) == Fold(ds[j].name)
    ensures i == j
  {
    assert Names(ds)[i] == Names(ds)[j];
  }

  lemma {:induction false} KeysIncluded(ds: Domains, d: Domain)
    requires d in ds
    ensures forall x :: x in RecipientKeys(d) ==> x in Canonicals(ds)
    ensures forall x :: x in AliasKeys(d) ==> x in Aliases(ds)
    ensures Distinct(Canonicals(ds)) ==> Distinct(RecipientKeys(d))
    ensures Distinct(Aliases(ds)) ==> Distinct(AliasKeys(d))
  {
    var init, last := ds[..|ds| - 1], ds[|ds| - 1];
    assert ds == init + [last];
    if d in init {
      KeysIncluded(init, d);
      PrefixesDistinct(Canonicals(init), RecipientKeys(last));
      PrefixesDistinct(Aliases(init), AliasKeys(last));
    } else {
      PrefixesDistinct(Canonicals(init), RecipientKeys(last));
      PrefixesDistinct(Aliases(init), AliasKeys(last));
    }
  }

  lemma PrefixesDistinct(s: seq<string>, t: seq<string>)
    ensures Distinct(s + t) ==> Distinct(s) && Distinct(t)
  {
    if Distinct(s + t) {
      forall a, b | 0 <= a < b < |s| ensures s[a] != s[b] {
        assert (s + t)[a] != (s + t)[b];
      }
      forall a, b | 0 <= a < b < |t| ensures t[a] != t[b] {
        assert (s + t)[|s| + a] != (s + t)[|s| + b];
      }
    }
  }

  lemma RecipientKeyListed(ds: Domains, d: Domain, r: string)
    requires d in ds && r in d.recipients
    ensures Key(r) in Canonicals(ds)
  {
    KeysIncluded(ds, d);
    var i :| 0 <= i < |d.recipients| && d.recipients[i] == r;
    assert RecipientKeys(d)[i] in RecipientKeys(d);
  }

  lemma AliasKeyListed(ds: Domains, d: Domain, a: Alias)
    requires d in ds && a in d.aliases
    ensures Key(a.name) in Aliases(ds)
  {
    KeysIncluded(ds, d);
    var i :| 0 <= i < |d.aliases| && d.aliases[i] == a;
    assert AliasKeys(d)[i] in AliasKeys(d);
  }

  /** A mailbox is never both an alias and a configured recipient. */
  lemma AliasesShadowNothing(ds: Domains, d: Domain, e: Domain, r: string, a: Alias)
    requires WellFormed(ds) && d in ds && e in ds && r in d.recipients && a in e.aliases
    ensures !SameMailbox(a.name, r)
  {
    RecipientKeyListed(ds, d, r);
    AliasKeyListed(ds, e, a);
    if SameMailbox(a.name, r) {
      KeysIdentify(a.name, r);
    }
  }

  /** Every configured recipient resolves to itself over the routes of its domain. */
  lemma RecipientsResolveToThemselves(ds: Domains, d: Domain, r: string)
    requires WellFormed(ds) && d in ds && r in d.recipients
    ensures Resolve(ds, r) == Some(Recipient(r, r, d.nextHops))
  {
    assert Within(r, d);
    OwnerFound(ds, d, r);
    var hop, found := FindAlias(d.aliases, r), FindRecipient(d.recipients, r);
    if hop.Some? {
      AliasesShadowNothing(ds, d, d, r, hop.value);
    }
    assert SameMailbox(r, r);
    KeysIncluded(ds, d);
  }

  /** Every configured alias resolves, in one hop, to its canonical target. */
  lemma AliasesResolve(ds: Domains, d: Domain, a: Alias)
    requires WellFormed(ds) && d in ds && a in d.aliases
    ensures Canonical(ds, a.target).Some?
    ensures var l := Canonical(ds, a.target).value;
            Resolve(ds, a.name) == Some(Recipient(a.name, l.address, l.owner.nextHops))
  {
    assert AliasOk(ds, d, a);
    OwnerFound(ds, d, a.name);
    assert SameMailbox(a.name, a.name);
    var found := FindAlias(d.aliases, a.name);
    KeysIncluded(ds, d);
  }

  lemma AliasIsNotCanonical(ds: Domains, d: Domain, a: Alias)
    requires WellFormed(ds) && d in ds && a in d.aliases
    ensures Canonical(ds, a.name).None?
  {
    assert AliasOk(ds, d, a);
    OwnerFound(ds, d, a.name);
    assert SameMailbox(a.name, a.name);
  }

  lemma DestinationIsCanonical(ds: Domains, x: string)
    requires Resolve(ds, x).Some?
    ensures Canonical(ds, Resolve(ds, x).value.destination).Some?
  {
    if Canonical(ds, x).Some? {
      CanonicalIsFixed(ds, x);
    } else {
      CanonicalIsFixed(ds, FindAlias(FindDomain(ds, Split(x).value.domain).value.aliases, x).value.target);
    }
  }

  /** No destination is an alias of any domain. */
  lemma DestinationIsNoAlias(ds: Domains, x: string, d: Domain, a: Alias)
    requires WellFormed(ds) && Resolve(ds, x).Some? && d in ds && a in d.aliases
    ensures !SameMailbox(a.name, Resolve(ds, x).value.destination)
  {
    DestinationIsCanonical(ds, x);
    AliasIsNotCanonical(ds, d, a);
    if SameMailbox(a.name, Resolve(ds, x).value.destination) {
      CanonicalIgnoresCase(ds, a.name, Resolve(ds, x).value.destination);
    }
  }

  /** A resolved message goes directly, or through one declared alias, to a mailbox with a route. */
  lemma AtMostOneHop(ds: Domains, x: string)
    requires WellFormed(ds) && Resolve(ds, x).Some?
    ensures var r := Resolve(ds, x).value;
            && r.hosts != []
            && SameMailbox(r.address, x)
            && (r.address == r.destination
                || exists d, a :: d in ds && a in d.aliases && a.name == r.address
                                  && Canonical(ds, a.target).Some?
                                  && r.destination == Canonical(ds, a.target).value.address)
  {
    var r := Resolve(ds, x).value;
    if Canonical(ds, x).Some? {
      CanonicalIsSameMailbox(ds, x);
      LandingHasRoute(ds, x);
    } else {
      var d := FindDomain(ds, Split(x).value.domain).value;
      var hop := FindAlias(d.aliases, x).value;
      LandingHasRoute(ds, hop.target);
      assert d in ds && hop in d.aliases;
    }
  }

  lemma LandingHasRoute(ds: Domains, x: string)
    requires WellFormed(ds) && Canonical(ds, x).Some?
    ensures Canonical(ds, x).value.owner.nextHops != []
  {
    var d := Canonical(ds, x).value.owner;
    assert d in ds && RecipientsOk(d);
  }

  /** The address names a declared alias, a configured recipient or an accept-all domain. */
  ghost predicate ServedBy(d: Domain, x: string) {
    Within(x, d)
    && (d.acceptAll || (exists r :: r in d.recipients && SameMailbox(r, x))
        || (exists a :: a in d.aliases && SameMailbox(a.name, x)))
  }

  lemma ServedResolves(ds: Domains, d: Domain, x: string)
    requires WellFormed(ds) && d in ds && ServedBy(d, x)
    ensures Resolve(ds, x).Some?
  {
    OwnerFound(ds, d, x);
    var hop := FindAlias(d.aliases, x);
    assert hop.Some? ==> AliasOk(ds, d, hop.value);
  }

  /** A validated configuration accepts exactly the addresses it serves. */
  lemma ResolvesExactlyServed(ds: Domains, x: string)
    requires WellFormed(ds)
    ensures Resolve(ds, x).Some? <==> exists d :: d in ds && ServedBy(d, x)
  {
    if Resolve(ds, x).Some? {
      var d := FindDomain(ds, Split(x).value.domain).value;
      if Canonical(ds, x).None? {
        var a := FindAlias(d.aliases, x).value;
        assert AliasOk(ds, d, a);
        SameMailboxSameValidity(a.name, x);
      }
      assert d in ds && ServedBy(d, x);
    }
    forall d | d in ds && ServedBy(d, x) ensures Resolve(ds, x).Some? {
      ServedResolves(ds, d, x);
    }
  }

  /** A fallback mailbox resolves without alias inside its own domain, which then verifies no recipients. */
  lemma FallbackIsServed(ds: Domains, d: Domain)
    requires WellFormed(ds) && d in ds && d.fallback.Some?
    ensures !d.verified && d.nextHops != []
    ensures var r := Resolve(ds, d.fallback.value);
            r.Some? && r.value.address == r.value.destination && r.value.hosts == d.nextHops
            && SameMailbox(r.value.address, d.fallback.value)
  {
    assert AliasesOk(ds, d) && RecipientsOk(d);
    OwnerFound(ds, d, d.fallback.value);
    CanonicalIsSameMailbox(ds, d.fallback.value);
    LandingHasRoute(ds, d.fallback.value);
  }
}
