/** Recipient resolution over the configured domains, and the validation that makes it a fixed point. */
module Routing {
  import opened Options
  import opened Text
  import opened Addresses

  datatype Alias = Alias(name: string, target: string)

  datatype Domain = Domain(name: string, nextHops: seq<string>, acceptAll: bool, recipients: seq<string>,
                           aliases: seq<Alias>, fallback: Option<string>, verified: bool)

  datatype Recipient = Recipient(address: string, destination: string, hosts: seq<string>)

  datatype Landing = Landing(address: string, owner: Domain)

  type Domains = seq<Domain>

  // ---------------------------------------------------------------- lookups

  predicate Named(d: Domain, name: string) { Fold(d.name) == Fold(name) }

  function FindDomain(ds: Domains, name: string): (d: Option<Domain>)
    ensures d.Some? ==> d.value in ds && Named(d.value, name)
    ensures d.None? ==> forall e :: e in ds ==> !Named(e, name)
  {
    if ds == [] then None
    else if Named(ds[0], name) then Some(ds[0])
    else
      assert ds == [ds[0]] + ds[1..];
      FindDomain(ds[1..], name)
  }

  function FindRecipient(list: seq<string>, address: string): (r: Option<string>)
    ensures r.Some? ==> r.value in list && SameMailbox(r.value, address)
    ensures r.None? ==> forall x :: x in list ==> !SameMailbox(x, address)
  {
    if list == [] then None
    else if SameMailbox(list[0], address) then Some(list[0])
    else
      assert list == [list[0]] + list[1..];
      FindRecipient(list[1..], address)
  }

  function FindAlias(list: seq<Alias>, address: string): (r: Option<Alias>)
    ensures r.Some? ==> r.value in list && SameMailbox(r.value.name, address)
    ensures r.None? ==> forall x :: x in list ==> !SameMailbox(x.name, address)
  {
    if list == [] then None
    else if SameMailbox(list[0].name, address) then Some(list[0])
    else
      assert list == [list[0]] + list[1..];
      FindAlias(list[1..], address)
  }

  /** The mailbox that an address names without any alias. */
  function Canonical(ds: Domains, address: string): Option<Landing> {
    if !ValidAddress(address) then None
    else
      var m := Split(address).value;
      var found := FindDomain(ds, m.domain);
      if found.None? then None
      else
        var d := found.value;
        if FindAlias(d.aliases, address).Some? then None
        else
          var configured := FindRecipient(d.recipients, address);
          if configured.Some? then Some(Landing(configured.value, d))
          else if d.acceptAll then Some(Landing(m.local + "@" + Fold(d.name), d))
          else None
  }

  function Resolve(ds: Domains, address: string): Option<Recipient> {
    var direct := Canonical(ds, address);
    if direct.Some? then
      Some(Recipient(direct.value.address, direct.value.address, direct.value.owner.nextHops))
    else
      var m := Split(address);
      if m.None? then None
      else
        var incoming := FindDomain(ds, m.value.domain);
        if incoming.None? then None
        else
          var hop := FindAlias(incoming.value.aliases, address);
          if hop.None? then None
          else
            var landing := Canonical(ds, hop.value.target);
            if landing.None? then None
            else Some(Recipient(hop.value.name, landing.value.address, landing.value.owner.nextHops))
  }

  // ---------------------------------------------------------------- well-formed configurations

  predicate Within(address: string, d: Domain) {
    ValidAddress(address) && Named(d, Split(address).value.domain)
  }

  predicate RecipientsOk(d: Domain) {
    ((d.recipients == [] && !d.acceptAll) || d.nextHops != []) && forall r :: r in d.recipients ==> Within(r, d)
  }

  predicate FallbackOk(ds: Domains, d: Domain) {
    && (d.verified ==> d.nextHops != [] && d.fallback.None?)
    && (d.fallback.Some? ==> Within(d.fallback.value, d) && Canonical(ds, d.fallback.value).Some?)
  }

  predicate AliasOk(ds: Domains, d: Domain, a: Alias) {
    Within(a.name, d) && Canonical(ds, a.target).Some?
  }

  function RecipientKeys(d: Domain): (s: seq<string>)
    ensures |s| == |d.recipients| && forall k :: 0 <= k < |s| ==> s[k] == Key(d.recipients[k])
  {
    seq(|d.recipients|, k requires 0 <= k < |d.recipients| => Key(d.recipients[k]))
  }

  function AliasKeys(d: Domain): (s: seq<string>)
    ensures |s| == |d.aliases| && forall k :: 0 <= k < |s| ==> s[k] == Key(d.aliases[k].name)
  {
    seq(|d.aliases|, k requires 0 <= k < |d.aliases| => Key(d.aliases[k].name))
  }

  /** All keys of the first n domains: recipients, and then aliases. */
  function Canonicals(ds: Domains): seq<string> {
    if ds == [] then [] else Canonicals(ds[..|ds| - 1]) + RecipientKeys(ds[|ds| - 1])
  }

  function Aliases(ds: Domains): seq<string> {
    if ds == [] then [] else Aliases(ds[..|ds| - 1]) + AliasKeys(ds[|ds| - 1])
  }

  function Names(ds: Domains): (s: seq<string>)
    ensures |s| == |ds| && forall k :: 0 <= k < |s| ==> s[k] == Fold(ds[k].name)
  {
    seq(|ds|, k requires 0 <= k < |ds| => Fold(ds[k].name))
  }

  ghost predicate Distinct(s: seq<string>) { forall a, b :: 0 <= a < b < |s| ==> s[a] != s[b] }

  ghost predicate Disjoint(s: seq<string>, t: seq<string>) { forall x :: x in s ==> x !in t }

  /** What validation promises about domains, recipients and aliases. */
  ghost predicate WellFormed(ds: Domains) {
    && ds != []
    && (forall d :: d in ds ==> ValidDomain(d.name) && RecipientsOk(d) && AliasesOk(ds, d))
    && Distinct(Names(ds)) && Distinct(Canonicals(ds)) && Distinct(Aliases(ds))
    && Disjoint(Aliases(ds), Canonicals(ds))
  }

  // ---------------------------------------------------------------- validation loops

  lemma DistinctSnoc(s: seq<string>, x: string)
    ensures Distinct(s + [x]) <==> Distinct(s) && x !in s
  {
    var t := s + [x];
    if Distinct(t) {
      assert forall k :: 0 <= k < |s| ==> t[k] == s[k];
      assert t[|s|] == x;
    }
  }

  lemma {:induction false} DistinctPrefix(s: seq<string>, t: seq<string>)
    requires !Distinct(s)
    ensures !Distinct(s + t)
  {
    var a, b :| 0 <= a < b < |s| && s[a] == s[b];
    assert (s + t)[a] == (s + t)[b];
  }

  /** Inserts the keys into the set; fails at the first one already there or in the forbidden set. */
  method InsertAll(keys: seq<string>, ghost before: seq<string>, seen: set<string>, forbidden: set<string>)
    returns (ok: bool, all: set<string>)
    requires Distinct(before) && forall x :: x in seen <==> x in before
    ensures ok <==> Distinct(before + keys) && forall x :: x in keys ==> x !in forbidden
    ensures ok ==> forall x :: x in all <==> x in before + keys
  {
    all := seen;
    assert before + keys[..0] == before;
    for i := 0 to |keys|
      invariant Distinct(before + keys[..i]) && forall x :: x in keys[..i] ==> x !in forbidden
      invariant forall x :: x in all <==> x in before + keys[..i]
    {
      assert before + keys[..i + 1] == before + keys[..i] + [keys[i]];
      DistinctSnoc(before + keys[..i], keys[i]);
      if keys[i] in forbidden || keys[i] in all {
        ok := false;
        if keys[i] in all {
          DistinctPrefix(before + keys[..i + 1], keys[i + 1..]);
          assert before + keys[..i + 1] + keys[i + 1..] == before + keys;
        }
        return;
      }
      all := all + {keys[i]};
    }
    ok := true;
    assert keys[..|keys|] == keys;
  }

  lemma Snoc(ds: Domains, i: nat)
    requires i < |ds|
    ensures Canonicals(ds[..i + 1]) == Canonicals(ds[..i]) + RecipientKeys(ds[i])
    ensures Aliases(ds[..i + 1]) == Aliases(ds[..i]) + AliasKeys(ds[i])
    ensures Names(ds[..i + 1]) == Names(ds[..i]) + [Fold(ds[i].name)]
  {
    assert ds[..i + 1][..i] == ds[..i];
  }

  /** Duplicates among the first keys remain duplicates in the whole list. */
  lemma {:induction false} PrefixDuplicates(ds: Domains, i: nat)
    requires i <= |ds|
    ensures !Distinct(Names(ds[..i])) ==> !Distinct(Names(ds))
    ensures !Distinct(Canonicals(ds[..i])) ==> !Distinct(Canonicals(ds))
    ensures !Distinct(Aliases(ds[..i])) ==> !Distinct(Aliases(ds))
    decreases |ds| - i
  {
    if i == |ds| {
      assert ds[..i] == ds;
    } else {
      Snoc(ds, i);
      Prolonged(Names(ds[..i]), [Fold(ds[i].name)]);
      Prolonged(Canonicals(ds[..i]), RecipientKeys(ds[i]));
      Prolonged(Aliases(ds[..i]), AliasKeys(ds[i]));
      PrefixDuplicates(ds, i + 1);
    }
  }

  lemma Prolonged(s: seq<string>, t: seq<string>)
    ensures !Distinct(s) ==> !Distinct(s + t)
  {
    if !Distinct(s) {
      DistinctPrefix(s, t);
    }
  }

  /** A key listed by some domain is in the whole list. */
  lemma {:induction false} KeyListed(ds: Domains, i: nat, x: string)
    requires i <= |ds| && x in Aliases(ds[..i])
    ensures x in Aliases(ds)
    decreases |ds| - i
  {
    if i == |ds| {
      assert ds[..i] == ds;
    } else {
      Snoc(ds, i);
      KeyListed(ds, i + 1, x);
    }
  }

  /** The set holds exactly the keys, which are distinct. */
  ghost predicate Holds(seen: set<string>, keys: seq<string>) {
    Distinct(keys) && forall x :: x in seen <==> x in keys
  }

  ghost predicate DomainsOk(ds: Domains) {
    Distinct(Names(ds)) && Distinct(Canonicals(ds)) && forall d :: d in ds ==> ValidDomain(d.name) && RecipientsOk(d)
  }

  /** Checks one domain and records its name and recipients. */
  method CheckDomain(ds: Domains, i: nat, names: set<string>, canonical: set<string>)
    returns (ok: bool, names': set<string>, canonical': set<string>)
    requires i < |ds| && Holds(names, Names(ds[..i])) && Holds(canonical, Canonicals(ds[..i]))
    ensures ok ==> Holds(names', Names(ds[..i + 1])) && Holds(canonical', Canonicals(ds[..i + 1]))
    ensures ok ==> ValidDomain(ds[i].name) && RecipientsOk(ds[i])
    ensures !ok ==> !DomainsOk(ds)
  {
    Snoc(ds, i);
    PrefixDuplicates(ds, i + 1);
    assert ds[i] in ds;
    ok, names' := InsertAll([Fold(ds[i].name)], Names(ds[..i]), names, {});
    canonical' := canonical;
    if ok && ValidDomain(ds[i].name) && RecipientsOk(ds[i]) {
      ok, canonical' := InsertAll(RecipientKeys(ds[i]), Canonicals(ds[..i]), canonical, {});
    } else {
      ok := false;
    }
  }

  /** First pass: names, routes and canonical recipients. */
  method CheckDomains(ds: Domains) returns (ok: bool, canonical: set<string>)
    ensures ok <==> DomainsOk(ds)
    ensures ok ==> Holds(canonical, Canonicals(ds))
  {
    var names := {};
    canonical := {};
    assert ds[..0] == [];
    for i := 0 to |ds|
      invariant Holds(names, Names(ds[..i])) && Holds(canonical, Canonicals(ds[..i]))
      invariant forall k :: 0 <= k < i ==> ValidDomain(ds[k].name) && RecipientsOk(ds[k])
    {
      ok, names, canonical := CheckDomain(ds, i, names, canonical);
      if !ok {
        return;
      }
    }
    ok := true;
    assert ds[..|ds|] == ds;
  }

  lemma ShadowedRemains(ds: Domains, i: nat)
    requires i < |ds| && exists x :: x in AliasKeys(ds[i]) && x in Canonicals(ds)
    ensures !Disjoint(Aliases(ds), Canonicals(ds))
  {
    var x :| x in AliasKeys(ds[i]) && x in Canonicals(ds);
    Snoc(ds, i);
    KeyListed(ds, i + 1, x);
  }

  ghost predicate AliasesOk(ds: Domains, d: Domain) {
    FallbackOk(ds, d) && forall a :: a in d.aliases ==> AliasOk(ds, d, a)
  }

  ghost predicate AllAliasesOk(ds: Domains) {
    && Distinct(Aliases(ds)) && Disjoint(Aliases(ds), Canonicals(ds))
    && forall d :: d in ds ==> AliasesOk(ds, d)
  }

  /** Checks fallback and aliases of one domain and records the aliases. */
  method CheckDomainAliases(ds: Domains, i: nat, aliases: set<string>, canonical: set<string>)
    returns (ok: bool, aliases': set<string>)
    requires i < |ds| && Holds(aliases, Aliases(ds[..i])) && Disjoint(Aliases(ds[..i]), Canonicals(ds))
    requires forall x :: x in canonical <==> x in Canonicals(ds)
    ensures ok ==> Holds(aliases', Aliases(ds[..i + 1])) && Disjoint(Aliases(ds[..i + 1]), Canonicals(ds))
    ensures ok ==> AliasesOk(ds, ds[i])
    ensures !ok ==> !AllAliasesOk(ds)
  {
    Snoc(ds, i);
    PrefixDuplicates(ds, i + 1);
    assert ds[i] in ds;
    if !FallbackOk(ds, ds[i]) || exists a :: a in ds[i].aliases && !AliasOk(ds, ds[i], a) {
      return false, aliases;
    }
    ok, aliases' := InsertAll(AliasKeys(ds[i]), Aliases(ds[..i]), aliases, canonical);
    if !ok && Distinct(Aliases(ds[..i + 1])) {
      ShadowedRemains(ds, i);
    }
  }

  /** Second pass: fallbacks and aliases against the canonical keys. */
  method CheckAliases(ds: Domains, canonical: set<string>) returns (ok: bool)
    requires forall x :: x in canonical <==> x in Canonicals(ds)
    ensures ok <==> AllAliasesOk(ds)
  {
    var aliases := {};
    assert ds[..0] == [];
    for i := 0 to |ds|
      invariant Holds(aliases, Aliases(ds[..i])) && Disjoint(Aliases(ds[..i]), Canonicals(ds))
      invariant forall k :: 0 <= k < i ==> AliasesOk(ds, ds[k])
    {
      ok, aliases := CheckDomainAliases(ds, i, aliases, canonical);
      if !ok {
        return;
      }
    }
    ok := true;
    assert ds[..|ds|] == ds;
  }

  /** Validation accepts exactly the well-formed configurations. */
  method Validate(ds: Domains) returns (ok: bool)
    ensures ok <==> WellFormed(ds)
  {
    if ds == [] {
      return false;
    }
    var sound, canonical := CheckDomains(ds);
    if !sound {
      return false;
    }
    ok := CheckAliases(ds, canonical);
  }
}
