/**
 The rule and profile orders have no ties, so the order in which a policy lists its rules,
 bindings and profiles does not matter.
 */
module RuleOrder {
  import opened Options
  import opened Orders
  import opened Text
  import opened Rules

  /** A rank names one scope string for a recipient. */
  lemma RankNamesScope(a: string, b: string, to: Recipient)
    requires ScopeRank(a, to).Some? && ScopeRank(a, to) == ScopeRank(b, to)
    ensures a == b
  {
    if "*@" <= a && "*@" <= b {
      assert a == "*@" + a[2..] && b == "*@" + b[2..];
    }
  }

  lemma KeyTotal(a: Key, b: Key)
    ensures KeyLe(a, b) || KeyLe(b, a)
    ensures KeyLe(a, b) && KeyLe(b, a) ==> a == b
  {
    StrLeTotal(a.origin, b.origin);
    StrLeTotal(a.id, b.id);
  }

  lemma KeyTransitive(a: Key, b: Key, c: Key)
    requires KeyLe(a, b) && KeyLe(b, c)
    ensures KeyLe(a, c)
  {
    if StrLe(a.origin, b.origin) && StrLe(b.origin, c.origin) {
      StrLeTransitive(a.origin, b.origin, c.origin);
      StrLeTotal(a.origin, b.origin);
    }
    if StrLe(a.id, b.id) && StrLe(b.id, c.id) {
      StrLeTransitive(a.id, b.id, c.id);
    }
  }

  lemma RuleLePreorder(o: Origins, to: Recipient)
    ensures TotalPreorder(RuleLe(o, to))
  {
    var le := RuleLe(o, to);
    forall a, b ensures le(a, b) || le(b, a) {
      KeyTotal(KeyOf(o, to, a), KeyOf(o, to, b));
    }
    forall a, b, c | le(a, b) && le(b, c) ensures le(a, c) {
      KeyTransitive(KeyOf(o, to, a), KeyOf(o, to, b), KeyOf(o, to, c));
    }
  }

  lemma BoundLePreorder(o: Origins)
    ensures TotalPreorder(BoundLe(o))
  {
    var le := BoundLe(o);
    forall a, b ensures le(a, b) || le(b, a) {
      StrLeTotal(a.profile.id, b.profile.id);
    }
    forall a, b, c | le(a, b) && le(b, c) ensures le(a, c) {
      if StrLe(a.profile.id, b.profile.id) && StrLe(b.profile.id, c.profile.id) {
        StrLeTransitive(a.profile.id, b.profile.id, c.profile.id);
      }
    }
  }

  // ---------------------------------------------------------------- permutations

  ghost predicate UniqueIds(policy: Policy) {
    && (forall a, b :: 0 <= a < b < |policy.rules| ==> policy.rules[a].id != policy.rules[b].id)
    && (forall a, b :: 0 <= a < b < |policy.profiles| ==> policy.profiles[a].id != policy.profiles[b].id)
  }

  /** The same policy with its lists in another order. */
  ghost predicate Reordered(p: Policy, q: Policy) {
    && p.origins == q.origins
    && multiset(p.rules) == multiset(q.rules)
    && multiset(p.bindings) == multiset(q.bindings)
    && multiset(p.profiles) == multiset(q.profiles)
  }

  lemma RulesDoNotTie(p: Policy, to: Recipient, s: seq<Rule>)
    requires UniqueIds(p) && forall x :: x in s ==> x in p.rules
    ensures NoTies(s, RuleLe(p.origins, to))
  {
    var le := RuleLe(p.origins, to);
    forall x, y | x in s && y in s && le(x, y) && le(y, x) ensures x == y {
      KeyTotal(KeyOf(p.origins, to, x), KeyOf(p.origins, to, y));
      assert x in p.rules && y in p.rules && x.id == y.id;
    }
  }

  lemma RulesForgetOrder(p: Policy, q: Policy, to: Recipient, now: int)
    requires UniqueIds(p) && Reordered(p, q)
    ensures OrderedRules(p, to, now) == OrderedRules(q, to, now)
  {
    var s, t := Keep(p.rules, Live(to, now)), Keep(q.rules, Live(to, now));
    KeepForgetsOrder(p.rules, q.rules, Live(to, now));
    RuleLePreorder(p.origins, to);
    RulesDoNotTie(p, to, s);
    SortForgetsOrder(s, t, RuleLe(p.origins, to));
  }

  lemma ProfilesFound(p: Policy, q: Policy, id: string)
    requires UniqueIds(p) && Reordered(p, q)
    ensures FindProfile(p.profiles, id) == FindProfile(q.profiles, id)
  {
    SameElements(p.profiles, q.profiles);
  }

  lemma {:induction false} BoundConcat(profiles: seq<Profile>, to: Recipient, a: seq<Binding>, b: seq<Binding>)
    ensures BoundProfiles(profiles, to, a + b) == BoundProfiles(profiles, to, a) + BoundProfiles(profiles, to, b)
    decreases |b|
  {
    if b == [] {
      assert a + b == a;
    } else {
      assert (a + b)[..|a + b| - 1] == a + b[..|b| - 1];
      BoundConcat(profiles, to, a, b[..|b| - 1]);
    }
  }

  lemma {:induction false} BoundForgetsOrder(profiles: seq<Profile>, to: Recipient, s: seq<Binding>, t: seq<Binding>)
    requires multiset(s) == multiset(t)
    ensures multiset(BoundProfiles(profiles, to, s)) == multiset(BoundProfiles(profiles, to, t))
    decreases |s|
  {
    SameElements(s, t);
    if s != [] {
      var init, last := s[..|s| - 1], s[|s| - 1];
      assert s == init + [last];
      assert last in t;
      var k :| 0 <= k < |t| && t[k] == last;
      var before, after := t[..k], t[k + 1..];
      assert t == before + [last] + after;
      assert multiset(t) == multiset(before + after) + multiset{last};
      assert multiset(s) == multiset(init) + multiset{last};
      assert multiset(before + after) == multiset(t) - multiset{last};
      assert multiset(init) == multiset(s) - multiset{last};
      BoundForgetsOrder(profiles, to, init, before + after);
      BoundConcat(profiles, to, before, after);
      BoundConcat(profiles, to, before + [last], after);
      BoundConcat(profiles, to, before, [last]);
      BoundConcat(profiles, to, init, [last]);
    }
  }

  lemma {:induction false} BoundSame(p: Policy, q: Policy, to: Recipient, s: seq<Binding>)
    requires UniqueIds(p) && Reordered(p, q)
    ensures BoundProfiles(p.profiles, to, s) == BoundProfiles(q.profiles, to, s)
  {
    if s != [] {
      BoundSame(p, q, to, s[..|s| - 1]);
      ProfilesFound(p, q, s[|s| - 1].profile);
    }
  }

  lemma {:induction false} BoundSound(profiles: seq<Profile>, to: Recipient, s: seq<Binding>, x: Bound)
    requires x in BoundProfiles(profiles, to, s)
    ensures ScopeRank(x.scope, to) == Some(x.rank) && x.profile in profiles
  {
    if x in BoundProfiles(profiles, to, s[..|s| - 1]) {
      BoundSound(profiles, to, s[..|s| - 1], x);
    }
  }

  lemma BoundsDoNotTie(p: Policy, to: Recipient)
    requires UniqueIds(p)
    ensures NoTies(BoundProfiles(p.profiles, to, p.bindings), BoundLe(p.origins))
  {
    var s, le := BoundProfiles(p.profiles, to, p.bindings), BoundLe(p.origins);
    forall x, y | x in s && y in s && le(x, y) && le(y, x) ensures x == y {
      BoundSound(p.profiles, to, p.bindings, x);
      BoundSound(p.profiles, to, p.bindings, y);
      StrLeTotal(x.profile.id, y.profile.id);
      RankNamesScope(x.scope, y.scope, to);
    }
  }

  lemma ProfilesForgetOrder(p: Policy, q: Policy, to: Recipient)
    requires UniqueIds(p) && Reordered(p, q)
    ensures OrderedProfiles(p, to) == OrderedProfiles(q, to)
  {
    var s, t := BoundProfiles(p.profiles, to, p.bindings), BoundProfiles(q.profiles, to, q.bindings);
    BoundForgetsOrder(p.profiles, to, p.bindings, q.bindings);
    BoundSame(p, q, to, q.bindings);
    BoundLePreorder(p.origins);
    BoundsDoNotTie(p, to);
    SortForgetsOrder(s, t, BoundLe(p.origins));
  }

  /** Listing rules, bindings or profiles in another order changes no assessment. */
  lemma AssessmentForgetsOrder(p: Policy, q: Policy, env: Env, to: Recipient)
    requires UniqueIds(p) && Reordered(p, q)
    ensures Assess(p, env, to) == Assess(q, env, to)
  {
    RulesForgetOrder(p, q, to, env.now);
    ProfilesForgetOrder(p, q, to);
  }
}
