/**
 The order and the selections of the evaluator, said on the fields of rules, profiles and
 bindings: which rules run and in which order, which profile applies, and which rule decides.
 */
module RulePrecedence {
  import opened Options
  import opened Orders
  import opened Text
  import opened Rules
  import opened RuleOrder
  import opened RuleTrace

  // ---------------------------------------------------------------- scopes and conditions

  function DomainScope(address: string): Option<string> {
    var m := Split(address);
    if m.Some? then Some("*@" + m.value.domain) else None
  }

  /** Everyone, destination domain, address domain, destination, address: the last that fits gives the rank. */
  lemma RankMeans(scope: string, to: Recipient)
    ensures ScopeRank(scope, to) ==
              if scope == "*" then Some(0)
              else if scope == to.address then Some(4)
              else if scope == to.destination then Some(3)
              else if Some(scope) == DomainScope(to.address) then Some(2)
              else if Some(scope) == DomainScope(to.destination) then Some(1)
              else None
  {
    if "*@" <= scope {
      assert scope == "*@" + scope[2..];
    }
  }

  lemma PrefixMeans(x: string, y: string)
    ensures y <= x <==> exists rest :: x == y + rest
  {
    if y <= x {
      assert x == y + x[|y|..];
    }
  }

  lemma SuffixMeans(x: string, y: string)
    ensures |y| <= |x| && x[|x| - |y|..] == y <==> exists front :: x == front + y
  {
    if |y| <= |x| && x[|x| - |y|..] == y {
      assert x == x[..|x| - |y|] + y;
    }
  }

  lemma WithinMeans(x: string, y: string)
    ensures Within(x, y) <==> exists front, rest :: x == front + (y + rest)
  {
    if Within(x, y) {
      var k :| 0 <= k <= |x| && y <= x[k..];
      assert x[k..] == y + x[k..][|y|..];
      assert x == x[..k] + (y + x[k..][|y|..]);
    }
    forall front, rest | x == front + (y + rest) ensures Within(x, y) {
      assert x[|front|..] == y + rest;
    }
  }

  /** The comparison of one value with the target, both folded. */
  lemma OperatorsMean(reader: Reader, v: string, t: string)
    ensures var x, y := reader.lower(v), reader.lower(t);
            && (Compare(reader, Equals, v, t) <==> x == y)
            && (Compare(reader, StartsWith, v, t) <==> exists rest :: x == y + rest)
            && (Compare(reader, EndsWith, v, t) <==> exists front :: x == front + y)
            && (Compare(reader, Contains, v, t) <==> exists front, rest :: x == front + (y + rest))
            && (Compare(reader, AtLeast, v, t) <==>
                  reader.number(x).Some? && reader.number(y).Some? && reader.number(x).value >= reader.number(y).value)
            && (Compare(reader, AtMost, v, t) <==>
                  reader.number(x).Some? && reader.number(y).Some? && reader.number(x).value <= reader.number(y).value)
  {
    var x, y := reader.lower(v), reader.lower(t);
    PrefixMeans(x, y);
    SuffixMeans(x, y);
    WithinMeans(x, y);
  }

  /** Known facts give a definite answer: some value compares, some is present, or all are empty. */
  lemma MatchesMean(reader: Reader, facts: Facts, c: Condition)
    ensures Matches(reader, facts, c).None? <==> c.field !in facts
    ensures c.field in facts ==>
              (Matches(reader, facts, c) == Some(true) <==>
               match c.op
               case Present => exists v :: v in facts[c.field] && v != ""
               case Absent => forall v :: v in facts[c.field] ==> v == ""
               case _ => exists v :: v in facts[c.field] && Compare(reader, c.op, v, c.value))
  {
    if c.field in facts {
      var values := facts[c.field];
      assert forall k :: 0 <= k < |values| ==> values[k] in values;
    }
  }

  /** Conditions on recipient and category read this recipient's facts, in scoped mode also those on the score. */
  lemma ConditionsRead(ordering: Ordering, env: Env, c: Condition)
    ensures ValueOf(ordering, env, c) ==
              Matches(env.reader,
                      if c.field in {RecipientAddress, RecipientDomain, InitialCategory}
                         || (ordering == Scoped && c.field == Score)
                      then env.own else env.shared, c)
  {
  }

  /** An any-rule needs one condition to hold, an all-rule every one. */
  lemma RuleMatches(o: Origins, env: Env, r: Rule)
    ensures JudgedHit(Judge(o, env, r)) <==>
              if r.any then exists c :: c in r.conditions && ValueOf(o.ordering, env, c) == Some(true)
              else forall c :: c in r.conditions ==> ValueOf(o.ordering, env, c) == Some(true)
  {
    var values := Judge(o, env, r).values;
    forall i | 0 <= i < |values| ensures values[i] == ValueOf(o.ordering, env, r.conditions[i]) && values[i] in values {
    }
    if r.any {
      if Some(true) in values {
        var i :| 0 <= i < |values| && values[i] == Some(true);
        assert r.conditions[i] in r.conditions;
      }
    } else if JudgedHit(Judge(o, env, r)) {
      forall c | c in r.conditions ensures ValueOf(o.ordering, env, c) == Some(true) {
        var i :| 0 <= i < |r.conditions| && r.conditions[i] == c;
        assert values[i] in values;
      }
    }
  }

  // ---------------------------------------------------------------- rules

  function OriginId(o: Origins, r: Rule): string { if r.id in o.rules then o.rules[r.id] else r.id }

  /** Lower priority numbers run first, then the owner's own id, then the composed id. */
  ghost predicate Earlier(o: Origins, a: Rule, b: Rule) {
    || a.priority < b.priority
    || (a.priority == b.priority && OriginId(o, a) != OriginId(o, b) && Lexicographic(OriginId(o, a), OriginId(o, b)))
    || (a.priority == b.priority && OriginId(o, a) == OriginId(o, b) && Lexicographic(a.id, b.id))
  }

  /** Scoped: personal before administrator, then less before more specific scopes; legacy: priority alone. */
  ghost predicate RunsBefore(o: Origins, to: Recipient, a: Rule, b: Rule) {
    match o.ordering
    case LegacyPriority => Earlier(o, a, b)
    case Scoped =>
      || (a.id in o.rules && b.id !in o.rules)
      || ((a.id in o.rules <==> b.id in o.rules)
          && ScopeRank(a.scope, to).Some? && ScopeRank(b.scope, to).Some?
          && (|| ScopeRank(a.scope, to).value < ScopeRank(b.scope, to).value
              || (ScopeRank(a.scope, to) == ScopeRank(b.scope, to) && Earlier(o, a, b))))
  }

  lemma RuleLeMeans(o: Origins, to: Recipient, a: Rule, b: Rule)
    requires ScopeRank(a.scope, to).Some? && ScopeRank(b.scope, to).Some?
    ensures RuleLe(o, to)(a, b) <==> RunsBefore(o, to, a, b)
  {
    StrLeMeans(OriginId(o, a), OriginId(o, b));
    StrLeMeans(a.id, b.id);
  }

  /** Exactly the enabled, unexpired rules whose scope covers the recipient run, each as often as it is listed. */
  lemma RulesThatRun(policy: Policy, to: Recipient, now: int, r: Rule)
    ensures multiset(OrderedRules(policy, to, now))[r]
            == if r.enabled && (r.expires == None || r.expires.value > now) && ScopeRank(r.scope, to) != None
               then multiset(policy.rules)[r] else 0
  {
    SortMultiset(Keep(policy.rules, Live(to, now)), RuleLe(policy.origins, to));
    KeepCounts(policy.rules, Live(to, now), r);
  }

  lemma RuleIsLive(policy: Policy, to: Recipient, now: int, k: nat)
    requires k < |OrderedRules(policy, to, now)|
    ensures Applicable(OrderedRules(policy, to, now)[k], to, now) && OrderedRules(policy, to, now)[k] in policy.rules
  {
    SortKeeps(Keep(policy.rules, Live(to, now)), RuleLe(policy.origins, to));
    assert OrderedRules(policy, to, now)[k] in OrderedRules(policy, to, now);
  }

  /** The evaluation order is the source's order on the rules' own fields. */
  lemma RulesRunInOrder(policy: Policy, to: Recipient, now: int, i: nat, j: nat)
    requires i < j < |OrderedRules(policy, to, now)|
    ensures RunsBefore(policy.origins, to, OrderedRules(policy, to, now)[i], OrderedRules(policy, to, now)[j])
  {
    var rules := OrderedRules(policy, to, now);
    RuleLePreorder(policy.origins, to);
    SortSorted(Keep(policy.rules, Live(to, now)), RuleLe(policy.origins, to));
    RuleIsLive(policy, to, now, i);
    RuleIsLive(policy, to, now, j);
    RuleLeMeans(policy.origins, to, rules[i], rules[j]);
  }

  /**
   The rule that decides the category: of all active rules naming one it is the last in that
   order, and what it names is the category, an undetermined name standing for the fallback.
   In legacy mode nobody of higher priority number names another.
   */
  lemma LastInOrderDecides(policy: Policy, env: Env, to: Recipient, w: nat, k: nat)
    requires !env.malware
    requires var js := JudgeAll(policy.origins, env, OrderedRules(policy, to, env.now));
             LastWriter(js, OnCategory, w) && Writer(js, OnCategory, k)
    ensures var rules, r := OrderedRules(policy, to, env.now), Assess(policy, env, to);
            && (k == w || RunsBefore(policy.origins, to, rules[k], rules[w]))
            && (policy.origins.ordering == LegacyPriority ==> rules[k].priority <= rules[w].priority)
            && r.categoryRule == Some(rules[w].id)
            && r.category == (if rules[w].category == Some(Undetermined)
                              then env.fallback(Threshold(env, OrderedProfiles(policy, to)))
                              else rules[w].category.value)
  {
    var rules := OrderedRules(policy, to, env.now);
    var js := JudgeAll(policy.origins, env, rules);
    var bound := OrderedProfiles(policy, to);
    LastWriterWins(FrameOf(env, bound), Start(FrameOf(env, bound), Initial(env, bound)), js, w);
    if k != w {
      RulesRunInOrder(policy, to, env.now, k, w);
    }
  }

  // ---------------------------------------------------------------- profiles

  /** More specific first; on equal scope, in scoped mode, personal first; then by id. */
  ghost predicate AppliesBefore(o: Origins, a: Bound, b: Bound) {
    var pa, pb := a.profile.id in o.profiles, b.profile.id in o.profiles;
    || a.rank > b.rank
    || (a.rank == b.rank && o.ordering == Scoped && pa && !pb)
    || (a.rank == b.rank && (o.ordering == LegacyPriority || pa == pb) && Lexicographic(a.profile.id, b.profile.id))
  }

  lemma {:induction false} BoundComplete(profiles: seq<Profile>, to: Recipient, s: seq<Binding>, b: Binding)
    requires b in s && BoundBy(profiles, to, b).Some?
    ensures BoundBy(profiles, to, b).value in BoundProfiles(profiles, to, s)
  {
    if b != s[|s| - 1] {
      assert b in s[..|s| - 1];
      BoundComplete(profiles, to, s[..|s| - 1], b);
    }
  }

  /** Every binding whose scope covers the recipient and whose profile exists is listed, with that profile. */
  lemma BindingsApply(policy: Policy, to: Recipient, b: Binding)
    requires b in policy.bindings && ScopeRank(b.scope, to).Some? && FindProfile(policy.profiles, b.profile).Some?
    ensures Bound(ScopeRank(b.scope, to).value, FindProfile(policy.profiles, b.profile).value, b.scope)
            in OrderedProfiles(policy, to)
  {
    BoundComplete(policy.profiles, to, policy.bindings, b);
    SortKeeps(BoundProfiles(policy.profiles, to, policy.bindings), BoundLe(policy.origins));
  }

  lemma ProfilesApplyInOrder(policy: Policy, to: Recipient, i: nat, j: nat)
    requires i < j < |OrderedProfiles(policy, to)|
    ensures AppliesBefore(policy.origins, OrderedProfiles(policy, to)[i], OrderedProfiles(policy, to)[j])
  {
    var bound := OrderedProfiles(policy, to);
    BoundLePreorder(policy.origins);
    SortSorted(BoundProfiles(policy.profiles, to, policy.bindings), BoundLe(policy.origins));
    assert BoundLe(policy.origins)(bound[i], bound[j]);
    StrLeMeans(bound[i].profile.id, bound[j].profile.id);
  }

  /** The selected profile comes from a most specific binding of those that apply. */
  lemma SelectedIsMostSpecific(policy: Policy, to: Recipient, b: Binding)
    requires b in policy.bindings && ScopeRank(b.scope, to).Some? && FindProfile(policy.profiles, b.profile).Some?
    ensures OrderedProfiles(policy, to) != [] && OrderedProfiles(policy, to)[0].rank >= ScopeRank(b.scope, to).value
  {
    BindingsApply(policy, to, b);
    var bound := OrderedProfiles(policy, to);
    var k :| 0 <= k < |bound|
             && bound[k] == Bound(ScopeRank(b.scope, to).value, FindProfile(policy.profiles, b.profile).value, b.scope);
    if k > 0 {
      ProfilesApplyInOrder(policy, to, 0, k);
    }
  }

  /** The override threshold is the first one in that order, if it is usable. */
  lemma {:induction false} ThresholdIsFirst(env: Env, bound: seq<Bound>)
    ensures FirstThreshold(bound).None? <==> forall k :: 0 <= k < |bound| ==> bound[k].profile.threshold.None?
    ensures FirstThreshold(bound).Some? ==>
              exists k :: && 0 <= k < |bound| && bound[k].profile.threshold == FirstThreshold(bound)
                          && forall i :: 0 <= i < k ==> bound[i].profile.threshold.None?
    ensures Threshold(env, bound)
            == if FirstThreshold(bound).Some? && env.usable(FirstThreshold(bound).value) then FirstThreshold(bound) else None
  {
    if bound != [] {
      ThresholdIsFirst(env, bound[1..]);
      if bound[0].profile.threshold.None? && FirstThreshold(bound).Some? {
        var k :| && 0 <= k < |bound| - 1 && bound[1..][k].profile.threshold == FirstThreshold(bound[1..])
                 && forall i :: 0 <= i < k ==> bound[1..][i].profile.threshold.None?;
        assert bound[k + 1].profile.threshold == FirstThreshold(bound);
        forall i | 0 <= i < k + 1 ensures bound[i].profile.threshold.None? {
          if i > 0 {
            assert bound[1..][i - 1] == bound[i];
          }
        }
      }
      assert forall k :: 0 < k < |bound| ==> bound[k] == bound[1..][k - 1];
    }
  }

  /** The action that the selected profile, or else the configuration, gives a category. */
  predicate Prescribes(env: Env, bound: seq<Bound>, c: Category, a: Action) {
    && (c == Legitimate ==> a == Deliver)
    && (c == Spam ==> a == if bound == [] then env.spam else bound[0].profile.spam)
    && (c == Publicity ==> a == if bound == [] then env.publicity else bound[0].profile.publicity)
    && (c == Undetermined ==> a == if bound == [] then Deliver else bound[0].profile.review)
  }

  /**
   The requested action: what the last active rule that names one asks for, else what the
   selected profile prescribes for the final category.
   */
  lemma RequestedAction(policy: Policy, env: Env, to: Recipient, w: nat)
    requires !env.malware
    ensures var js, r, bound := JudgeAll(policy.origins, env, OrderedRules(policy, to, env.now)),
                                Assess(policy, env, to), OrderedProfiles(policy, to);
            && (NoWriter(js, OnAction) ==> Prescribes(env, bound, r.category, r.requested))
            && (LastWriter(js, OnAction, w) ==>
                  if js[w].rule.action.Some? then r.requested == js[w].rule.action.value
                  else Prescribes(env, bound, r.category, r.requested))
  {
    var js := JudgeAll(policy.origins, env, OrderedRules(policy, to, env.now));
    var bound := OrderedProfiles(policy, to);
    var frame := FrameOf(env, bound);
    LastWriterWins(frame, Start(frame, Initial(env, bound)), js, w);
    if NoWriter(js, OnAction) {
      assert forall i: nat :: Writer(js, OnCategory, i) ==> Writer(js, OnAction, i);
      assert NoWriter(js, OnCategory);
    }
    if LastWriter(js, OnAction, w) && js[w].rule.action.None? {
      assert forall i: nat :: Writer(js, OnCategory, i) ==> Writer(js, OnAction, i);
      assert LastWriter(js, OnCategory, w);
    }
  }

  /** Without a rule naming one, the category is the selected profile's judgement, else the original. */
  lemma UntouchedCategory(policy: Policy, env: Env, to: Recipient)
    requires !env.malware && NoWriter(JudgeAll(policy.origins, env, OrderedRules(policy, to, env.now)), OnCategory)
    ensures var r, bound := Assess(policy, env, to), OrderedProfiles(policy, to);
            && r.category == (if bound == [] then env.original else env.judge(bound[0].profile, Threshold(env, bound)))
            && r.categoryRule == None && r.threshold == Threshold(env, bound) && r.profiles == bound
  {
    var js := JudgeAll(policy.origins, env, OrderedRules(policy, to, env.now));
    var bound := OrderedProfiles(policy, to);
    LastWriterWins(FrameOf(env, bound), Start(FrameOf(env, bound), Initial(env, bound)), js, 0);
  }

  // ---------------------------------------------------------------- missing facts

  function IsUnknown(): Option<bool> -> bool { (v: Option<bool>) => v.None? }

  lemma {:induction false} UnknownFieldsCount(conditions: seq<Condition>, values: seq<Option<bool>>)
    requires |conditions| == |values|
    ensures |UnknownFields(conditions, values)| == Unknowns(values) == Count(values, IsUnknown())
  {
    if values != [] {
      UnknownFieldsCount(conditions[..|values| - 1], values[..|values| - 1]);
    }
  }

  ghost predicate Unanswered(conditions: seq<Condition>, values: seq<Option<bool>>, f: Field)
    requires |conditions| == |values|
  {
    exists i :: 0 <= i < |values| && values[i].None? && conditions[i].field == f
  }

  lemma UnansweredStep(conditions: seq<Condition>, values: seq<Option<bool>>, f: Field)
    requires |conditions| == |values| && values != []
    ensures var n := |values| - 1;
            Unanswered(conditions, values, f)
            <==> Unanswered(conditions[..n], values[..n], f) || (values[n].None? && conditions[n].field == f)
  {
    var n := |values| - 1;
    if Unanswered(conditions[..n], values[..n], f) {
      var i :| 0 <= i < n && values[..n][i].None? && conditions[..n][i].field == f;
      assert values[i].None? && conditions[i].field == f;
    }
    if Unanswered(conditions, values, f) {
      var i :| 0 <= i < |values| && values[i].None? && conditions[i].field == f;
      assert i < n ==> values[..n][i].None? && conditions[..n][i].field == f;
    }
  }

  /** The unavailable fields of a step are those of the conditions without an answer. */
  lemma {:induction false} UnknownFieldsMean(conditions: seq<Condition>, values: seq<Option<bool>>, f: Field)
    requires |conditions| == |values|
    ensures f in UnknownFields(conditions, values) <==> Unanswered(conditions, values, f)
  {
    if values != [] {
      UnknownFieldsMean(conditions[..|values| - 1], values[..|values| - 1], f);
      UnansweredStep(conditions, values, f);
    }
  }

  function MissingIn(steps: seq<Step>): nat {
    if steps == [] then 0 else MissingIn(steps[..|steps| - 1]) + |steps[|steps| - 1].unavailable|
  }

  lemma MissingSnoc(steps: seq<Step>, step: Step)
    ensures MissingIn(steps + [step]) == MissingIn(steps) + |step.unavailable|
  {
    assert (steps + [step])[..|steps|] == steps;
  }

  lemma TurnCounts(frame: Frame, p: Progress, j: Judged)
    requires |j.values| == |j.rule.conditions|
    ensures Advance(frame, p, j).steps == p.steps + [StepOf(frame, p, j)]
    ensures Advance(frame, p, j).unavailable == p.unavailable + |StepOf(frame, p, j).unavailable|
  {
    UnknownFieldsCount(j.rule.conditions, j.values);
  }

  /** The counter of unavailable conditions is the number of fields that the trace reports missing. */
  lemma {:induction false} UnavailableIsReported(frame: Frame, start: Progress, js: seq<Judged>)
    requires Shaped(js) && start.unavailable == 0 && start.steps == []
    ensures Run(frame, start, js).unavailable == MissingIn(Run(frame, start, js).steps)
  {
    if js != [] {
      var p, j := Run(frame, start, Init(js)), js[|js| - 1];
      UnavailableIsReported(frame, start, Init(js));
      TurnCounts(frame, p, j);
      MissingSnoc(p.steps, StepOf(frame, p, j));
    }
  }
}
