/**
 In scoped mode personal rules run first and cannot stop, so administrator rules prevail over
 them: what exactly prevails, and what a personal rule can still decide.
 */
module RuleAuthority {
  import opened Options
  import opened Orders
  import opened Rules
  import opened RuleTrace

  function Mine(policy: Policy): Rule -> bool { (r: Rule) => Personal(policy.origins, r) }

  function Theirs(policy: Policy): Rule -> bool { (r: Rule) => !Personal(policy.origins, r) }

  /** The policy with all personal rules removed, and with only those. */
  function Bare(policy: Policy): Policy { policy.(rules := Keep(policy.rules, Theirs(policy))) }

  function Own(policy: Policy): Policy { policy.(rules := Keep(policy.rules, Mine(policy))) }

  // ---------------------------------------------------------------- the order splits

  /** Elements that precede a block are inserted before it. */
  lemma {:induction false} InsertBefore<T>(x: T, a: seq<T>, b: seq<T>, le: (T, T) -> bool)
    requires forall y :: y in b ==> le(x, y)
    ensures Insert(x, a + b, le) == Insert(x, a, le) + b
  {
    if a == [] {
      assert a + b == b;
    } else {
      assert (a + b)[1..] == a[1..] + b;
      InsertBefore(x, a[1..], b, le);
    }
  }

  /** Elements that follow a block are inserted after it. */
  lemma {:induction false} InsertAfter<T>(x: T, a: seq<T>, b: seq<T>, le: (T, T) -> bool)
    requires forall y :: y in a ==> !le(x, y)
    ensures Insert(x, a + b, le) == a + Insert(x, b, le)
  {
    if a == [] {
      assert a + b == b;
    } else {
      assert (a + b)[1..] == a[1..] + b;
      InsertAfter(x, a[1..], b, le);
    }
  }

  /** Members of the first class come strictly before all others. */
  ghost predicate Ahead<T(!new)>(first: T -> bool, rest: T -> bool, le: (T, T) -> bool) {
    && (forall x :: rest(x) == !first(x))
    && (forall x, y :: first(x) && rest(y) ==> le(x, y) && !le(y, x))
  }

  lemma InsertSplits<T(!new)>(x: T, a: seq<T>, b: seq<T>, first: T -> bool, rest: T -> bool, le: (T, T) -> bool)
    requires Ahead(first, rest, le)
    requires (forall y :: y in a ==> first(y)) && (forall y :: y in b ==> rest(y))
    ensures Insert(x, a + b, le) == if first(x) then Insert(x, a, le) + b else a + Insert(x, b, le)
  {
    if first(x) {
      InsertBefore(x, a, b, le);
    } else {
      InsertAfter(x, a, b, le);
    }
  }

  lemma {:induction false} SortSplits<T(!new)>(s: seq<T>, first: T -> bool, rest: T -> bool, le: (T, T) -> bool)
    requires Ahead(first, rest, le)
    ensures Sort(s, le) == Sort(Keep(s, first), le) + Sort(Keep(s, rest), le)
  {
    if s != [] {
      var x, a, b := s[0], Keep(s[1..], first), Keep(s[1..], rest);
      SortSplits(s[1..], first, rest, le);
      KeepHead(s, first);
      KeepHead(s, rest);
      SortKeeps(a, le);
      SortKeeps(b, le);
      assert rest(x) == !first(x);
      InsertSplits(x, Sort(a, le), Sort(b, le), first, rest, le);
      if first(x) {
        assert Keep(s, first) == [x] + a && Keep(s, rest) == b;
      } else {
        assert Keep(s, first) == a && Keep(s, rest) == [x] + b;
      }
    }
  }

  /** In scoped mode all personal rules run before all administrator rules. */
  lemma OrderSplits(policy: Policy, to: Recipient, now: int)
    requires policy.origins.ordering.Scoped?
    ensures OrderedRules(policy, to, now) == OrderedRules(Own(policy), to, now) + OrderedRules(Bare(policy), to, now)
  {
    var live := Keep(policy.rules, Live(to, now));
    SortSplits(live, Mine(policy), Theirs(policy), RuleLe(policy.origins, to));
    KeepCommutes(policy.rules, Live(to, now), Mine(policy));
    KeepCommutes(policy.rules, Live(to, now), Theirs(policy));
  }

  // ---------------------------------------------------------------- two starts

  lemma {:induction false} RunConcat(frame: Frame, start: Progress, a: seq<Judged>, b: seq<Judged>)
    ensures Run(frame, start, a + b) == Run(frame, Run(frame, start, a), b)
    decreases |b|
  {
    if b == [] {
      assert a + b == a;
    } else {
      assert (a + b)[..|a + b| - 1] == a + b[..|b| - 1];
      RunConcat(frame, start, a, b[..|b| - 1]);
    }
  }

  lemma {:induction false} NeverStops(frame: Frame, start: Progress, js: seq<Judged>)
    requires start.stoppedBy.None? && forall k: nat :: k < |js| ==> !js[k].rule.stop
    ensures Run(frame, start, js).stoppedBy.None?
  {
    FirstStopWins(frame, start, js);
  }

  lemma {:induction false} SameStop(frame: Frame, p: Progress, q: Progress, js: seq<Judged>)
    requires p.stoppedBy == q.stoppedBy
    ensures Run(frame, p, js).stoppedBy == Run(frame, q, js).stoppedBy
  {
    if js != [] {
      SameStop(frame, p, q, js[..|js| - 1]);
    }
  }

  /** A writer makes the starting values of its aspect irrelevant. */
  lemma WriterErasesStart(frame: Frame, p: Progress, q: Progress, js: seq<Judged>, aspect: Aspect)
    requires p.stoppedBy.None? && q.stoppedBy.None?
    ensures NoWriter(js, aspect) || aspect.OnAction? ||
            (Run(frame, p, js).category == Run(frame, q, js).category
             && Run(frame, p, js).categoryRule == Run(frame, q, js).categoryRule)
    ensures NoWriter(js, aspect) ||
            (Run(frame, p, js).requested == Run(frame, q, js).requested
             && Run(frame, p, js).actionRule == Run(frame, q, js).actionRule)
  {
    if !NoWriter(js, aspect) {
      var w := SomeLastWriter(js, aspect, |js|);
      assert LastWriter(js, aspect, w.value);
      LastWriterWins(frame, p, js, w.value);
      LastWriterWins(frame, q, js, w.value);
      var v := SomeLastWriter(js, OnAction, |js|);
      assert Writer(js, OnAction, w.value);
      assert LastWriter(js, OnAction, v.value);
      LastWriterWins(frame, p, js, v.value);
      LastWriterWins(frame, q, js, v.value);
    }
  }

  // ---------------------------------------------------------------- assessments

  ghost predicate PersonalNeverStops(policy: Policy) {
    forall r :: r in policy.rules && Personal(policy.origins, r) ==> !r.stop
  }

  /** An active administrator rule sets the aspect. */
  ghost predicate AdministratorSets(policy: Policy, env: Env, to: Recipient, aspect: Aspect) {
    !NoWriter(JudgeAll(policy.origins, env, OrderedRules(Bare(policy), to, env.now)), aspect)
  }

  function Begin(policy: Policy, env: Env, to: Recipient): Progress {
    Start(FrameOf(env, OrderedProfiles(policy, to)), Initial(env, OrderedProfiles(policy, to)))
  }

  function Ran(policy: Policy, env: Env, to: Recipient, start: Progress): Progress {
    Run(FrameOf(env, OrderedProfiles(policy, to)), start, JudgeAll(policy.origins, env, OrderedRules(policy, to, env.now)))
  }

  lemma JudgeConcat(o: Origins, env: Env, a: seq<Rule>, b: seq<Rule>)
    ensures JudgeAll(o, env, a + b) == JudgeAll(o, env, a) + JudgeAll(o, env, b)
  {
  }

  /** Scoped evaluation is the personal run followed by the administrator run. */
  lemma RunSplits(policy: Policy, env: Env, to: Recipient)
    requires policy.origins.ordering.Scoped?
    ensures OrderedProfiles(Bare(policy), to) == OrderedProfiles(policy, to) == OrderedProfiles(Own(policy), to)
    ensures Ran(policy, env, to, Begin(policy, env, to))
            == Ran(Bare(policy), env, to, Ran(Own(policy), env, to, Begin(policy, env, to)))
  {
    OrderSplits(policy, to, env.now);
    var a, b := OrderedRules(Own(policy), to, env.now), OrderedRules(Bare(policy), to, env.now);
    JudgeConcat(policy.origins, env, a, b);
    RunConcat(FrameOf(env, OrderedProfiles(policy, to)), Begin(policy, env, to),
              JudgeAll(policy.origins, env, a), JudgeAll(policy.origins, env, b));
  }

  lemma OwnRunContinues(policy: Policy, env: Env, to: Recipient)
    requires policy.origins.ordering.Scoped? && PersonalNeverStops(policy)
    ensures Ran(Own(policy), env, to, Begin(policy, env, to)).stoppedBy.None?
  {
    var rules := OrderedRules(Own(policy), to, env.now);
    SortKeeps(Keep(Own(policy).rules, Live(to, env.now)), RuleLe(policy.origins, to));
    forall k: nat | k < |rules| ensures !rules[k].stop {
      assert rules[k] in rules;
    }
    NeverStops(FrameOf(env, OrderedProfiles(Own(policy), to)), Begin(policy, env, to),
               JudgeAll(policy.origins, env, rules));
  }

  /**
   Removing every personal rule changes nothing that an active administrator rule sets: a rule
   naming a category fixes category and action, one naming only an action fixes the action.
   Personal rules never change where the administrator rules stop.
   */
  lemma AdministratorsPrevail(policy: Policy, env: Env, to: Recipient)
    requires policy.origins.ordering.Scoped? && PersonalNeverStops(policy)
    ensures var full, bare := Assess(policy, env, to), Assess(Bare(policy), env, to);
            && full.stoppedBy == bare.stoppedBy
            && (AdministratorSets(policy, env, to, OnCategory) ==>
                  full.category == bare.category && full.categoryRule == bare.categoryRule)
            && (AdministratorSets(policy, env, to, OnAction) ==>
                  full.requested == bare.requested && full.actionRule == bare.actionRule)
  {
    RunSplits(policy, env, to);
    OwnRunContinues(policy, env, to);
    var frame := FrameOf(env, OrderedProfiles(policy, to));
    var js := JudgeAll(policy.origins, env, OrderedRules(Bare(policy), to, env.now));
    var p, q := Ran(Own(policy), env, to, Begin(policy, env, to)), Begin(policy, env, to);
    SameStop(frame, p, q, js);
    WriterErasesStart(frame, p, q, js, OnCategory);
    WriterErasesStart(frame, p, q, js, OnAction);
  }

  /** What no administrator rule sets is left to the personal rules. */
  lemma PersonalRulesDecideTheRest(policy: Policy, env: Env, to: Recipient)
    requires policy.origins.ordering.Scoped? && PersonalNeverStops(policy)
    ensures var full, own := Assess(policy, env, to), Assess(Own(policy), env, to);
            && (!AdministratorSets(policy, env, to, OnCategory) ==>
                  full.category == own.category && full.categoryRule == own.categoryRule)
            && (!AdministratorSets(policy, env, to, OnAction) ==>
                  full.requested == own.requested && full.actionRule == own.actionRule)
  {
    RunSplits(policy, env, to);
    OwnRunContinues(policy, env, to);
    var frame := FrameOf(env, OrderedProfiles(policy, to));
    var js := JudgeAll(policy.origins, env, OrderedRules(Bare(policy), to, env.now));
    LastWriterWins(frame, Ran(Own(policy), env, to, Begin(policy, env, to)), js, 0);
  }

  /** The personal rules as evaluated, before any administrator rule. */
  function OwnJudged(policy: Policy, env: Env, to: Recipient): seq<Judged> {
    JudgeAll(policy.origins, env, OrderedRules(Own(policy), to, env.now))
  }

  /** No active rule names a category, or the last one names the given category. */
  ghost predicate Keeps(frame: Frame, c: Category, js: seq<Judged>) {
    NoWriter(js, OnCategory)
    || exists w: nat :: LastWriter(js, OnCategory, w) && Effective(frame, js[w].rule.category.value) == c
  }

  lemma KeepsCategory(frame: Frame, start: Progress, js: seq<Judged>)
    requires start.stoppedBy.None?
    ensures Run(frame, start, js).category == start.category <==> Keeps(frame, start.category, js)
  {
    var last := SomeLastWriter(js, OnCategory, |js|);
    LastWriterWins(frame, start, js, if last.Some? then last.value else 0);
    if last.Some? {
      assert LastWriter(js, OnCategory, last.value);
    }
  }

  /** The condition on the personal rules: none names a category, or the last one names the initial one. */
  ghost predicate PersonalKeepsInitial(policy: Policy, env: Env, to: Recipient) {
    Keeps(FrameOf(env, OrderedProfiles(policy, to)), Initial(env, OrderedProfiles(policy, to)), OwnJudged(policy, env, to))
  }

  /** The personal run leaves the initial category exactly under that condition. */
  lemma OwnCategory(policy: Policy, env: Env, to: Recipient)
    requires !env.malware
    ensures Assess(Own(policy), env, to).category == Initial(env, OrderedProfiles(policy, to))
            <==> PersonalKeepsInitial(policy, env, to)
  {
    KeepsCategory(FrameOf(env, OrderedProfiles(policy, to)), Begin(policy, env, to), OwnJudged(policy, env, to));
  }

  /**
   When an administrator rule sets the action, category and action are those of the policy
   without personal rules exactly when malware overrides both, an administrator rule also sets
   the category, or the personal rules keep the initial one.
   */
  lemma ActionRuleEqualsBare(policy: Policy, env: Env, to: Recipient)
    requires policy.origins.ordering.Scoped? && PersonalNeverStops(policy)
    requires AdministratorSets(policy, env, to, OnAction)
    ensures var full, bare := Assess(policy, env, to), Assess(Bare(policy), env, to);
            full.category == bare.category && full.requested == bare.requested
            <==> env.malware || AdministratorSets(policy, env, to, OnCategory) || PersonalKeepsInitial(policy, env, to)
  {
    AdministratorsPrevail(policy, env, to);
    if !env.malware && !AdministratorSets(policy, env, to, OnCategory) {
      PersonalRulesDecideTheRest(policy, env, to);
      OwnCategory(policy, env, to);
      var js := JudgeAll(policy.origins, env, OrderedRules(Bare(policy), to, env.now));
      LastWriterWins(FrameOf(env, OrderedProfiles(policy, to)), Begin(policy, env, to), js, 0);
    }
  }

  // ---------------------------------------------------------------- example

  /** A mailbox without alias. */
  const MAILBOX := Recipient("u@x", "u@x")

  /** Matches every message to the scope. */
  function Always(id: string, scope: string, category: Option<Category>, action: Option<Action>): Rule {
    Rule(id, id, true, 0, scope, None, false, [Condition(RecipientAddress, Present, "")], category, action, false)
  }

  /** The owner's rule for the own address, as preferences compose it. */
  function OwnersRule(): Rule { Always("__personal_rule_0", "u@x", Some(Spam), None) }

  function AdministratorsRule(): Rule { Always("a", "*", None, Some(Quarantine)) }

  function MixedPolicy(): Policy {
    Policy(Origins(Scoped, map["__personal_rule_0" := "mine"], map[]), [], [], [AdministratorsRule(), OwnersRule()])
  }

  /** A legitimate message to the mailbox, with the facts that every evaluation has. */
  function PlainEnv(reader: Reader): Env {
    Env(reader,
        map[EnvelopeFrom := ["s@y"], FromDomain := ["y"], InitialCategory := ["legitimate"]],
        map[RecipientAddress := ["u@x"], RecipientDomain := ["x"], InitialCategory := ["legitimate"]],
        0, Legitimate, (p, t) => Legitimate, t => Legitimate, t => false, Tag, Tag, Quarantine, false)
  }

  lemma AlwaysHits(reader: Reader, id: string, scope: string, category: Option<Category>, action: Option<Action>)
    ensures JudgedHit(Judge(MixedPolicy().origins, PlainEnv(reader), Always(id, scope, category, action)))
  {
    assert ["u@x"][0] != [];
  }

  lemma OneRule(policy: Policy, to: Recipient, now: int, r: Rule)
    requires policy.rules == [r] && Applicable(r, to, now)
    ensures OrderedRules(policy, to, now) == [r]
  {
    assert policy.rules[..0] == [] && policy.rules[0] == r;
    assert Keep(policy.rules, Live(to, now)) == [r];
    assert [r][1..] == [];
  }

  lemma ExampleRules()
    ensures Own(MixedPolicy()).rules == [OwnersRule()] && Bare(MixedPolicy()).rules == [AdministratorsRule()]
  {
    var policy, a, p := MixedPolicy(), AdministratorsRule(), OwnersRule();
    assert policy.rules == [a] + [p] && [a][..0] == [] && [p][..0] == [];
    assert policy.rules[..1] == [a];
    assert Keep([a], Mine(policy)) == [] && Keep([a], Theirs(policy)) == [a];
  }

  lemma ExampleApplies()
    ensures Applicable(OwnersRule(), MAILBOX, 0) && Applicable(AdministratorsRule(), MAILBOX, 0)
    ensures MixedPolicy().origins.ordering.Scoped? && PersonalNeverStops(MixedPolicy())
  {
  }

  /** A single matching rule writes what it names. */
  lemma AloneWrites(j: Judged, aspect: Aspect)
    requires JudgedHit(j)
    ensures NoWriter([j], aspect) <==> !Sets(aspect, j.rule)
  {
    assert Writer([j], aspect, 0) <==> Sets(aspect, j.rule);
  }

  /** A single matching rule decides the category if it names one and leaves it otherwise. */
  lemma AloneDecides(policy: Policy, env: Env, to: Recipient, j: Judged)
    requires JudgeAll(policy.origins, env, OrderedRules(policy, to, env.now)) == [j] && JudgedHit(j) && !env.malware
    ensures Assess(policy, env, to).category
            == if j.rule.category.Some? then Effective(FrameOf(env, OrderedProfiles(policy, to)), j.rule.category.value)
               else Initial(env, OrderedProfiles(policy, to))
  {
    AloneWrites(j, OnCategory);
    assert Sets(OnCategory, j.rule) ==> LastWriter([j], OnCategory, 0);
    LastWriterWins(FrameOf(env, OrderedProfiles(policy, to)), Begin(policy, env, to), [j], 0);
  }

  lemma ExampleAdministrator(reader: Reader)
    ensures var policy, env := MixedPolicy(), PlainEnv(reader);
            && AdministratorSets(policy, env, MAILBOX, OnAction) && !AdministratorSets(policy, env, MAILBOX, OnCategory)
            && Assess(Bare(policy), env, MAILBOX).category == Legitimate
  {
    var policy, env := MixedPolicy(), PlainEnv(reader);
    ExampleRules();
    ExampleApplies();
    OneRule(Bare(policy), MAILBOX, 0, AdministratorsRule());
    AlwaysHits(reader, "a", "*", None, Some(Quarantine));
    var j := Judge(policy.origins, env, AdministratorsRule());
    assert JudgeAll(policy.origins, env, [AdministratorsRule()]) == [j];
    AloneWrites(j, OnAction);
    AloneWrites(j, OnCategory);
    AloneDecides(Bare(policy), env, MAILBOX, j);
  }

  lemma ExampleOwner(reader: Reader)
    ensures Assess(Own(MixedPolicy()), PlainEnv(reader), MAILBOX).category == Spam
  {
    var policy, env := MixedPolicy(), PlainEnv(reader);
    ExampleRules();
    ExampleApplies();
    OneRule(Own(policy), MAILBOX, 0, OwnersRule());
    AlwaysHits(reader, "__personal_rule_0", "u@x", Some(Spam), None);
    var j := Judge(policy.origins, env, OwnersRule());
    assert JudgeAll(policy.origins, env, [OwnersRule()]) == [j];
    AloneDecides(Own(policy), env, MAILBOX, j);
  }

  /**
   An administrator rule that only names an action leaves a personal rule's category in place:
   the mailbox owner's rule makes spam of a message that is legitimate without it.
   */
  lemma ActionOnlyLeavesCategory(reader: Reader)
    ensures var policy, env := MixedPolicy(), PlainEnv(reader);
            && policy.origins.ordering.Scoped? && PersonalNeverStops(policy)
            && AdministratorSets(policy, env, MAILBOX, OnAction)
            && Assess(policy, env, MAILBOX).category == Spam
            && Assess(Bare(policy), env, MAILBOX).category == Legitimate
  {
    var policy, env := MixedPolicy(), PlainEnv(reader);
    ExampleApplies();
    ExampleAdministrator(reader);
    ExampleOwner(reader);
    PersonalRulesDecideTheRest(policy, env, MAILBOX);
  }
}
