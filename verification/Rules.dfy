/**
 Recipient policies: scope ranking, three-valued conditions, the rule order, and the
 rule loop with its trace.
 */
module Rules {
  import opened Options
  import opened Orders
  import opened Text

  datatype Category = Spam | Publicity | Legitimate | Undetermined

  datatype Action = Deliver | Tag | Quarantine

  datatype Ordering = LegacyPriority | Scoped

  datatype Field =
    | EnvelopeFrom | FromDomain | HeaderFrom | Subject | Body | RecipientAddress | RecipientDomain
    | Size | Score | InitialCategory | SignalName | Dmarc

  datatype Operator = Equals | Contains | StartsWith | EndsWith | Present | Absent | AtLeast | AtMost

  datatype Condition = Condition(field: Field, op: Operator, value: string)

  datatype Rule = Rule(id: string, name: string, enabled: bool, priority: nat, scope: string, expires: Option<int>,
                       any: bool, conditions: seq<Condition>, category: Option<Category>, action: Option<Action>,
                       stop: bool)

  datatype Profile = Profile(id: string, name: string, threshold: Option<real>, requireCorroboration: bool,
                             spam: Action, publicity: Action, review: Action)

  datatype Binding = Binding(scope: string, profile: string)

  /** The order mode; rules and profiles map composed ids to the mailbox owner's own ids. */
  datatype Origins = Origins(ordering: Ordering, rules: map<string, string>, profiles: map<string, string>)

  datatype Policy = Policy(origins: Origins, profiles: seq<Profile>, bindings: seq<Binding>, rules: seq<Rule>)

  datatype Recipient = Recipient(address: string, destination: string)

  // ---------------------------------------------------------------- scopes

  /** Exact address, exact destination, address domain, destination domain, everyone. */
  function ScopeRank(scope: string, r: Recipient): Option<nat> {
    if scope == "*" then Some(0)
    else if scope == r.address then Some(4)
    else if scope == r.destination then Some(3)
    else if "*@" <= scope then
      var domain := scope[2..];
      if Split(r.address).Some? && Split(r.address).value.domain == domain then Some(2)
      else if Split(r.destination).Some? && Split(r.destination).value.domain == domain then Some(1)
      else None
    else None
  }

  // ---------------------------------------------------------------- conditions

  type Facts = map<Field, seq<string>>

  /** Case folding and number parsing of the host language. */
  datatype Reader = Reader(lower: string -> string, number: string -> Option<real>)

  predicate Within(value: string, target: string) {
    exists k :: 0 <= k <= |value| && target <= value[k..]
  }

  predicate Compare(reader: Reader, op: Operator, v: string, t: string) {
    match op
    case Equals => reader.lower(v) == reader.lower(t)
    case Contains => Within(reader.lower(v), reader.lower(t))
    case StartsWith => reader.lower(t) <= reader.lower(v)
    case EndsWith =>
      |reader.lower(t)| <= |reader.lower(v)|
      && reader.lower(v)[|reader.lower(v)| - |reader.lower(t)|..] == reader.lower(t)
    case AtLeast =>
      var x, y := reader.number(reader.lower(v)), reader.number(reader.lower(t));
      x.Some? && y.Some? && x.value >= y.value
    case AtMost =>
      var x, y := reader.number(reader.lower(v)), reader.number(reader.lower(t));
      x.Some? && y.Some? && x.value <= y.value
    case _ => false
  }

  /** None when the message has no such fact. */
  function Matches(reader: Reader, facts: Facts, c: Condition): Option<bool> {
    if c.field !in facts then None
    else
      var values := facts[c.field];
      match c.op
      case Present => Some(exists k :: 0 <= k < |values| && values[k] != [])
      case Absent => Some(forall k :: 0 <= k < |values| ==> values[k] == [])
      case _ => Some(exists k :: 0 <= k < |values| && Compare(reader, c.op, values[k], c.value))
  }

  predicate Hit(any: bool, values: seq<Option<bool>>) {
    if any then Some(true) in values else forall v :: v in values ==> v == Some(true)
  }

  // ---------------------------------------------------------------- rule order

  datatype Key = Key(admin: nat, rank: nat, priority: nat, origin: string, id: string)

  predicate KeyLe(a: Key, b: Key) {
    if a.admin != b.admin then a.admin < b.admin
    else if a.rank != b.rank then a.rank < b.rank
    else if a.priority != b.priority then a.priority < b.priority
    else if a.origin != b.origin then StrLe(a.origin, b.origin)
    else StrLe(a.id, b.id)
  }

  predicate Personal(o: Origins, r: Rule) { r.id in o.rules }

  /** Scoped policies put personal rules first, then the less specific scopes. */
  function KeyOf(o: Origins, to: Recipient, r: Rule): Key {
    var rank := ScopeRank(r.scope, to);
    var origin := if r.id in o.rules then o.rules[r.id] else r.id;
    if o.ordering.Scoped?
    then Key(if Personal(o, r) then 0 else 1, if rank.Some? then rank.value + 1 else 0, r.priority, origin, r.id)
    else Key(0, 0, r.priority, origin, r.id)
  }

  function RuleLe(o: Origins, to: Recipient): (Rule, Rule) -> bool {
    (a: Rule, b: Rule) => KeyLe(KeyOf(o, to, a), KeyOf(o, to, b))
  }

  predicate Applicable(r: Rule, to: Recipient, now: int) {
    r.enabled && (r.expires.None? || r.expires.value > now) && ScopeRank(r.scope, to).Some?
  }

  function Live(to: Recipient, now: int): Rule -> bool { (r: Rule) => Applicable(r, to, now) }

  /** The applicable rules in evaluation order. */
  function OrderedRules(policy: Policy, to: Recipient, now: int): seq<Rule> {
    Sort(Keep(policy.rules, Live(to, now)), RuleLe(policy.origins, to))
  }

  // ---------------------------------------------------------------- profiles

  datatype Bound = Bound(rank: nat, profile: Profile, scope: string)

  function FindProfile(profiles: seq<Profile>, id: string): (p: Option<Profile>)
    ensures p.Some? ==> p.value in profiles && p.value.id == id
    ensures p.None? ==> forall q :: q in profiles ==> q.id != id
  {
    if profiles == [] then None
    else if profiles[0].id == id then Some(profiles[0])
    else
      assert profiles == [profiles[0]] + profiles[1..];
      FindProfile(profiles[1..], id)
  }

  function BoundBy(profiles: seq<Profile>, to: Recipient, b: Binding): Option<Bound> {
    var rank, p := ScopeRank(b.scope, to), FindProfile(profiles, b.profile);
    if rank.Some? && p.Some? then Some(Bound(rank.value, p.value, b.scope)) else None
  }

  function BoundProfiles(profiles: seq<Profile>, to: Recipient, bindings: seq<Binding>): seq<Bound> {
    if bindings == [] then []
    else
      var rest := BoundProfiles(profiles, to, bindings[..|bindings| - 1]);
      var b := BoundBy(profiles, to, bindings[|bindings| - 1]);
      if b.Some? then rest + [b.value] else rest
  }

  predicate PersonalProfile(o: Origins, p: Profile) { p.id in o.profiles }

  /** Most specific first; personal before administrator on equal scope in scoped mode. */
  function BoundLe(o: Origins): (Bound, Bound) -> bool {
    (a: Bound, b: Bound) =>
      if a.rank != b.rank then a.rank > b.rank
      else if o.ordering.Scoped? && PersonalProfile(o, a.profile) != PersonalProfile(o, b.profile)
      then PersonalProfile(o, a.profile)
      else StrLe(a.profile.id, b.profile.id)
  }

  function OrderedProfiles(policy: Policy, to: Recipient): seq<Bound> {
    Sort(BoundProfiles(policy.profiles, to, policy.bindings), BoundLe(policy.origins))
  }

  function FirstThreshold(bound: seq<Bound>): Option<real> {
    if bound == [] then None
    else if bound[0].profile.threshold.Some? then bound[0].profile.threshold
    else FirstThreshold(bound[1..])
  }

  // ---------------------------------------------------------------- the loop

  /**
   What the loop reads besides the policy. shared holds the facts of the message, own those of
   this recipient; judge re-decides the message under a profile and an optional threshold, and
   fallback resolves a rule's request for an undetermined category. Both only read the scan.
   */
  datatype Env = Env(reader: Reader, shared: Facts, own: Facts, now: int, original: Category,
                     judge: (Profile, Option<real>) -> Category, fallback: Option<real> -> Category,
                     usable: real -> bool, spam: Action, publicity: Action, malwareAction: Action, malware: bool)

  datatype RuleOutcome = Matched | NoMatch | MissingFacts | Stopped

  datatype Step = Step(id: string, personal: bool, outcome: RuleOutcome, unavailable: seq<Field>,
                       categoryBefore: Category, categoryAfter: Category, actionBefore: Action, actionAfter: Action)

  datatype Progress = Progress(category: Category, requested: Action, matched: seq<string>, unavailable: nat,
                               steps: seq<Step>, stoppedBy: Option<string>,
                               categoryRule: Option<string>, actionRule: Option<string>)

  /** How categories become actions, and what an undetermined rule category becomes. */
  datatype Frame = Frame(choose: Category -> Action, fallback: Category)

  /** A rule with the values of its conditions. */
  datatype Judged = Judged(rule: Rule, personal: bool, values: seq<Option<bool>>)

  predicate OwnField(ordering: Ordering, f: Field) {
    f.RecipientAddress? || f.RecipientDomain? || f.InitialCategory? || (ordering.Scoped? && f.Score?)
  }

  function ValueOf(ordering: Ordering, env: Env, c: Condition): Option<bool> {
    if OwnField(ordering, c.field) then Matches(env.reader, env.own, c) else Matches(env.reader, env.shared, c)
  }

  function Judge(o: Origins, env: Env, r: Rule): Judged {
    Judged(r, Personal(o, r),
           seq(|r.conditions|, i requires 0 <= i < |r.conditions| => ValueOf(o.ordering, env, r.conditions[i])))
  }

  predicate JudgedHit(j: Judged) { Hit(j.rule.any, j.values) }

  /** The number of unknown condition values. */
  function Unknowns(values: seq<Option<bool>>): nat {
    if values == [] then 0
    else Unknowns(values[..|values| - 1]) + if values[|values| - 1].None? then 1 else 0
  }

  /** The fields of the unknown conditions, in order. */
  function UnknownFields(conditions: seq<Condition>, values: seq<Option<bool>>): seq<Field>
    requires |conditions| == |values|
  {
    if values == [] then []
    else
      UnknownFields(conditions[..|values| - 1], values[..|values| - 1])
      + if values[|values| - 1].None? then [conditions[|values| - 1].field] else []
  }

  function Effective(frame: Frame, c: Category): Category {
    if c.Undetermined? then frame.fallback else c
  }

  function CategoryAfter(frame: Frame, before: Category, r: Rule): Category {
    if r.category.Some? then Effective(frame, r.category.value) else before
  }

  function ActionAfter(frame: Frame, before: Action, r: Rule): Action {
    if r.action.Some? then r.action.value
    else if r.category.Some? then frame.choose(Effective(frame, r.category.value))
    else before
  }

  function StepOf(frame: Frame, p: Progress, j: Judged): Step {
    var unknown := if |j.rule.conditions| == |j.values| then UnknownFields(j.rule.conditions, j.values) else [];
    if p.stoppedBy.Some? then
      Step(j.rule.id, j.personal, Stopped, [], p.category, p.category, p.requested, p.requested)
    else if !JudgedHit(j) then
      Step(j.rule.id, j.personal, if unknown == [] then NoMatch else MissingFacts, unknown,
           p.category, p.category, p.requested, p.requested)
    else
      Step(j.rule.id, j.personal, Matched, unknown, p.category, CategoryAfter(frame, p.category, j.rule),
           p.requested, ActionAfter(frame, p.requested, j.rule))
  }

  /** One turn of the loop. */
  function Advance(frame: Frame, p: Progress, j: Judged): Progress {
    var step := StepOf(frame, p, j);
    if p.stoppedBy.Some? then p.(steps := p.steps + [step])
    else if !JudgedHit(j) then p.(steps := p.steps + [step], unavailable := p.unavailable + Unknowns(j.values))
    else
      Progress(step.categoryAfter, step.actionAfter, p.matched + [j.rule.id], p.unavailable + Unknowns(j.values),
               p.steps + [step],
               if j.rule.stop then Some(j.rule.id) else None,
               if j.rule.category.Some? then Some(j.rule.id) else p.categoryRule,
               if j.rule.category.Some? || j.rule.action.Some? then Some(j.rule.id) else p.actionRule)
  }

  function Start(frame: Frame, initial: Category): Progress {
    Progress(initial, frame.choose(initial), [], 0, [], None, None, None)
  }

  function Run(frame: Frame, start: Progress, js: seq<Judged>): Progress {
    if js == [] then start else Advance(frame, Run(frame, start, js[..|js| - 1]), js[|js| - 1])
  }

  function JudgeAll(o: Origins, env: Env, rules: seq<Rule>): (js: seq<Judged>)
    ensures |js| == |rules| && forall k :: 0 <= k < |js| ==> js[k] == Judge(o, env, rules[k])
  {
    seq(|rules|, k requires 0 <= k < |rules| => Judge(o, env, rules[k]))
  }

  /** The action that a category calls for under the selected profile. */
  function Choose(env: Env, profile: Option<Profile>): Category -> Action {
    (c: Category) =>
      if profile.Some? then
        match c
        case Spam => profile.value.spam
        case Publicity => profile.value.publicity
        case Undetermined => profile.value.review
        case Legitimate => Deliver
      else
        match c case Spam => env.spam case Publicity => env.publicity case _ => Deliver
  }

  function Selected(bound: seq<Bound>): Option<Profile> {
    if bound == [] then None else Some(bound[0].profile)
  }

  function Threshold(env: Env, bound: seq<Bound>): Option<real> {
    var t := FirstThreshold(bound);
    if t.Some? && env.usable(t.value) then t else None
  }

  function FrameOf(env: Env, bound: seq<Bound>): Frame {
    Frame(Choose(env, Selected(bound)), env.fallback(Threshold(env, bound)))
  }

  function Initial(env: Env, bound: seq<Bound>): Category {
    if bound == [] then env.original else env.judge(bound[0].profile, Threshold(env, bound))
  }

  datatype Assessment = Assessment(profiles: seq<Bound>, threshold: Option<real>, category: Category, requested: Action,
                                   matched: seq<string>, unavailable: nat, steps: seq<Step>, stoppedBy: Option<string>,
                                   categoryRule: Option<string>, actionRule: Option<string>, malwareOverride: bool)

  function Concluded(env: Env, bound: seq<Bound>, p: Progress): Assessment {
    Assessment(bound, Threshold(env, bound),
               if env.malware then Spam else p.category,
               if env.malware then env.malwareAction else p.requested,
               p.matched, p.unavailable, p.steps, p.stoppedBy,
               if env.malware then None else p.categoryRule,
               if env.malware then None else p.actionRule, env.malware)
  }

  /** The assessment without cache or indices. */
  function Assess(policy: Policy, env: Env, to: Recipient): Assessment {
    var bound := OrderedProfiles(policy, to);
    var frame := FrameOf(env, bound);
    Concluded(env, bound,
              Run(frame, Start(frame, Initial(env, bound)), JudgeAll(policy.origins, env, OrderedRules(policy, to, env.now))))
  }

  // ---------------------------------------------------------------- cached evaluation

  /** Shared conditions, matched once per transaction, by rule position in the policy. */
  function Prepare(rules: seq<Rule>, reader: Reader, shared: Facts): (m: seq<seq<Option<bool>>>)
    ensures |m| == |rules|
  {
    seq(|rules|, k requires 0 <= k < |rules| =>
      seq(|rules[k].conditions|, i requires 0 <= i < |rules[k].conditions| =>
        Matches(reader, shared, rules[k].conditions[i])))
  }

  datatype Numbered = Numbered(index: nat, rule: Rule)

  /** The applicable rules of the first n with their positions. */
  function NumberedRules(rules: seq<Rule>, to: Recipient, now: int, n: nat): (s: seq<Numbered>)
    requires n <= |rules|
    ensures forall x :: x in s ==> x.index < |rules| && rules[x.index] == x.rule
  {
    if n == 0 then []
    else
      var s := NumberedRules(rules, to, now, n - 1);
      if Applicable(rules[n - 1], to, now) then s + [Numbered(n - 1, rules[n - 1])] else s
  }

  function NumberedLe(o: Origins, to: Recipient): (Numbered, Numbered) -> bool {
    (a: Numbered, b: Numbered) => RuleLe(o, to)(a.rule, b.rule)
  }

  function Plain(s: seq<Numbered>): (r: seq<Rule>)
    ensures |r| == |s| && forall k :: 0 <= k < |s| ==> r[k] == s[k].rule
  {
    seq(|s|, k requires 0 <= k < |s| => s[k].rule)
  }

  lemma {:induction false} PlainInsert(o: Origins, to: Recipient, x: Numbered, s: seq<Numbered>)
    ensures Plain(Insert(x, s, NumberedLe(o, to))) == Insert(x.rule, Plain(s), RuleLe(o, to))
  {
    if s != [] && !NumberedLe(o, to)(x, s[0]) {
      PlainInsert(o, to, x, s[1..]);
      assert Plain(s)[1..] == Plain(s[1..]);
    }
  }

  /** Sorting the numbered rules is sorting the rules. */
  lemma {:induction false} PlainSort(o: Origins, to: Recipient, s: seq<Numbered>)
    ensures Plain(Sort(s, NumberedLe(o, to))) == Sort(Plain(s), RuleLe(o, to))
  {
    if s != [] {
      PlainSort(o, to, s[1..]);
      PlainInsert(o, to, s[0], Sort(s[1..], NumberedLe(o, to)));
      assert Plain(s)[1..] == Plain(s[1..]);
    }
  }

  lemma PlainSnoc(s: seq<Numbered>, x: Numbered)
    ensures Plain(s + [x]) == Plain(s) + [x.rule]
  {
  }

  /** What the rule before position n adds to the applicable ones. */
  function Added(rules: seq<Rule>, to: Recipient, now: int, n: nat): seq<Rule>
    requires 0 < n <= |rules|
  {
    if Applicable(rules[n - 1], to, now) then [rules[n - 1]] else []
  }

  lemma NumberedStep(rules: seq<Rule>, to: Recipient, now: int, n: nat)
    requires 0 < n <= |rules|
    ensures Plain(NumberedRules(rules, to, now, n))
            == Plain(NumberedRules(rules, to, now, n - 1)) + Added(rules, to, now, n)
  {
    PlainSnoc(NumberedRules(rules, to, now, n - 1), Numbered(n - 1, rules[n - 1]));
  }

  lemma KeptStep(rules: seq<Rule>, to: Recipient, now: int, n: nat)
    requires 0 < n <= |rules|
    ensures Keep(rules[..n], Live(to, now)) == Keep(rules[..n - 1], Live(to, now)) + Added(rules, to, now, n)
  {
    assert rules[..n] == rules[..n - 1] + [rules[n - 1]];
    KeepSnoc(rules[..n - 1], rules[n - 1], Live(to, now));
  }

  lemma {:induction false} PlainNumbered(rules: seq<Rule>, to: Recipient, now: int, n: nat)
    requires n <= |rules|
    ensures Plain(NumberedRules(rules, to, now, n)) == Keep(rules[..n], Live(to, now))
  {
    if n == 0 {
      assert rules[..0] == [];
    } else {
      PlainNumbered(rules, to, now, n - 1);
      NumberedStep(rules, to, now, n);
      KeptStep(rules, to, now, n);
    }
  }

  /** Reading the cache at the position before sorting gives the direct values. */
  method CachedValues(policy: Policy, env: Env, cache: seq<seq<Option<bool>>>, x: Numbered) returns (values: seq<Option<bool>>)
    requires cache == Prepare(policy.rules, env.reader, env.shared)
    requires x.index < |policy.rules| && policy.rules[x.index] == x.rule
    ensures values == Judge(policy.origins, env, x.rule).values
  {
    values := [];
    for i := 0 to |x.rule.conditions|
      invariant |values| == i && forall k :: 0 <= k < i ==> values[k] == ValueOf(policy.origins.ordering, env, x.rule.conditions[k])
    {
      var c := x.rule.conditions[i];
      var v := if OwnField(policy.origins.ordering, c.field) then Matches(env.reader, env.own, c) else cache[x.index][i];
      values := values + [v];
    }
  }

  /** The numbered order visits exactly the ordered rules, each with its position in the policy. */
  lemma NumberedOrder(policy: Policy, to: Recipient, now: int) returns (order: seq<Numbered>)
    ensures order == Sort(NumberedRules(policy.rules, to, now, |policy.rules|), NumberedLe(policy.origins, to))
    ensures |order| == |OrderedRules(policy, to, now)|
    ensures forall k :: 0 <= k < |order| ==>
                          order[k].rule == OrderedRules(policy, to, now)[k]
                          && order[k].index < |policy.rules| && policy.rules[order[k].index] == order[k].rule
  {
    var numbered := NumberedRules(policy.rules, to, now, |policy.rules|);
    order := Sort(numbered, NumberedLe(policy.origins, to));
    SortMultiset(numbered, NumberedLe(policy.origins, to));
    SameElements(numbered, order);
    PlainSort(policy.origins, to, numbered);
    PlainNumbered(policy.rules, to, now, |policy.rules|);
    assert policy.rules[..|policy.rules|] == policy.rules;
    assert Plain(order) == OrderedRules(policy, to, now);
    forall k | 0 <= k < |order|
      ensures order[k].rule == OrderedRules(policy, to, now)[k]
              && order[k].index < |policy.rules| && policy.rules[order[k].index] == order[k].rule
    {
      assert order[k].rule == Plain(order)[k];
      assert order[k] in order;
    }
  }

  lemma RunStep(frame: Frame, start: Progress, js: seq<Judged>, k: nat)
    requires k < |js|
    ensures Run(frame, start, js[..k + 1]) == Advance(frame, Run(frame, start, js[..k]), js[k])
  {
    assert js[..k + 1][..k] == js[..k];
  }

  /** The body of the loop over the rules: evaluate, record the step, apply the effects. */
  method Turn(frame: Frame, p: Progress, rule: Rule, personal: bool, values: seq<Option<bool>>) returns (q: Progress)
    requires |values| == |rule.conditions|
    ensures q == Advance(frame, p, Judged(rule, personal, values))
  {
    var step := Step(rule.id, personal, Stopped, [], p.category, p.category, p.requested, p.requested);
    if p.stoppedBy.Some? {
      return p.(steps := p.steps + [step]);
    }
    step := step.(unavailable := UnknownFields(rule.conditions, values));
    q := p.(unavailable := p.unavailable + Unknowns(values));
    if !Hit(rule.any, values) {
      step := step.(outcome := if step.unavailable == [] then NoMatch else MissingFacts);
      return q.(steps := q.steps + [step]);
    }
    step := step.(outcome := Matched);
    if rule.category.Some? {
      var c := if rule.category.value.Undetermined? then frame.fallback else rule.category.value;
      q := q.(categoryRule := Some(rule.id), actionRule := Some(rule.id), category := c, requested := frame.choose(c));
    }
    if rule.action.Some? {
      q := q.(actionRule := Some(rule.id), requested := rule.action.value);
    }
    step := step.(categoryAfter := q.category, actionAfter := q.requested);
    q := q.(matched := q.matched + [rule.id], steps := q.steps + [step]);
    if rule.stop {
      q := q.(stoppedBy := Some(rule.id));
    }
  }

  /** The evaluator: cached matches, sorted positions, last writer wins, stop at the first stopping match. */
  method AssessPrepared(policy: Policy, env: Env, cache: seq<seq<Option<bool>>>, to: Recipient) returns (r: Assessment)
    requires cache == Prepare(policy.rules, env.reader, env.shared)
    ensures r == Assess(policy, env, to)
  {
    var bound := OrderedProfiles(policy, to);
    var frame := FrameOf(env, bound);
    var p := Start(frame, Initial(env, bound));
    var order := Sort(NumberedRules(policy.rules, to, env.now, |policy.rules|), NumberedLe(policy.origins, to));
    ghost var _ := NumberedOrder(policy, to, env.now);
    ghost var js := JudgeAll(policy.origins, env, OrderedRules(policy, to, env.now));
    for k := 0 to |order|
      invariant p == Run(frame, Start(frame, Initial(env, bound)), js[..k])
    {
      var values := CachedValues(policy, env, cache, order[k]);
      assert js[k] == Judged(order[k].rule, Personal(policy.origins, order[k].rule), values);
      RunStep(frame, Start(frame, Initial(env, bound)), js, k);
      p := Turn(frame, p, order[k].rule, Personal(policy.origins, order[k].rule), values);
    }
    assert js[..|order|] == js;
    r := Concluded(env, bound, p);
  }
}
