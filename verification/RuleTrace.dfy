/**
 What the rule loop computes, said without the loop: the last active writer decides, rules after
 the first stopping match are inert, and the trace explains the result step by step.
 */
module RuleTrace {
  import opened Options
  import opened Rules

  datatype Aspect = OnCategory | OnAction

  /** A rule that names a category also chooses the action. */
  predicate Sets(aspect: Aspect, r: Rule) {
    r.category.Some? || (aspect.OnAction? && r.action.Some?)
  }

  predicate Stops(j: Judged) { JudgedHit(j) && j.rule.stop }

  /** Matched, and no earlier match stopped the evaluation. */
  ghost predicate Active(js: seq<Judged>, k: nat) {
    k < |js| && JudgedHit(js[k]) && forall i: nat :: i < k ==> !Stops(js[i])
  }

  ghost predicate Writer(js: seq<Judged>, aspect: Aspect, k: nat) {
    Active(js, k) && Sets(aspect, js[k].rule)
  }

  ghost predicate LastWriter(js: seq<Judged>, aspect: Aspect, k: nat) {
    Writer(js, aspect, k) && forall i: nat :: k < i ==> !Writer(js, aspect, i)
  }

  ghost predicate NoWriter(js: seq<Judged>, aspect: Aspect) {
    forall i: nat :: !Writer(js, aspect, i)
  }

  function Init(js: seq<Judged>): (r: seq<Judged>)
    requires js != []
    ensures |r| == |js| - 1 && js == r + [js[|js| - 1]]
  {
    js[..|js| - 1]
  }

  lemma InitWriters(js: seq<Judged>, aspect: Aspect, k: nat)
    requires js != []
    ensures k < |js| - 1 ==> (Writer(js, aspect, k) <==> Writer(Init(js), aspect, k))
    ensures k >= |js| ==> !Writer(js, aspect, k)
    ensures k >= |js| - 1 ==> !Writer(Init(js), aspect, k)
  {
    var init := Init(js);
    assert forall i: nat :: i < |init| ==> js[i] == init[i];
  }

  /** The last writer before the last rule, when that rule does not write. */
  lemma EarlierWriter(js: seq<Judged>, aspect: Aspect, k: nat)
    requires js != [] && !Writer(js, aspect, |js| - 1)
    ensures LastWriter(js, aspect, k) ==> LastWriter(Init(js), aspect, k)
    ensures NoWriter(js, aspect) ==> NoWriter(Init(js), aspect)
  {
    forall i: nat ensures Writer(Init(js), aspect, i) ==> Writer(js, aspect, i) {
      InitWriters(js, aspect, i);
    }
    InitWriters(js, aspect, k);
  }

  // ---------------------------------------------------------------- stopping

  /** The evaluation stops at the first stopping match and nowhere else. */
  lemma {:induction false} FirstStopWins(frame: Frame, start: Progress, js: seq<Judged>)
    requires start.stoppedBy.None?
    ensures Run(frame, start, js).stoppedBy.None? <==> forall i: nat :: i < |js| ==> !Stops(js[i])
    ensures forall k: nat :: Active(js, k) && Stops(js[k]) ==> Run(frame, start, js).stoppedBy == Some(js[k].rule.id)
  {
    if js != [] {
      var init, n := Init(js), |js| - 1;
      FirstStopWins(frame, start, init);
      assert forall i: nat :: i < n ==> js[i] == init[i];
      assert Stops(js[n]) ==> !(forall i: nat :: i < |js| ==> !Stops(js[i]));
      forall k: nat | Active(js, k) && Stops(js[k]) ensures Run(frame, start, js).stoppedBy == Some(js[k].rule.id) {
        if k < n {
          assert Active(init, k);
        }
      }
    }
  }

  // ---------------------------------------------------------------- last writer

  /** The last rule is active exactly when it matches and nothing stopped before it. */
  lemma LastActive(frame: Frame, start: Progress, js: seq<Judged>)
    requires js != [] && start.stoppedBy.None?
    ensures Active(js, |js| - 1) <==> Run(frame, start, Init(js)).stoppedBy.None? && JudgedHit(js[|js| - 1])
  {
    FirstStopWins(frame, start, Init(js));
    assert forall i: nat :: i < |js| - 1 ==> js[i] == Init(js)[i];
  }

  lemma LastTurn(frame: Frame, start: Progress, js: seq<Judged>)
    requires js != [] && start.stoppedBy.None?
    ensures var p, q, r := Run(frame, start, Init(js)), Run(frame, start, js), js[|js| - 1].rule;
            if Active(js, |js| - 1)
            then q.category == CategoryAfter(frame, p.category, r) && q.requested == ActionAfter(frame, p.requested, r)
                 && q.categoryRule == (if Sets(OnCategory, r) then Some(r.id) else p.categoryRule)
                 && q.actionRule == (if Sets(OnAction, r) then Some(r.id) else p.actionRule)
                 && q.matched == p.matched + [r.id]
            else q.category == p.category && q.requested == p.requested && q.matched == p.matched
                 && q.categoryRule == p.categoryRule && q.actionRule == p.actionRule
  {
    LastActive(frame, start, js);
  }

  /** What the last writers make of the result. */
  ghost predicate Decided(frame: Frame, start: Progress, js: seq<Judged>, p: Progress, k: nat) {
    && (LastWriter(js, OnCategory, k) ==>
          p.category == Effective(frame, js[k].rule.category.value) && p.categoryRule == Some(js[k].rule.id))
    && (NoWriter(js, OnCategory) ==> p.category == start.category && p.categoryRule == start.categoryRule)
    && (LastWriter(js, OnAction, k) ==>
          p.actionRule == Some(js[k].rule.id)
          && p.requested == (if js[k].rule.action.Some? then js[k].rule.action.value
                             else frame.choose(Effective(frame, js[k].rule.category.value))))
    && (NoWriter(js, OnAction) ==> p.requested == start.requested && p.actionRule == start.actionRule)
  }

  lemma WriterCases(js: seq<Judged>, aspect: Aspect, k: nat)
    requires js != []
    ensures LastWriter(js, aspect, k) ==>
              if Writer(js, aspect, |js| - 1) then k == |js| - 1
              else k < |js| - 1 && Init(js)[k] == js[k] && LastWriter(Init(js), aspect, k)
    ensures NoWriter(js, aspect) ==> !Writer(js, aspect, |js| - 1) && NoWriter(Init(js), aspect)
  {
    InitWriters(js, aspect, k);
    if !Writer(js, aspect, |js| - 1) {
      EarlierWriter(js, aspect, k);
    }
  }

  /**
   The category is that of the last active rule naming one, the action that of the last active
   rule naming either; without such a rule the starting values stay.
   */
  lemma {:induction false} LastWriterWins(frame: Frame, start: Progress, js: seq<Judged>, k: nat)
    requires start.stoppedBy.None?
    ensures Decided(frame, start, js, Run(frame, start, js), k)
  {
    if js != [] {
      LastWriterWins(frame, start, Init(js), k);
      LastTurn(frame, start, js);
      WriterCases(js, OnCategory, k);
      WriterCases(js, OnAction, k);
    }
  }

  /** Either nobody writes or there is a last writer. */
  lemma {:induction false} SomeLastWriter(js: seq<Judged>, aspect: Aspect, n: nat) returns (w: Option<nat>)
    requires n <= |js|
    ensures w.None? ==> forall i: nat :: i < n ==> !Writer(js, aspect, i)
    ensures w.Some? ==> w.value < n && Writer(js, aspect, w.value)
                        && forall i: nat :: w.value < i < n ==> !Writer(js, aspect, i)
  {
    if n == 0 {
      w := None;
    } else if Writer(js, aspect, n - 1) {
      w := Some(n - 1);
    } else {
      w := SomeLastWriter(js, aspect, n - 1);
    }
  }

  // ---------------------------------------------------------------- trace

  predicate Unknown(j: Judged) { None in j.values }

  /** What the step recorded for rule k must say. */
  ghost predicate Told(frame: Frame, js: seq<Judged>, step: Step, k: nat)
    requires k < |js|
  {
    && step.id == js[k].rule.id && step.personal == js[k].personal
    && (step.outcome == Stopped <==> exists i: nat :: i < k && Stops(js[i]))
    && (step.outcome == Matched <==> Active(js, k))
    && (step.outcome == MissingFacts ==> Unknown(js[k]))
    && (step.outcome == NoMatch ==> !Unknown(js[k]))
    && (step.outcome == Matched ==>
          step.categoryAfter == CategoryAfter(frame, step.categoryBefore, js[k].rule)
          && step.actionAfter == ActionAfter(frame, step.actionBefore, js[k].rule))
    && (step.outcome != Matched ==> step.categoryAfter == step.categoryBefore && step.actionAfter == step.actionBefore)
  }

  lemma {:induction false} UnknownFieldsEmpty(conditions: seq<Condition>, values: seq<Option<bool>>)
    requires |conditions| == |values|
    ensures UnknownFields(conditions, values) == [] <==> None !in values
  {
    if values != [] {
      var n := |values| - 1;
      UnknownFieldsEmpty(conditions[..n], values[..n]);
      assert values == values[..n] + [values[n]];
    }
  }

  ghost predicate Shaped(js: seq<Judged>) {
    forall k: nat :: k < |js| ==> |js[k].values| == |js[k].rule.conditions|
  }

  /** The trace chains from the initial to the final values. */
  ghost predicate Chains(start: Progress, p: Progress) {
    && (p.steps == [] ==> p.category == start.category && p.requested == start.requested)
    && (p.steps != [] ==>
          && p.steps[0].categoryBefore == start.category && p.steps[0].actionBefore == start.requested
          && p.steps[|p.steps| - 1].categoryAfter == p.category && p.steps[|p.steps| - 1].actionAfter == p.requested)
    && (forall k: nat :: k + 1 < |p.steps| ==>
                           p.steps[k].categoryAfter == p.steps[k + 1].categoryBefore
                           && p.steps[k].actionAfter == p.steps[k + 1].actionBefore)
  }

  lemma ChainsExtend(start: Progress, p: Progress, q: Progress, step: Step)
    requires Chains(start, p) && q.steps == p.steps + [step]
    requires step.categoryBefore == p.category && step.actionBefore == p.requested
    requires step.categoryAfter == q.category && step.actionAfter == q.requested
    ensures Chains(start, q)
  {
  }

  lemma {:induction false} TraceChains(frame: Frame, start: Progress, js: seq<Judged>)
    requires start.steps == []
    ensures Chains(start, Run(frame, start, js)) && |Run(frame, start, js).steps| == |js|
  {
    if js != [] {
      var p, j := Run(frame, start, Init(js)), js[|js| - 1];
      TraceChains(frame, start, Init(js));
      ChainsExtend(start, p, Run(frame, start, js), StepOf(frame, p, j));
    }
  }

  lemma LastTold(frame: Frame, start: Progress, js: seq<Judged>)
    requires js != [] && start.stoppedBy.None? && Shaped(js)
    ensures Told(frame, js, StepOf(frame, Run(frame, start, Init(js)), js[|js| - 1]), |js| - 1)
  {
    var n := |js| - 1;
    FirstStopWins(frame, start, Init(js));
    UnknownFieldsEmpty(js[n].rule.conditions, js[n].values);
    assert forall i: nat :: i < n ==> js[i] == Init(js)[i];
  }

  lemma ToldBefore(frame: Frame, js: seq<Judged>, step: Step, k: nat)
    requires js != [] && k < |js| - 1 && Told(frame, Init(js), step, k)
    ensures Told(frame, js, step, k)
  {
    assert forall i: nat :: i < |js| - 1 ==> js[i] == Init(js)[i];
    assert Active(js, k) <==> Active(Init(js), k);
  }

  /** Every rule has its step, and the step tells what happened to it. */
  lemma {:induction false} TraceTells(frame: Frame, start: Progress, js: seq<Judged>)
    requires start.stoppedBy.None? && start.steps == [] && Shaped(js)
    ensures |Run(frame, start, js).steps| == |js|
    ensures forall k: nat :: k < |js| ==> Told(frame, js, Run(frame, start, js).steps[k], k)
  {
    if js != [] {
      var init, n := Init(js), |js| - 1;
      TraceTells(frame, start, init);
      LastTold(frame, start, js);
      var p, q := Run(frame, start, init), Run(frame, start, js);
      assert q.steps == p.steps + [StepOf(frame, p, js[n])];
      forall k: nat | k < |js| ensures Told(frame, js, q.steps[k], k) {
        if k < n {
          ToldBefore(frame, js, p.steps[k], k);
        }
      }
    }
  }

  /** The list of matches is exactly the active rules, in evaluation order. */
  lemma {:induction false} MatchedAreActive(frame: Frame, start: Progress, js: seq<Judged>) returns (at: seq<nat>)
    requires start.stoppedBy.None? && start.matched == []
    ensures |at| == |Run(frame, start, js).matched|
    ensures forall a, b :: 0 <= a < b < |at| ==> at[a] < at[b]
    ensures forall a :: 0 <= a < |at| ==> Active(js, at[a]) && Run(frame, start, js).matched[a] == js[at[a]].rule.id
    ensures forall k: nat :: Active(js, k) ==> k in at
  {
    at := [];
    if js != [] {
      var init, n := Init(js), |js| - 1;
      at := MatchedAreActive(frame, start, init);
      LastTurn(frame, start, js);
      assert forall a :: 0 <= a < |at| ==> at[a] < n;
      if Active(js, n) {
        at := at + [n];
      }
    }
  }

  /** A step that carries the final values of an aspect, written by the rule it belongs to. */
  ghost predicate Final(js: seq<Judged>, aspect: Aspect, p: Progress, k: nat)
    requires |p.steps| == |js|
  {
    && LastWriter(js, aspect, k) && p.steps[k].id == js[k].rule.id && p.steps[k].outcome == Matched
    && (aspect.OnCategory? ==> p.steps[k].categoryAfter == p.category)
    && (aspect.OnAction? ==> p.steps[k].actionAfter == p.requested)
  }

  lemma NamedRule(frame: Frame, initial: Category, js: seq<Judged>, aspect: Aspect) returns (w: Option<nat>)
    requires Shaped(js)
    ensures var p := Run(frame, Start(frame, initial), js);
            && |p.steps| == |js|
            && (if w.Some? then Final(js, aspect, p, w.value) else NoWriter(js, aspect))
            && Decided(frame, Start(frame, initial), js, p, if w.Some? then w.value else 0)
  {
    var start := Start(frame, initial);
    TraceTells(frame, start, js);
    w := SomeLastWriter(js, aspect, |js|);
    LastWriterWins(frame, start, js, if w.Some? then w.value else 0);
    if w.Some? {
      assert LastWriter(js, aspect, w.value);
      assert Told(frame, js, Run(frame, start, js).steps[w.value], w.value);
    }
  }

  /** The rules that the result names are those whose recorded values are the result. */
  lemma NamedRulesDecide(frame: Frame, initial: Category, js: seq<Judged>)
    requires Shaped(js)
    ensures var p := Run(frame, Start(frame, initial), js);
            && |p.steps| == |js|
            && (p.categoryRule.None? ==> p.category == initial && NoWriter(js, OnCategory))
            && (p.categoryRule.Some? ==>
                  exists k: nat :: Final(js, OnCategory, p, k) && p.categoryRule == Some(p.steps[k].id))
            && (p.actionRule.None? ==> p.requested == frame.choose(initial) && NoWriter(js, OnAction))
            && (p.actionRule.Some? ==>
                  exists k: nat :: Final(js, OnAction, p, k) && p.actionRule == Some(p.steps[k].id))
  {
    var c := NamedRule(frame, initial, js, OnCategory);
    var a := NamedRule(frame, initial, js, OnAction);
  }

  /** The category and action are the recorded after-values of the named rules, or the profile's own. */
  ghost predicate Explained(js: seq<Judged>, r: Assessment, initial: Category, chosen: Action) {
    && |r.steps| == |js|
    && (if r.categoryRule.None? then r.category == initial && NoWriter(js, OnCategory)
        else exists k: nat :: LastWriter(js, OnCategory, k) && r.steps[k].outcome == Matched
                              && r.categoryRule == Some(r.steps[k].id) && r.category == r.steps[k].categoryAfter)
    && (if r.actionRule.None? then r.requested == chosen && NoWriter(js, OnAction)
        else exists k: nat :: LastWriter(js, OnAction, k) && r.steps[k].outcome == Matched
                              && r.actionRule == Some(r.steps[k].id) && r.requested == r.steps[k].actionAfter)
  }

  /**
   The trace of every assessment explains it: one truthful step per ordered rule, and the named
   rules are the last active writers, unless malware overrides everything and names no rule.
   */
  lemma TraceExplainsAssessment(policy: Policy, env: Env, to: Recipient)
    ensures var r, js := Assess(policy, env, to), JudgeAll(policy.origins, env, OrderedRules(policy, to, env.now));
            var bound := OrderedProfiles(policy, to);
            var frame, initial := FrameOf(env, bound), Initial(env, bound);
            && |r.steps| == |js|
            && (forall k: nat :: k < |js| ==> Told(frame, js, r.steps[k], k))
            && (env.malware ==> r.category == Spam && r.requested == env.malwareAction && r.malwareOverride
                                && r.categoryRule == None && r.actionRule == None)
            && (!env.malware ==> !r.malwareOverride && Explained(js, r, initial, frame.choose(initial)))
  {
    var js := JudgeAll(policy.origins, env, OrderedRules(policy, to, env.now));
    var bound := OrderedProfiles(policy, to);
    var frame, initial := FrameOf(env, bound), Initial(env, bound);
    TraceTells(frame, Start(frame, initial), js);
    if !env.malware {
      ProgressExplained(frame, initial, js, Concluded(env, bound, Run(frame, Start(frame, initial), js)));
    }
  }

  lemma ProgressExplained(frame: Frame, initial: Category, js: seq<Judged>, r: Assessment)
    requires Shaped(js)
    requires var p := Run(frame, Start(frame, initial), js);
             r.steps == p.steps && r.category == p.category && r.requested == p.requested
             && r.categoryRule == p.categoryRule && r.actionRule == p.actionRule
    ensures Explained(js, r, initial, frame.choose(initial))
  {
    NamedRulesDecide(frame, initial, js);
    var p := Run(frame, Start(frame, initial), js);
    if p.categoryRule.Some? {
      var k: nat :| Final(js, OnCategory, p, k) && p.categoryRule == Some(p.steps[k].id);
      assert LastWriter(js, OnCategory, k);
    }
    if p.actionRule.Some? {
      var k: nat :| Final(js, OnAction, p, k) && p.actionRule == Some(p.steps[k].id);
      assert LastWriter(js, OnAction, k);
    }
  }

  // ---------------------------------------------------------------- unknown facts

  ghost predicate Knows(less: Facts, more: Facts) {
    forall f :: f in less ==> f in more && more[f] == less[f]
  }

  lemma MoreValuesKeepHit(any: bool, a: seq<Option<bool>>, b: seq<Option<bool>>)
    requires |a| == |b| && forall i :: 0 <= i < |a| && a[i].Some? ==> b[i] == a[i]
    requires Hit(any, a)
    ensures Hit(any, b)
  {
    if any {
      var i :| 0 <= i < |a| && a[i] == Some(true);
      assert b[i] == Some(true);
    } else {
      forall v | v in b ensures v == Some(true) {
        var i :| 0 <= i < |b| && b[i] == v;
        assert a[i] in a;
      }
    }
  }

  lemma ValueLearned(ordering: Ordering, env: Env, later: Env, c: Condition)
    requires env.reader == later.reader && Knows(env.shared, later.shared) && Knows(env.own, later.own)
    ensures ValueOf(ordering, env, c).Some? ==> ValueOf(ordering, later, c) == ValueOf(ordering, env, c)
  {
    MatchLearned(env.reader, env.own, later.own, c);
    MatchLearned(env.reader, env.shared, later.shared, c);
  }

  lemma MatchLearned(reader: Reader, less: Facts, more: Facts, c: Condition)
    requires Knows(less, more)
    ensures Matches(reader, less, c).Some? ==> Matches(reader, more, c) == Matches(reader, less, c)
  {
    if c.field in less {
      assert more[c.field] == less[c.field];
    }
  }

  /** Learning further facts never undoes a match. */
  lemma LearningKeepsMatches(o: Origins, env: Env, later: Env, r: Rule)
    requires env.reader == later.reader && Knows(env.shared, later.shared) && Knows(env.own, later.own)
    requires JudgedHit(Judge(o, env, r))
    ensures JudgedHit(Judge(o, later, r))
  {
    var a, b := Judge(o, env, r).values, Judge(o, later, r).values;
    forall i | 0 <= i < |a| && a[i].Some? ensures b[i] == a[i] {
      ValueLearned(o.ordering, env, later, r.conditions[i]);
    }
    MoreValuesKeepHit(r.any, a, b);
  }

  /**
   Without its fact a condition never helps a rule to match, whatever its operator: an all-rule
   cannot match, and an any-rule matches exactly when another condition holds.
   */
  lemma MissingFactBlocks(o: Origins, env: Env, r: Rule, i: nat)
    requires i < |r.conditions|
    requires r.conditions[i].field !in (if OwnField(o.ordering, r.conditions[i].field) then env.own else env.shared)
    ensures !r.any ==> !JudgedHit(Judge(o, env, r))
    ensures r.any ==>
              (JudgedHit(Judge(o, env, r))
               <==> exists j: nat :: j < |r.conditions| && j != i && ValueOf(o.ordering, env, r.conditions[j]) == Some(true))
  {
    var values := Judge(o, env, r).values;
    assert forall j: nat :: j < |values| ==> values[j] == ValueOf(o.ordering, env, r.conditions[j]);
    assert values[i] in values && values[i] == None;
    if r.any && Some(true) in values {
      var j: nat :| j < |values| && values[j] == Some(true);
      assert j != i && ValueOf(o.ordering, env, r.conditions[j]) == Some(true);
    }
    forall j: nat | j < |values| && ValueOf(o.ordering, env, r.conditions[j]) == Some(true) ensures Some(true) in values {
      assert values[j] in values;
    }
  }
}
