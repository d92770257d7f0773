/** The policy as the engine runs it: in-place updates of one scan, step by step. */
module ScanRecord {
  import opened Options
  import opened Evidence
  import opened Decision
  import opened DecisionRows
  import opened DecisionTheorems

  // ---------------------------------------------------------------- single steps

  function OpinionStep(s: Scan): Scan {
    var a := Arbitrated(s);
    s.(decision := AfterOpinion(s), tagged := s.tagged && !Contested(a), pubTagged := s.pubTagged && !Contested(a),
       reasons := s.reasons + Ruling(AdvisoryDisagreement, OpinionDetail(a), Contested(a)))
  }

  predicate Withholds(s: Scan, enabled: bool) {
    && enabled && !Corroborated(s.facts) && s.decision.Some? && s.decision.value.source.Legacy?
    && (|| s.decision.value.outcome.Unwanted?
        || (s.decision.value.outcome.Undetermined?
            && (!s.complete || Has(s.reasons, ConfirmationMissing) || Has(s.reasons, AdvisoryDisagreement))))
  }

  function ConfirmationStep(s: Scan, enabled: bool): Scan {
    var rows := Without(s.reasons, {ConfirmationMissing});
    if Withholds(s, enabled) && s.decision.Some? then
      s.(decision := Some(s.decision.value.(outcome := Undetermined)), tagged := false, pubTagged := false,
         reasons := rows + [Row(ConfirmationMissing, CorroborationMissing)])
    else s.(reasons := rows)
  }

  predicate Conflicts(s: Scan, before: bool) {
    && (s.complete || ReadableWithDnsGap(s)) && s.decision.Some? && s.decision.value.source.Legacy?
    && (s.decision.value.outcome.Unwanted? || ((before || !s.complete) && s.decision.value.outcome.Undetermined?))
    && NeedsReview(s.facts)
  }

  function ContextStep(s: Scan, before: bool): Scan {
    if Conflicts(s, before) && s.decision.Some? then
      s.(decision := Some(s.decision.value.(outcome := Undetermined, score := None)), tagged := false, pubTagged := false,
         reasons := s.reasons + [Row(ContextReview, ContextConflict)])
    else s
  }

  /** The corroboration step right after the opinion step finds what the closed form says. */
  lemma StepsWithhold(x: Scan, require: bool)
    requires Bare(x)
    ensures Withholds(OpinionStep(x), require) == LacksCorroboration(x, require)
    ensures Without(OpinionStep(x).reasons, {ConfirmationMissing}) ==
              Without(x.reasons, {ConfirmationMissing})
              + Ruling(AdvisoryDisagreement, OpinionDetail(Arbitrated(x)), Contested(Arbitrated(x)))
  {
    var a := Arbitrated(x);
    var row := Ruling(AdvisoryDisagreement, OpinionDetail(a), Contested(a));
    HasConcat(x.reasons, row, ConfirmationMissing);
    HasConcat(x.reasons, row, AdvisoryDisagreement);
    HasRuling(AdvisoryDisagreement, OpinionDetail(a), Contested(a), ConfirmationMissing);
    HasRuling(AdvisoryDisagreement, OpinionDetail(a), Contested(a), AdvisoryDisagreement);
    WithoutConcat(x.reasons, row, {ConfirmationMissing});
  }

  lemma StepsUnderlying(x: Scan, require: bool)
    requires Bare(x)
    ensures Underlying(ConfirmationStep(OpinionStep(x), require).reasons) == Underlying(x.reasons)
  {
    var a := Arbitrated(x);
    var row := Ruling(AdvisoryDisagreement, OpinionDetail(a), Contested(a));
    StepsWithhold(x, require);
    UnderlyingAppend(Without(x.reasons, {ConfirmationMissing}), row);
    UnderlyingWithout(x.reasons, {ConfirmationMissing});
    UnderlyingAppend(Without(x.reasons, {ConfirmationMissing}) + row, [Row(ConfirmationMissing, CorroborationMissing)]);
  }

  /** The scan between the corroboration and context steps. */
  function Withheld(x: Scan, require: bool): Scan {
    var a, held := Arbitrated(x), Contested(Arbitrated(x)) || LacksCorroboration(x, require);
    x.(decision := AfterCorroboration(x, require), tagged := x.tagged && !held, pubTagged := x.pubTagged && !held,
       reasons := Without(x.reasons, {ConfirmationMissing})
                  + Ruling(AdvisoryDisagreement, OpinionDetail(a), Contested(a))
                  + Ruling(ConfirmationMissing, CorroborationMissing, LacksCorroboration(x, require)))
  }

  lemma StepsConfirm(x: Scan, require: bool)
    requires Bare(x)
    ensures ConfirmationStep(OpinionStep(x), require) == Withheld(x, require)
  {
    StepsWithhold(x, require);
  }

  lemma ContextOfConfirmed(x: Scan, require: bool, before: bool)
    requires ReadableWithDnsGap(Withheld(x, require)) == ReadableWithDnsGap(x)
    ensures Conflicts(Withheld(x, require), before) == Reviewed(x, require, before)
    ensures ContextStep(Withheld(x, require), before).decision == AfterContext(x, require, before)
  {
  }

  /** Opinion, corroboration and context in sequence are the closed form, up to the saved report. */
  lemma StepsWeigh(x: Scan, require: bool, before: bool)
    requires Bare(x)
    ensures var y := ContextStep(ConfirmationStep(OpinionStep(x), require), before);
            y.(arbitration := Weighed(x, require, before).arbitration) == Weighed(x, require, before)
  {
    StepsConfirm(x, require);
    StepsUnderlying(x, require);
    GapsReadUnderlyingRows(x, Withheld(x, require));
    ContextOfConfirmed(x, require, before);
  }

  // ---------------------------------------------------------------- the record

  class Record {
    const facts: Facts
    const complete: bool
    const featuresComplete: Option<bool>
    const score: real
    const model: string
    var decision: Option<Verdict>
    var arbitration: Option<Arbitration>
    var resolution: Option<ScoreResolution>
    var delivery: Option<Category>
    var tagged: bool
    var pubTagged: bool
    var reasons: seq<Signal>

    function View(): Scan
      reads this
    {
      Scan(facts, complete, featuresComplete, score, model, decision, arbitration, resolution, delivery,
           tagged, pubTagged, reasons)
    }

    constructor (s: Scan)
      ensures View() == s
    {
      facts, complete, featuresComplete, score, model := s.facts, s.complete, s.featuresComplete, s.score, s.model;
      decision, arbitration, resolution, delivery := s.decision, s.arbitration, s.resolution, s.delivery;
      tagged, pubTagged, reasons := s.tagged, s.pubTagged, s.reasons;
    }

    /** Takes the saved resolution and undoes it while its decision is in force. */
    method RestoreScoreResolution()
      modifies this
      ensures View() == Restored(old(View()))
    {
      var previous := resolution;
      resolution := None;
      if previous.Some? && decision == Some(previous.value.decision) {
        decision := Some(previous.value.previous);
        delivery := previous.value.previousCategory;
      }
      reasons := Without(reasons, {ScoreResolved});
    }

    /** Resolves an abstention by the content score, unless a guard accepts the message. */
    method ResolveByScore(enabled: bool, threshold: real)
      modifies this
      ensures View() == Resolve(old(View()), enabled, threshold)
    {
      RestoreScoreResolution();
      if !enabled || !ValidScore(threshold) {
        return;
      }
      var previous := if decision.Some? then decision.value else LegacyVerdict(View(), threshold);
      if previous.source.Antivirus? || (!previous.outcome.Undetermined? && delivery != Some(Unclear)) {
        return;
      }
      Settle(threshold, previous);
    }

    /** Replaces the abstention by the score's verdict and records what it replaced. */
    method Settle(threshold: real, previous: Verdict)
      modifies this
      ensures View() == Resolved(old(View()), threshold, previous)
    {
      var usable := UsableScore(View());
      var missing := Has(reasons, ConfirmationMissing) && !Corroborated(facts);
      var benign := !missing && previous.source.Legacy? && AuthenticatedBenignConflict(View());
      var guard := if missing then Some(CorroborationRequired) else if benign then Some(BenignConflict) else None;
      var outcome := if guard.None? && usable.Some? && usable.value >= threshold then Unwanted else Legitimate;
      var resolved := Verdict(Legacy, outcome, usable, model);
      var category := delivery;
      if category == Some(Unclear) {
        delivery := None;
      }
      decision := Some(resolved);
      resolution := Some(ScoreResolution(previous, resolved, threshold, usable, !complete, category, guard));
      reasons := reasons + [Row(ScoreResolved, ResolutionDetail(guard, usable, threshold))];
    }

    /** Compares a determinate legacy decision with the second opinion; abstains when they disagree. */
    method Arbitrate() returns (report: Option<Arbitration>)
      modifies this
      ensures View() == OpinionStep(old(View()))
      ensures report.Some? <==> Arbitrated(old(View())).Some?
      ensures report.Some? ==>
                report == Some(Arbitration(VERSION, old(decision).value, facts.opinion.value,
                                           Arbitrated(old(View())).value, decision.value))
    {
      if decision.None? || !complete || !decision.value.source.Legacy? || decision.value.outcome.Undetermined? {
        return None;
      }
      if facts.opinion.None? {
        return None;
      }
      var baseline, opinion := decision.value, facts.opinion.value;
      var verdict :=
        if opinion == baseline.outcome then Agreement
        else if !opinion.Undetermined? then Disagreement
        else if baseline.outcome.Unwanted? && Corroborated(facts) then Confirmed
        else Ambiguous;
      if verdict.Disagreement? || verdict.Ambiguous? {
        decision := Some(baseline.(outcome := Undetermined, score := None));
        tagged, pubTagged := false, false;
        reasons := reasons + [Row(AdvisoryDisagreement, if verdict.Disagreement? then Contradiction else Ambiguity)];
      }
      report := Some(Arbitration(VERSION, baseline, opinion, verdict, decision.value));
    }

    /** Replaces an uncorroborated legacy decision by an abstention. */
    method RequireCorroboration(enabled: bool)
      modifies this
      ensures View() == ConfirmationStep(old(View()), enabled)
    {
      var alreadyReviewed := Has(reasons, ConfirmationMissing) || Has(reasons, AdvisoryDisagreement);
      reasons := Without(reasons, {ConfirmationMissing});
      if !enabled || Corroborated(facts) || decision.None? {
        return;
      }
      if decision.value.source.Legacy?
         && (decision.value.outcome.Unwanted? || (decision.value.outcome.Undetermined? && (alreadyReviewed || !complete)))
      {
        decision := Some(decision.value.(outcome := Undetermined));
        tagged, pubTagged := false, false;
        reasons := reasons + [Row(ConfirmationMissing, CorroborationMissing)];
      }
    }

    /** Abstains when authenticated context conflicts with an uncorroborated score. */
    method ReviewContext(before: bool)
      modifies this
      ensures View() == ContextStep(old(View()), before)
    {
      if (complete || ReadableWithDnsGap(View())) && decision.Some? && decision.value.source.Legacy?
         && (decision.value.outcome.Unwanted? || ((before || !complete) && decision.value.outcome.Undetermined?))
         && NeedsReview(facts)
      {
        decision := Some(decision.value.(outcome := Undetermined, score := None));
        tagged, pubTagged := false, false;
        reasons := reasons + [Row(ContextReview, ContextConflict)];
      }
    }

    /** Takes the saved arbitration and starts again from its baseline while it is in force. */
    method Rebase()
      modifies this
      ensures View() == Rebased(old(View()))
    {
      RestoreScoreResolution();
      var previous := arbitration;
      arbitration := None;
      if previous.Some? && KnownVersion(previous.value.version) && complete && decision == Some(previous.value.decision) {
        decision := Some(previous.value.baseline);
      }
      reasons := Without(reasons, RULINGS);
    }

    /** Arbitration, corroboration and context over a rebased scan. */
    method Weigh(require: bool, before: bool)
      requires Bare(View())
      modifies this
      ensures View() == Weighed(old(View()), require, before)
    {
      ghost var x := View();
      StepsWeigh(x, require, before);
      var report := Arbitrate();
      RequireCorroboration(require);
      ReviewContext(before);
      if report.Some? {
        report := Some(report.value.(decision := decision.value));
      }
      arbitration := report;
    }

    /** The policy entry point. */
    method ApplyPolicy(require: bool)
      modifies this
      ensures View() == Apply(old(View()), require)
    {
      var before := Has(reasons, ContextReview);
      RebasedIsBare(View());
      Rebase();
      if facts.antivirus.Malware? {
        reasons := Without(reasons, {ConfirmationMissing});
        decision := Some(Verdict(Antivirus, Unwanted, None, VERSION));
        pubTagged := false;
        if !complete {
          tagged := false;
        }
        reasons := reasons + [Row(MalwarePriority, MalwareFound)];
      } else if decision.Some? && decision.value.source.Legacy? && ObservedThreatDespiteGap(View()) {
        decision := Some(Verdict(Legacy, Unwanted, None, VERSION));
        tagged, pubTagged := false, false;
        reasons := reasons + [Row(ObservedThreat,
          if facts.context.Some? && facts.context.value.directExtortion then ExtortionAgreed else PhishingAgreed)];
      } else {
        Weigh(require, before);
      }
    }

    /** Delivery policy always terminates. */
    method FinalizeDelivery(threshold: real)
      modifies this
      ensures View() == Finalize(old(View()), threshold)
    {
      ResolveByScore(true, threshold);
    }
  }
}
