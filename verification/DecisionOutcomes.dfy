/** The final classification: what required corroboration guarantees, and on which path. */
module DecisionOutcomes {
  import opened Options
  import opened Evidence
  import opened Decision
  import opened DecisionRows
  import opened DecisionTheorems

  /** A legacy decision that no policy step has touched yet. */
  predicate FreshLegacy(s: Scan) {
    && s.decision.Some? && s.decision.value.source.Legacy?
    && (s.complete ==> !s.decision.value.outcome.Undetermined?)
    && s.arbitration.None? && s.resolution.None? && s.delivery.None?
  }

  /** Policy, then delivery. */
  function Delivered(s: Scan, require: bool, threshold: real): Scan {
    Finalize(Apply(s, require), threshold)
  }

  predicate EndsUnwanted(s: Scan) { s.decision.Some? && s.decision.value.outcome.Unwanted? }

  predicate ScoreReaches(s: Scan, threshold: real) {
    UsableScore(s).Some? && UsableScore(s).value >= threshold
  }

  // ---------------------------------------------------------------- one pass

  lemma FreshIsRebased(s: Scan)
    requires FreshLegacy(s)
    ensures var x := Rebased(s);
            && x.decision == s.decision && x.delivery.None? && x.facts == s.facts && x.complete == s.complete
            && x.featuresComplete == s.featuresComplete && x.score == s.score && x.model == s.model
            && ObservedThreatDespiteGap(x) == ObservedThreatDespiteGap(s)
            && AuthenticatedBenignConflict(x) == AuthenticatedBenignConflict(s)
            && ReadableWithDnsGap(x) == ReadableWithDnsGap(s)
  {
    RebasedRows(s);
    GapsReadUnderlyingRows(s, Rebased(s));
  }

  /** Finalising a scan that has nothing to restore. */
  lemma FinalizePlain(y: Scan, threshold: real)
    requires y.resolution.None? && !Has(y.reasons, ScoreResolved) && y.decision.Some?
    ensures Finalize(y, threshold) ==
              if ValidScore(threshold) && Abstains(y, y.decision.value) then Resolved(y, threshold, y.decision.value) else y
  {
    RestoredAlready(y);
  }

  lemma WeighedIsPlain(x: Scan, require: bool, before: bool)
    requires Bare(x)
    ensures Weighed(x, require, before).resolution.None? && !Has(Weighed(x, require, before).reasons, ScoreResolved)
    ensures Has(Weighed(x, require, before).reasons, ConfirmationMissing) <==> LacksCorroboration(x, require)
    ensures AuthenticatedBenignConflict(Weighed(x, require, before)) == AuthenticatedBenignConflict(x)
  {
    WeighedHas(x, require, before, ScoreResolved);
    WeighedHas(x, require, before, ConfirmationMissing);
    WeighedUnderlying(x, require, before);
    GapsReadUnderlyingRows(x, Weighed(x, require, before));
  }

  /** The score decides a scan that still abstains, at a valid threshold. */
  predicate ByIndex(x: Scan, d: Verdict, threshold: real) {
    ValidScore(threshold) && (d.outcome.Undetermined? || x.delivery == Some(Unclear))
  }

  /** The score calls for unwanted, and no benign conflict speaks against it. */
  predicate IndexUnwanted(x: Scan, threshold: real) {
    !AuthenticatedBenignConflict(x) && ScoreReaches(x, threshold)
  }

  /** The classification implied by the three rulings over a legacy scan. */
  predicate RuledUnwanted(x: Scan, require: bool, before: bool, threshold: real) {
    var d := AfterContext(x, require, before);
    && d.Some?
    && if ByIndex(x, d.value, threshold) then !LacksCorroboration(x, require) && IndexUnwanted(x, threshold)
       else d.value.outcome.Unwanted?
  }

  predicate LegacyDecided(x: Scan) { x.decision.Some? && x.decision.value.source.Legacy? }

  /** Finalising a weighed legacy scan classifies it by its rulings. */
  lemma WeighedOutcome(x: Scan, require: bool, before: bool, threshold: real)
    requires Bare(x) && LegacyDecided(x)
    ensures EndsUnwanted(Finalize(Weighed(x, require, before), threshold)) == RuledUnwanted(x, require, before, threshold)
  {
    var y := Weighed(x, require, before);
    WeighedIsPlain(x, require, before);
    FinalizePlain(y, threshold);
  }

  /** The classification that a fresh legacy scan deserves when corroboration is required. */
  predicate Deserved(s: Scan, threshold: real) {
    var d := s.decision;
    || s.facts.antivirus.Malware?
    || ObservedThreatDespiteGap(s)
    || (Corroborated(s.facts) && d.Some? &&
        var settled := if s.complete
                       then s.facts.opinion.None? || s.facts.opinion.value == d.value.outcome
                            || (s.facts.opinion.value.Undetermined? && d.value.outcome.Unwanted?)
                       else !d.value.outcome.Undetermined?;
        if settled then d.value.outcome.Unwanted? else ScoreReaches(s, threshold))
  }

  /** With corroboration required, the rulings give the deserved classification. */
  lemma RuledIsDeserved(x: Scan, before: bool, threshold: real)
    requires FreshLegacy(x) && !x.facts.antivirus.Malware? && !ObservedThreatDespiteGap(x) && ValidScore(threshold)
    ensures RuledUnwanted(x, true, before, threshold) <==> Deserved(x, threshold)
  {
  }

  lemma RulingEndsUnwanted(s: Scan, require: bool, threshold: real)
    requires s.facts.antivirus.Malware? || LegacyThreat(Rebased(s))
    requires Rebased(s).delivery.None?
    ensures EndsUnwanted(Delivered(s, require, threshold))
  {
    RulingIsPlain(s, require);
    FinalizePlain(Apply(s, require), threshold);
  }

  /** Requiring corroboration, a fresh legacy scan is unwanted exactly when it is deserved. */
  lemma RequiredCorroborationVerdict(s: Scan, threshold: real)
    requires FreshLegacy(s) && ValidScore(threshold)
    ensures EndsUnwanted(Delivered(s, true, threshold)) <==> Deserved(s, threshold)
  {
    var x := Rebased(s);
    FreshIsRebased(s);
    RebasedIsBare(s);
    if s.facts.antivirus.Malware? || LegacyThreat(x) {
      RulingEndsUnwanted(s, true, threshold);
    } else {
      WeighedOutcome(x, true, Has(s.reasons, ContextReview), threshold);
      RuledIsDeserved(x, Has(s.reasons, ContextReview), threshold);
      assert Deserved(x, threshold) == Deserved(s, threshold);
    }
  }

  lemma RulingIsPlain(s: Scan, require: bool)
    requires s.facts.antivirus.Malware? || LegacyThreat(Rebased(s))
    ensures Apply(s, require).resolution.None? && !Has(Apply(s, require).reasons, ScoreResolved)
  {
    var x, y := Rebased(s), Apply(s, require);
    RebasedIsBare(s);
    if s.facts.antivirus.Malware? {
      HasWithout(x.reasons, {ConfirmationMissing}, ScoreResolved);
      HasConcat(Without(x.reasons, {ConfirmationMissing}), [Row(MalwarePriority, MalwareFound)], ScoreResolved);
      HasOne(Row(MalwarePriority, MalwareFound), ScoreResolved);
    } else {
      var row := y.reasons[|x.reasons|];
      HasConcat(x.reasons, [row], ScoreResolved);
      HasOne(row, ScoreResolved);
    }
  }

  /** In particular, at any threshold: nothing is unwanted without corroboration or an observed threat. */
  lemma UnwantedNeedsEvidence(s: Scan, threshold: real)
    requires FreshLegacy(s) && EndsUnwanted(Delivered(s, true, threshold))
    ensures Corroborated(s.facts) || ObservedThreatDespiteGap(s)
  {
    if ValidScore(threshold) {
      RequiredCorroborationVerdict(s, threshold);
    } else {
      var x := Rebased(s);
      FreshIsRebased(s);
      RebasedIsBare(s);
      if !s.facts.antivirus.Malware? && !LegacyThreat(x) {
        WeighedIsPlain(x, true, Has(s.reasons, ContextReview));
        FinalizePlain(Apply(s, true), threshold);
      }
    }
  }

  /** An abstention for lack of corroboration is never resolved as unwanted. */
  lemma LackingIsAccepted(x: Scan, before: bool, threshold: real)
    requires Bare(x) && LacksCorroboration(x, true)
    ensures !EndsUnwanted(Finalize(Weighed(x, true, before), threshold))
  {
    WeighedIsPlain(x, true, before);
    FinalizePlain(Weighed(x, true, before), threshold);
  }

  lemma NothingLacking(x: Scan, before: bool)
    requires !LacksCorroboration(x, true)
    ensures Weighed(x, true, before) == Weighed(x, false, before)
  {
  }

  /** For every scan, requiring corroboration never adds an unwanted classification. */
  lemma RequiringNeverAddsUnwanted(s: Scan, threshold: real)
    ensures EndsUnwanted(Delivered(s, true, threshold)) ==> EndsUnwanted(Delivered(s, false, threshold))
  {
    var x, before := Rebased(s), Has(s.reasons, ContextReview);
    RebasedIsBare(s);
    if s.facts.antivirus.Malware? || LegacyThreat(x) {
      assert Apply(s, true) == Apply(s, false);
    } else if LacksCorroboration(x, true) {
      LackingIsAccepted(x, before, threshold);
    } else {
      NothingLacking(x, before);
    }
  }

  // ---------------------------------------------------------------- two passes

  /** z is what a first pass over x leaves for a second one to judge. */
  predicate LeftBy(x: Scan, first: bool, before: bool, z: Scan) {
    && z.facts == x.facts && z.complete == x.complete && z.delivery == x.delivery
    && z.featuresComplete == x.featuresComplete && z.score == x.score
    && z.decision == (if Arbitrated(x).Some? then x.decision else AfterContext(x, first, before))
    && (Has(z.reasons, ConfirmationMissing) <==> LacksCorroboration(x, first))
    && ReadableWithDnsGap(z) == ReadableWithDnsGap(x)
    && AuthenticatedBenignConflict(z) == AuthenticatedBenignConflict(x)
  }

  lemma FirstPass(x: Scan, first: bool, before: bool)
    requires Bare(x)
    ensures LeftBy(x, first, before, Rebased(Weighed(x, first, before))) && Bare(Rebased(Weighed(x, first, before)))
  {
    var y := Weighed(x, first, before);
    RebasedWeighed(x, first, before);
    RebasedIsBare(y);
    ConfirmableRows(x, first);
    GapsReadUnderlyingRows(x, Rebased(y));
  }

  lemma SecondPass(s: Scan, first: bool, second: bool)
    requires !s.facts.antivirus.Malware? && !LegacyThreat(Rebased(s))
    ensures var x, before := Rebased(s), Has(s.reasons, ContextReview);
            Apply(Apply(s, first), second) == Weighed(Rebased(Weighed(x, first, before)), second, Reviewed(x, first, before))
  {
    var x, before := Rebased(s), Has(s.reasons, ContextReview);
    RebasedIsBare(s);
    WeighedIsNoThreat(x, first, before);
    WeighedHas(x, first, before, ContextReview);
  }

  /** The two classifications compared: judged in one pass, and after a first pass with the other requirement. */
  lemma PassOutcomes(s: Scan, first: bool, second: bool, threshold: real)
    requires !s.facts.antivirus.Malware? && !LegacyThreat(Rebased(s)) && LegacyDecided(Rebased(s))
    ensures var x, before := Rebased(s), Has(s.reasons, ContextReview);
            var z := Rebased(Weighed(x, first, before));
            && LeftBy(x, first, before, z)
            && EndsUnwanted(Delivered(s, second, threshold)) == RuledUnwanted(x, second, before, threshold)
            && EndsUnwanted(Delivered(Apply(s, first), second, threshold))
               == RuledUnwanted(z, second, Reviewed(x, first, before), threshold)
  {
    var x, before := Rebased(s), Has(s.reasons, ContextReview);
    RebasedIsBare(s);
    FirstPass(x, first, before);
    SecondPass(s, first, second);
    WeighedOutcome(x, second, before, threshold);
    WeighedOutcome(Rebased(Weighed(x, first, before)), second, Reviewed(x, first, before), threshold);
  }

  /** Malware and observed threats leave nothing for the requirement to decide. */
  lemma ApplyIgnoresRequirement(s: Scan)
    requires s.facts.antivirus.Malware? || LegacyThreat(Rebased(s))
    ensures Apply(Apply(s, false), true) == Apply(s, true) == Apply(s, false)
    ensures Apply(Apply(s, true), false) == Apply(s, false)
  {
    ApplyIsIdempotent(s, true);
    ApplyIsIdempotent(s, false);
    RebasedIsBare(s);
    if !s.facts.antivirus.Malware? {
      ThreatenedAgain(Rebased(s));
    }
  }

  /** Neither does a decision that is missing or not the legacy one. */
  lemma OnlyLegacyIsHeld(s: Scan)
    requires !s.facts.antivirus.Malware? && !LegacyThreat(Rebased(s)) && !LegacyDecided(Rebased(s))
    ensures Apply(Apply(s, false), true) == Apply(s, true)
    ensures Apply(Apply(s, true), false) == Apply(s, false)
  {
    ApplyIsIdempotent(s, true);
    ApplyIsIdempotent(s, false);
    NothingLacking(Rebased(s), Has(s.reasons, ContextReview));
  }

  /** Nothing arbitrates the decision of the scan. */
  predicate Unarbitrated(x: Scan) {
    !x.complete || x.facts.opinion.None? || (x.decision.Some? && x.decision.value.outcome.Undetermined?)
  }

  predicate Reviewable(x: Scan) { NeedsReview(x.facts) && (x.complete || ReadableWithDnsGap(x)) }

  /**
   A complete scan without corroboration whose missing-corroboration row a pass without the
   requirement prevents or removes: the pass sends it to context review, or finds it abstaining
   with that row. Its score then makes it unwanted.
   */
  predicate ReleasedBefore(x: Scan, threshold: real) {
    && x.complete && LegacyDecided(x) && Unarbitrated(x) && !Corroborated(x.facts)
    && ((x.decision.value.outcome.Unwanted? && NeedsReview(x.facts))
        || (x.decision.value.outcome.Undetermined? && Has(x.reasons, ConfirmationMissing)))
    && ValidScore(threshold) && IndexUnwanted(x, threshold)
  }

  lemma ArbitratedAgain(x: Scan, z: Scan, first: bool, second: bool, before: bool)
    requires LegacyDecided(x) && LeftBy(x, first, before, z) && Arbitrated(x).Some?
    ensures Arbitrated(z) == Arbitrated(x) && AfterOpinion(z) == AfterOpinion(x)
    ensures LacksCorroboration(z, second) == LacksCorroboration(x, second)
    ensures AfterCorroboration(z, second) == AfterCorroboration(x, second)
  {
  }

  /** An arbitrated decision is judged as if there had been no earlier pass. */
  lemma ArbitratedIsJudgedAfresh(x: Scan, z: Scan, first: bool, second: bool, before: bool, threshold: real)
    requires LegacyDecided(x) && LeftBy(x, first, before, z) && Arbitrated(x).Some?
    ensures RuledUnwanted(z, second, Reviewed(x, first, before), threshold) == RuledUnwanted(x, second, before, threshold)
  {
    ArbitratedAgain(x, z, first, second, before);
  }

  lemma PlainRequirement(x: Scan, z: Scan, before: bool, threshold: real)
    requires LegacyDecided(x) && LeftBy(x, false, before, z) && Arbitrated(x).None?
    ensures RuledUnwanted(z, true, Reviewed(x, false, before), threshold) == RuledUnwanted(x, true, before, threshold)
            <==> !ReleasedBefore(x, threshold)
  {
  }

  lemma RequirementRulings(x: Scan, z: Scan, before: bool, threshold: real)
    requires LegacyDecided(x) && LeftBy(x, false, before, z)
    ensures RuledUnwanted(z, true, Reviewed(x, false, before), threshold) == RuledUnwanted(x, true, before, threshold)
            <==> !ReleasedBefore(x, threshold)
  {
    if Arbitrated(x).Some? {
      ArbitratedIsJudgedAfresh(x, z, false, true, before, threshold);
    } else {
      PlainRequirement(x, z, before, threshold);
    }
  }

  /**
   For every scan and threshold: requiring corroboration only on a second pass gives the
   classification of requiring it at once, unless the first pass released the scan.
   */
  lemma RequirementAfterEarlierPass(s: Scan, threshold: real)
    ensures EndsUnwanted(Delivered(Apply(s, false), true, threshold)) == EndsUnwanted(Delivered(s, true, threshold))
            <==> !ReleasedBefore(Rebased(s), threshold)
  {
    var x, before := Rebased(s), Has(s.reasons, ContextReview);
    if s.facts.antivirus.Malware? || LegacyThreat(x) {
      ApplyIgnoresRequirement(s);
    } else if !LegacyDecided(x) {
      OnlyLegacyIsHeld(s);
    } else {
      PassOutcomes(s, false, true, threshold);
      RequirementRulings(x, Rebased(Weighed(x, false, before)), before, threshold);
    }
  }

  /** An unwanted legacy decision that only the earlier requirement turned into an abstention, which then stays. */
  predicate HeldBefore(x: Scan, threshold: real) {
    && LegacyDecided(x) && x.decision.value.outcome.Unwanted? && Unarbitrated(x) && !Corroborated(x.facts)
    && !Reviewable(x) && !ObservedThreatDespiteGap(x)
    && !(ValidScore(threshold) && (x.delivery == Some(Unclear) || IndexUnwanted(x, threshold)))
  }

  lemma PlainLifting(x: Scan, z: Scan, before: bool, threshold: real)
    requires LegacyDecided(x) && LeftBy(x, true, before, z) && !ObservedThreatDespiteGap(x) && Arbitrated(x).None?
    ensures RuledUnwanted(z, false, Reviewed(x, true, before), threshold) == RuledUnwanted(x, false, before, threshold)
            <==> !HeldBefore(x, threshold)
  {
  }

  lemma LiftingRulings(x: Scan, z: Scan, before: bool, threshold: real)
    requires LegacyDecided(x) && LeftBy(x, true, before, z) && !ObservedThreatDespiteGap(x)
    ensures RuledUnwanted(z, false, Reviewed(x, true, before), threshold) == RuledUnwanted(x, false, before, threshold)
            <==> !HeldBefore(x, threshold)
  {
    if Arbitrated(x).Some? {
      ArbitratedIsJudgedAfresh(x, z, true, false, before, threshold);
    } else {
      PlainLifting(x, z, before, threshold);
    }
  }

  /**
   For every scan and threshold: lifting the requirement on a second pass restores the
   classification without it, unless the first pass holds the scan.
   */
  lemma LiftingAfterEarlierPass(s: Scan, threshold: real)
    ensures EndsUnwanted(Delivered(Apply(s, true), false, threshold)) == EndsUnwanted(Delivered(s, false, threshold))
            <==> !HeldBefore(Rebased(s), threshold)
  {
    var x, before := Rebased(s), Has(s.reasons, ContextReview);
    if s.facts.antivirus.Malware? || LegacyThreat(x) {
      ApplyIgnoresRequirement(s);
    } else if !LegacyDecided(x) {
      OnlyLegacyIsHeld(s);
    } else {
      PassOutcomes(s, true, false, threshold);
      LiftingRulings(x, Rebased(Weighed(x, true, before)), before, threshold);
    }
  }

  // ---------------------------------------------------------------- examples

  /** Fresh, and carrying no explanation row of this policy. */
  predicate Untouched(s: Scan) {
    FreshLegacy(s) && Bare(s) && !Has(s.reasons, ConfirmationMissing)
  }

  lemma UntouchedRebased(s: Scan)
    requires Untouched(s)
    ensures Rebased(s) == s
  {
    RestoredAlready(s);
    WithoutAbsent(s.reasons, RULINGS);
  }

  /** A concrete scan that ends unwanted without corroboration because of an earlier pass. */
  lemma EarlierPassCanDefeatRequirement()
    ensures exists s: Scan, threshold: real ::
              Untouched(s) && !Corroborated(s.facts) && EndsUnwanted(Delivered(Apply(s, false), true, threshold))
  {
    var context := Context(false, true, false, false, false, false, false, false);
    var e := Transport(true, SmtpSession, Complete, Complete, Some(Pass), Complete, Some([Pass]),
                       Complete, Some(Pass), Some(Pass), Complete, Some(Pass), false, []);
    var f := Facts(Disabled, Disabled, false, None, false, false, Some(context), Some(e), false, false, false);
    var d := Verdict(Legacy, Unwanted, Some(99.0), "m");
    var s := Scan(f, true, Some(true), 99.0, "m", Some(d), None, None, None, false, false, []);
    assert DmarcPass(e) && !Corroborated(f) && NeedsReview(f);
    assert Untouched(s) && ReleasedBefore(s, 95.0);
    UntouchedRebased(s);
    RequirementAfterEarlierPass(s, 95.0);
    RequiredCorroborationVerdict(s, 95.0);
  }

  /** A concrete scan that stays accepted because of an earlier requirement that was then lifted. */
  lemma LiftedRequirementCanStillHold()
    ensures exists s: Scan, threshold: real ::
              && Untouched(s) && EndsUnwanted(Delivered(s, false, threshold))
              && !EndsUnwanted(Delivered(Apply(s, true), false, threshold))
  {
    var f := Facts(Disabled, Disabled, false, None, false, false, None, None, false, false, false);
    var d := Verdict(Legacy, Unwanted, Some(60.0), "m");
    var s := Scan(f, true, Some(true), 60.0, "m", Some(d), None, None, None, false, false, []);
    assert !Corroborated(f) && !NeedsReview(f);
    assert Untouched(s) && !LegacyThreat(s) && HeldBefore(s, 95.0);
    UntouchedRebased(s);
    PassOutcomes(s, true, false, 95.0);
    LiftingAfterEarlierPass(s, 95.0);
  }
}
