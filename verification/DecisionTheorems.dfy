/** What re-applying, finalising and requiring corroboration can and cannot change. */
module DecisionTheorems {
  import opened Options
  import opened Evidence
  import opened Decision
  import opened DecisionRows

  // ---------------------------------------------------------------- shapes

  lemma RestoredRows(s: Scan)
    ensures Underlying(Restored(s).reasons) == Underlying(s.reasons)
    ensures forall id :: Has(Restored(s).reasons, id) <==> Has(s.reasons, id) && id != ScoreResolved
  {
    UnderlyingWithout(s.reasons, {ScoreResolved});
    forall id ensures Has(Restored(s).reasons, id) <==> Has(s.reasons, id) && id != ScoreResolved {
      HasWithout(s.reasons, {ScoreResolved}, id);
    }
  }

  lemma RebasedRows(s: Scan)
    ensures Underlying(Rebased(s).reasons) == Underlying(s.reasons)
    ensures forall id :: Has(Rebased(s).reasons, id) <==> Has(s.reasons, id) && id != ScoreResolved && id !in RULINGS
  {
    RestoredRows(s);
    UnderlyingWithout(Restored(s).reasons, RULINGS);
    forall id ensures Has(Rebased(s).reasons, id) <==> Has(s.reasons, id) && id != ScoreResolved && id !in RULINGS {
      HasWithout(Restored(s).reasons, RULINGS, id);
    }
  }

  /** A scan that carries no ruling, no score row and no saved resolution or arbitration. */
  predicate Bare(s: Scan) {
    && s.resolution.None? && s.arbitration.None? && !Has(s.reasons, ScoreResolved)
    && !Has(s.reasons, MalwarePriority) && !Has(s.reasons, AdvisoryDisagreement)
    && !Has(s.reasons, ContextReview) && !Has(s.reasons, ObservedThreat)
  }

  lemma RebasedIsBare(s: Scan)
    ensures Bare(Rebased(s))
  {
    RebasedRows(s);
  }

  /** The rows of a weighed scan, id by id. */
  lemma WeighedHas(x: Scan, require: bool, before: bool, id: ReasonId)
    ensures Has(Weighed(x, require, before).reasons, id) <==>
              || (Has(x.reasons, id) && id != ConfirmationMissing)
              || (id == AdvisoryDisagreement && Contested(Arbitrated(x)))
              || (id == ConfirmationMissing && LacksCorroboration(x, require))
              || (id == ContextReview && Reviewed(x, require, before))
  {
    var a := Arbitrated(x);
    var base := Without(x.reasons, {ConfirmationMissing});
    var r1 := Ruling(AdvisoryDisagreement, OpinionDetail(a), Contested(a));
    var r2 := Ruling(ConfirmationMissing, CorroborationMissing, LacksCorroboration(x, require));
    var r3 := Ruling(ContextReview, ContextConflict, Reviewed(x, require, before));
    HasWithout(x.reasons, {ConfirmationMissing}, id);
    HasConcat(base, r1, id);
    HasConcat(base + r1, r2, id);
    HasConcat(base + r1 + r2, r3, id);
    HasRuling(AdvisoryDisagreement, OpinionDetail(a), Contested(a), id);
    HasRuling(ConfirmationMissing, CorroborationMissing, LacksCorroboration(x, require), id);
    HasRuling(ContextReview, ContextConflict, Reviewed(x, require, before), id);
  }

  /** Removing some derived ids from a weighed scan leaves its base and the kept rulings. */
  lemma WeighedWithout(x: Scan, require: bool, before: bool, ids: set<ReasonId>)
    ensures var a := Arbitrated(x);
            Without(Weighed(x, require, before).reasons, ids) ==
              Without(x.reasons, {ConfirmationMissing} + ids)
              + (if AdvisoryDisagreement in ids then [] else Ruling(AdvisoryDisagreement, OpinionDetail(a), Contested(a)))
              + (if ConfirmationMissing in ids then []
                 else Ruling(ConfirmationMissing, CorroborationMissing, LacksCorroboration(x, require)))
              + (if ContextReview in ids then [] else Ruling(ContextReview, ContextConflict, Reviewed(x, require, before)))
  {
    var a := Arbitrated(x);
    var base := Without(x.reasons, {ConfirmationMissing});
    var r1 := Ruling(AdvisoryDisagreement, OpinionDetail(a), Contested(a));
    var r2 := Ruling(ConfirmationMissing, CorroborationMissing, LacksCorroboration(x, require));
    var r3 := Ruling(ContextReview, ContextConflict, Reviewed(x, require, before));
    WithoutConcat(base + r1 + r2, r3, ids);
    WithoutConcat(base + r1, r2, ids);
    WithoutConcat(base, r1, ids);
    WithoutTwice(x.reasons, {ConfirmationMissing}, ids);
  }

  lemma WeighedUnderlying(x: Scan, require: bool, before: bool)
    ensures Underlying(Weighed(x, require, before).reasons) == Underlying(x.reasons)
  {
    WeighedWithout(x, require, before, DERIVED);
    assert {ConfirmationMissing} + DERIVED == DERIVED;
  }

  /** Nothing of an applied scan is left for restoring. */
  lemma RestoredAlready(y: Scan)
    requires y.resolution.None? && !Has(y.reasons, ScoreResolved)
    ensures Restored(y) == y
  {
    WithoutAbsent(y.reasons, {ScoreResolved});
  }

  // ---------------------------------------------------------------- idempotence

  /** What the corroboration step leaves before the context row. */
  function Confirmable(x: Scan, require: bool): seq<Signal> {
    Without(x.reasons, {ConfirmationMissing})
    + Ruling(ConfirmationMissing, CorroborationMissing, LacksCorroboration(x, require))
  }

  lemma BareWithout(x: Scan)
    requires Bare(x)
    ensures Without(x.reasons, {ConfirmationMissing} + RULINGS) == Without(x.reasons, {ConfirmationMissing})
  {
    WithoutTwice(x.reasons, RULINGS, {ConfirmationMissing});
    assert {ConfirmationMissing} + RULINGS == RULINGS + {ConfirmationMissing};
    WithoutAbsent(x.reasons, RULINGS);
  }

  lemma RebasedWeighedRows(x: Scan, require: bool, before: bool)
    requires Bare(x)
    ensures Without(Weighed(x, require, before).reasons, RULINGS) == Confirmable(x, require)
  {
    WeighedWithout(x, require, before, RULINGS);
    BareWithout(x);
  }

  /** The scan that a second application of the policy judges. */
  lemma RebasedWeighed(x: Scan, require: bool, before: bool)
    requires Bare(x)
    ensures var y := Weighed(x, require, before);
            Rebased(y) == x.(decision := if Arbitrated(x).Some? then x.decision else y.decision,
                             tagged := y.tagged, pubTagged := y.pubTagged,
                             reasons := Confirmable(x, require))
  {
    WeighedHas(x, require, before, ScoreResolved);
    RestoredAlready(Weighed(x, require, before));
    RebasedWeighedRows(x, require, before);
  }

  lemma ConfirmableRows(x: Scan, require: bool)
    ensures Without(Confirmable(x, require), {ConfirmationMissing}) == Without(x.reasons, {ConfirmationMissing})
    ensures Has(Confirmable(x, require), ConfirmationMissing) <==> LacksCorroboration(x, require)
    ensures Underlying(Confirmable(x, require)) == Underlying(x.reasons)
  {
    var base := Without(x.reasons, {ConfirmationMissing});
    var lacks := Ruling(ConfirmationMissing, CorroborationMissing, LacksCorroboration(x, require));
    WithoutConcat(base, lacks, {ConfirmationMissing});
    WithoutTwice(x.reasons, {ConfirmationMissing}, {ConfirmationMissing});
    assert {ConfirmationMissing} + {ConfirmationMissing} == {ConfirmationMissing};
    HasConcat(base, lacks, ConfirmationMissing);
    HasWithout(x.reasons, {ConfirmationMissing}, ConfirmationMissing);
    HasRuling(ConfirmationMissing, CorroborationMissing, LacksCorroboration(x, require), ConfirmationMissing);
    UnderlyingAppend(base, lacks);
    UnderlyingWithout(x.reasons, {ConfirmationMissing});
  }

  /** The rulings repeat on a scan that differs only by what the first pass left. */
  lemma SameRulings(x: Scan, z: Scan, require: bool, before: bool)
    requires z.facts == x.facts && z.complete == x.complete && z.featuresComplete == x.featuresComplete
    requires z.decision == if Arbitrated(x).Some? then x.decision else AfterContext(x, require, before)
    requires Has(z.reasons, ConfirmationMissing) <==> LacksCorroboration(x, require)
    requires ReadableWithDnsGap(z) == ReadableWithDnsGap(x)
    ensures Arbitrated(z) == Arbitrated(x)
    ensures LacksCorroboration(z, require) == LacksCorroboration(x, require)
    ensures Reviewed(z, require, Reviewed(x, require, before)) == Reviewed(x, require, before)
    ensures AfterContext(z, require, Reviewed(x, require, before)) == AfterContext(x, require, before)
  {
  }

  /** Judging the rebased scan again, with the row it left, gives the same scan. */
  lemma WeighedAgain(x: Scan, require: bool, before: bool)
    requires Bare(x)
    ensures var y := Weighed(x, require, before);
            Weighed(Rebased(y), require, Reviewed(x, require, before)) == y
  {
    var z := Rebased(Weighed(x, require, before));
    RebasedWeighed(x, require, before);
    ConfirmableRows(x, require);
    GapsReadUnderlyingRows(x, z);
    SameRulings(x, z, require, before);
  }

  lemma WeighedIsNoThreat(x: Scan, require: bool, before: bool)
    requires Bare(x) && !LegacyThreat(x)
    ensures !LegacyThreat(Rebased(Weighed(x, require, before)))
  {
    RebasedWeighed(x, require, before);
    WeighedUnderlying(x, require, before);
    RebasedRows(Weighed(x, require, before));
    GapsReadUnderlyingRows(x, Rebased(Weighed(x, require, before)));
  }

  lemma StripRuling(base: seq<Signal>, row: Signal)
    requires row.id in RULINGS && forall id :: id in RULINGS ==> !Has(base, id)
    ensures Without(base + [row], RULINGS) == base
  {
    WithoutConcat(base, [row], RULINGS);
    assert [row][..0] == [];
    WithoutAbsent(base, RULINGS);
  }

  lemma QuarantinedAgain(x: Scan)
    requires Bare(x)
    ensures Quarantined(Rebased(Quarantined(x))) == Quarantined(x)
  {
    var y := Quarantined(x);
    var row := Row(MalwarePriority, MalwareFound);
    var base := Without(x.reasons, {ConfirmationMissing});
    forall id | id in RULINGS || id == ScoreResolved ensures !Has(base, id) {
      HasWithout(x.reasons, {ConfirmationMissing}, id);
    }
    HasConcat(base, [row], ScoreResolved);
    HasOne(row, ScoreResolved);
    RestoredAlready(y);
    StripRuling(base, row);
    HasWithout(x.reasons, {ConfirmationMissing}, ConfirmationMissing);
    WithoutAbsent(base, {ConfirmationMissing});
  }

  /** A second application of the policy starts from the same rows. */
  lemma RebasedThreatened(x: Scan)
    requires Bare(x)
    ensures Rebased(Threatened(x)).reasons == x.reasons && Restored(Threatened(x)) == Threatened(x)
  {
    var y := Threatened(x);
    var row := y.reasons[|x.reasons|];
    assert y.reasons == x.reasons + [row];
    HasConcat(x.reasons, [row], ScoreResolved);
    HasOne(row, ScoreResolved);
    RestoredAlready(y);
    WithoutConcat(x.reasons, [row], RULINGS);
    WithoutAbsent(x.reasons, RULINGS);
  }

  lemma ThreatenedAgain(x: Scan)
    requires Bare(x) && LegacyThreat(x)
    ensures Threatened(Rebased(Threatened(x))) == Threatened(x) && LegacyThreat(Rebased(Threatened(x)))
  {
    RebasedThreatened(x);
    GapsReadUnderlyingRows(x, Rebased(Threatened(x)));
  }

  /** Applying the policy again with the same requirement changes nothing. */
  lemma ApplyIsIdempotent(s: Scan, require: bool)
    ensures Apply(Apply(s, require), require) == Apply(s, require)
  {
    var x, y, before := Rebased(s), Apply(s, require), Has(s.reasons, ContextReview);
    RebasedIsBare(s);
    if s.facts.antivirus.Malware? {
      QuarantinedAgain(x);
    } else if LegacyThreat(x) {
      ThreatenedAgain(x);
    } else {
      WeighedAgain(x, require, before);
      WeighedIsNoThreat(x, require, before);
      WeighedHas(x, require, before, ContextReview);
    }
  }

  // ---------------------------------------------------------------- resolution

  /** Undoing a resolution leaves the verdict it replaced. */
  lemma ResolvedRestores(r: Scan, threshold: real, previous: Verdict)
    requires r.resolution.None? && !Has(r.reasons, ScoreResolved)
    ensures Restored(Resolved(r, threshold, previous)) == r.(decision := Some(previous))
  {
    var y := Resolved(r, threshold, previous);
    var row := y.reasons[|r.reasons|];
    WithoutConcat(r.reasons, [row], {ScoreResolved});
    WithoutAbsent(r.reasons, {ScoreResolved});
    assert y.reasons == r.reasons + [row];
  }

  lemma RestoredIsUnresolved(s: Scan)
    ensures Restored(s).resolution.None? && !Has(Restored(s).reasons, ScoreResolved)
  {
    RestoredRows(s);
  }

  /** Undoing a resolution recovers the scan it started from, once a decision was recorded. */
  lemma ResolutionIsUndone(s: Scan, threshold: real)
    requires s.decision.Some?
    ensures Restored(Resolve(s, true, threshold)) == Restored(s)
  {
    var r := Restored(s);
    RestoredIsUnresolved(s);
    RestoredAlready(r);
    ResolvedRestores(r, threshold, PreviousVerdict(r, threshold));
  }

  /** Resolving at one threshold and then at another is resolving at the second. */
  lemma LastThresholdWins(s: Scan, t1: real, t2: real)
    requires s.decision.Some?
    ensures Finalize(Finalize(s, t1), t2) == Finalize(s, t2)
  {
    ResolutionIsUndone(s, t1);
  }

  /** The policy judges a finalised scan exactly as the scan before. */
  lemma ApplyIgnoresFinalize(s: Scan, require: bool, threshold: real)
    requires s.decision.Some?
    ensures Apply(Finalize(s, threshold), require) == Apply(s, require)
  {
    ResolutionIsUndone(s, threshold);
    RestoredRows(s);
    RestoredRows(Finalize(s, threshold));
    assert Has(s.reasons, ContextReview) == Has(Restored(s).reasons, ContextReview);
    assert Has(Finalize(s, threshold).reasons, ContextReview)
        == Has(Restored(Finalize(s, threshold)).reasons, ContextReview);
  }

  /** With a valid threshold only an antivirus decision can stay undetermined. */
  lemma FinalizeTerminates(s: Scan, threshold: real)
    requires ValidScore(threshold)
    ensures var y := Finalize(s, threshold);
            || PreviousVerdict(Restored(s), threshold).source.Antivirus?
            || ((y.decision.Some? ==> !y.decision.value.outcome.Undetermined?) && y.delivery != Some(Unclear))
  {
  }

  /** When two thresholds agree with using only the second. */
  predicate ThresholdForgotten(s: Scan, t1: real, t2: real) {
    || s.decision.Some?
    || !ValidScore(t1)
    || (s.complete && s.delivery != Some(Unclear))
    || (ValidScore(t2) && (!s.complete || (s.score >= t1 <==> s.score >= t2)))
  }

  /** Resolving without a recorded decision stores the one inferred at that threshold. */
  lemma UnrecordedIsInferred(s: Scan, threshold: real)
    requires s.decision.None? && ValidScore(threshold) && (!s.complete || s.delivery == Some(Unclear))
    ensures var r := Restored(s);
            Restored(Finalize(s, threshold)) == r.(decision := Some(LegacyVerdict(r, threshold)))
  {
    var r := Restored(s);
    RestoredIsUnresolved(s);
    ResolvedRestores(r, threshold, LegacyVerdict(r, threshold));
  }

  lemma UnrecordedThresholds(s: Scan, t1: real, t2: real)
    requires s.decision.None? && ValidScore(t1) && (!s.complete || s.delivery == Some(Unclear))
    ensures Finalize(Finalize(s, t1), t2) == Finalize(s, t2) <==>
              ValidScore(t2) && LegacyVerdict(s, t1) == LegacyVerdict(s, t2)
  {
    var r := Restored(s);
    var r1 := r.(decision := Some(LegacyVerdict(r, t1)));
    UnrecordedIsInferred(s, t1);
    if ValidScore(t2) {
      assert Finalize(Finalize(s, t1), t2) == Resolved(r1, t2, LegacyVerdict(r, t1));
      assert Finalize(s, t2) == Resolved(r, t2, LegacyVerdict(r, t2));
      ResolvedForgets(r, r1, t2, LegacyVerdict(r, t1));
    }
  }

  /** Resolving overwrites the decision, so only the recorded previous one matters. */
  lemma ResolvedForgets(a: Scan, b: Scan, t: real, previous: Verdict)
    requires b == a.(decision := b.decision)
    ensures Resolved(a, t, previous) == Resolved(b, t, previous)
  {
    GapsReadUnderlyingRows(a, b);
  }

  /** Exactly when the last threshold wins, recorded decision or not. */
  lemma LastThresholdWinsExactly(s: Scan, t1: real, t2: real)
    ensures Finalize(Finalize(s, t1), t2) == Finalize(s, t2) <==> ThresholdForgotten(s, t1, t2)
  {
    if s.decision.Some? {
      LastThresholdWins(s, t1, t2);
    } else if ValidScore(t1) && (!s.complete || s.delivery == Some(Unclear)) {
      UnrecordedThresholds(s, t1, t2);
    } else {
      RestoredRows(s);
      RestoredAlready(Restored(s));
      assert Finalize(s, t1) == Restored(s);
    }
  }

  /** A concrete scan whose record remembers the first threshold. */
  lemma UnrecordedDecisionRemembersThreshold()
    ensures exists s: Scan :: Finalize(Finalize(s, 50.0), 70.0) != Finalize(s, 70.0)
  {
    var f := Facts(Clean, Clean, false, None, false, false, None, None, false, false, false);
    var s := Scan(f, true, Some(true), 60.0, "m", None, None, None, Some(Unclear), false, false, []);
    LastThresholdWinsExactly(s, 50.0, 70.0);
  }

  // ---------------------------------------------------------------- runs

  datatype Op = Policy(require: bool) | Final(threshold: real)

  function Perform(s: Scan, op: Op): Scan {
    match op case Policy(require) => Apply(s, require) case Final(threshold) => Finalize(s, threshold)
  }

  function PerformAll(s: Scan, ops: seq<Op>): Scan {
    if ops == [] then s else Perform(PerformAll(s, ops[..|ops| - 1]), ops[|ops| - 1])
  }

  predicate AtMostOnePerRuling(rows: seq<Signal>) {
    && Count(rows, MalwarePriority) <= 1 && Count(rows, AdvisoryDisagreement) <= 1 && Count(rows, ContextReview) <= 1
    && Count(rows, ObservedThreat) <= 1 && Count(rows, ScoreResolved) <= 1 && Count(rows, ConfirmationMissing) <= 1
  }

  lemma FinalizeCounts(s: Scan, threshold: real, id: ReasonId)
    ensures Count(Finalize(s, threshold).reasons, id) <= if id == ScoreResolved then 1 else Count(s.reasons, id)
  {
    var r := Restored(s);
    CountWithout(s.reasons, {ScoreResolved}, id);
    var y := Finalize(s, threshold);
    if y != r {
      var row := y.reasons[|r.reasons|];
      CountConcat(r.reasons, [row], id);
      CountOne(row, id);
    }
  }

  lemma WeighedCounts(x: Scan, require: bool, before: bool, id: ReasonId)
    ensures Count(Weighed(x, require, before).reasons, id) ==
              (if id == ConfirmationMissing then 0 else Count(x.reasons, id))
              + (if id == AdvisoryDisagreement && Contested(Arbitrated(x)) then 1 else 0)
              + (if id == ConfirmationMissing && LacksCorroboration(x, require) then 1 else 0)
              + (if id == ContextReview && Reviewed(x, require, before) then 1 else 0)
  {
    var a := Arbitrated(x);
    var base := Without(x.reasons, {ConfirmationMissing});
    var r1 := Ruling(AdvisoryDisagreement, OpinionDetail(a), Contested(a));
    var r2 := Ruling(ConfirmationMissing, CorroborationMissing, LacksCorroboration(x, require));
    var r3 := Ruling(ContextReview, ContextConflict, Reviewed(x, require, before));
    CountWithout(x.reasons, {ConfirmationMissing}, id);
    CountConcat(base, r1, id);
    CountConcat(base + r1, r2, id);
    CountConcat(base + r1 + r2, r3, id);
  }

  lemma ApplyCounts(s: Scan, require: bool, id: ReasonId)
    requires Derived(id)
    ensures Count(Apply(s, require).reasons, id) <= if id == ConfirmationMissing then Max(1, Count(s.reasons, id)) else 1
  {
    var x := Rebased(s);
    CountWithout(s.reasons, {ScoreResolved}, id);
    CountWithout(Restored(s).reasons, RULINGS, id);
    if s.facts.antivirus.Malware? {
      CountWithout(x.reasons, {ConfirmationMissing}, id);
      CountConcat(Without(x.reasons, {ConfirmationMissing}), [Row(MalwarePriority, MalwareFound)], id);
      CountOne(Row(MalwarePriority, MalwareFound), id);
    } else if LegacyThreat(x) {
      var row := Threatened(x).reasons[|x.reasons|];
      CountConcat(x.reasons, [row], id);
      CountOne(row, id);
    } else {
      WeighedCounts(x, require, Has(s.reasons, ContextReview), id);
    }
  }

  function Max(a: nat, b: nat): nat { if a < b then b else a }

  lemma ApplyKeepsRows(s: Scan, require: bool)
    ensures AtMostOnePerRuling(s.reasons) ==> AtMostOnePerRuling(Apply(s, require).reasons)
  {
    forall id | Derived(id)
      ensures Count(Apply(s, require).reasons, id) <= if id == ConfirmationMissing then Max(1, Count(s.reasons, id)) else 1
    {
      ApplyCounts(s, require, id);
    }
  }

  lemma FinalizeKeepsRows(s: Scan, threshold: real)
    ensures AtMostOnePerRuling(s.reasons) ==> AtMostOnePerRuling(Finalize(s, threshold).reasons)
  {
    forall id
      ensures Count(Finalize(s, threshold).reasons, id) <= if id == ScoreResolved then 1 else Count(s.reasons, id)
    {
      FinalizeCounts(s, threshold, id);
    }
  }

  /** The part of a scan that no decision step changes. */
  predicate SameEvidence(s: Scan, t: Scan) {
    t.facts == s.facts && t.complete == s.complete && t.score == s.score && t.featuresComplete == s.featuresComplete
  }

  lemma RebasedKeepsEvidence(s: Scan)
    ensures SameEvidence(s, Rebased(s))
  {
  }

  lemma ApplyKeepsEvidence(s: Scan, require: bool)
    ensures SameEvidence(s, Apply(s, require))
  {
    RebasedKeepsEvidence(s);
  }

  lemma PerformKeepsRows(s: Scan, op: Op)
    ensures AtMostOnePerRuling(s.reasons) ==> AtMostOnePerRuling(Perform(s, op).reasons)
    ensures Underlying(Perform(s, op).reasons) == Underlying(s.reasons)
    ensures SameEvidence(s, Perform(s, op))
  {
    match op
    case Policy(require) =>
      ApplyKeepsRows(s, require);
      ApplyUnderlying(s, require);
      ApplyKeepsEvidence(s, require);
    case Final(threshold) =>
      FinalizeKeepsRows(s, threshold);
      FinalizeUnderlying(s, threshold);
  }

  lemma ApplyUnderlying(s: Scan, require: bool)
    ensures Underlying(Apply(s, require).reasons) == Underlying(s.reasons)
  {
    var x := Rebased(s);
    RebasedRows(s);
    if s.facts.antivirus.Malware? {
      var row := Row(MalwarePriority, MalwareFound);
      UnderlyingAppend(Without(x.reasons, {ConfirmationMissing}), [row]);
      UnderlyingWithout(x.reasons, {ConfirmationMissing});
    } else if LegacyThreat(x) {
      var row := Threatened(x).reasons[|x.reasons|];
      UnderlyingAppend(x.reasons, [row]);
    } else {
      WeighedUnderlying(x, require, Has(s.reasons, ContextReview));
    }
  }

  lemma FinalizeUnderlying(s: Scan, threshold: real)
    ensures Underlying(Finalize(s, threshold).reasons) == Underlying(s.reasons)
  {
    var r, y := Restored(s), Finalize(s, threshold);
    RestoredRows(s);
    if y != r {
      var row := y.reasons[|r.reasons|];
      UnderlyingAppend(r.reasons, [row]);
    }
  }

  /**
   Over every run of policy applications and finalisations, explanation rows never
   accumulate and the detectors' own rows, score and evidence are conserved.
   */
  lemma {:induction false} RunsKeepEvidence(s: Scan, ops: seq<Op>)
    requires AtMostOnePerRuling(s.reasons)
    ensures var y := PerformAll(s, ops);
            && AtMostOnePerRuling(y.reasons) && Underlying(y.reasons) == Underlying(s.reasons)
            && SameEvidence(s, y)
  {
    if ops != [] {
      RunsKeepEvidence(s, ops[..|ops| - 1]);
      PerformKeepsRows(PerformAll(s, ops[..|ops| - 1]), ops[|ops| - 1]);
    }
  }
}
