/**
 What one application of the policy does to a fresh legacy scan, said on the scan itself: its
 final classification without required corroboration, the arbitration it saves, the rows it
 writes and the tags it keeps.
 */
module DecisionEffects {
  import opened Options
  import opened Evidence
  import opened Decision
  import opened DecisionRows
  import opened DecisionTheorems
  import opened DecisionOutcomes

  // ---------------------------------------------------------------- on the input

  function OutcomeOf(s: Scan): Outcome
    requires LegacyDecided(s)
  {
    s.decision.value.outcome
  }

  /** A second opinion on a complete scan that neither repeats the decision nor leaves a corroborated one. */
  predicate Contradicted(s: Scan)
    requires LegacyDecided(s)
  {
    && s.complete && s.facts.opinion.Some? && s.facts.opinion.value != OutcomeOf(s)
    && !(s.facts.opinion.value.Undetermined? && OutcomeOf(s).Unwanted? && Corroborated(s.facts))
  }

  /** Corroboration is required and missing for anything but an undisputed acceptance. */
  predicate Uncorroborated(s: Scan, require: bool)
    requires LegacyDecided(s)
  {
    require && !Corroborated(s.facts) && (!OutcomeOf(s).Legitimate? || Contradicted(s))
  }

  /** An unwanted decision that an authenticated context speaks against. */
  predicate ContextDisputes(s: Scan) {
    NeedsReview(s.facts) && (s.complete || ReadableWithDnsGap(s))
  }

  /** Some step of the policy turns the decision into an abstention, or it already was one. */
  predicate LeftOpen(s: Scan, require: bool)
    requires LegacyDecided(s)
  {
    || OutcomeOf(s).Undetermined? || Contradicted(s) || Uncorroborated(s, require)
    || (OutcomeOf(s).Unwanted? && ContextDisputes(s))
  }

  /**
   The classification a fresh legacy scan gets without required corroboration: an open decision
   goes to the score unless a benign conflict accepts it, any other stands.
   */
  predicate PlainlyUnwanted(s: Scan, threshold: real)
    requires LegacyDecided(s)
  {
    || s.facts.antivirus.Malware?
    || ObservedThreatDespiteGap(s)
    || (if LeftOpen(s, false)
        then UsableScore(s).Some? && UsableScore(s).value >= threshold && !AuthenticatedBenignConflict(s)
        else OutcomeOf(s).Unwanted?)
  }

  // ---------------------------------------------------------------- classification

  lemma RuledIsPlain(x: Scan, before: bool, threshold: real)
    requires FreshLegacy(x) && !x.facts.antivirus.Malware? && !ObservedThreatDespiteGap(x) && ValidScore(threshold)
    ensures RuledUnwanted(x, false, before, threshold) <==> PlainlyUnwanted(x, threshold)
  {
  }

  /** x carries the input of s: what the policy judges, apart from rows of its own. */
  predicate SameInput(x: Scan, s: Scan) {
    && x.decision == s.decision && x.facts == s.facts && x.complete == s.complete
    && x.featuresComplete == s.featuresComplete && x.score == s.score
    && ObservedThreatDespiteGap(x) == ObservedThreatDespiteGap(s)
    && AuthenticatedBenignConflict(x) == AuthenticatedBenignConflict(s)
    && ReadableWithDnsGap(x) == ReadableWithDnsGap(s)
  }

  lemma RebasedCarries(s: Scan)
    requires FreshLegacy(s)
    ensures SameInput(Rebased(s), s) && FreshLegacy(Rebased(s)) && Bare(Rebased(s))
    ensures Rebased(s).tagged == s.tagged && Rebased(s).pubTagged == s.pubTagged
    ensures LegacyThreat(Rebased(s)) == ObservedThreatDespiteGap(s)
  {
    FreshIsRebased(s);
    RebasedIsBare(s);
  }

  lemma SamePlain(x: Scan, s: Scan, threshold: real)
    requires LegacyDecided(s) && SameInput(x, s)
    ensures PlainlyUnwanted(x, threshold) == PlainlyUnwanted(s, threshold)
  {
  }

  /** Without required corroboration a fresh legacy scan is unwanted exactly when its input says so. */
  lemma PlainVerdict(s: Scan, threshold: real)
    requires FreshLegacy(s) && ValidScore(threshold)
    ensures EndsUnwanted(Delivered(s, false, threshold)) <==> PlainlyUnwanted(s, threshold)
  {
    var x := Rebased(s);
    RebasedCarries(s);
    if s.facts.antivirus.Malware? || ObservedThreatDespiteGap(s) {
      RulingEndsUnwanted(s, false, threshold);
    } else {
      WeighedOutcome(x, false, Has(s.reasons, ContextReview), threshold);
      RuledIsPlain(x, Has(s.reasons, ContextReview), threshold);
      SamePlain(x, s, threshold);
    }
  }

  // ---------------------------------------------------------------- record, rows and tags

  /** A complete scan is sent to context review once, an incomplete one whenever it is not accepted. */
  predicate SentToReview(s: Scan, require: bool, before: bool)
    requires LegacyDecided(s)
  {
    var disputed := Contradicted(s) || Uncorroborated(s, require);
    && ContextDisputes(s)
    && if s.complete then (if disputed then before else OutcomeOf(s).Unwanted?) else !OutcomeOf(s).Legitimate?
  }

  /** The decision after the policy: open exactly when some step left it open. */
  lemma WeighedDecision(x: Scan, require: bool, before: bool)
    requires FreshLegacy(x)
    ensures var d := Weighed(x, require, before).decision;
            && d.Some? && d.value.source.Legacy? && d.value.model == x.decision.value.model
            && d.value.outcome == (if LeftOpen(x, require) then Undetermined else OutcomeOf(x))
            && d.value.score == (if Contradicted(x) || SentToReview(x, require, before) then None else x.decision.value.score)
  {
  }

  /**
   The saved arbitration: present exactly for a complete scan with an opinion, with decision and
   opinion as they were, the policy's decision, and the verdict on the two.
   */
  ghost predicate Saves(s: Scan, y: Scan)
    requires LegacyDecided(s)
  {
    && (y.arbitration.Some? <==> s.complete && s.facts.opinion.Some?)
    && (y.arbitration.Some? ==>
          var a, opinion, outcome := y.arbitration.value, s.facts.opinion.value, OutcomeOf(s);
          && a.version == VERSION && a.baseline == s.decision.value && a.opinion == opinion && y.decision == Some(a.decision)
          && (a.resolution.Agreement? <==> opinion == outcome)
          && (a.resolution.Disagreement? <==> opinion != outcome && !opinion.Undetermined?)
          && (a.resolution.Confirmed? <==> opinion.Undetermined? && outcome.Unwanted? && Corroborated(s.facts))
          && (a.resolution.Ambiguous? <==> opinion.Undetermined? && !(outcome.Unwanted? && Corroborated(s.facts))))
  }

  lemma WeighedSaves(x: Scan, require: bool, before: bool)
    requires FreshLegacy(x)
    ensures Saves(x, Weighed(x, require, before))
  {
  }

  /** Why the policy abstains: one row per reason, and tags survive exactly without such a row. */
  ghost predicate Explains(s: Scan, require: bool, before: bool, y: Scan)
    requires LegacyDecided(s)
  {
    && (Has(y.reasons, AdvisoryDisagreement) <==> Contradicted(s))
    && (Has(y.reasons, ConfirmationMissing) <==> Uncorroborated(s, require))
    && (Has(y.reasons, ContextReview) <==> SentToReview(s, require, before))
    && !Has(y.reasons, MalwarePriority) && !Has(y.reasons, ObservedThreat) && !Has(y.reasons, ScoreResolved)
    && var withheld := Contradicted(s) || Uncorroborated(s, require) || SentToReview(s, require, before);
       (y.tagged <==> s.tagged && !withheld) && (y.pubTagged <==> s.pubTagged && !withheld)
  }

  /** The rows that the policy adds, in the order of its steps. */
  function AddedRows(s: Scan, require: bool, before: bool): seq<Signal>
    requires LegacyDecided(s)
  {
    (if Contradicted(s)
     then [Signal(AdvisoryDisagreement, if s.facts.opinion.value.Undetermined? then Ambiguity else Contradiction, 0.0)] else [])
    + (if Uncorroborated(s, require) then [Signal(ConfirmationMissing, CorroborationMissing, 0.0)] else [])
    + (if SentToReview(s, require, before) then [Signal(ContextReview, ContextConflict, 0.0)] else [])
  }

  lemma WeighedRows(x: Scan, require: bool, before: bool)
    requires FreshLegacy(x)
    ensures Weighed(x, require, before).reasons
            == Without(x.reasons, {ConfirmationMissing}) + AddedRows(x, require, before)
  {
    RulingsOnInput(x, require, before);
    var base := Without(x.reasons, {ConfirmationMissing});
    var a := Arbitrated(x);
    var r1 := Ruling(AdvisoryDisagreement, OpinionDetail(a), Contested(a));
    var r2 := Ruling(ConfirmationMissing, CorroborationMissing, LacksCorroboration(x, require));
    var r3 := Ruling(ContextReview, ContextConflict, Reviewed(x, require, before));
    assert base + r1 + r2 + r3 == base + (r1 + r2 + r3);
  }

  lemma RulingsOnInput(x: Scan, require: bool, before: bool)
    requires FreshLegacy(x)
    ensures Contested(Arbitrated(x)) == Contradicted(x) && LacksCorroboration(x, require) == Uncorroborated(x, require)
    ensures Reviewed(x, require, before) == SentToReview(x, require, before)
  {
  }

  lemma WeighedExplains(x: Scan, require: bool, before: bool)
    requires FreshLegacy(x) && Bare(x)
    ensures Explains(x, require, before, Weighed(x, require, before))
  {
    RulingsOnInput(x, require, before);
    WeighedHas(x, require, before, AdvisoryDisagreement);
    WeighedHas(x, require, before, ConfirmationMissing);
    WeighedHas(x, require, before, ContextReview);
    WeighedHas(x, require, before, MalwarePriority);
    WeighedHas(x, require, before, ObservedThreat);
    WeighedHas(x, require, before, ScoreResolved);
  }

  lemma SameExplanation(x: Scan, s: Scan, require: bool, before: bool, y: Scan)
    requires LegacyDecided(s) && SameInput(x, s) && x.tagged == s.tagged && x.pubTagged == s.pubTagged
    ensures Explains(x, require, before, y) == Explains(s, require, before, y) && Saves(x, y) == Saves(s, y)
    ensures LeftOpen(x, require) == LeftOpen(s, require) && Contradicted(x) == Contradicted(s)
    ensures SentToReview(x, require, before) == SentToReview(s, require, before)
    ensures AddedRows(x, require, before) == AddedRows(s, require, before)
  {
  }

  /** Malware or an observed threat overrides the decision, with its own row and hardly a tag. */
  lemma OverrideEffects(s: Scan, require: bool)
    requires FreshLegacy(s) && (s.facts.antivirus.Malware? || ObservedThreatDespiteGap(s))
    ensures var y, malware := Apply(s, require), s.facts.antivirus.Malware?;
            && y.decision == Some(Verdict(if malware then Antivirus else Legacy, Unwanted, None, VERSION))
            && Has(y.reasons, if malware then MalwarePriority else ObservedThreat)
            && !y.pubTagged && (y.tagged <==> malware && s.tagged && s.complete) && y.arbitration.None?
  {
    var x, y := Rebased(s), Apply(s, require);
    RebasedCarries(s);
    assert y.reasons[|y.reasons| - 1].id == if s.facts.antivirus.Malware? then MalwarePriority else ObservedThreat;
  }

  /**
   Otherwise one application leaves the decision open exactly when the input calls for it, saves
   the arbitration of the two opinions, and explains and withholds tags for exactly its abstentions.
   */
  lemma ApplyEffects(s: Scan, require: bool)
    requires FreshLegacy(s) && !s.facts.antivirus.Malware? && !ObservedThreatDespiteGap(s)
    ensures var y := Apply(s, require);
            && y.decision.Some? && y.decision.value.source.Legacy? && y.decision.value.model == s.decision.value.model
            && y.decision.value.outcome == (if LeftOpen(s, require) then Undetermined else OutcomeOf(s))
            && y.decision.value.score
               == (if Contradicted(s) || SentToReview(s, require, Has(s.reasons, ContextReview)) then None
                   else s.decision.value.score)
            && y.reasons == Without(Rebased(s).reasons, {ConfirmationMissing})
                            + AddedRows(s, require, Has(s.reasons, ContextReview))
            && Saves(s, y) && Explains(s, require, Has(s.reasons, ContextReview), y)
  {
    var x, before := Rebased(s), Has(s.reasons, ContextReview);
    RebasedCarries(s);
    WeighedDecision(x, require, before);
    WeighedSaves(x, require, before);
    WeighedRows(x, require, before);
    WeighedExplains(x, require, before);
    SameExplanation(x, s, require, before, Weighed(x, require, before));
  }

  /** A decision that is missing or not the legacy one is neither arbitrated nor withheld. */
  lemma OtherDecisionsStand(s: Scan, require: bool)
    requires !s.facts.antivirus.Malware? && !LegacyDecided(Rebased(s))
    ensures var x, y := Rebased(s), Apply(s, require);
            y.decision == x.decision && y.tagged == s.tagged && y.pubTagged == s.pubTagged && y.arbitration.None?
  {
  }

  // ---------------------------------------------------------------- finalisation and earlier records

  /**
   What finalisation records when it resolves an abstention: the verdict and delivery class it
   replaces, the score it may use, the guard that overrides the score, and one row saying so.
   */
  ghost predicate Records(r: Scan, threshold: real, previous: Verdict, y: Scan) {
    && y.resolution.Some? && y.decision == Some(y.resolution.value.decision)
    && var res := y.resolution.value;
       && res.previous == previous && res.threshold == threshold && res.previousCategory == r.delivery
       && res.partial == !r.complete
       && res.score == (if r.featuresComplete == Some(false) || !(0.0 <= r.score <= 100.0) then None else Some(r.score))
       && (res.guard == Some(CorroborationRequired) <==> Has(r.reasons, ConfirmationMissing) && !Corroborated(r.facts))
       && (res.guard == Some(BenignConflict) <==>
             && !(Has(r.reasons, ConfirmationMissing) && !Corroborated(r.facts))
             && previous.source.Legacy? && AuthenticatedBenignConflict(r))
       && res.decision == Verdict(Legacy, res.decision.outcome, res.score, r.model)
       && (res.decision.outcome.Unwanted? <==> res.guard.None? && res.score.Some? && res.score.value >= threshold)
       && !res.decision.outcome.Undetermined?
       && y.delivery == (if r.delivery == Some(Unclear) then None else r.delivery)
       && |y.reasons| == |r.reasons| + 1 && y.reasons[..|r.reasons|] == r.reasons
       && y.reasons[|r.reasons|] ==
            Row(ScoreResolved,
                match res.guard
                case Some(BenignConflict) => AcceptedOnConflict
                case Some(CorroborationRequired) => AcceptedWithoutCorroboration
                case None => if res.score.None? then NoUsableScore else ComparedScore(res.score.value, threshold))
  }

  /** Finalisation resolves exactly the open non-antivirus decisions and classes, and records it. */
  lemma FinalizeRecords(s: Scan, threshold: real)
    ensures var r, y := Restored(s), Finalize(s, threshold);
            var previous := if r.decision.Some? then r.decision.value else LegacyVerdict(r, threshold);
            if ValidScore(threshold) && !previous.source.Antivirus?
               && (previous.outcome.Undetermined? || r.delivery == Some(Unclear))
            then Records(r, threshold, previous, y) else y == r
  {
  }

  /** The policy starts over from the decision saved by an arbitration of versions 8 to 15 that is still in force. */
  lemma EarlierArbitrationIsUndone(s: Scan)
    ensures var r := Restored(s);
            Rebased(s).decision ==
              if r.complete && r.arbitration.Some? && r.decision == Some(r.arbitration.value.decision)
                 && r.arbitration.value.version in
                      {"decision-policy-8", "decision-policy-9", "decision-policy-10", "decision-policy-11",
                       "decision-policy-12", "decision-policy-13", "decision-policy-14", "decision-policy-15"}
              then Some(r.arbitration.value.baseline) else r.decision
    ensures Rebased(s).arbitration.None? && Rebased(s).resolution.None?
  {
  }

  // ---------------------------------------------------------------- evidence

  /** Sender authentication failed or passed outright: completed, in a usable context, without impossible results. */
  predicate DmarcSettled(e: Transport) {
    && e.knownSchema && e.origin != ContentOnly && !e.state.Inactive? && e.dmarcState.Complete?
    && e.dmarcSpf.Some? && e.dmarcDkim.Some?
    && !(e.dmarcSpf.value.SoftFail? || e.dmarcSpf.value.Neutral? || e.dmarcSpf.value.TempError?)
    && !(e.dmarcDkim.value.SoftFail? || e.dmarcDkim.value.Neutral? || e.dmarcDkim.value.TempError?)
  }

  /** Exactly five observations corroborate, the last four only in a usable transport context. */
  lemma CorroborationSources(f: Facts)
    ensures Corroborated(f) <==>
              || f.antivirus.Malware?
              || (f.transport.Some? && f.transport.value.knownSchema && f.transport.value.origin != ContentOnly
                  && (|| f.transport.value.maliciousIp
                      || (f.rewardRetained && f.context.Some? && f.context.value.injectedRewardLure)
                      || (DmarcSettled(f.transport.value)
                          && f.transport.value.dmarcSpf == Some(Fail) && f.transport.value.dmarcDkim == Some(Fail))
                      || true in f.transport.value.maliciousDomains[..if |f.transport.value.maliciousDomains| < 12
                                                                      then |f.transport.value.maliciousDomains| else 12]))
  {
    if f.transport.Some? {
      var e := f.transport.value;
      DmarcMeans(e);
      var n := if |e.maliciousDomains| < 12 then |e.maliciousDomains| else 12;
      if true in e.maliciousDomains[..n] {
        var k :| 0 <= k < n && e.maliciousDomains[..n][k];
        assert e.maliciousDomains[k];
      }
      forall k | 0 <= k < |e.maliciousDomains| && k < 12 && e.maliciousDomains[k] ensures true in e.maliciousDomains[..n] {
        assert e.maliciousDomains[..n][k];
      }
    }
  }

  lemma DmarcMeans(e: Transport)
    ensures Authenticated(e, Dmarc) <==> DmarcSettled(e)
    ensures DmarcPass(e) <==> DmarcSettled(e) && (e.dmarcSpf == Some(Pass) || e.dmarcDkim == Some(Pass))
  {
    if e.dmarcSpf.Some? && e.dmarcDkim.Some? {
      var values := [e.dmarcSpf.value, e.dmarcDkim.value];
      assert values[0] in values && values[1] in values;
    }
  }

  /** Context review and benign conflict need an authenticated sender, so neither meets corroboration or an observed threat. */
  lemma DisputesExcludeEvidence(s: Scan)
    requires NeedsReview(s.facts) || AuthenticatedBenignConflict(s)
    ensures !Corroborated(s.facts) && !ObservedThreatDespiteGap(s)
    ensures s.facts.transport.Some? && DmarcSettled(s.facts.transport.value)
  {
    DmarcMeans(s.facts.transport.value);
  }

  /** A check that ran to completion in a usable context. */
  predicate RanIn(e: Transport, state: CheckState) { e.knownSchema && e.origin != ContentOnly && state.Complete? }

  /** Context review: a benign kind of notice that demands nothing, from an authenticated sender, uncorroborated. */
  lemma ReviewMeans(f: Facts)
    ensures NeedsReview(f) <==>
              && f.context.Some? && f.transport.Some? && !Corroborated(f)
              && (f.context.value.threatReport || f.context.value.transactionNotice
                  || f.context.value.conditionalSecurityNotice || f.context.value.passiveServiceNotice)
              && !(f.context.value.actionDemand || f.context.value.directExtortion || f.context.value.injectedRewardLure)
              && DmarcSettled(f.transport.value)
              && Pass in {if f.transport.value.dmarcSpf.Some? then f.transport.value.dmarcSpf.value else Fail,
                          if f.transport.value.dmarcDkim.Some? then f.transport.value.dmarcDkim.value else Fail}
  {
    if f.transport.Some? {
      DmarcMeans(f.transport.value);
    }
  }

  lemma SenderChecksMean(e: Transport)
    ensures Authenticated(e, Spf) <==>
              RanIn(e, e.spfState) && !e.state.Inactive? && e.spf.Some? && e.spf != Some(TempError)
    ensures Authenticated(e, Dkim) <==>
              RanIn(e, e.dkimState) && !e.state.Inactive? && e.dkim.Some? && |e.dkim.value| <= 16
              && SoftFail !in e.dkim.value && TempError !in e.dkim.value
    ensures Authenticated(e, Arc) <==>
              RanIn(e, e.arcState) && e.arc.Some? && e.arc != Some(SoftFail) && e.arc != Some(TempError)
  {
    if e.spf.Some? {
      assert [e.spf.value][0] in [e.spf.value];
    }
    if e.arc.Some? {
      assert [e.arc.value][0] in [e.arc.value];
    }
  }

  /** The gateway itself saw every sender check of the session complete without a pass. */
  lemma UnauthenticatedMeans(e: Transport)
    ensures ObservedUnauthenticated(e) <==>
              && e.knownSchema && e.origin == SmtpSession
              && e.state.Complete? && e.spfState.Complete? && e.dkimState.Complete? && e.dmarcState.Complete? && e.arcState.Complete?
              && e.spf in {Some(Fail), Some(SoftFail)}
              && e.dkim.Some? && |e.dkim.value| <= 16 && (forall r :: r in e.dkim.value ==> r in {Fail, NoResult})
              && e.dmarcSpf in {Some(Fail), Some(NoResult)} && e.dmarcDkim in {Some(Fail), Some(NoResult)}
              && e.arc in {Some(Fail), Some(NoResult)}
  {
    SenderChecksMean(e);
    DmarcMeans(e);
  }

  /** Among the gap rows of a scan only those named are excused, and one of them is there. */
  predicate OnlyGaps(s: Scan, excused: ReasonId -> bool) {
    && (exists k :: 0 <= k < |s.reasons| && excused(s.reasons[k].id))
    && (forall k :: 0 <= k < |s.reasons| && Incomplete(s.reasons[k].id) ==> excused(s.reasons[k].id))
  }

  lemma ReadableMeans(s: Scan)
    ensures ReadableWithDnsGap(s) <==>
              s.featuresComplete == Some(true) && s.facts.antivirus !in {Unavailable, Unscannable}
              && OnlyGaps(s, (id: ReasonId) => id == SmtpPolicyUnavailable)
  {
  }

  /**
   An observed threat despite a gap: phishing and signature agree, or extortion with either, on an
   incomplete but readable scan whose only gaps are excused, from a sender that failed all checks.
   */
  lemma ThreatMeans(s: Scan)
    ensures ObservedThreatDespiteGap(s) <==>
              var f := s.facts;
              && !s.complete && s.featuresComplete == Some(true) && f.antivirus == Clean && f.context.Some?
              && var signature, phishing, c := f.signatures == Suspicious && f.phishingSignature,
                                               f.opinion == Some(Unwanted) && f.strongPhishing, f.context.value;
                 && !(c.encrypted || c.threatReport || c.transactionNotice)
                 && (if c.directExtortion then signature || phishing else signature && phishing)
                 && f.opinion != Some(Legitimate)
                 && f.transport.Some? && ObservedUnauthenticated(f.transport.value)
                 && OnlyGaps(s, (id: ReasonId) => id == SmtpPolicyUnavailable
                                                  || (c.directExtortion && signature && id == LlmUnavailable))
  {
  }

  /** The benign conflict: clean files, an authenticated sender and a context without demands, confirmed by review or opinion. */
  lemma BenignMeans(s: Scan)
    ensures AuthenticatedBenignConflict(s) <==>
              var f := s.facts;
              && (s.complete || ReadableWithDnsGap(s)) && s.featuresComplete == Some(true)
              && f.antivirus == Clean == f.signatures && !Corroborated(f) && !f.confirmedFinding
              && f.transport.Some? && DmarcPass(f.transport.value) && f.context.Some?
              && !(f.context.value.encrypted || f.context.value.actionDemand || f.context.value.directExtortion
                   || f.context.value.injectedRewardLure)
              && (if f.opinion == Some(Legitimate) then f.grounded || NeedsReview(f)
                  else f.opinion != Some(Unwanted) && NeedsReview(f))
  {
  }
}
