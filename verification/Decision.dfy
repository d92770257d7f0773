/**
 The decision policy over one scan: arbitration with the second opinion, required
 corroboration, context review, and resolution of abstentions by score.
 */
module Decision {
  import opened Options
  import opened Evidence

  const VERSION: string := "decision-policy-15"

  datatype Source = Legacy | Fusion | Antivirus

  datatype Category = Spam | Publicity | Wanted | Unclear

  datatype Verdict = Verdict(source: Source, outcome: Outcome, score: Option<real>, model: string)

  datatype Resolution = Agreement | Disagreement | Ambiguous | Confirmed

  datatype Arbitration =
    Arbitration(version: string, baseline: Verdict, opinion: Outcome, resolution: Resolution, decision: Verdict)

  datatype Guard = CorroborationRequired | BenignConflict

  datatype ScoreResolution =
    ScoreResolution(previous: Verdict, decision: Verdict, threshold: real, score: Option<real>, partial: bool,
                    previousCategory: Option<Category>, guard: Option<Guard>)

  /** The six ids written by this policy, the coverage gaps it reads, and everything else. */
  datatype ReasonId =
    | MalwarePriority | AdvisoryDisagreement | ContextReview | ObservedThreat | ScoreResolved | ConfirmationMissing
    | SmtpPolicyUnavailable | LlmUnavailable | OtherIncomplete(name: string)
    | Detector(name: string)

  datatype Detail =
    | Recorded(text: string)
    | MalwareFound | Contradiction | Ambiguity | ContextConflict | ExtortionAgreed | PhishingAgreed
    | CorroborationMissing
    | AcceptedOnConflict | AcceptedWithoutCorroboration | NoUsableScore | ComparedScore(score: real, threshold: real)

  datatype Signal = Signal(id: ReasonId, detail: Detail, weight: real)

  datatype Scan = Scan(facts: Facts, complete: bool, featuresComplete: Option<bool>, score: real, model: string,
                       decision: Option<Verdict>, arbitration: Option<Arbitration>,
                       resolution: Option<ScoreResolution>, delivery: Option<Category>,
                       tagged: bool, pubTagged: bool, reasons: seq<Signal>)

  // ---------------------------------------------------------------- rows

  predicate Derived(id: ReasonId) {
    id.MalwarePriority? || id.AdvisoryDisagreement? || id.ContextReview? || id.ObservedThreat?
    || id.ScoreResolved? || id.ConfirmationMissing?
  }

  predicate Incomplete(id: ReasonId) {
    id.SmtpPolicyUnavailable? || id.LlmUnavailable? || id.OtherIncomplete?
  }

  const RULINGS: set<ReasonId> := {MalwarePriority, AdvisoryDisagreement, ContextReview, ObservedThreat}

  /** The rows whose id is not listed, in order. */
  function Without(rows: seq<Signal>, ids: set<ReasonId>): seq<Signal> {
    if rows == [] then []
    else
      var rest := Without(rows[..|rows| - 1], ids);
      if rows[|rows| - 1].id in ids then rest else rest + [rows[|rows| - 1]]
  }

  predicate Any(rows: seq<Signal>, test: ReasonId -> bool) {
    exists k :: 0 <= k < |rows| && test(rows[k].id)
  }

  predicate Has(rows: seq<Signal>, id: ReasonId) {
    exists k :: 0 <= k < |rows| && rows[k].id == id
  }

  function Row(id: ReasonId, detail: Detail): Signal { Signal(id, detail, 0.0) }

  // ---------------------------------------------------------------- predicates over a scan

  predicate ValidScore(v: real) { 0.0 <= v <= 100.0 }

  /** Only a DNS or SMTP policy gap keeps the scan from being complete. */
  predicate ReadableWithDnsGap(s: Scan) {
    && s.featuresComplete == Some(true)
    && !s.facts.antivirus.Unavailable? && !s.facts.antivirus.Unscannable?
    && Any(s.reasons, (id: ReasonId) => id.SmtpPolicyUnavailable?)
    && !Any(s.reasons, (id: ReasonId) => Incomplete(id) && !id.SmtpPolicyUnavailable?)
  }

  predicate Signature(f: Facts) { f.signatures.Suspicious? && f.phishingSignature }

  predicate Phishing(f: Facts) { f.opinion == Some(Unwanted) && f.strongPhishing }

  predicate AllowedGap(f: Facts, id: ReasonId) {
    || id.SmtpPolicyUnavailable?
    || (f.context.Some? && f.context.value.directExtortion && Signature(f) && id.LlmUnavailable?)
  }

  /** A confirmed threat that survives an unrelated coverage gap. */
  predicate ObservedThreatDespiteGap(s: Scan) {
    var f := s.facts;
    && f.context.Some? && !s.complete && s.featuresComplete == Some(true) && f.antivirus.Clean?
    && var c := f.context.value;
       && !c.encrypted && !c.threatReport && !c.transactionNotice
       && Any(s.reasons, (id: ReasonId) => AllowedGap(f, id))
       && !Any(s.reasons, (id: ReasonId) => Incomplete(id) && !AllowedGap(f, id))
       && ((Signature(f) && Phishing(f)) || (c.directExtortion && (Signature(f) || Phishing(f))))
       && f.opinion != Some(Legitimate)
       && f.transport.Some? && ObservedUnauthenticated(f.transport.value)
  }

  /** Aligned authentication and grounded benign context outweigh an uncalibrated index. */
  predicate AuthenticatedBenignConflict(s: Scan) {
    var f := s.facts;
    && (s.complete || ReadableWithDnsGap(s)) && s.featuresComplete == Some(true)
    && f.antivirus.Clean? && f.signatures.Clean? && !Corroborated(f) && !f.confirmedFinding
    && f.transport.Some? && DmarcPass(f.transport.value)
    && f.context.Some?
    && var c := f.context.value;
       && !c.encrypted && !c.actionDemand && !c.directExtortion && !c.injectedRewardLure
       && f.opinion != Some(Unwanted)
       && (NeedsReview(f) || (f.opinion == Some(Legitimate) && f.grounded))
  }

  // ---------------------------------------------------------------- resolution by score

  function LegacyVerdict(s: Scan, threshold: real): Verdict {
    Verdict(Legacy,
            if !s.complete then Undetermined else if s.score >= threshold then Unwanted else Legitimate,
            if s.complete then Some(s.score) else None, s.model)
  }

  /** Undoes an earlier resolution whose decision is still in force. */
  function Restored(s: Scan): Scan {
    var undo := s.resolution.Some? && s.decision == Some(s.resolution.value.decision);
    s.(decision := if undo then Some(s.resolution.value.previous) else s.decision,
       delivery := if undo then s.resolution.value.previousCategory else s.delivery,
       resolution := None,
       reasons := Without(s.reasons, {ScoreResolved}))
  }

  /** A decision, or an explicit delivery class, still abstains. */
  predicate Abstains(s: Scan, previous: Verdict) {
    !previous.source.Antivirus? && (previous.outcome.Undetermined? || s.delivery == Some(Unclear))
  }

  function UsableScore(s: Scan): Option<real> {
    if s.featuresComplete != Some(false) && ValidScore(s.score) then Some(s.score) else None
  }

  function GuardOf(s: Scan, previous: Verdict): Option<Guard> {
    if Has(s.reasons, ConfirmationMissing) && !Corroborated(s.facts) then Some(CorroborationRequired)
    else if previous.source.Legacy? && AuthenticatedBenignConflict(s) then Some(BenignConflict)
    else None
  }

  function ByScore(s: Scan, guard: Option<Guard>, threshold: real): Verdict {
    var score := UsableScore(s);
    Verdict(Legacy,
            if guard.None? && score.Some? && score.value >= threshold then Unwanted else Legitimate,
            score, s.model)
  }

  function ResolutionDetail(guard: Option<Guard>, score: Option<real>, threshold: real): Detail {
    if guard == Some(BenignConflict) then AcceptedOnConflict
    else if guard == Some(CorroborationRequired) then AcceptedWithoutCorroboration
    else if score.None? then NoUsableScore
    else ComparedScore(score.value, threshold)
  }

  function Resolved(s: Scan, threshold: real, previous: Verdict): Scan {
    var guard := GuardOf(s, previous);
    var decision := ByScore(s, guard, threshold);
    s.(delivery := if s.delivery == Some(Unclear) then None else s.delivery,
       decision := Some(decision),
       resolution := Some(ScoreResolution(previous, decision, threshold, UsableScore(s), !s.complete, s.delivery, guard)),
       reasons := s.reasons + [Row(ScoreResolved, ResolutionDetail(guard, UsableScore(s), threshold))])
  }

  function PreviousVerdict(s: Scan, threshold: real): Verdict {
    if s.decision.Some? then s.decision.value else LegacyVerdict(s, threshold)
  }

  function Resolve(s: Scan, enabled: bool, threshold: real): Scan {
    var r := Restored(s);
    if !enabled || !ValidScore(threshold) || !Abstains(r, PreviousVerdict(r, threshold)) then r
    else Resolved(r, threshold, PreviousVerdict(r, threshold))
  }

  function Finalize(s: Scan, threshold: real): Scan { Resolve(s, true, threshold) }

  // ---------------------------------------------------------------- policy

  predicate KnownVersion(v: string) {
    || v == VERSION
    || v in {"decision-policy-8", "decision-policy-9", "decision-policy-10", "decision-policy-11",
             "decision-policy-12", "decision-policy-13", "decision-policy-14"}
  }

  /** The decision to start from: the saved baseline when our own arbitration is in force. */
  function Baseline(s: Scan): Option<Verdict> {
    if s.arbitration.Some? && KnownVersion(s.arbitration.value.version) && s.complete
       && s.decision == Some(s.arbitration.value.decision)
    then Some(s.arbitration.value.baseline) else s.decision
  }

  /** The scan as apply judges it: earlier resolution, arbitration and rulings removed. */
  function Rebased(s: Scan): Scan {
    var r := Restored(s);
    r.(decision := Baseline(r), arbitration := None, reasons := Without(r.reasons, RULINGS))
  }

  /** How the second opinion bears on a determinate legacy decision of a complete scan. */
  function Arbitrated(s: Scan): Option<Resolution> {
    if s.decision.None? || !s.complete || !s.decision.value.source.Legacy?
       || s.decision.value.outcome.Undetermined? || s.facts.opinion.None? then None
    else
      var baseline, opinion := s.decision.value.outcome, s.facts.opinion.value;
      Some(if opinion == baseline then Agreement
           else if !opinion.Undetermined? then Disagreement
           else if baseline.Unwanted? && Corroborated(s.facts) then Confirmed
           else Ambiguous)
  }

  predicate Contested(r: Option<Resolution>) { r == Some(Disagreement) || r == Some(Ambiguous) }

  function AfterOpinion(s: Scan): Option<Verdict> {
    if Contested(Arbitrated(s)) && s.decision.Some?
    then Some(s.decision.value.(outcome := Undetermined, score := None)) else s.decision
  }

  /** Required corroboration is missing for a legacy decision that would otherwise stand or abstain. */
  predicate LacksCorroboration(s: Scan, require: bool) {
    var d := AfterOpinion(s);
    && require && !Corroborated(s.facts) && d.Some? && d.value.source.Legacy?
    && (|| d.value.outcome.Unwanted?
        || (d.value.outcome.Undetermined?
            && (!s.complete || Has(s.reasons, ConfirmationMissing) || Contested(Arbitrated(s)))))
  }

  function AfterCorroboration(s: Scan, require: bool): Option<Verdict> {
    var d := AfterOpinion(s);
    if LacksCorroboration(s, require) && d.Some? then Some(d.value.(outcome := Undetermined)) else d
  }

  predicate Reviewed(s: Scan, require: bool, before: bool) {
    var d := AfterCorroboration(s, require);
    && (s.complete || ReadableWithDnsGap(s)) && NeedsReview(s.facts) && d.Some? && d.value.source.Legacy?
    && (d.value.outcome.Unwanted? || ((before || !s.complete) && d.value.outcome.Undetermined?))
  }

  function AfterContext(s: Scan, require: bool, before: bool): Option<Verdict> {
    var d := AfterCorroboration(s, require);
    if Reviewed(s, require, before) && d.Some?
    then Some(d.value.(outcome := Undetermined, score := None)) else d
  }

  function Ruling(id: ReasonId, detail: Detail, present: bool): seq<Signal> {
    if present then [Row(id, detail)] else []
  }

  function OpinionDetail(r: Option<Resolution>): Detail {
    if r == Some(Disagreement) then Contradiction else Ambiguity
  }

  /** Arbitration, then corroboration, then context. */
  function Weighed(s: Scan, require: bool, before: bool): Scan {
    var a, d := Arbitrated(s), AfterContext(s, require, before);
    var abstained := Contested(a) || LacksCorroboration(s, require) || Reviewed(s, require, before);
    s.(decision := d,
       arbitration := if a.Some? && d.Some? && s.decision.Some? && s.facts.opinion.Some?
                      then Some(Arbitration(VERSION, s.decision.value, s.facts.opinion.value, a.value, d.value)) else None,
       tagged := s.tagged && !abstained, pubTagged := s.pubTagged && !abstained,
       reasons := Without(s.reasons, {ConfirmationMissing})
                  + Ruling(AdvisoryDisagreement, OpinionDetail(a), Contested(a))
                  + Ruling(ConfirmationMissing, CorroborationMissing, LacksCorroboration(s, require))
                  + Ruling(ContextReview, ContextConflict, Reviewed(s, require, before)))
  }

  function Quarantined(s: Scan): Scan {
    s.(decision := Some(Verdict(Antivirus, Unwanted, None, VERSION)),
       pubTagged := false, tagged := s.tagged && s.complete,
       reasons := Without(s.reasons, {ConfirmationMissing}) + [Row(MalwarePriority, MalwareFound)])
  }

  function Threatened(s: Scan): Scan {
    s.(decision := Some(Verdict(Legacy, Unwanted, None, VERSION)), tagged := false, pubTagged := false,
       reasons := s.reasons + [Row(ObservedThreat,
         if s.facts.context.Some? && s.facts.context.value.directExtortion then ExtortionAgreed else PhishingAgreed)])
  }

  predicate LegacyThreat(s: Scan) {
    s.decision.Some? && s.decision.value.source.Legacy? && ObservedThreatDespiteGap(s)
  }

  function Apply(s: Scan, require: bool): Scan {
    var r := Rebased(s);
    if s.facts.antivirus.Malware? then Quarantined(r)
    else if LegacyThreat(r) then Threatened(r)
    else Weighed(r, require, Has(s.reasons, ContextReview))
  }
}
