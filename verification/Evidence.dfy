/**
 The recorded evidence of one scan and the pure predicates over it. Nothing here reads
 the decision, its explanation rows or any later policy state.
 */
module Evidence {
  import opened Options

  datatype Outcome = Legitimate | Unwanted | Undetermined

  datatype AvStatus = Disabled | Clean | Malware | Suspicious | Unscannable | Unavailable

  datatype AuthResult = Pass | Fail | SoftFail | Neutral | NoResult | TempError | PermError

  datatype CheckState = Complete | Limited | Down | Inactive

  datatype Origin = SmtpSession | ContentOnly | Imported

  datatype AuthCheck = Spf | Dkim | Dmarc | Arc

  datatype Context = Context(encrypted: bool, threatReport: bool, transactionNotice: bool,
                             conditionalSecurityNotice: bool, passiveServiceNotice: bool,
                             actionDemand: bool, directExtortion: bool, injectedRewardLure: bool)

  /** Authentication results of the SMTP session, and whether each reputation answer is malicious. */
  datatype Transport = Transport(knownSchema: bool, origin: Origin, state: CheckState,
                                 spfState: CheckState, spf: Option<AuthResult>,
                                 dkimState: CheckState, dkim: Option<seq<AuthResult>>,
                                 dmarcState: CheckState, dmarcSpf: Option<AuthResult>, dmarcDkim: Option<AuthResult>,
                                 arcState: CheckState, arc: Option<AuthResult>,
                                 maliciousIp: bool, maliciousDomains: seq<bool>)

  /**
   phishingSignature: a complementary signature of the phishing family is named.
   strongPhishing: the second opinion says phishing with confidence and probability at least 0.9.
   grounded: its citations were accepted by the current grounding check without issues.
   rewardRetained: the scoring ledger retained a positive reward-lure contribution.
   confirmedFinding: an enforcing protection finding names a confirmed threat.
   publicity: the mailing report says promotion or newsletter.
   */
  datatype Facts = Facts(antivirus: AvStatus, signatures: AvStatus, phishingSignature: bool,
                         opinion: Option<Outcome>, strongPhishing: bool, grounded: bool,
                         context: Option<Context>, transport: Option<Transport>,
                         rewardRetained: bool, confirmedFinding: bool, publicity: bool)

  predicate ContextUsable(e: Transport) {
    e.knownSchema && e.origin != ContentOnly
  }

  predicate ParentActive(s: CheckState) { !s.Inactive? }

  function Values(e: Transport, check: AuthCheck): Option<seq<AuthResult>> {
    match check
    case Spf => if e.spf.Some? then Some([e.spf.value]) else None
    case Dkim => e.dkim
    case Dmarc => if e.dmarcSpf.Some? && e.dmarcDkim.Some? then Some([e.dmarcSpf.value, e.dmarcDkim.value]) else None
    case Arc => if e.arc.Some? then Some([e.arc.value]) else None
  }

  function StateOf(e: Transport, check: AuthCheck): CheckState {
    match check case Spf => e.spfState case Dkim => e.dkimState case Dmarc => e.dmarcState case Arc => e.arcState
  }

  predicate Impossible(check: AuthCheck, v: AuthResult) {
    match check
    case Dmarc => v.SoftFail? || v.Neutral?
    case Dkim => v.SoftFail?
    case Arc => v.SoftFail?
    case Spf => false
  }

  /** The check ran to completion in a usable context and has valid, permanent results. */
  predicate Authenticated(e: Transport, check: AuthCheck) {
    && ContextUsable(e) && (check.Arc? || ParentActive(e.state)) && StateOf(e, check).Complete?
    && Values(e, check).Some?
    && var values := Values(e, check).value;
       |values| <= 16 && forall v :: v in values ==> !Impossible(check, v) && v != TempError
  }

  predicate DmarcPass(e: Transport) {
    Authenticated(e, Dmarc) && (e.dmarcSpf == Some(Pass) || e.dmarcDkim == Some(Pass))
  }

  /** Additional observations that may confirm an uncalibrated content score. */
  predicate Corroborated(f: Facts) {
    || f.antivirus.Malware?
    || (f.transport.Some? && ContextUsable(f.transport.value)
        && var e := f.transport.value;
           || (f.context.Some? && f.context.value.injectedRewardLure && f.rewardRetained)
           || (Authenticated(e, Dmarc) && e.dmarcSpf == Some(Fail) && e.dmarcDkim == Some(Fail))
           || e.maliciousIp
           || exists k :: 0 <= k < |e.maliciousDomains| && k < 12 && e.maliciousDomains[k])
  }

  /** An authenticated reporting or notice context that contradicts the content score. */
  predicate NeedsReview(f: Facts) {
    && f.context.Some?
    && var c := f.context.value;
       && (c.threatReport || c.transactionNotice || c.conditionalSecurityNotice || c.passiveServiceNotice)
       && !c.actionDemand && !c.directExtortion && !c.injectedRewardLure
       && !Corroborated(f) && f.transport.Some? && DmarcPass(f.transport.value)
  }

  /** Gateway-observed failure of every sender authentication method. */
  predicate ObservedUnauthenticated(e: Transport) {
    && Authenticated(e, Spf) && Authenticated(e, Dkim) && Authenticated(e, Dmarc) && Authenticated(e, Arc)
    && e.origin == SmtpSession && e.state.Complete?
    && (e.spf == Some(Fail) || e.spf == Some(SoftFail))
    && e.dkim.Some? && (forall r :: r in e.dkim.value ==> r == NoResult || r == Fail)
    && (e.dmarcSpf == Some(NoResult) || e.dmarcSpf == Some(Fail))
    && (e.dmarcDkim == Some(NoResult) || e.dmarcDkim == Some(Fail))
    && (e.arc == Some(NoResult) || e.arc == Some(Fail))
  }
}
