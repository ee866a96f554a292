/** What steps 2 to 7 rule on a presentation, read off the presentation, the policy, the query and what the
    libraries answer, without the steps: whether it is refused, at which step and with which code, and what
    becomes of it if it is accepted. */
module Rulings {
  import opened Wrappers
  import opened ErrClass
  import opened CredentialTrust
  import opened TrustResolution
  import opened PipelineTypes
  import opened Checks
  import opened StepOrder
  import opened PipelineRun
  import opened PipelineTheorems
  import opened Soundness

  // ---- what the libraries make of a presentation ----

  ghost predicate Decodes(env: Env, p: Presentation) {
    match p.format
    case SDJWT => env.peek(p.payload).Ok?
    case Mdoc => env.decodeDeviceResponse(p.payload).None?
    case OtherFormat(_) => false
  }

  /** The one sequence of answers that the issuer callback gives. */
  ghost function AnswersGiven(env: Env, p: Presentation): (answers: Answers)
    ensures Answering(env, p, answers)
  {
    var c := NewCred(p, env.zeroStatus);
    AnsweringExactly(env, c, MDAnswers(env, c));
    MDAnswers(env, c)
  }

  /** A verified credential, or the error that verification ended with. */
  datatype Evidence = VerifiedSD(sd: SDVerified) | VerifiedMD(md: MDVerified) | Unverified(error: Err)

  ghost function SDEvidence(env: Env, p: Presentation): Evidence
    requires env.peek(p.payload).Ok?
  {
    var pk := env.peek(p.payload).value;
    var signed := if pk.iat.Some? then pk.iat.value else ZERO_TIME;
    match ResolveIssuerFor(env.resolver, env.trustMap, pk.x5c, VctFromQuery(env.query, p.queryCredID),
                           InstantFor(env, signed))
    case Fault(e) => Unverified(e)
    case Ok(issuer) =>
      match env.sdVerify(SDInput(
        p.payload, issuer.key, if env.origin != "" then "origin:" + env.origin else p.clientID,
        p.nonce, BindingDemanded(env, p)))
      case Fault(e) => Unverified(e)
      case Ok(vc) =>
        if env.validity == AtSigningTime && signed != ZERO_TIME && vc.issuedAt != signed then
          Unverified(SIGNING_TIME_DIFFERS)
        else VerifiedSD(vc)
  }

  ghost function MDEvidence(env: Env, p: Presentation): Evidence {
    match env.mdVerify(
      p.payload,
      if env.origin != "" then DCAPIHandover(env.origin, p.nonce, p.jwkThumbprint)
      else Handover(p.clientID, p.nonce, p.jwkThumbprint, p.responseURI),
      AnswersGiven(env, p))
    case Fault(e) => Unverified(e)
    case Ok(docs) => if |docs| == 1 then VerifiedMD(docs[0]) else Unverified(NOT_ONE_DOCUMENT)
  }

  ghost function EvidenceOf(env: Env, p: Presentation): Evidence
    requires Decodes(env, p)
  {
    if p.format == SDJWT then SDEvidence(env, p) else MDEvidence(env, p)
  }

  /** What the status checker answers, if the credential has a status reference. */
  ghost function StatusOf(env: Env, ev: Evidence): Option<StatusAnswer> {
    match ev
    case VerifiedSD(sd) => if sd.status.None? then None else Some(
      CheckedStatus(env, sd.status.value, sd.vct, sd.expiry - sd.notBefore))
    case VerifiedMD(md) => if md.status.None? then None else Some(
      CheckedStatus(env, md.status.value, md.docType, md.validUntil - md.validFrom))
    case Unverified(_) => None
  }

  predicate SkippedStatus(a: StatusAnswer) {
    a.provenance == SkippedByLifetime || a.provenance == SkippedFailOpen
  }

  /** The refusal of step 5, if it refuses. */
  ghost function StatusRuling(env: Env, a: Option<StatusAnswer>): Option<Code> {
    if a.None? || SkippedStatus(a.value) then None
    else if a.value.err.Some? then Some(Problem(OfRevocation, Unavailable))
    else if a.value.status == StatusRevoked || a.value.status == StatusSuspended then
      Some(Problem(OfRevocation, Revoked))
    else if a.value.status == StatusUnknown && env.policy.revocationFailClosedP != Some(false) then
      Some(Problem(OfRevocation, Unavailable))
    else None
  }

  /** The refusal of step 7: a credential that is not bound to its holder, or whose status, although it was
      not concluded, is a revocation. */
  ghost predicate UserRefused(env: Env, p: Presentation, a: Option<StatusAnswer>) {
    var status := if a.Some? then a.value.status else env.zeroStatus;
    || (p.format == SDJWT && !BindingDemanded(env, p))
    || status == StatusRevoked || status == StatusSuspended
  }

  /** The index of the step (0 is step 2, 5 is step 7) that refuses the presentation, and its code; or None. */
  ghost function RulingOf(env: Env, p: Presentation): Option<(nat, Code)> {
    if !Decodes(env, p) then Some((0, Problem(OfCredential, ParseFailed)))
    else
      var ev := EvidenceOf(env, p);
      if ev.Unverified? then
        var (step, code) := OwnerOf(ev.error);
        Some((if step == DataIntegrity then 2 else if step == DeviceBinding then 4 else 1, code))
      else
        var a := StatusOf(env, ev);
        if StatusRuling(env, a).Some? then Some((3, StatusRuling(env, a).value))
        else if UserRefused(env, p, a) then Some((5, Problem(OfCredential, BindingFailed)))
        else None
  }

  // ---- the steps, one after the other ----

  ghost function Ends(env: Env, c0: CredV): Option<Stop> {
    var o0 := ParseOne(env, c0);
    if o0.fail.Some? then Some(Stop(0, o0.fail.value))
    else
      var o1 := AuthOne(env, o0.cred);
      if o1.fail.Some? then Some(Stop(1, o1.fail.value)) else EndsAfter(env, o1.cred)
  }

  /** The same from step 4 on. */
  ghost function EndsAfter(env: Env, c2: CredV): Option<Stop> {
    if IntegrityOne(c2).fail.Some? then Some(Stop(2, IntegrityOne(c2).fail.value))
    else
      var o3 := RevokeOne(env, c2);
      if o3.fail.Some? then Some(Stop(3, o3.fail.value)) else EndsAtBinding(env, o3.cred)
  }

  /** Steps 6 and 7. */
  ghost function EndsAtBinding(env: Env, c4: CredV): Option<Stop> {
    var o4 := BindOne(env, c4);
    if o4.fail.Some? then Some(Stop(4, o4.fail.value))
    else if UserOne(o4.cred).fail.Some? then Some(Stop(5, UserOne(o4.cred).fail.value))
    else None
  }

  lemma AloneGoesOn(fs: seq<CredV -> One>, k: nat, c: CredV)
    requires k < |fs|
    ensures Alone(fs, k, c)
      == if fs[k](c).fail.Some? then Some(Stop(k, fs[k](c).fail.value)) else Alone(fs, k + 1, fs[k](c).cred)
  {
  }

  lemma AloneEnds(env: Env, c0: CredV)
    ensures Alone(Steps(env), 0, c0) == Ends(env, c0)
  {
    var fs := Steps(env);
    var c1 := ParseOne(env, c0).cred;
    var c2 := AuthOne(env, c1).cred;
    AloneGoesOn(fs, 0, c0);
    AloneGoesOn(fs, 1, c1);
    AloneEndsAfter(env, c2);
  }

  lemma AloneEndsAfter(env: Env, c2: CredV)
    ensures Alone(Steps(env), 2, c2) == EndsAfter(env, c2)
  {
    var fs := Steps(env);
    var c4 := RevokeOne(env, c2).cred;
    var c5 := BindOne(env, c4).cred;
    AloneGoesOn(fs, 2, c2);
    AloneGoesOn(fs, 3, c2);
    AloneGoesOn(fs, 4, c4);
    AloneGoesOn(fs, 5, c5);
  }

  // ---- the ruling is what the steps do ----

  /** A decoded credential, as step 2 leaves it. */
  ghost function Decoded(env: Env, p: Presentation): CredV {
    ParseOne(env, NewCred(p, env.zeroStatus)).cred
  }

  lemma ParseDecodes(env: Env, p: Presentation)
    ensures var one := ParseOne(env, NewCred(p, env.zeroStatus));
      && (one.fail.None? <==> Decodes(env, p))
      && (one.fail.Some? ==> one.fail.value.code == Problem(OfCredential, ParseFailed))
      && one.cred == (if p.format == SDJWT && Decodes(env, p)
                      then NewCred(p, env.zeroStatus).(x5c := env.peek(p.payload).value.x5c,
                                                       iat := env.peek(p.payload).value.iat)
                      else NewCred(p, env.zeroStatus))
  {
  }

  /** A credential that was verified, before step 5. */
  ghost predicate Holds(env: Env, c: CredV, p: Presentation, ev: Evidence) {
    && c.pres == p && c.deferred.None? && c.statusResult == env.zeroStatus && c.deviceBinding == Unset
    && match ev
       case VerifiedSD(sd) => p.format == SDJWT && c.sd == Some(sd) && c.md.None?
       case VerifiedMD(md) => p.format == Mdoc && c.md == Some(md) && c.sd.None?
       case Unverified(_) => false
  }

  lemma SDVerifies(env: Env, p: Presentation)
    requires Decodes(env, p) && p.format == SDJWT
    ensures var (c, err) := VerifySDJWT(env, Decoded(env, p)); var ev := SDEvidence(env, p);
      if ev.Unverified? then err == Some(ev.error) else err.None? && Holds(env, c, p, ev)
  {
    DemandedExactly(env, Decoded(env, p));
  }

  lemma MDVerifies(env: Env, p: Presentation)
    requires Decodes(env, p) && p.format == Mdoc
    ensures var (c, err) := VerifyMdoc(env, Decoded(env, p)); var ev := MDEvidence(env, p);
      if ev.Unverified? then err == Some(ev.error) else err.None? && Holds(env, c, p, ev)
  {
    AnsweringExactly(env, Decoded(env, p), AnswersGiven(env, p));
  }

  lemma Verifies(env: Env, p: Presentation)
    requires Decodes(env, p)
    ensures var (c, err) := VerifyFormat(env, Decoded(env, p)); var ev := EvidenceOf(env, p);
      if ev.Unverified? then err == Some(ev.error) else err.None? && Holds(env, c, p, ev)
  {
    if p.format == SDJWT {
      SDVerifies(env, p);
    } else {
      MDVerifies(env, p);
    }
  }

  /** An error fails at step 3, or is carried to the step that owns it and fails there. */
  lemma UnverifiedEnds(env: Env, c: CredV, e: Err)
    ensures var (step, code) := OwnerOf(e); var one := Attribute(c, e);
      if step == DataIntegrity then
        one.fail.None? && EndsAfter(env, one.cred).Some? && EndsAfter(env, one.cred).value.step == 2
        && EndsAfter(env, one.cred).value.fail.code == code
      else if step == DeviceBinding then
        one.fail.None? && EndsAfter(env, one.cred).Some? && EndsAfter(env, one.cred).value.step == 4
        && EndsAfter(env, one.cred).value.fail.code == code
      else one.fail.Some? && one.fail.value.code == code
  {
    OwnerExactly(e);
    OwnersCode(e);
    var (step, code) := OwnerOf(e);
    if step == DataIntegrity || step == DeviceBinding {
      DeferredEnds(env, Attribute(c, e).cred);
    }
  }

  lemma OwnersCode(e: Err)
    ensures var (step, code) := OwnerOf(e);
      && (step == DataIntegrity ==> code == Problem(OfCredential, Integrity))
      && (step == DeviceBinding ==> code == Problem(OfCredential, BindingFailed))
      && (step != DataIntegrity && step != DeviceBinding ==> step == IssuerAuthenticity || step == Parse)
  {
  }

  lemma DeferredEnds(env: Env, c: CredV)
    requires DeferredTo(c, DataIntegrity) || DeferredTo(c, DeviceBinding)
    ensures var end := EndsAfter(env, c);
      && end.Some?
      && (DeferredTo(c, DataIntegrity) ==>
            end.value.step == 2 && end.value.fail.code == Problem(OfCredential, Integrity))
      && (DeferredTo(c, DeviceBinding) ==>
            end.value.step == 4 && end.value.fail.code == Problem(OfCredential, BindingFailed))
  {
  }

  /** What step 5 asks about a verified credential. */
  lemma AsksOf(env: Env, c: CredV, p: Presentation, ev: Evidence)
    requires Holds(env, c, p, ev)
    ensures StatusRefOf(c).Some? <==> StatusOf(env, ev).Some?
    ensures StatusRefOf(c).Some? ==>
      StatusOf(env, ev) == Some(env.checkStatus(StatusInputFor(env, c, StatusRefOf(c).value)))
  {
  }

  lemma RevokeRules(env: Env, c: CredV, p: Presentation, ev: Evidence)
    requires Holds(env, c, p, ev)
    ensures var one := RevokeOne(env, c); var a := StatusOf(env, ev); var ruling := StatusRuling(env, a);
      && (one.fail.Some? <==> ruling.Some?) && (ruling.Some? ==> one.fail.value.code == ruling.value)
      && (one.skipped <==> a.Some? && SkippedStatus(a.value))
      && one.cred.pres == p && one.cred.deferred.None? && one.cred.deviceBinding == Unset
      && one.cred.statusResult == if a.Some? then a.value.status else env.zeroStatus
  {
    AsksOf(env, c, p, ev);
  }

  lemma BindRules(env: Env, c: CredV)
    requires c.deferred.None? && (c.pres.format == SDJWT || c.pres.format == Mdoc)
    ensures var one := BindOne(env, c); var bound := c.pres.format == Mdoc || BindingDemanded(env, c.pres);
      && one.fail.None? && (one.skipped <==> !bound)
      && one.cred == c.(holderBound := c.holderBound || bound, deviceBinding := if bound then Pass else Skipped)
  {
    DemandedExactly(env, c);
  }

  lemma VerifiedEnds(env: Env, c: CredV, p: Presentation, ev: Evidence)
    requires Holds(env, c, p, ev)
    ensures var a := StatusOf(env, ev); var end := EndsAfter(env, c);
      if StatusRuling(env, a).Some? then
        end.Some? && end.value.step == 3 && end.value.fail.code == StatusRuling(env, a).value
      else if UserRefused(env, p, a) then
        end.Some? && end.value.step == 5 && end.value.fail.code == Problem(OfCredential, BindingFailed)
      else end.None?
  {
    RevokeRules(env, c, p, ev);
    assert IntegrityOne(c).fail.None?;
    BindingEnds(env, RevokeOne(env, c).cred, p, StatusOf(env, ev));
  }

  lemma BindingEnds(env: Env, c4: CredV, p: Presentation, a: Option<StatusAnswer>)
    requires c4.pres == p && c4.deferred.None? && (p.format == SDJWT || p.format == Mdoc)
    requires c4.statusResult == if a.Some? then a.value.status else env.zeroStatus
    ensures var end := EndsAtBinding(env, c4);
      if UserRefused(env, p, a) then
        end.Some? && end.value.step == 5 && end.value.fail.code == Problem(OfCredential, BindingFailed)
      else end.None?
  {
    BindRules(env, c4);
    UserRules(BindOne(env, c4).cred);
  }

  lemma UserRules(c: CredV)
    ensures var fail := UserOne(c).fail;
      && (fail.Some? <==>
            c.deviceBinding != Pass || c.statusResult == StatusRevoked || c.statusResult == StatusSuspended)
      && (fail.Some? ==> fail.value.code == Problem(OfCredential, BindingFailed))
  {
  }

  /** A presentation judged alone is refused exactly as ruled: at that step, with that code; or not at all. */
  lemma RuledExactly(env: Env, p: Presentation)
    ensures FailsAlone(env, p).None? <==> RulingOf(env, p).None?
    ensures RulingOf(env, p).Some? ==>
      (FailsAlone(env, p).value.step, FailsAlone(env, p).value.fail.code) == RulingOf(env, p).value
  {
    var c0 := NewCred(p, env.zeroStatus);
    SingletonIsAlone(Steps(env), 0, c0);
    AloneEnds(env, c0);
    ParseDecodes(env, p);
    if Decodes(env, p) {
      Verifies(env, p);
      var (c, err) := VerifyFormat(env, Decoded(env, p));
      if err.Some? {
        UnverifiedEnds(env, c, err.value);
      } else {
        VerifiedEnds(env, c, p, EvidenceOf(env, p));
      }
    }
  }

  // ---- a credential is sound exactly when it is what an accepted presentation becomes ----

  lemma SoundStatus(env: Env, c: CredV, ev: Evidence)
    requires c.pres.format == SDJWT ==> c.sd.Some? && ev == VerifiedSD(c.sd.value)
    requires c.pres.format == Mdoc ==> c.md.Some? && ev == VerifiedMD(c.md.value)
    requires c.pres.format == SDJWT || c.pres.format == Mdoc
    ensures StatusOf(env, ev) == StatusAnswerOf(env, c)
  {
  }

  lemma SoundIsAccepted(env: Env, c: CredV)
    requires Sound(env, c)
    ensures RulingOf(env, c.pres).None?
  {
    var ev := EvidenceOf(env, c.pres);
    if c.pres.format == SDJWT {
      assert ev == VerifiedSD(c.sd.value);
    } else {
      MdocEvidence(env, c);
    }
    SoundStatus(env, c, ev);
  }

  lemma MdocEvidence(env: Env, c: CredV)
    requires c.pres.format == Mdoc && Authentic(env, c)
    ensures MDEvidence(env, c.pres) == VerifiedMD(c.md.value)
    ensures LastOk(AnswersGiven(env, c.pres), c.issuer)
  {
    var given := AnswersGiven(env, c.pres);
    AnsweringExactly(env, c, given);
    forall answers: Answers | Answering(env, c.pres, answers) ensures answers == given {
      AnsweringExactly(env, c, answers);
    }
  }

  /** A presentation has one sound outcome. */
  lemma OneOutcome(env: Env, c: CredV, d: CredV)
    requires Sound(env, c) && Sound(env, d) && c.pres == d.pres
    ensures c == d
  {
    OneEvidence(env, c, d);
    OneStatus(env, c, d);
  }

  lemma OneEvidence(env: Env, c: CredV, d: CredV)
    requires Authentic(env, c) && Authentic(env, d) && c.pres == d.pres
    ensures c.sd == d.sd && c.md == d.md && c.issuer == d.issuer && c.x5c == d.x5c && c.iat == d.iat
  {
    if c.pres.format == Mdoc {
      OneMdoc(env, c, d);
    } else {
      OneSDJWT(env, c, d);
    }
  }

  lemma OneStatus(env: Env, c: CredV, d: CredV)
    requires StatusSettled(env, c) && StatusSettled(env, d) && c.pres == d.pres && c.sd == d.sd && c.md == d.md
    ensures c.statusResult == d.statusResult && c.statusProvenance == d.statusProvenance
  {
    assert StatusAnswerOf(env, c) == StatusAnswerOf(env, d);
  }

  lemma OneSDJWT(env: Env, c: CredV, d: CredV)
    requires Authentic(env, c) && Authentic(env, d) && c.pres == d.pres && c.pres.format == SDJWT
    ensures c.sd == d.sd && c.md == d.md && c.issuer == d.issuer && c.x5c == d.x5c && c.iat == d.iat
  {
  }

  lemma OneMdoc(env: Env, c: CredV, d: CredV)
    requires Authentic(env, c) && Authentic(env, d) && c.pres == d.pres && c.pres.format == Mdoc
    ensures c.sd == d.sd && c.md == d.md && c.issuer == d.issuer && c.x5c == d.x5c && c.iat == d.iat
  {
    MdocEvidence(env, c);
    MdocEvidence(env, d);
    LastOkExactly(AnswersGiven(env, c.pres), c.issuer);
    LastOkExactly(AnswersGiven(env, c.pres), d.issuer);
  }

  lemma {:induction false} AloneReaches(fs: seq<CredV -> One>, c: CredV, k: nat)
    requires k <= |fs| && Alone(fs, 0, c).None?
    ensures Alone(fs, k, After(fs, k, c)).None?
  {
    if k > 0 {
      AloneReaches(fs, c, k - 1);
      AloneCame(fs, k, After(fs, k - 1, c));
    }
  }

  lemma AlonePasses(fs: seq<CredV -> One>, c: CredV, k: nat)
    requires k <= |fs| && Alone(fs, 0, c).None?
    ensures forall j :: 0 <= j < k ==> fs[j](After(fs, j, c)).fail.None?
  {
    forall j | 0 <= j < k ensures fs[j](After(fs, j, c)).fail.None? {
      AloneReaches(fs, c, j);
      AloneGoesOn(fs, j, After(fs, j, c));
    }
  }

  lemma AloneCame(fs: seq<CredV -> One>, k: nat, c: CredV)
    requires 0 < k <= |fs| && Alone(fs, k - 1, c).None?
    ensures fs[k - 1](c).fail.None? && Alone(fs, k, fs[k - 1](c).cred).None?
  {
  }

  /** A presentation passes steps 2 to 7 alone iff it has a sound outcome, and it becomes just that. */
  lemma AcceptedExactly(env: Env, p: Presentation, c: CredV)
    requires c.pres == p
    ensures FailsAlone(env, p).None? && After(Steps(env), 6, NewCred(p, env.zeroStatus)) == c <==> Sound(env, c)
  {
    RuledExactly(env, p);
    if Sound(env, c) {
      SoundIsAccepted(env, c);
    }
    if FailsAlone(env, p).None? {
      SingletonIsAlone(Steps(env), 0, NewCred(p, env.zeroStatus));
      AlonePasses(Steps(env), NewCred(p, env.zeroStatus), 6);
      CredentialSound(env, p);
      if Sound(env, c) {
        OneOutcome(env, c, After(Steps(env), 6, NewCred(p, env.zeroStatus)));
      }
    }
  }
}
