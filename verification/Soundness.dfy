/** What a verified run of the ten checks guarantees about every presented credential. */
module Soundness {
  import opened Wrappers
  import opened ErrClass
  import opened CredentialTrust
  import opened TrustResolution
  import opened PipelineTypes
  import opened Checks
  import opened StepOrder
  import opened PipelineRun
  import opened PipelineTheorems

  /** go-mdoc verifies each document of a response against the key its issuer callback returned for it. */
  ghost predicate MdocContract(env: Env) {
    forall payload, t, answers: Answers {:trigger env.mdVerify(payload, t, answers)} ::
      env.mdVerify(payload, t, answers).Ok? ==>
        |answers| == |env.mdVerify(payload, t, answers).value| && forall a :: a in answers ==> a.Ok?
  }

  /** go-statuslist skips by lifetime only if told a lifetime, and fails open only if allowed to. */
  ghost predicate StatusContract(env: Env) {
    forall input: StatusInput ::
      && (env.checkStatus(input).provenance == SkippedByLifetime ==> input.validity != 0)
      && (env.checkStatus(input).provenance == SkippedFailOpen ==> input.allowFailOpen)
  }

  // ---- what policy, query and configuration demand, in their own fields ----

  /** The first entry of the query for this id, if there is one, requires holder binding. */
  ghost predicate QueryDemands(qs: seq<CredentialQuery>, id: string) {
    forall k :: 0 <= k < |qs| && qs[k].id == id && (forall j :: 0 <= j < k ==> qs[j].id != id) ==>
      qs[k].holderBindingRequired
  }

  /** Both the policy, unless it says otherwise, and the query demand that an SD-JWT is bound to its holder. */
  ghost predicate BindingDemanded(env: Env, p: Presentation) {
    env.policy.requireDeviceBindingSDJWTP != Some(false) && QueryDemands(env.query, p.queryCredID)
  }

  /** The instant a path is judged at, of a credential that claims to be signed at this time. */
  function InstantFor(env: Env, signed: Time): Time {
    if env.validity == AtSigningTime && signed != ZERO_TIME then signed else env.now
  }

  /** What the issuer callback is asked by mdoc verification, one question after the other until the library
      asks no more, and what it answers. */
  ghost predicate Answering(env: Env, p: Presentation, answers: Answers) {
    && |answers| <= env.mdCalls(p.payload)
    && (|answers| == env.mdCalls(p.payload) || env.mdAsk(p.payload, answers).None?)
    && forall k :: 0 <= k < |answers| ==> AnswersCall(env, p, answers, k)
  }

  ghost predicate AnswersCall(env: Env, p: Presentation, answers: Answers, k: nat)
    requires k < |answers|
  {
    var asked := env.mdAsk(p.payload, answers[..k]);
    && asked.Some?
    && answers[k] == ResolveIssuerFor(env.resolver, env.trustMap, asked.value.0,
                                      DoctypeFromQuery(env.query, p.queryCredID), InstantFor(env, asked.value.1))
  }

  /** The last issuer that was resolved, if one was. */
  ghost predicate LastOk(answers: Answers, issuer: Option<Resolved>) {
    match issuer
    case None => forall k :: 0 <= k < |answers| ==> answers[k].Fault?
    case Some(r) =>
      exists k :: 0 <= k < |answers| && answers[k] == Ok(r) && forall j :: k < j < |answers| ==> answers[j].Fault?
  }

  // ---- what a credential of a verified run is ----

  /** The library verified this SD-JWT under the key of the issuer resolved from its own chain, for this
      audience and nonce, with key binding if that is demanded; its signing time, if the path was judged at
      one, is the one that its signature authenticates. */
  ghost predicate AuthenticSDJWT(env: Env, c: CredV) {
    && c.sd.Some? && c.md.None? && c.issuer.Some?
    && env.peek(c.pres.payload) == Ok(Peeked(c.x5c, c.iat))
    && var signed := if c.iat.Some? then c.iat.value else ZERO_TIME;
    && ResolveIssuerFor(env.resolver, env.trustMap, c.x5c, VctFromQuery(env.query, c.pres.queryCredID),
                        InstantFor(env, signed)) == Ok(c.issuer.value)
    && env.sdVerify(SDInput(
         c.pres.payload, c.issuer.value.key, if env.origin != "" then "origin:" + env.origin else c.pres.clientID,
         c.pres.nonce, BindingDemanded(env, c.pres))) == Ok(c.sd.value)
    && (env.validity == AtSigningTime && signed != ZERO_TIME ==> c.sd.value.issuedAt == signed)
  }

  /** The library verified this mdoc against the transcript of the flow and found one document in it. */
  ghost predicate AuthenticMdoc(env: Env, c: CredV) {
    && c.md.Some? && c.sd.None? && c.x5c == [] && c.iat.None?
    && env.decodeDeviceResponse(c.pres.payload).None?
    && exists answers: Answers {:trigger Answering(env, c.pres, answers)} ::
         && Answering(env, c.pres, answers) && LastOk(answers, c.issuer)
         && env.mdVerify(
              c.pres.payload,
              if env.origin != "" then DCAPIHandover(env.origin, c.pres.nonce, c.pres.jwkThumbprint)
              else Handover(c.pres.clientID, c.pres.nonce, c.pres.jwkThumbprint, c.pres.responseURI),
              answers) == Ok([c.md.value])
  }

  ghost predicate Authentic(env: Env, c: CredV) {
    match c.pres.format
    case SDJWT => AuthenticSDJWT(env, c)
    case Mdoc => AuthenticMdoc(env, c)
    case OtherFormat(_) => false
  }

  /** What the status checker answers of a verified credential with a status reference. It may fail open only
      if the policy says so, and is told the validity window unless the policy forbids it. */
  ghost function StatusAnswerOf(env: Env, c: CredV): Option<StatusAnswer> {
    match c.pres.format
    case SDJWT => if c.sd.None? || c.sd.value.status.None? then None else Some(
      CheckedStatus(env, c.sd.value.status.value, c.sd.value.vct, c.sd.value.expiry - c.sd.value.notBefore))
    case Mdoc => if c.md.None? || c.md.value.status.None? then None else Some(
      CheckedStatus(env, c.md.value.status.value, c.md.value.docType, c.md.value.validUntil - c.md.value.validFrom))
    case OtherFormat(_) => None
  }

  ghost function CheckedStatus(env: Env, ref: StatusRef, name: string, window: int): StatusAnswer {
    env.checkStatus(StatusInput(
      ref, StatusSigner(env.resolver, env.trustMap, env.now, name),
      env.policy.revocationFailClosedP == Some(false),
      if env.policy.shortLivedExemptionP != Some(false) then window else 0))
  }

  /** The status is recorded as it was answered, and is conclusive or skipped as policy allows. */
  ghost predicate StatusSettled(env: Env, c: CredV) {
    match StatusAnswerOf(env, c)
    case None => c.statusResult == env.zeroStatus && c.statusProvenance == "no-status-ref"
    case Some(a) =>
      && c.statusResult == a.status && c.statusProvenance == ProvenanceText(a.provenance)
      && (a.provenance == SkippedByLifetime || a.provenance == SkippedFailOpen
          || (a.err.None? && (a.status == StatusUnknown ==> env.policy.revocationFailClosedP == Some(false))))
  }

  /** Everything a verified run says of one credential. */
  ghost predicate Sound(env: Env, c: CredV) {
    && Authentic(env, c)
    && c.deferred.None?
    && c.holderBound && c.deviceBinding == Pass
    && c.statusResult != StatusRevoked && c.statusResult != StatusSuspended
    && StatusSettled(env, c)
    && (c.pres.format == SDJWT ==> BindingDemanded(env, c.pres))
  }

  // ---- what the code computes is what is demanded ----

  /** Where the first entry of this id is, or the length. */
  lemma {:induction false} FirstEntry(qs: seq<CredentialQuery>, id: string) returns (k: nat)
    ensures k <= |qs| && (k < |qs| ==> qs[k].id == id) && forall j :: 0 <= j < k ==> qs[j].id != id
    decreases |qs|
  {
    if qs == [] || qs[0].id == id {
      k := 0;
    } else {
      k := FirstEntry(qs[1..], id);
      k := k + 1;
      assert forall j :: 0 < j < k ==> qs[j] == qs[1..][j - 1];
    }
  }

  lemma DemandedExactly(env: Env, c: CredV)
    ensures BindingRequired(env, c) <==> BindingDemanded(env, c.pres)
  {
    var k := FirstEntry(env.query, c.pres.queryCredID);
    BindingOfFirst(env.query, c.pres.queryCredID, k);
  }

  lemma {:induction false} CallbacksAnswer(env: Env, c: CredV, left: nat, answers: Answers)
    requires |answers| + left == env.mdCalls(c.pres.payload)
    requires forall k :: 0 <= k < |answers| ==> AnswersCall(env, c.pres, answers, k)
    ensures Answering(env, c.pres, Callbacks(env.mdAsk, MDResolver(env, c), c.pres.payload, left, answers))
    decreases left
  {
    if left > 0 && env.mdAsk(c.pres.payload, answers).Some? {
      var q := env.mdAsk(c.pres.payload, answers).value;
      var more := answers + [MDResolver(env, c)(q)];
      forall k | 0 <= k < |more| ensures AnswersCall(env, c.pres, more, k) {
        if k < |answers| {
          assert more[..k] == answers[..k] && AnswersCall(env, c.pres, answers, k);
        } else {
          assert more[..k] == answers;
        }
      }
      CallbacksAnswer(env, c, left - 1, more);
    }
  }

  /** The questions and answers are determined: nothing else can be asked or answered. */
  lemma {:induction false} OneAnswering(env: Env, c: CredV, answers: Answers, n: nat)
    requires Answering(env, c.pres, answers) && n <= |answers|
    ensures answers
      == Callbacks(env.mdAsk, MDResolver(env, c), c.pres.payload, env.mdCalls(c.pres.payload) - n, answers[..n])
    decreases |answers| - n
  {
    if n < |answers| {
      assert AnswersCall(env, c.pres, answers, n);
      assert answers[..n] + [answers[n]] == answers[..n + 1];
      OneAnswering(env, c, answers, n + 1);
    } else {
      assert answers[..n] == answers;
    }
  }

  lemma AnsweringExactly(env: Env, c: CredV, answers: Answers)
    ensures Answering(env, c.pres, answers) <==> answers == MDAnswers(env, c)
  {
    CallbacksAnswer(env, c, env.mdCalls(c.pres.payload), []);
    if Answering(env, c.pres, answers) {
      OneAnswering(env, c, answers, 0);
      assert answers[..0] == [];
    }
  }

  lemma LastOkNow(answers: Answers, n: nat, issuer: Option<Resolved>)
    requires |answers| == n + 1
    ensures answers[n].Ok? ==> (LastOk(answers, issuer) <==> issuer == Some(answers[n].value))
    ensures answers[n].Fault? ==> (LastOk(answers, issuer) <==> LastOk(answers[..n], issuer))
  {
    if issuer.Some? && LastOk(answers, issuer) {
      var k :|
        0 <= k < |answers| && answers[k] == Ok(issuer.value) && forall j :: k < j < |answers| ==> answers[j].Fault?;
      assert k < n ==> answers[..n][k] == Ok(issuer.value);
    }
  }

  lemma {:induction false} LastOkExactly(answers: Answers, issuer: Option<Resolved>)
    ensures LastOk(answers, issuer) <==> issuer == LastResolved(answers, None)
    decreases |answers|
  {
    if answers != [] {
      LastOkNow(answers, |answers| - 1, issuer);
      LastOkExactly(answers[..|answers| - 1], issuer);
    }
  }

  /** Of an authentic credential, the status reference, the validity window, the type and the claims are
      those of the verified credential of its own format. */
  lemma ReadsItsOwnFormat(env: Env, c: CredV)
    requires Authentic(env, c)
    ensures c.pres.format == SDJWT ==>
      && StatusRefOf(c) == c.sd.value.status && ValidityWindow(c) == c.sd.value.expiry - c.sd.value.notBefore
      && c.DoctypeOrVCT() == c.sd.value.vct && c.Claims() == c.sd.value.claims
    ensures c.pres.format == Mdoc ==>
      && StatusRefOf(c) == c.md.value.status && ValidityWindow(c) == c.md.value.validUntil - c.md.value.validFrom
      && c.DoctypeOrVCT() == c.md.value.docType
      && c.Claims().Keys == c.md.value.namespaces.Keys
      && forall ns :: ns in c.md.value.namespaces ==> c.Claims()[ns] == Sub(c.md.value.namespaces[ns])
  {
  }

  // ---- one credential through steps 2 to 7 ----

  /** Step 3 leaves a clean credential authentic, and any other deferred to step 4 or 6. */
  lemma AuthOrDeferred(env: Env, c: CredV, c2: CredV)
    requires ParseOne(env, NewCred(c.pres, env.zeroStatus)) == Fine(c)
    requires AuthOne(env, c).fail.None? && c2 == AuthOne(env, c).cred
    ensures c2.pres == c.pres && c2.statusResult == env.zeroStatus
    ensures c2.deferred.None? || DeferredTo(c2, DataIntegrity) || DeferredTo(c2, DeviceBinding)
    ensures c2.deferred.None? ==> Authentic(env, c2)
  {
    var (c1, err) := VerifyFormat(env, c);
    VerifyKeeps(env, c);
    if err.None? {
      VerifiedIsAuthentic(env, c);
    } else {
      AttributeDefers(c1, err.value);
    }
  }

  lemma VerifyKeeps(env: Env, c: CredV)
    ensures var c1 := VerifyFormat(env, c).0;
      c1.pres == c.pres && c1.statusResult == c.statusResult && c1.deferred == c.deferred
  {
  }

  /** An error that is not a fail of step 3 is deferred to step 4 or 6. */
  lemma AttributeDefers(c: CredV, e: Err)
    requires Attribute(c, e).fail.None?
    ensures var d := Attribute(c, e).cred;
      && d.pres == c.pres && d.statusResult == c.statusResult
      && (DeferredTo(d, DataIntegrity) || DeferredTo(d, DeviceBinding))
  {
    FourOwners(e);
  }

  lemma FourOwners(e: Err)
    ensures var step := ClassifyFormatError(e).0;
      step == Parse || step == IssuerAuthenticity || step == DataIntegrity || step == DeviceBinding
  {
  }

  lemma VerifiedIsAuthentic(env: Env, c: CredV)
    requires ParseOne(env, NewCred(c.pres, env.zeroStatus)) == Fine(c) && VerifyFormat(env, c).1.None?
    ensures Authentic(env, VerifyFormat(env, c).0)
  {
    if c.pres.format == SDJWT {
      DemandedExactly(env, c);
    } else {
      MdocIsAuthentic(env, c);
    }
  }

  lemma MdocIsAuthentic(env: Env, c: CredV)
    requires c.pres.format == Mdoc && c == NewCred(c.pres, env.zeroStatus)
    requires env.decodeDeviceResponse(c.pres.payload).None? && VerifyMdoc(env, c).1.None?
    ensures AuthenticMdoc(env, VerifyMdoc(env, c).0)
  {
    var answers := MDAnswers(env, c);
    var docs := env.mdVerify(c.pres.payload, TranscriptFor(env, c), answers).value;
    assert docs == [docs[0]];
    AnsweringExactly(env, c, answers);
    LastOkExactly(answers, LastResolved(answers, None));
  }

  /** Under its contract, the issuer of an mdoc is the one the callback resolved for its one document. */
  lemma MdocIssuer(env: Env, c: CredV)
    requires MdocContract(env) && c.pres.format == Mdoc && Authentic(env, c)
    ensures c.issuer.Some? && Answering(env, c.pres, [Ok(c.issuer.value)])
  {
    var answers: Answers :| Answering(env, c.pres, answers) && LastOk(answers, c.issuer)
      && env.mdVerify(
           c.pres.payload,
           if env.origin != "" then DCAPIHandover(env.origin, c.pres.nonce, c.pres.jwkThumbprint)
           else Handover(c.pres.clientID, c.pres.nonce, c.pres.jwkThumbprint, c.pres.responseURI),
           answers) == Ok([c.md.value]);
    assert |answers| == 1 && answers[0] in answers;
    assert answers == [Ok(c.issuer.value)];
  }

  /** Steps 5 to 7 touch nothing that authenticity rests on. */
  ghost predicate SameEvidence(c: CredV, d: CredV) {
    && c.pres == d.pres && c.sd == d.sd && c.md == d.md && c.issuer == d.issuer && c.x5c == d.x5c && c.iat == d.iat
    && c.deferred == d.deferred
  }

  lemma AuthenticKept(env: Env, c: CredV, d: CredV)
    requires Authentic(env, c) && SameEvidence(c, d)
    ensures Authentic(env, d)
  {
  }

  /** What the code asks the status checker of an authentic credential. */
  lemma AsksStatus(env: Env, c: CredV)
    requires Authentic(env, c)
    ensures StatusRefOf(c).Some? <==> StatusAnswerOf(env, c).Some?
    ensures StatusRefOf(c).Some? ==>
      StatusAnswerOf(env, c) == Some(env.checkStatus(StatusInputFor(env, c, StatusRefOf(c).value)))
  {
  }

  lemma RevokeKeeps(env: Env, c: CredV)
    requires c.deferred.None?
    ensures SameEvidence(c, RevokeOne(env, c).cred)
  {
  }

  lemma RevokeSettles(env: Env, c: CredV)
    requires c.deferred.None? && Authentic(env, c) && RevokeOne(env, c).fail.None?
    requires StatusAnswerOf(env, c).None? ==> c.statusResult == env.zeroStatus
    ensures SameEvidence(c, RevokeOne(env, c).cred) && StatusSettled(env, RevokeOne(env, c).cred)
  {
    AsksStatus(env, c);
    RevokeKeeps(env, c);
    SameAnswer(env, c, RevokeOne(env, c).cred);
    RevokeRecords(env, c, StatusAnswerOf(env, c));
  }

  lemma SameAnswer(env: Env, c: CredV, d: CredV)
    requires SameEvidence(c, d)
    ensures StatusAnswerOf(env, c) == StatusAnswerOf(env, d)
  {
  }

  /** Step 5 records what the checker answered, and passes only what is settled. */
  lemma RevokeRecords(env: Env, c: CredV, a: Option<StatusAnswer>)
    requires c.deferred.None? && RevokeOne(env, c).fail.None? && (StatusRefOf(c).Some? <==> a.Some?)
    requires a.Some? ==> a == Some(env.checkStatus(StatusInputFor(env, c, StatusRefOf(c).value)))
    ensures var d := RevokeOne(env, c).cred;
      if a.None? then d.statusResult == c.statusResult && d.statusProvenance == "no-status-ref"
      else
        && d.statusResult == a.value.status && d.statusProvenance == ProvenanceText(a.value.provenance)
        && (a.value.provenance == SkippedByLifetime || a.value.provenance == SkippedFailOpen
            || (a.value.err.None?
                && (a.value.status == StatusUnknown ==> env.policy.revocationFailClosedP == Some(false))))
  {
    if a.Some? {
      JudgeSettles(env, c, StatusRefOf(c).value, a.value);
    }
  }

  lemma JudgeSettles(env: Env, c: CredV, ref: StatusRef, a: StatusAnswer)
    requires JudgeStatus(env, c, ref, a).fail.None?
    ensures var d := JudgeStatus(env, c, ref, a).cred;
      && d.statusResult == a.status && d.statusProvenance == ProvenanceText(a.provenance)
      && (a.provenance == SkippedByLifetime || a.provenance == SkippedFailOpen
          || (a.err.None? && (a.status == StatusUnknown ==> env.policy.revocationFailClosedP == Some(false))))
  {
  }

  lemma BindKeeps(env: Env, c: CredV)
    requires !DeferredTo(c, DeviceBinding) && (c.pres.format == SDJWT || c.pres.format == Mdoc)
    ensures var d := BindOne(env, c).cred;
      && SameEvidence(c, d)
      && d.statusResult == c.statusResult && d.statusProvenance == c.statusProvenance
      && (d.deviceBinding == Pass ==> d.holderBound && (c.pres.format == SDJWT ==> BindingDemanded(env, c.pres)))
  {
    DemandedExactly(env, c);
  }

  /** A credential that passes steps 4 to 7 was not deferred at all. */
  lemma PassesTheRest(env: Env, c2: CredV, c6: CredV)
    requires c2.deferred.None? || DeferredTo(c2, DataIntegrity) || DeferredTo(c2, DeviceBinding)
    requires c2.deferred.None? ==> Authentic(env, c2)
    requires IntegrityOne(c2).fail.None? && c2.statusResult == env.zeroStatus
    requires var c4 := RevokeOne(env, c2).cred; var c5 := BindOne(env, c4).cred;
      && RevokeOne(env, c2).fail.None? && BindOne(env, c4).fail.None? && UserOne(c5).fail.None? && c6 == c5
    ensures Sound(env, c6) && c6.pres == c2.pres
  {
    var c4 := RevokeOne(env, c2).cred;
    PassesBinding(env, c2);
    RevokeSettles(env, c2);
    AuthenticKept(env, c2, c4);
    BoundAndSound(env, c4);
  }

  lemma BoundAndSound(env: Env, c4: CredV)
    requires c4.deferred.None? && Authentic(env, c4) && StatusSettled(env, c4)
    requires UserOne(BindOne(env, c4).cred).fail.None?
    ensures Sound(env, BindOne(env, c4).cred) && BindOne(env, c4).cred.pres == c4.pres
  {
    BindKeeps(env, c4);
    AuthenticKept(env, c4, BindOne(env, c4).cred);
    SettledKept(env, c4, BindOne(env, c4).cred);
  }

  lemma SettledKept(env: Env, c: CredV, d: CredV)
    requires StatusSettled(env, c) && SameEvidence(c, d)
    requires c.statusResult == d.statusResult && c.statusProvenance == d.statusProvenance
    ensures StatusSettled(env, d)
  {
  }

  /** A credential deferred to step 6 does not pass step 6, even though step 5 let it by. */
  lemma PassesBinding(env: Env, c2: CredV)
    requires c2.deferred.None? || DeferredTo(c2, DataIntegrity) || DeferredTo(c2, DeviceBinding)
    requires IntegrityOne(c2).fail.None? && BindOne(env, RevokeOne(env, c2).cred).fail.None?
    ensures c2.deferred.None?
  {
    assert DeferredTo(c2, DeviceBinding) ==> DeferredTo(RevokeOne(env, c2).cred, DeviceBinding);
  }

  lemma CredentialSound(env: Env, p: Presentation)
    requires forall k :: 0 <= k < 6 ==> Steps(env)[k](After(Steps(env), k, NewCred(p, env.zeroStatus))).fail.None?
    ensures var c := After(Steps(env), 6, NewCred(p, env.zeroStatus)); c.pres == p && Sound(env, c)
  {
    var c1, c2, c5 := StepByStep(env, NewCred(p, env.zeroStatus));
    ParseKeeps(env, p);
    AuthOrDeferred(env, c1, c2);
    PassesTheRest(env, c2, c5);
  }

  lemma ParseKeeps(env: Env, p: Presentation)
    ensures var r := ParseOne(env, NewCred(p, env.zeroStatus));
      r.cred.pres == p && (r.fail.None? ==> r == Fine(r.cred))
  {
  }

  /** The six steps on a credential that passes them all, by name. */
  lemma StepByStep(env: Env, c0: CredV) returns (c1: CredV, c2: CredV, c5: CredV)
    requires forall k :: 0 <= k < 6 ==> Steps(env)[k](After(Steps(env), k, c0)).fail.None?
    ensures ParseOne(env, c0).fail.None? && c1 == ParseOne(env, c0).cred
    ensures AuthOne(env, c1).fail.None? && c2 == AuthOne(env, c1).cred
    ensures IntegrityOne(c2).fail.None? && RevokeOne(env, c2).fail.None?
    ensures var c4 := RevokeOne(env, c2).cred;
      BindOne(env, c4).fail.None? && c5 == BindOne(env, c4).cred && UserOne(c5).fail.None?
    ensures c5 == After(Steps(env), 6, c0)
  {
    var fs := Steps(env);
    c1, c2 := After(fs, 1, c0), After(fs, 2, c0);
    assert c1 == fs[0](After(fs, 0, c0)).cred && c2 == fs[1](c1).cred;
    assert After(fs, 3, c0) == fs[2](c2).cred;
    var c4 := After(fs, 4, c0);
    assert c4 == fs[3](After(fs, 3, c0)).cred;
    c5 := After(fs, 5, c0);
    assert c5 == fs[4](c4).cred;
    assert After(fs, 6, c0) == fs[5](c5).cred;
    assert fs[0](After(fs, 0, c0)).fail.None? && fs[1](c1).fail.None? && fs[2](c2).fail.None?;
    assert fs[3](After(fs, 3, c0)).fail.None? && fs[4](c4).fail.None? && fs[5](c5).fail.None?;
  }

  // ---- step 9 ----

  /** No two credentials answer different query ids with one payload. */
  ghost predicate NoReuse(cs: seq<CredV>) {
    forall i, j :: 0 <= i < j < |cs| && cs[i].pres.queryCredID != cs[j].pres.queryCredID ==>
      cs[i].pres.payload != cs[j].pres.payload
  }

  /** Two credentials answer different query ids with one payload. */
  ghost predicate Reuses(cs: seq<CredV>, a: nat, b: nat) {
    && a < b < |cs|
    && cs[a].pres.queryCredID != cs[b].pres.queryCredID && cs[a].pres.payload == cs[b].pres.payload
  }

  /** The pairs still ahead of (i, j) in loop order. */
  ghost predicate Ahead(cs: seq<CredV>, i: nat, j: nat, a: nat, b: nat) {
    a < b < |cs| && (a > i || (a == i && b >= j))
  }

  /** The pair is reused, and no pair before it in loop order is. */
  ghost predicate FirstReuse(cs: seq<CredV>, i: nat, j: nat, a: nat, b: nat) {
    && Ahead(cs, i, j, a, b) && Reuses(cs, a, b)
    && forall x: nat, y: nat :: Ahead(cs, i, j, x, y) && Reuses(cs, x, y) ==> x > a || (x == a && y >= b)
  }

  function NamedPair(cs: seq<CredV>, a: nat, b: nat): string
    requires a < |cs| && b < |cs|
  {
    "identical credential presented for " + cs[a].pres.queryCredID + " and " + cs[b].pres.queryCredID
  }

  /** The nested loop finds a reused payload iff there is one, and then the first in loop order. */
  lemma {:induction false} ReuseExact(cs: seq<CredV>, i: nat, j: nat)
    requires i <= |cs| && i < j <= |cs| + 1
    ensures ReuseFrom(cs, i, j).None? <==> forall a: nat, b: nat :: Ahead(cs, i, j, a, b) ==> !Reuses(cs, a, b)
    ensures ReuseFrom(cs, i, j).Some? ==> exists a: nat, b: nat ::
      FirstReuse(cs, i, j, a, b)
      && ReuseFrom(cs, i, j).value == Row(Fail, Problem(OfPresentation, CombinedCheck), NamedPair(cs, a, b))
    decreases |cs| - i, |cs| + 1 - j
  {
    if i == |cs| {
    } else if j >= |cs| {
      ReuseExact(cs, i + 1, i + 2);
      assert forall a: nat, b: nat :: Ahead(cs, i, j, a, b) <==> Ahead(cs, i + 1, i + 2, a, b);
      if ReuseFrom(cs, i, j).Some? {
        var a: nat, b: nat :| FirstReuse(cs, i + 1, i + 2, a, b)
          && ReuseFrom(cs, i, j).value == Row(Fail, Problem(OfPresentation, CombinedCheck), NamedPair(cs, a, b));
        assert FirstReuse(cs, i, j, a, b);
      }
    } else if Reused(cs[i], cs[j]) {
      assert FirstReuse(cs, i, j, i, j);
    } else {
      ReuseExact(cs, i, j + 1);
      assert forall a: nat, b: nat :: Ahead(cs, i, j, a, b) <==> (a == i && b == j) || Ahead(cs, i, j + 1, a, b);
      if ReuseFrom(cs, i, j).Some? {
        var a: nat, b: nat :| FirstReuse(cs, i, j + 1, a, b)
          && ReuseFrom(cs, i, j).value == Row(Fail, Problem(OfPresentation, CombinedCheck), NamedPair(cs, a, b));
        assert FirstReuse(cs, i, j, a, b);
      }
    }
  }

  lemma NoReuseExact(cs: seq<CredV>)
    ensures ReuseFrom(cs, 0, 1).None? <==> NoReuse(cs)
  {
    ReuseExact(cs, 0, 1);
    if NoReuse(cs) {
      forall a: nat, b: nat | Ahead(cs, 0, 1, a, b) ensures !Reuses(cs, a, b) {}
    }
    if ReuseFrom(cs, 0, 1).None? {
      forall i, j | 0 <= i < j < |cs| && cs[i].pres.queryCredID != cs[j].pres.queryCredID
        ensures cs[i].pres.payload != cs[j].pres.payload
      {
        assert Ahead(cs, 0, 1, i, j) && !Reuses(cs, i, j);
      }
    }
  }

  // ---- the whole run ----

  /** Steps 8 and 9 leave the credentials alone and step 10 erases them; step 9 passes only without reuse, step 8
      only if the query is satisfied, step 10 only if the result was handed off and the session disposed of. */
  lemma LastSteps(env: Env, st: PState)
    ensures Step9(st).st == st && Step10(env, st).st == Erase(st)
    ensures Finish(CombinedChecks, Step9(st).answer).outcome != Fail <==> ReuseFrom(st.creds, 0, 1).None?
    ensures Finish(AssembleForward, Step10(env, st).answer).outcome != Fail <==>
      FinalizeFault(env, st.responseCode).None?
    ensures QueryVerdict(env, st.creds).outcome != Fail <==> env.matchQuery(Candidates(st.creds)).satisfied
  {
    ReuseFails(st.creds, 0, 1);
  }

  lemma {:induction false} ReuseFails(cs: seq<CredV>, i: nat, j: nat)
    requires i <= |cs| && i < j <= |cs| + 1
    ensures ReuseFrom(cs, i, j).Some? ==> ReuseFrom(cs, i, j).value.outcome == Fail
    decreases |cs| - i, |cs| + 1 - j
  {
    if i < |cs| {
      if j >= |cs| {
        ReuseFails(cs, i + 1, i + 2);
      } else if !Reused(cs[i], cs[j]) {
        ReuseFails(cs, i, j + 1);
      }
    }
  }

  lemma EighthCheck(env: Env, st: PState)
    ensures var out := RunStep(env, QueryFulfilment, st);
      && out.st == st
      && (Finish(QueryFulfilment, out.answer).outcome != Fail <==> env.matchQuery(Candidates(st.creds)).satisfied)
  {
    LastSteps(env, st);
  }

  lemma NinthCheck(env: Env, st: PState)
    ensures var out := RunStep(env, CombinedChecks, st);
      out.st == st && (Finish(CombinedChecks, out.answer).outcome != Fail <==> NoReuse(st.creds))
  {
    LastSteps(env, st);
    NoReuseExact(st.creds);
  }

  lemma TenthCheck(env: Env, st: PState)
    ensures var out := RunStep(env, AssembleForward, st);
      && out.st == Erase(st)
      && (Finish(AssembleForward, out.answer).outcome != Fail <==> FinalizeFault(env, st.responseCode).None?)
  {
    LastSteps(env, st);
  }

  /** The last three rows, once the state before them is known. */
  lemma LastRows(env: Env, does: Does)
    requires Ships(env, does)
    ensures var st := StateBefore(does, 7);
      && (RowOf(does, 7).outcome != Fail <==> env.matchQuery(Candidates(st.creds)).satisfied)
      && (RowOf(does, 8).outcome != Fail <==> NoReuse(st.creds))
      && (RowOf(does, 9).outcome != Fail <==> FinalizeFault(env, st.responseCode).None?)
      && StateBefore(does, 9) == st && StateBefore(does, 10) == Erase(st)
  {
    var st := StateBefore(does, 7);
    Unfolded(env, does, 7, QueryFulfilment);
    EighthCheck(env, st);
    Unfolded(env, does, 8, CombinedChecks);
    NinthCheck(env, st);
    Unfolded(env, does, 9, AssembleForward);
    TenthCheck(env, st);
  }

  /** A fail of step 9 names the first pair, in loop order, that reuses a payload. */
  lemma ReuseRow(env: Env, does: Does)
    requires Ships(env, does) && RowOf(does, 8).outcome == Fail
    ensures var cs, row := StateBefore(does, 8).creds, RowOf(does, 8);
      row.code == Problem(OfPresentation, CombinedCheck)
      && exists a: nat, b: nat :: FirstReuse(cs, 0, 1, a, b) && row.detail == NamedPair(cs, a, b)
  {
    Unfolded(env, does, 8, CombinedChecks);
    ReuseExact(StateBefore(does, 8).creds, 0, 1);
  }

  lemma Unfolded(env: Env, does: Does, k: nat, step: StepName)
    requires Ships(env, does)
    requires k < 10 && StepAt(k) == step
    ensures StateBefore(does, k + 1) == RunStep(env, step, StateBefore(does, k)).st
    ensures RowOf(does, k) == Finish(step, RunStep(env, step, StateBefore(does, k)).answer)
  {
    StepUnfolds(env, does, k);
  }

  /** A run with no fail in rows 1 to 6 passed every per-credential step. */
  lemma PassedSteps(env: Env, does: Does)
    requires Ships(env, does)
    requires Presented(does) != [] && forall k :: 1 <= k < 7 ==> RowOf(does, k).outcome != Fail
    ensures forall j :: 0 <= j < 6 ==> Passes(Steps(env), j, Fresh(env, Presented(does)))
    ensures StateBefore(does, 7).creds == CredsAfter(Steps(env), 6, Fresh(env, Presented(does)))
  {
    var k := FirstStop(Steps(env), Fresh(env, Presented(does)));
    EngineList(env, does, k);
  }

  /** The credentials of a run that passed steps 2 to 7. */
  lemma CredentialsOfRun(env: Env, does: Does)
    requires Ships(env, does)
    requires Presented(does) != [] && forall k :: 0 <= k < 7 ==> RowOf(does, k).outcome != Fail
    ensures |StateBefore(does, 7).creds| == |Presented(does)|
    ensures forall i :: 0 <= i < |Presented(does)| ==>
      StateBefore(does, 7).creds[i].pres == Presented(does)[i] && Sound(env, StateBefore(does, 7).creds[i])
  {
    PassedSteps(env, does);
    AllSound(env, Presented(does));
  }

  lemma AllSound(env: Env, pres: seq<Presentation>)
    requires forall j :: 0 <= j < 6 ==> Passes(Steps(env), j, Fresh(env, pres))
    ensures var cs := CredsAfter(Steps(env), 6, Fresh(env, pres));
      |cs| == |pres| && forall i :: 0 <= i < |pres| ==> cs[i].pres == pres[i] && Sound(env, cs[i])
  {
    var cs := CredsAfter(Steps(env), 6, Fresh(env, pres));
    ListAfter(Steps(env), 6, Fresh(env, pres));
    forall i | 0 <= i < |pres| ensures cs[i].pres == pres[i] && Sound(env, cs[i]) {
      var c := Fresh(env, pres)[i];
      assert c == NewCred(pres[i], env.zeroStatus);
      assert forall j :: 0 <= j < 6 ==> Steps(env)[j](After(Steps(env), j, c)).fail.None?;
      CredentialSound(env, pres[i]);
    }
  }

  lemma NothingPresented(env: Env, does: Does)
    requires Ships(env, does)
    requires Presented(does) == []
    ensures RowOf(does, 1).outcome == Fail && RowOf(does, 1).code == Problem(OfPresentation, InvalidResponse)
  {
    assert StateBefore(does, 0) == START;
    Unfolded(env, does, 0, ResponseIntegrity);
    Unfolded(env, does, 1, Parse);
  }

  lemma RowsPassed(env: Env, does: Does, sessionID: string)
    requires Ships(env, does)
    requires RunTen(does, sessionID).1.verified
    ensures forall k :: 0 <= k < 10 ==> RowOf(does, k).outcome != Fail
    ensures RunTen(does, sessionID).0 == StateBefore(does, 10)
  {
    VerifiedPassedAll(does, TEN_CHECKS, START, NewReport(sessionID), 10);
  }

  /** A verified run has a credential for every presentation and at least one; each is authentic, carries
      no deferred failure, is bound to its holder under whatever policy, is not revoked or suspended; no
      payload answers two query ids; the query is satisfied; the result was handed off, and nothing is left
      of the attribute values. */
  lemma VerifiedSoundness(env: Env, does: Does, sessionID: string)
    requires Ships(env, does)
    requires RunTen(does, sessionID).1.verified
    ensures var creds := Credentials(does);
      && |creds| == |Presented(does)| > 0
      && (forall i :: 0 <= i < |creds| ==> creds[i].pres == Presented(does)[i] && Sound(env, creds[i]))
      && NoReuse(creds)
      && env.matchQuery(Candidates(creds)).satisfied
    ensures FinalizeFault(env, StateBefore(does, 9).responseCode).None? && Blank(RunTen(does, sessionID).0)
  {
    RowsPassed(env, does, sessionID);
    assert RowOf(does, 1).outcome != Fail;
    if Presented(does) == [] {
      NothingPresented(env, does);
    }
    LastRows(env, does);
    CredentialsOfRun(env, does);
    EraseBlanks(StateBefore(does, 9));
  }
}
