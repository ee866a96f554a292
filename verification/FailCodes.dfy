/** reasons.go, routes/processor_pipeline.go (walletFailProblem) and routes/wallet_error.go: which codes a run
    can fail with, how each is rated, and what the wallet is told. */
module FailCodes {
  import opened Wrappers
  import opened ErrClass
  import opened PipelineTypes
  import opened Checks
  import opened StepOrder
  import opened PipelineRun
  import opened PipelineTheorems

  // ---- the registry ----

  /** Reasons the platform rates itself; a service cannot override them. */
  function BuiltIn(r: Reason): Option<nat> {
    match r
    case NotFound => Some(404)
    case Expired => Some(410)
    case Revoked => Some(410)
    case Forbidden => Some(403)
    case Conflict => Some(409)
    case Invalid => Some(400)
    case _ => None
  }

  /** The ratings the service adds. */
  function ServiceRating(r: Reason): Option<nat> {
    match r
    case Consumed => Some(409)
    case InvalidResponse | NonceMismatch | WalletDeclined => Some(400)
    case QueryUnfulfilled | CombinedCheck | ParseFailed | IssuerUntrusted | IssuerCertExpired => Some(422)
    case Integrity | BindingFailed | Unavailable => Some(422)
    case AnchorUnavailable | HandoffFailed => Some(503)
    case Internal => Some(500)
    case _ => None
  }

  /** The rating of a reason once the service has registered its own. */
  function Rating(r: Reason): Option<nat> {
    if BuiltIn(r).Some? then BuiltIn(r) else ServiceRating(r)
  }

  // The three groups the registration is written in.
  predicate OfResponses(r: Reason) {
    r == Consumed || r == InvalidResponse || r == NonceMismatch || r == QueryUnfulfilled || r == CombinedCheck
  }

  predicate OfCredentials(r: Reason) {
    r == ParseFailed || r == IssuerUntrusted || r == IssuerCertExpired || r == WalletDeclined || r == Integrity
  }

  predicate OfService(r: Reason) {
    r == BindingFailed || r == Unavailable || r == AnchorUnavailable || r == HandoffFailed || r == Internal
  }

  /** The global reason table. */
  class Registry {
    var specs: map<Reason, nat>
    var registered: bool

    function Lookup(r: Reason): Option<nat>
      reads this`specs
    {
      if r in specs then Some(specs[r]) else None
    }

    constructor ()
      ensures !registered && forall r :: Lookup(r) == BuiltIn(r)
    {
      specs := map[NotFound := 404, Expired := 410, Revoked := 410, Forbidden := 403, Conflict := 409, Invalid := 400];
      registered := false;
    }

    method RegisterReason(reason: Reason, status: nat)
      modifies this`specs
      ensures forall r :: Lookup(r) == if r == reason && BuiltIn(r).None? then Some(status) else old(Lookup(r))
    {
      if BuiltIn(reason).None? {
        specs := specs[reason := status];
      }
    }

    /** Registers every reason the first time, and nothing after that. */
    method RegisterReasons()
      requires !registered ==> forall r :: Lookup(r) == BuiltIn(r)
      modifies this
      ensures registered
      ensures old(registered) ==> forall r :: Lookup(r) == old(Lookup(r))
      ensures !old(registered) ==> forall r :: Lookup(r) == Rating(r)
    {
      if registered {
        return;
      }
      registered := true;
      RegisterResponseReasons();
      RegisterCredentialReasons();
      RegisterServiceReasons();
    }

    method RegisterResponseReasons()
      modifies this`specs
      ensures forall r :: Lookup(r) == if OfResponses(r) then ServiceRating(r) else old(Lookup(r))
    {
      RegisterReason(Consumed, 409);
      RegisterReason(InvalidResponse, 400);
      RegisterReason(NonceMismatch, 400);
      RegisterReason(QueryUnfulfilled, 422);
      RegisterReason(CombinedCheck, 422);
    }

    method RegisterCredentialReasons()
      modifies this`specs
      ensures forall r :: Lookup(r) == if OfCredentials(r) then ServiceRating(r) else old(Lookup(r))
    {
      RegisterReason(ParseFailed, 422);
      RegisterReason(IssuerUntrusted, 422);
      RegisterReason(IssuerCertExpired, 422);
      RegisterReason(WalletDeclined, 400);
      RegisterReason(Integrity, 422);
    }

    method RegisterServiceReasons()
      modifies this`specs
      ensures forall r :: Lookup(r) == if OfService(r) then ServiceRating(r) else old(Lookup(r))
    {
      RegisterReason(BindingFailed, 422);
      RegisterReason(Unavailable, 422);
      RegisterReason(AnchorUnavailable, 503);
      RegisterReason(HandoffFailed, 503);
      RegisterReason(Internal, 500);
    }
  }

  predicate Rated(code: Code) {
    code.Problem? && Rating(code.reason).Some?
  }

  /** The problem of a failed run: its code, and its status with the one override. */
  function ProblemStatus(code: Code): nat {
    if code == Problem(OfCredential, Expired) || code == Problem(OfRevocation, Revoked) then 422
    else if Rated(code) then Rating(code.reason).value
    else 500
  }

  datatype Refusal = NotAccepted | NotVerified | Declined

  predicate TrustRefusal(code: Code) {
    code in { Problem(OfCredential, IssuerUntrusted), Problem(OfCredential, IssuerCertExpired),
              Problem(OfCredential, Expired), Problem(OfRevocation, Revoked) }
  }

  /** verificationOutcome: a 400 refusal and its description, or None when the fault is not the wallet's. */
  function VerificationOutcome(code: Code): Option<Refusal> {
    if ProblemStatus(code) < 400 || ProblemStatus(code) >= 500 then None
    else if code == Problem(OfPresentation, WalletDeclined) then Some(Declined)
    else if TrustRefusal(code) then Some(NotAccepted)
    else Some(NotVerified)
  }

  // ---- the codes a run can fail with ----

  function CodesOf(step: StepName): set<Code> {
    match step
    case ResponseIntegrity => {
      Problem(OfPresentation, WalletDeclined), Problem(OfPresentation, NonceMismatch), Problem(OfSession, Consumed),
      Problem(OfPresentation, InvalidResponse) }
    case Parse => { Problem(OfCredential, ParseFailed), Problem(OfPresentation, InvalidResponse) }
    case IssuerAuthenticity => {
      Problem(OfCredential, ParseFailed), Problem(OfTrust, AnchorUnavailable), Problem(OfCredential, Expired),
      Problem(OfCredential, IssuerCertExpired), Problem(OfCredential, IssuerUntrusted) }
    case DataIntegrity => { Problem(OfCredential, Integrity) }
    case Revocation => { Problem(OfRevocation, Unavailable), Problem(OfRevocation, Revoked) }
    case DeviceBinding => { Problem(OfCredential, BindingFailed) }
    case UserBinding => { Problem(OfCredential, BindingFailed) }
    case QueryFulfilment => { Problem(OfPresentation, QueryUnfulfilled) }
    case CombinedChecks => { Problem(OfPresentation, CombinedCheck) }
    case AssembleForward => { Problem(OfSession, HandoffFailed) }
  }

  /** Every code of the list above is rated; the wallet is told of a refusal for all but the two that are
      faults of the service; "not accepted" is said of the four trust refusals alone. */
  lemma RatedAndTold(step: StepName, code: Code)
    requires code in CodesOf(step)
    ensures Rated(code)
    ensures VerificationOutcome(code).None? <==>
      code == Problem(OfTrust, AnchorUnavailable) || code == Problem(OfSession, HandoffFailed)
    ensures VerificationOutcome(code) == Some(NotAccepted) <==>
      || code == Problem(OfCredential, IssuerUntrusted) || code == Problem(OfCredential, IssuerCertExpired)
      || code == Problem(OfCredential, Expired) || code == Problem(OfRevocation, Revoked)
    ensures VerificationOutcome(code) == Some(Declined) <==> code == Problem(OfPresentation, WalletDeclined)
  {
  }

  /** A row of a shipped check that fails has one of its step's codes. */
  predicate Coded(step: StepName, answer: Result<CheckResult, Err>) {
    answer.Ok? && (answer.value.outcome == Fail ==> answer.value.code in CodesOf(step))
  }

  lemma ScanCoded(f: CredV -> One, cs: seq<CredV>, note: string, codes: set<Code>)
    requires forall c :: f(c).fail.Some? ==> f(c).fail.value.code in codes
    ensures Verdict(Scan(f, cs), note).outcome == Fail ==> Verdict(Scan(f, cs), note).code in codes
  {
    var i := FirstFail(f, cs);
    if i < |cs| {
      ScanStops(f, cs, i);
      assert f(cs[i]).fail.value.code in codes;
    } else {
      ScanCompletes(f, cs);
    }
  }

  lemma AuthStepCoded(env: Env, st: PState)
    ensures Coded(IssuerAuthenticity, RunStep(env, IssuerAuthenticity, st).answer)
  {
    var codes := CodesOf(IssuerAuthenticity);
    forall c ensures AuthFn(env)(c).fail.Some? ==> AuthFn(env)(c).fail.value.code in codes {
      AuthCoded(env, c);
    }
    ScanCoded(AuthFn(env), st.creds, "", codes);
  }

  lemma ScanStepCoded(env: Env, step: StepName, st: PState)
    requires step in { IssuerAuthenticity, DataIntegrity, Revocation, DeviceBinding, UserBinding }
    ensures Coded(step, RunStep(env, step, st).answer)
  {
    match step
    case IssuerAuthenticity => AuthStepCoded(env, st);
    case DataIntegrity => ScanCoded(IntegrityFn(), st.creds, "", CodesOf(step));
    case Revocation => ScanCoded(RevokeFn(env), st.creds, "revocation-partially-skipped", CodesOf(step));
    case DeviceBinding => ScanCoded(BindFn(env), st.creds, "device-binding-policy-skipped", CodesOf(step));
    case UserBinding => ScanCoded(UserFn(), st.creds, "", CodesOf(step));
  }

  lemma AuthCoded(env: Env, c: CredV)
    ensures AuthOne(env, c).fail.Some? ==> AuthOne(env, c).fail.value.code in CodesOf(IssuerAuthenticity)
  {
    var (c1, err) := VerifyFormat(env, c);
    if err.Some? {
      AttributeCoded(c1, err.value);
    }
  }

  lemma AttributeCoded(c: CredV, e: Err)
    ensures Attribute(c, e).fail.Some? ==> Attribute(c, e).fail.value.code in CodesOf(IssuerAuthenticity)
  {
    TableCoded(e);
  }

  lemma TableCoded(e: Err)
    ensures var (step, code) := ClassifyFormatError(e);
      && (step == Parse ==> code == Problem(OfCredential, ParseFailed))
      && (step == IssuerAuthenticity ==>
            || code == Problem(OfTrust, AnchorUnavailable) || code == Problem(OfCredential, Expired)
            || code == Problem(OfCredential, IssuerCertExpired) || code == Problem(OfCredential, IssuerUntrusted))
  {
  }

  lemma {:induction false} ParseCoded(env: Env, pres: seq<Presentation>, done: seq<CredV>)
    ensures ParseAll(env, pres, done).1.Some? ==>
      ParseAll(env, pres, done).1.value.code == Problem(OfCredential, ParseFailed)
    decreases |pres|
  {
    if pres != [] {
      var one := ParseOne(env, NewCred(pres[0], env.zeroStatus));
      if one.fail.None? {
        ParseCoded(env, pres[1..], done + [one.cred]);
      }
    }
  }

  lemma {:induction false} ReuseCoded(cs: seq<CredV>, i: nat, j: nat)
    requires i <= |cs| && i < j <= |cs| + 1
    ensures ReuseFrom(cs, i, j).Some? ==> ReuseFrom(cs, i, j).value.code == Problem(OfPresentation, CombinedCheck)
    decreases |cs| - i, |cs| + 1 - j
  {
    if i < |cs| {
      if j >= |cs| {
        ReuseCoded(cs, i + 1, i + 2);
      } else if !Reused(cs[i], cs[j]) {
        ReuseCoded(cs, i, j + 1);
      }
    }
  }

  lemma Step1Coded(env: Env, st: PState)
    ensures Coded(ResponseIntegrity, Step1(env, st).answer)
  {
  }

  lemma StepCoded(env: Env, step: StepName, st: PState)
    ensures Coded(step, RunStep(env, step, st).answer)
  {
    match step
    case ResponseIntegrity => Step1Coded(env, st);
    case Parse => ParseCoded(env, st.presentations, st.creds);
    case QueryFulfilment =>
    case CombinedChecks => ReuseCoded(st.creds, 0, 1);
    case AssembleForward =>
    case _ => ScanStepCoded(env, step, st);
  }

  /** The first check whose row is a fail, or the end of the list. */
  lemma FirstFailRow(does: Does, checks: seq<Check>, st: PState) returns (k: nat)
    ensures k <= |checks| && (k < |checks| ==> RowAt(does, checks, st, k).outcome == Fail)
    ensures forall j :: 0 <= j < k ==> RowAt(does, checks, st, j).outcome != Fail
  {
    k := 0;
    while k < |checks| && RowAt(does, checks, st, k).outcome != Fail
      invariant k <= |checks| && forall j :: 0 <= j < k ==> RowAt(does, checks, st, j).outcome != Fail
    {
      k := k + 1;
    }
  }

  /** The check whose row carries the fail code of a run that was not verified. */
  lemma FailingCheck(does: Does, checks: seq<Check>, st: PState, rep: ReportV) returns (k: nat)
    requires !RunFrom(does, checks, st, rep).1.verified
    ensures k < |checks| && RowAt(does, checks, st, k).outcome == Fail
    ensures RunFrom(does, checks, st, rep).1.failCode == RowAt(does, checks, st, k).code
    ensures |RunFrom(does, checks, st, rep).1.checks| == |rep.checks| + k + 1
    ensures forall j :: 0 <= j < k ==> RowAt(does, checks, st, j).outcome != Fail
  {
    k := FirstFailRow(does, checks, st);
    RunGoes(does, checks, st, rep, k);
  }

  /** The step that failed a run of the ten checks, with the code it gave. */
  lemma FailedStep(env: Env, does: Does, sessionID: string) returns (k: nat)
    requires Ships(env, does)
    requires !RunTen(does, sessionID).1.verified
    ensures k < 10
    ensures var rep := RunTen(does, sessionID).1;
      |rep.checks| == k + 1 && rep.failCode == RowOf(does, k).code && rep.failCode in CodesOf(StepAt(k))
    ensures RowOf(does, k).outcome == Fail && forall j :: 0 <= j < k ==> RowOf(does, j).outcome != Fail
  {
    k := FailingCheck(does, TEN_CHECKS, START, NewReport(sessionID));
    RowCoded(env, does, k);
    assert RowOf(does, k) == RowAt(does, TEN_CHECKS, START, k);
  }

  lemma RowCoded(env: Env, does: Does, k: nat)
    requires Ships(env, does) && k < 10
    ensures RowOf(does, k).outcome == Fail ==> RowOf(does, k).code in CodesOf(StepAt(k))
  {
    StepUnfolds(env, does, k);
    StepCoded(env, StepAt(k), StateBefore(does, k));
  }

  /** The wallet sent an error response in place of a presentation. */
  ghost predicate WalletDeclinedStep1(env: Env) {
    if env.dcapi then
      env.processDCAPI(env.origin, env.rawBody).Fault?
      && AsWalletError(env.processDCAPI(env.origin, env.rawBody).error).Some?
    else
      env.processResponse(env.rawBody).Fault? && AsWalletError(env.processResponse(env.rawBody).error).Some?
  }

  /** Every run that is not verified fails with a rated code; the wallet gets a 400 refusal unless the code
      is anchor-unavailable or handoff-failed, "declined" iff step 1 saw a wallet error, and "not accepted"
      iff the code is a trust refusal. */
  lemma WalletIsToldRight(env: Env, does: Does, sessionID: string)
    requires Ships(env, does)
    requires !RunTen(does, sessionID).1.verified
    ensures var code := RunTen(does, sessionID).1.failCode;
      && Rated(code)
      && (VerificationOutcome(code).None? <==>
            code == Problem(OfTrust, AnchorUnavailable) || code == Problem(OfSession, HandoffFailed))
      && (VerificationOutcome(code) == Some(Declined) <==> WalletDeclinedStep1(env))
      && (VerificationOutcome(code) == Some(NotAccepted) <==>
            || code == Problem(OfCredential, IssuerUntrusted) || code == Problem(OfCredential, IssuerCertExpired)
            || code == Problem(OfCredential, Expired) || code == Problem(OfRevocation, Revoked))
  {
    var k := FailedStep(env, does, sessionID);
    var code := RunTen(does, sessionID).1.failCode;
    RatedAndTold(StepAt(k), code);
    Row0(env, does);
    assert k > 0 ==> RowOf(does, 0).outcome != Fail;
    if k > 0 {
      DeclinedOnlyThere(k);
    }
  }

  lemma DeclinedOnlyThere(k: nat)
    requires 0 < k < 10
    ensures Problem(OfPresentation, WalletDeclined) !in CodesOf(StepAt(k))
  {
  }

  lemma Row0(env: Env, does: Does)
    requires Ships(env, does)
    ensures RowOf(does, 0).outcome == Fail && RowOf(does, 0).code == Problem(OfPresentation, WalletDeclined)
      <==> WalletDeclinedStep1(env)
  {
    StepUnfolds(env, does, 0);
    assert StepAt(0) == ResponseIntegrity;
  }
}
