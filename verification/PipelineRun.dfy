/** internal/pipeline/pipeline.go, Engine.Run on values: an ordered list of checks, one row per executed
    check, stopping at the first fail. */
module PipelineRun {
  import opened Wrappers
  import opened ErrClass
  import opened PipelineTypes
  import opened Checks
  import opened StepOrder
  import FlattenNames

  type StepName = n: CheckName | !n.StubName? witness Parse

  /** A check: one of the ten, or any other that answers with a verdict or an error. */
  datatype Check = Shipped(step: StepName) | Stub(title: string, answer: Result<CheckResult, Err>)
  {
    function Name(): CheckName {
      if Shipped? then step else StubName(title)
    }
  }

  /** The state the checks accumulate; erased once attribute-carrying memory has been overwritten. */
  datatype PState = PState(presentations: seq<Presentation>, responseCode: string, creds: seq<CredV>, erased: bool)

  const START: PState := PState([], "", [], false)

  /** The raw body as it stands in memory. */
  function RawOf(env: Env, erased: bool): Bytes {
    if erased then Zeros(|env.rawBody|) else env.rawBody
  }

  /** The state after Zero. */
  function Erase(st: PState): PState {
    PState(seq(|st.presentations|, i requires 0 <= i < |st.presentations| => ErasePres(st.presentations[i])),
           st.responseCode,
           seq(|st.creds|, i requires 0 <= i < |st.creds| => EraseCred(st.creds[i])),
           true)
  }

  predicate AllZero(b: Bytes) {
    forall k :: 0 <= k < |b| ==> b[k] == 0
  }

  /** No attribute value is left in the state. */
  ghost predicate Blank(st: PState) {
    && st.erased
    && (forall p :: p in st.presentations ==> AllZero(p.payload))
    && (forall c :: c in st.creds ==>
          && AllZero(c.pres.payload)
          && (c.sd.Some? ==> c.sd.value.claims == map[])
          && (c.md.Some? ==> forall ns :: ns in c.md.value.namespaces ==> c.md.value.namespaces[ns] == map[]))
  }

  lemma EraseBlanks(st: PState)
    ensures Blank(Erase(st))
  {
  }

  /** CredentialSummary: claim names, never values. */
  datatype Summary = Summary(
    queryCredID: string, format: Format, doctypeOrVCT: string, issuerCountry: string,
    claimNames: seq<string>, statusProvenance: string, decoyDigests: nat)

  /** The contents of a Report. */
  datatype ReportV = ReportV(
    sessionID: string, verified: bool, failCode: Code, checks: seq<CheckResult>,
    credentials: seq<Summary>, policy: map<string, bool>)

  /** NewBuilder: failed until proven verified. */
  function NewReport(sessionID: string): ReportV {
    ReportV(sessionID, false, NoCode, [], [], map[])
  }

  /** What a check leaves: the state, its answer, and what it wrote into the report on the way. */
  datatype StepOut = StepOut(
    st: PState, answer: Result<CheckResult, Err>, policy: map<string, bool>, summaries: seq<Summary>)

  function Answered(st: PState, row: CheckResult): StepOut {
    StepOut(st, Ok(row), map[], [])
  }

  /** failDetail: the wallet's own reason when it declined. */
  function FailDetail(e: Err): string {
    match AsWalletError(e)
    case Some(WalletError(code, description, _)) =>
      "wallet reported " + code + (if description != "" then ": " + description else "")
    case _ => SafeDetail(e)
  }

  function Step1(env: Env, st: PState): StepOut {
    if env.dcapi then
      match env.processDCAPI(env.origin, RawOf(env, st.erased))
      case Fault(e) => Answered(st, Row(Fail, ClassifyOID4VP(e), FailDetail(e)))
      case Ok(pres) => Answered(st.(presentations := pres), PASSED)
    else
      match env.processResponse(RawOf(env, st.erased))
      case Fault(e) => Answered(st, Row(Fail, ClassifyOID4VP(e), FailDetail(e)))
      case Ok((pres, code)) => Answered(st.(presentations := pres, responseCode := code), PASSED)
  }

  /** Parse: credentials built so far, and the first failure. */
  function ParseAll(env: Env, pres: seq<Presentation>, done: seq<CredV>): (seq<CredV>, Option<CheckResult>)
    decreases |pres|
  {
    if pres == [] then (done, None)
    else
      var one := ParseOne(env, NewCred(pres[0], env.zeroStatus));
      if one.fail.Some? then (done, one.fail) else ParseAll(env, pres[1..], done + [one.cred])
  }

  const EMPTY_TOKEN: CheckResult := Row(Fail, Problem(OfPresentation, InvalidResponse), "empty vp_token")

  function Step2(env: Env, st: PState): StepOut {
    var (creds, fail) := ParseAll(env, st.presentations, st.creds);
    Answered(st.(creds := creds), if fail.Some? then fail.value else if |creds| == 0 then EMPTY_TOKEN else PASSED)
  }

  function ScanStep(st: PState, s: Scanned, note: string): StepOut {
    Answered(st.(creds := s.creds), Verdict(s, note))
  }

  /** The first pair, in loop order, that reuses a payload across query ids. */
  function ReuseFrom(cs: seq<CredV>, i: nat, j: nat): Option<CheckResult>
    requires i <= |cs| && i < j <= |cs| + 1
    decreases |cs| - i, |cs| + 1 - j
  {
    if i == |cs| then None
    else if j >= |cs| then ReuseFrom(cs, i + 1, i + 2)
    else if Reused(cs[i], cs[j]) then Some(ReuseFail(cs[i], cs[j]))
    else ReuseFrom(cs, i, j + 1)
  }

  function Step9(st: PState): StepOut {
    var reuse := ReuseFrom(st.creds, 0, 1);
    Answered(st, if reuse.Some? then reuse.value else NOT_EVALUATED)
  }

  ghost function SummaryOf(c: CredV): Summary {
    Summary(c.pres.queryCredID, c.pres.format, c.DoctypeOrVCT(),
            if c.issuer.Some? then c.issuer.value.issuer.anchorCountry else "",
            FlattenNames.Names(c.Claims(), ""), c.statusProvenance,
            if c.sd.Some? then c.sd.value.decoyDigests else 0)
  }

  ghost function Summaries(cs: seq<CredV>): seq<Summary> {
    seq(|cs|, i requires 0 <= i < |cs| => SummaryOf(cs[i]))
  }

  /** The error Finalize returns for a verified result: delivery first, then the flow's disposal. */
  function FinalizeFault(env: Env, responseCode: string): Option<Err> {
    if env.deliverFault.Some? then env.deliverFault
    else if responseCode != "" then env.saveFault
    else env.deleteFault
  }

  const FORWARDED: CheckResult :=
    CheckResult(Some(AssembleForward), Pass, NoCode, SpecRefOf(AssembleForward), "", "")

  function HandoffVerdict(fault: Option<Err>): CheckResult {
    if fault.Some? then Row(Fail, Problem(OfSession, HandoffFailed), SafeDetail(fault.value)) else FORWARDED
  }

  /** Step 10 ends with Finalize, which erases on every return path. */
  ghost function Step10(env: Env, st: PState): StepOut {
    StepOut(Erase(st), Ok(HandoffVerdict(FinalizeFault(env, st.responseCode))), map[], Summaries(st.creds))
  }

  /** The policy branches a check records in the report. */
  function BranchesOf(env: Env, step: StepName): map<string, bool> {
    match step
    case Revocation =>
      map["revocation_fail_closed" := env.policy.RevocationFailClosed(),
          "short_lived_exemption" := env.policy.ShortLivedExemption()]
    case DeviceBinding =>
      map["require_device_binding_sdjwt" := env.policy.RequireDeviceBindingSDJWT()]
    case _ => map[]
  }

  ghost function RunStep(env: Env, step: StepName, st: PState): StepOut {
    match step
    case ResponseIntegrity => Step1(env, st)
    case Parse => Step2(env, st)
    case IssuerAuthenticity => ScanStep(st, Scan(AuthFn(env), st.creds), "")
    case DataIntegrity => ScanStep(st, Scan(IntegrityFn(), st.creds), "")
    case Revocation =>
      ScanStep(st, Scan(RevokeFn(env), st.creds), "revocation-partially-skipped").(policy := BranchesOf(env, step))
    case DeviceBinding =>
      ScanStep(st, Scan(BindFn(env), st.creds), "device-binding-policy-skipped").(policy := BranchesOf(env, step))
    case UserBinding => ScanStep(st, Scan(UserFn(), st.creds), "")
    case QueryFulfilment => Answered(st, QueryVerdict(env, st.creds))
    case CombinedChecks => Step9(st)
    case AssembleForward => Step10(env, st)
  }

  ghost function CheckOut(env: Env, check: Check, st: PState): StepOut {
    match check
    case Shipped(step) => RunStep(env, step, st)
    case Stub(_, answer) => StepOut(st, answer, map[], [])
  }

  /** The row Engine.Run makes of an answer, before the builder caps its detail. */
  function Finish(name: CheckName, answer: Result<CheckResult, Err>): CheckResult {
    var res := match answer case Ok(row) => row case Fault(e) => Row(Fail, CodeForError(e), SafeDetail(e));
    res.(check := Some(name), specRef := if res.specRef == "" then SpecRefOf(name) else res.specRef)
  }

  /** Builder.Add's cap on the detail text; a char is a byte. */
  function Cap(row: CheckResult): CheckResult {
    row.(detail := row.detail[..Min(|row.detail|, 200)])
  }

  /** The report after a check's own writes and its row. */
  function Noted(rep: ReportV, out: StepOut, row: CheckResult): ReportV {
    rep.(checks := rep.checks + [Cap(row)], credentials := rep.credentials + out.summaries,
         policy := rep.policy + out.policy)
  }

  /** What every check does, as one function value; the engine knows nothing more about its checks. */
  type Does = (Check, PState) -> StepOut

  ghost function Behaviour(env: Env): Does {
    (check, st) => CheckOut(env, check, st)
  }

  /** The behaviour runs the ten shipped checks as this wiring does. */
  ghost predicate Ships(env: Env, does: Does) {
    forall step: StepName, st {:trigger RunStep(env, step, st)} :: does(Shipped(step), st) == RunStep(env, step, st)
  }

  /** The behaviour is the one of this wiring on every check. */
  ghost predicate Models(env: Env, does: Does) {
    forall check, st {:trigger CheckOut(env, check, st)} :: does(check, st) == CheckOut(env, check, st)
  }

  lemma BehaviourModels(env: Env)
    ensures Models(env, Behaviour(env))
  {
  }

  lemma BehaviourShips(env: Env)
    ensures Ships(env, Behaviour(env))
  {
  }

  /** Engine.Run from a state and a report in progress. */
  ghost function RunFrom(does: Does, checks: seq<Check>, st: PState, rep: ReportV): (PState, ReportV)
    decreases |checks|
  {
    if checks == [] then (st, rep.(verified := true, failCode := NoCode))
    else
      var out := does(checks[0], st);
      var row := Finish(checks[0].Name(), out.answer);
      var noted := Noted(rep, out, row);
      if row.outcome == Fail then (out.st, noted.(verified := false, failCode := row.code))
      else RunFrom(does, checks[1..], out.st, noted)
  }

  /** One run of an engine over a fresh context. */
  ghost function Run(env: Env, checks: seq<Check>, sessionID: string): (PState, ReportV) {
    RunFrom(Behaviour(env), checks, START, NewReport(sessionID))
  }

  /** The production engine. */
  const TEN_CHECKS: seq<Check> := [
    Shipped(ResponseIntegrity), Shipped(Parse), Shipped(IssuerAuthenticity), Shipped(DataIntegrity),
    Shipped(Revocation), Shipped(DeviceBinding), Shipped(UserBinding), Shipped(QueryFulfilment),
    Shipped(CombinedChecks), Shipped(AssembleForward)]

  // ---- where a run stops ----

  /** The state before check k. */
  ghost function StateAt(does: Does, checks: seq<Check>, st: PState, k: nat): PState
    requires k <= |checks|
  {
    if k == 0 then st else does(checks[k - 1], StateAt(does, checks, st, k - 1)).st
  }

  /** The row check k makes, if it is reached. */
  ghost function RowAt(does: Does, checks: seq<Check>, st: PState, k: nat): CheckResult
    requires k < |checks|
  {
    Finish(checks[k].Name(), does(checks[k], StateAt(does, checks, st, k)).answer)
  }

  lemma {:induction false} StateShift(does: Does, checks: seq<Check>, st: PState, k: nat)
    requires 0 < |checks| && k < |checks|
    ensures StateAt(does, checks, st, k + 1) == StateAt(does, checks[1..], does(checks[0], st).st, k)
  {
    if k > 0 {
      StateShift(does, checks, st, k - 1);
    } else {
      assert StateAt(does, checks, st, 0) == st;
    }
  }

  /** A run goes on to check k iff no check before it failed, and then to the end or to the first fail. */
  lemma {:induction false} RunGoes(does: Does, checks: seq<Check>, st: PState, rep: ReportV, k: nat)
    requires k <= |checks| && forall j :: 0 <= j < k ==> RowAt(does, checks, st, j).outcome != Fail
    ensures var (end, r) := RunFrom(does, checks, st, rep);
      && (k == |checks| ==> end == StateAt(does, checks, st, k) && r.verified && |r.checks| == |rep.checks| + k)
      && (k < |checks| && RowAt(does, checks, st, k).outcome == Fail ==>
            end == StateAt(does, checks, st, k + 1) && !r.verified && |r.checks| == |rep.checks| + k + 1
            && r.failCode == RowAt(does, checks, st, k).code)
    decreases |checks|
  {
    if checks != [] {
      var out := does(checks[0], st);
      var noted := Noted(rep, out, Finish(checks[0].Name(), out.answer));
      assert RowAt(does, checks, st, 0) == Finish(checks[0].Name(), out.answer);
      if k > 0 {
        forall j | 0 <= j < |checks| - 1
          ensures RowAt(does, checks[1..], out.st, j) == RowAt(does, checks, st, j + 1)
        {
          StateShift(does, checks, st, j);
        }
        RunGoes(does, checks[1..], out.st, noted, k - 1);
        StateShift(does, checks, st, k - 1);
        if k < |checks| {
          StateShift(does, checks, st, k);
        }
      }
    }
  }

  /** A verified run failed no check, and ends in the last state. */
  lemma VerifiedPassedAll(does: Does, checks: seq<Check>, st: PState, rep: ReportV, k: nat)
    requires k <= |checks| && RunFrom(does, checks, st, rep).1.verified
    ensures forall j :: 0 <= j < k ==> RowAt(does, checks, st, j).outcome != Fail
    ensures RunFrom(does, checks, st, rep).0 == StateAt(does, checks, st, |checks|)
  {
    var n := 0;
    while n < |checks|
      invariant n <= |checks|
      invariant forall j :: 0 <= j < n ==> RowAt(does, checks, st, j).outcome != Fail
    {
      RunGoes(does, checks, st, rep, n);
      n := n + 1;
    }
    RunGoes(does, checks, st, rep, |checks|);
  }

  // ---- the shape of every report, for every list of checks ----

  /** Row k of a run names check k, has a capped detail, and is a fail only if it is the last. */
  ghost predicate WellMade(checks: seq<Check>, rows: seq<CheckResult>, k: nat)
    requires k < |rows| <= |checks|
  {
    && rows[k].check == Some(checks[k].Name())
    && |rows[k].detail| <= 200
    && (k < |rows| - 1 ==> rows[k].outcome != Fail)
  }

  ghost predicate NoFail(rows: seq<CheckResult>) {
    forall k :: 0 <= k < |rows| ==> rows[k].outcome != Fail
  }

  /** The rows of one run against its outcome. */
  ghost predicate Shaped(checks: seq<Check>, rows: seq<CheckResult>, verified: bool, failCode: Code) {
    && |rows| <= |checks|
    && (forall k :: 0 <= k < |rows| ==> WellMade(checks, rows, k))
    && (verified <==> |rows| == |checks| && NoFail(rows))
    && (verified ==> failCode == NoCode)
    && (!verified ==> |rows| > 0 && rows[|rows| - 1].outcome == Fail && failCode == rows[|rows| - 1].code)
  }

  lemma ShapedCons(checks: seq<Check>, row: CheckResult, rest: seq<CheckResult>, verified: bool, failCode: Code)
    requires checks != [] && row.outcome != Fail && Shaped(checks[1..], rest, verified, failCode)
    requires row.check == Some(checks[0].Name()) && |row.detail| <= 200
    ensures Shaped(checks, [row] + rest, verified, failCode)
  {
    var rows := [row] + rest;
    forall k | 0 <= k < |rows| ensures WellMade(checks, rows, k) {
      if k > 0 { assert WellMade(checks[1..], rest, k - 1); }
    }
    forall k | 0 <= k < |rest| ensures rest[k] == rows[k + 1] {}
  }

  /** The spec reference of a row: the check's own, or else the table's. */
  function RefOf(name: CheckName, answer: Result<CheckResult, Err>): string {
    if answer.Ok? && answer.value.specRef != "" then answer.value.specRef else SpecRefOf(name)
  }

  /** The detail is the text, cut off after 200 bytes. */
  predicate CutOff(detail: string, text: string) {
    detail <= text && (|text| <= 200 ==> detail == text) && (|text| > 200 ==> |detail| == 200)
  }

  /** The row is what check k answered in the state the checks before it left: its verdict, or a fail with the
      code and the text of its error; the detail is cut off. */
  ghost predicate RowIs(does: Does, checks: seq<Check>, st: PState, row: CheckResult, k: nat)
    requires k < |checks|
  {
    var answer := does(checks[k], StateAt(does, checks, st, k)).answer;
    && row == Cap(RowAt(does, checks, st, k))
    && row.check == Some(checks[k].Name()) && row.specRef == RefOf(checks[k].Name(), answer)
    && match answer
       case Ok(r) =>
         && row.outcome == r.outcome && row.code == r.code && row.statusListURI == r.statusListURI
         && CutOff(row.detail, r.detail)
       case Fault(e) => row.outcome == Fail && row.code == FaultCode(e) && CutOff(row.detail, e.text)
  }

  lemma RowIsAnswer(does: Does, checks: seq<Check>, st: PState, k: nat)
    requires k < |checks|
    ensures RowIs(does, checks, st, Cap(RowAt(does, checks, st, k)), k)
  {
    var answer := does(checks[k], StateAt(does, checks, st, k)).answer;
    if answer.Fault? {
      FaultCodeExactly(answer.error);
    }
  }

  ghost predicate FromChecks(does: Does, checks: seq<Check>, st: PState, rows: seq<CheckResult>) {
    |rows| <= |checks| && forall k :: 0 <= k < |rows| ==> RowIs(does, checks, st, rows[k], k)
  }

  lemma RowIsShift(does: Does, checks: seq<Check>, st: PState, row: CheckResult, k: nat)
    requires 0 < k < |checks| && RowIs(does, checks[1..], does(checks[0], st).st, row, k - 1)
    ensures RowIs(does, checks, st, row, k)
  {
    StateShift(does, checks, st, k - 1);
  }

  lemma FromChecksCons(does: Does, checks: seq<Check>, st: PState, rest: seq<CheckResult>)
    requires checks != [] && FromChecks(does, checks[1..], does(checks[0], st).st, rest)
    ensures FromChecks(does, checks, st, [Cap(RowAt(does, checks, st, 0))] + rest)
  {
    var rows := [Cap(RowAt(does, checks, st, 0))] + rest;
    RowIsAnswer(does, checks, st, 0);
    forall k | 0 < k < |rows| ensures RowIs(does, checks, st, rows[k], k) {
      assert rows[k] == rest[k - 1];
      RowIsShift(does, checks, st, rows[k], k);
    }
  }

  lemma {:induction false} RunShape(does: Does, checks: seq<Check>, st: PState, rep: ReportV)
    ensures var r := RunFrom(does, checks, st, rep).1;
      && rep.checks <= r.checks && r.sessionID == rep.sessionID
      && Shaped(checks, r.checks[|rep.checks|..], r.verified, r.failCode)
    decreases |checks|
  {
    var r := RunFrom(does, checks, st, rep).1;
    if checks == [] {
      assert r.checks[|rep.checks|..] == [];
    } else {
      var out := does(checks[0], st);
      var row := Finish(checks[0].Name(), out.answer);
      var noted := Noted(rep, out, row);
      if row.outcome == Fail {
        ShapedStop(checks, Cap(row));
        assert r.checks[|rep.checks|..] == [Cap(row)];
      } else {
        RunShape(does, checks[1..], out.st, noted);
        var rest := r.checks[|noted.checks|..];
        ShapedCons(checks, Cap(row), rest, r.verified, r.failCode);
        FirstOfRest(rep.checks, Cap(row), r.checks);
      }
    }
  }

  lemma ShapedStop(checks: seq<Check>, row: CheckResult)
    requires checks != [] && row.outcome == Fail && row.check == Some(checks[0].Name()) && |row.detail| <= 200
    ensures Shaped(checks, [row], false, row.code)
  {
    assert WellMade(checks, [row], 0);
  }

  lemma FirstOfRest(before: seq<CheckResult>, row: CheckResult, all: seq<CheckResult>)
    requires before + [row] <= all
    ensures before <= all && all[|before|..] == [row] + all[|before| + 1..]
  {
  }

  lemma {:induction false} RunAnswers(does: Does, checks: seq<Check>, st: PState, rep: ReportV)
    ensures var r := RunFrom(does, checks, st, rep).1;
      rep.checks <= r.checks && FromChecks(does, checks, st, r.checks[|rep.checks|..])
    decreases |checks|
  {
    var r := RunFrom(does, checks, st, rep).1;
    if checks == [] {
      assert r.checks[|rep.checks|..] == [];
    } else {
      var out := does(checks[0], st);
      var row := Finish(checks[0].Name(), out.answer);
      var noted := Noted(rep, out, row);
      assert row == RowAt(does, checks, st, 0);
      var rest := [];
      if row.outcome != Fail {
        RunAnswers(does, checks[1..], out.st, noted);
        rest := r.checks[|noted.checks|..];
      }
      FromChecksCons(does, checks, st, rest);
      assert r.checks[|rep.checks|..] == [Cap(row)] + rest;
    }
  }

  /** Every report of every list of checks, whatever the checks do: the rows name exactly a prefix of the
      list and are the answers of those checks, only the last can be a fail, the run is verified iff the
      whole list ran without one, the fail code is the last row's, details are capped, and every spec
      reference is the check's own or the table's. */
  lemma ReportShape(does: Does, checks: seq<Check>, st: PState, rep: ReportV)
    ensures var r := RunFrom(does, checks, st, rep).1;
      && rep.checks <= r.checks && r.sessionID == rep.sessionID
      && Shaped(checks, r.checks[|rep.checks|..], r.verified, r.failCode)
      && FromChecks(does, checks, st, r.checks[|rep.checks|..])
  {
    RunShape(does, checks, st, rep);
    RunAnswers(does, checks, st, rep);
  }
}
