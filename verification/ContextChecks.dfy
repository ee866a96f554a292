/** The ten checks over a mutable context: each does to state, memory and report what it does on values. */
module ContextChecks {
  import opened Wrappers
  import opened ErrClass
  import opened PipelineTypes
  import opened Checks
  import opened PipelineRun
  import opened Context
  import opened Report
  import opened Finalization
  import opened Held
  import opened Forwarding

  /** The credentials and the memory of the context are those it had, and new ones. */
  twostate predicate Grew(pc: PipelineContext)
    reads pc
  {
    && (pc.credentials == old(pc.credentials)
        || forall c :: c in pc.credentials ==> c in old(pc.credentials) || fresh(c))
    && (pc.buffers == old(pc.buffers) || forall b :: b in pc.buffers ==> b in old(pc.buffers) || fresh(b))
    && (pc.maps == old(pc.maps) || forall m :: m in pc.maps ==> m in old(pc.maps) || fresh(m))
  }

  /** What a check has done to the context, its credentials and its report. */
  twostate predicate DidCheck(pc: PipelineContext, out: StepOut)
    requires old(pc.Valid()) && pc.Valid()
    reads pc, pc.credentials, pc.report, pc.report.r.checks.arr, pc.report.r.credentials.arr, pc.report.r.policy
  {
    && pc.State() == out.st
    && Grew(pc)
    && pc.report.r == old(pc.report.r).(credentials := pc.report.r.credentials)
    && (pc.report.r.credentials.arr == old(pc.report.r.credentials.arr) || fresh(pc.report.r.credentials.arr))
    && pc.report.Contents() == old(pc.report.Contents()).(
         credentials := old(pc.report.Contents()).credentials + out.summaries,
         policy := old(pc.report.Contents()).policy + out.policy)
  }

  /** Step 1's library allocates what it returns. */
  method Receive(pc: PipelineContext, pres: seq<Presentation>)
    requires pc.Valid() && pc.Backed()
    modifies pc`presentations, pc`views, pc`buffers
    ensures pc.Valid() && pc.Backed() && pc.State() == old(pc.State()).(presentations := pres)
    ensures fresh(pc.buffers - old(pc.buffers))
  {
    ghost var wider: set<array<byte>>;
    var held;
    held, wider := HoldPresentations(pres);
    pc.presentations, pc.views, pc.buffers := held, pres, pc.buffers + wider;
  }

  /** Step 1. */
  method RunResponseIntegrity(pc: PipelineContext) returns (res: CheckResult)
    requires pc.Valid() && pc.Backed()
    modifies pc`presentations, pc`responseCode, pc`views, pc`buffers
    ensures pc.Valid() && pc.Backed() && fresh(pc.buffers - old(pc.buffers))
    ensures Answered(pc.State(), res) == Step1(pc.env, old(pc.State()))
  {
    var body := pc.raw.Contents();
    if pc.env.dcapi {
      var pres := pc.env.processDCAPI(pc.env.origin, body);
      if pres.Fault? {
        return Row(Fail, ClassifyOID4VP(pres.error), FailDetail(pres.error));
      }
      Receive(pc, pres.value);
      return PASSED;
    }
    var processed := pc.env.processResponse(body);
    if processed.Fault? {
      return Row(Fail, ClassifyOID4VP(processed.error), FailDetail(processed.error));
    }
    Receive(pc, processed.value.0);
    pc.responseCode := processed.value.1;
    res := PASSED;
  }

  /** What steps 4, 7, 8 and 9 make of the credentials: the list as it is, and the row. */
  ghost function Found(env: Env, step: StepName, cs: seq<CredV>): (seq<CredV>, CheckResult) {
    if step == DataIntegrity then (Scan(IntegrityFn(), cs).creds, Verdict(Scan(IntegrityFn(), cs), ""))
    else if step == UserBinding then (Scan(UserFn(), cs).creds, Verdict(Scan(UserFn(), cs), ""))
    else if step == QueryFulfilment then (cs, QueryVerdict(env, cs))
    else (cs, if ReuseFrom(cs, 0, 1).Some? then ReuseFrom(cs, 0, 1).value else NOT_EVALUATED)
  }

  lemma FoundIsStep(env: Env, step: StepName, st: PState)
    requires step in {DataIntegrity, UserBinding, QueryFulfilment, CombinedChecks}
    ensures var (cs, row) := Found(env, step, st.creds);
      Answered(st.(creds := cs), row).(policy := BranchesOf(env, step)) == RunStep(env, step, st)
  {
  }

  /** The checks that only read the credentials. */
  method RunReading(
    env: Env, cs: seq<Credential>, step: StepName, ghost buffers: set<array<byte>>, ghost maps: set<ClaimMap>)
    returns (res: CheckResult)
    requires AllBacked(cs, buffers, maps)
    requires step in {DataIntegrity, UserBinding, QueryFulfilment, CombinedChecks}
    ensures (Views(cs), res) == Found(env, step, Views(cs))
  {
    match step
    case DataIntegrity => res := RunDataIntegrity(cs);
    case UserBinding => res := RunUserBinding(cs);
    case QueryFulfilment => res := RunQueryFulfilment(env, cs, buffers, maps);
    case CombinedChecks => res := RunCombinedChecks(cs, buffers, maps);
  }

  lemma TwoBranches(m: map<string, bool>, a: string, x: bool, b: string, y: bool)
    ensures m[a := x][b := y] == m + map[a := x, b := y]
  {
  }

  /** The first lines of steps 5 and 6. */
  method RecordBranches(env: Env, b: Builder, step: StepName)
    requires b.Valid()
    modifies b.r.policy
    ensures b.Valid()
    ensures b.Contents() == old(b.Contents()).(policy := old(b.Contents()).policy + BranchesOf(env, step))
  {
    match step {
      case Revocation =>
        TwoBranches(b.r.policy.m, "revocation_fail_closed", env.policy.RevocationFailClosed(),
                    "short_lived_exemption", env.policy.ShortLivedExemption());
        b.SetPolicyBranch("revocation_fail_closed", env.policy.RevocationFailClosed());
        b.SetPolicyBranch("short_lived_exemption", env.policy.ShortLivedExemption());
      case DeviceBinding =>
        b.SetPolicyBranch("require_device_binding_sdjwt", env.policy.RequireDeviceBindingSDJWT());
      case _ =>
    }
  }

  // Each kind of check over a context, with what it did to the report.

  method CheckResponse(pc: PipelineContext) returns (res: CheckResult)
    requires pc.Valid() && pc.Backed()
    modifies pc
    ensures pc.Valid() && pc.Backed()
    ensures var out := Step1(pc.env, old(pc.State())); out.answer == Ok(res) && DidCheck(pc, out)
  {
    res := RunResponseIntegrity(pc);
  }

  method CheckParse(pc: PipelineContext) returns (res: CheckResult)
    requires pc.Valid() && pc.Backed()
    modifies pc
    ensures pc.Valid() && pc.Backed()
    ensures var out := Step2(pc.env, old(pc.State())); out.answer == Ok(res) && DidCheck(pc, out)
  {
    ghost var rep := pc.report.Contents();
    res := StepParse(pc);
    Wrote(rep, pc.report.Contents(), Answered(pc.State(), res));
  }

  method StepParse(pc: PipelineContext) returns (res: CheckResult)
    requires pc.Valid() && pc.Backed()
    modifies pc`credentials
    ensures pc.Valid() && pc.Backed() && Grew(pc) && pc.report.Contents() == old(pc.report.Contents())
    ensures Answered(pc.State(), res) == Step2(pc.env, old(pc.State()))
  {
    var cs;
    cs, res := RunParse(pc.env, pc.presentations, pc.credentials, pc.views, pc.buffers, pc.maps);
    pc.credentials := cs;
  }

  /** What steps 3, 5 and 6 make of the credentials: the new list and the row. */
  ghost function Updated(env: Env, step: StepName, cs: seq<CredV>): (seq<CredV>, CheckResult) {
    if step == IssuerAuthenticity then
      (Scan(AuthFn(env), cs).creds, Verdict(Scan(AuthFn(env), cs), ""))
    else if step == Revocation then
      (Scan(RevokeFn(env), cs).creds, Verdict(Scan(RevokeFn(env), cs), "revocation-partially-skipped"))
    else
      (Scan(BindFn(env), cs).creds, Verdict(Scan(BindFn(env), cs), "device-binding-policy-skipped"))
  }

  lemma UpdatedIsStep(env: Env, step: StepName, st: PState)
    requires step in {IssuerAuthenticity, Revocation, DeviceBinding}
    ensures var (cs, row) := Updated(env, step, st.creds);
      Answered(st.(creds := cs), row).(policy := BranchesOf(env, step)) == RunStep(env, step, st)
  {
  }

  /** The checks that update the credentials. */
  method RunUpdating(
    env: Env, cs: seq<Credential>, step: StepName, ghost buffers: set<array<byte>>, ghost maps: set<ClaimMap>)
    returns (res: CheckResult, ghost wider: set<ClaimMap>)
    requires step in {IssuerAuthenticity, Revocation, DeviceBinding}
    requires Distinct(cs) && AllBacked(cs, buffers, maps)
    modifies cs
    ensures AllBacked(cs, buffers, wider) && forall m :: m in wider ==> m in maps || fresh(m)
    ensures (Views(cs), res) == Updated(env, step, old(Views(cs)))
  {
    wider := maps;
    match step
    case IssuerAuthenticity => res, wider := RunIssuerAuthenticity(env, cs, buffers, maps);
    case Revocation => res := RunRevocation(env, cs);
    case DeviceBinding => res := RunDeviceBinding(env, cs);
  }

  /** A check on the credentials, without its policy branches. */
  method RunOnCredentials(
    env: Env, cs: seq<Credential>, step: StepName,
    ghost st: PState, ghost buffers: set<array<byte>>, ghost maps: set<ClaimMap>)
    returns (res: CheckResult, ghost wider: set<ClaimMap>)
    requires step !in {ResponseIntegrity, Parse, AssembleForward}
    requires st.creds == Views(cs) && Distinct(cs) && AllBacked(cs, buffers, maps)
    modifies cs
    ensures AllBacked(cs, buffers, wider) && forall m :: m in wider ==> m in maps || fresh(m)
    ensures Answered(st.(creds := Views(cs)), res).(policy := BranchesOf(env, step)) == RunStep(env, step, st)
  {
    wider := maps;
    if step in {IssuerAuthenticity, Revocation, DeviceBinding} {
      res, wider := RunUpdating(env, cs, step, buffers, maps);
      UpdatedIsStep(env, step, st);
    } else {
      res := RunReading(env, cs, step, buffers, maps);
      FoundIsStep(env, step, st);
    }
  }

  ghost method Widen(pc: PipelineContext, wider: set<ClaimMap>)
    requires pc.BodyBacked() && AllBacked(pc.credentials, pc.buffers, wider)
    modifies pc`maps
    ensures pc.Backed() && pc.maps == wider && pc.State() == old(pc.State())
  {
    pc.maps := wider;
  }

  /** The same, of the credentials of a context. */
  method AnswerOnContext(pc: PipelineContext, step: StepName) returns (res: CheckResult, ghost wider: set<ClaimMap>)
    requires pc.Valid() && pc.Backed() && step !in {ResponseIntegrity, Parse, AssembleForward}
    modifies pc.credentials
    ensures pc.BodyBacked() && AllBacked(pc.credentials, pc.buffers, wider)
    ensures forall m :: m in wider ==> m in pc.maps || fresh(m)
    ensures Answered(pc.State(), res).(policy := BranchesOf(pc.env, step)) == RunStep(pc.env, step, old(pc.State()))
  {
    label before:
    res, wider := RunOnCredentials(pc.env, pc.credentials, step, pc.State(), pc.buffers, pc.maps);
    assert unchanged@before(pc) && unchanged@before(pc.buffers);
    assert pc.BodyBacked();
  }

  method StepCredentials(pc: PipelineContext, step: StepName) returns (res: CheckResult)
    requires pc.Valid() && pc.Backed() && step !in {ResponseIntegrity, Parse, AssembleForward}
    modifies pc`maps, pc.credentials
    ensures pc.Valid() && pc.Backed() && Grew(pc) && pc.report.Contents() == old(pc.report.Contents())
    ensures Answered(pc.State(), res).(policy := BranchesOf(pc.env, step)) == RunStep(pc.env, step, old(pc.State()))
  {
    ghost var wider;
    res, wider := AnswerOnContext(pc, step);
    Widen(pc, wider);
  }

  /** The policy branches of a step, recorded before it runs. */
  method RecordPolicy(pc: PipelineContext, step: StepName)
    requires pc.Valid() && pc.Backed()
    modifies pc.report.r.policy
    ensures pc.Valid() && pc.Backed() && pc.State() == old(pc.State())
    ensures pc.report.Contents()
      == old(pc.report.Contents()).(policy := old(pc.report.Contents()).policy + BranchesOf(pc.env, step))
  {
    RecordBranches(pc.env, pc.report, step);
  }

  /** What a check that adds no summaries has written into the report. */
  lemma Wrote(before: ReportV, after: ReportV, out: StepOut)
    requires out.summaries == [] && after == before.(policy := before.policy + out.policy)
    ensures after == before.(credentials := before.credentials + out.summaries, policy := before.policy + out.policy)
  {
  }

  method CheckCredentials(pc: PipelineContext, step: StepName) returns (res: CheckResult)
    requires pc.Valid() && pc.Backed() && step !in {ResponseIntegrity, Parse, AssembleForward}
    modifies pc`maps, pc.credentials, pc.report.r.policy
    ensures pc.Valid() && pc.Backed()
    ensures var out := RunStep(pc.env, step, old(pc.State())); out.answer == Ok(res) && DidCheck(pc, out)
  {
    ghost var rep := pc.report.Contents();
    RecordPolicy(pc, step);
    res := StepCredentials(pc, step);
    Wrote(rep, pc.report.Contents(), Answered(pc.State(), res).(policy := BranchesOf(pc.env, step)));
  }

  method CheckAssemble(pc: PipelineContext) returns (res: CheckResult, ghost rows: array<CheckResult>)
    requires pc.Valid() && pc.Backed()
    modifies pc, pc.credentials, pc.report, pc.report.r.credentials.arr, pc.sink, pc.cleaner, pc.buffers, pc.maps
    ensures pc.Valid() && pc.Backed()
    ensures var out := Step10(pc.env, old(pc.State())); out.answer == Ok(res) && DidCheck(pc, out)
    ensures fresh(rows) && Delivered(pc.sink, pc.report, rows) && Served(pc.sink, old(pc.State()).creds)
  {
    ghost var rep := pc.report.Contents();
    res, rows := RunAssembleForward(pc);
    assert rep.policy + map[] == rep.policy;
    assert pc.credentials == old(pc.credentials) && pc.buffers == old(pc.buffers) && pc.maps == old(pc.maps);
    assert pc.State() == Erase(old(pc.State()));
  }

  /** One check of the list. rows is the backing array of the delivered rows, when the check is step 10. */
  method RunCheck(pc: PipelineContext, check: Check)
    returns (answer: Result<CheckResult, Err>, ghost rows: array<CheckResult>)
    requires pc.Valid() && pc.Backed()
    modifies pc, pc.credentials, pc.report, pc.report.r.credentials.arr, pc.report.r.policy
    modifies pc.sink, pc.cleaner, pc.buffers, pc.maps
    ensures pc.Valid() && pc.Backed()
    ensures var out := PipelineRun.CheckOut(pc.env, check, old(pc.State())); answer == out.answer && DidCheck(pc, out)
    ensures check == Shipped(AssembleForward) ==>
      fresh(rows) && Delivered(pc.sink, pc.report, rows) && Served(pc.sink, old(pc.State()).creds)
  {
    rows := pc.report.r.checks.arr;
    match check
    case Stub(_, verdict) =>
      answer := verdict;
    case Shipped(step) =>
      var res: CheckResult;
      if step == ResponseIntegrity {
        res := CheckResponse(pc);
      } else if step == Parse {
        res := CheckParse(pc);
      } else if step == AssembleForward {
        res, rows := CheckAssemble(pc);
      } else {
        res := CheckCredentials(pc, step);
      }
      answer := Ok(res);
  }
}
