/** What a run of the ten shipped checks means for the credentials that were presented. */
module PipelineTheorems {
  import opened Wrappers
  import opened ErrClass
  import opened CredentialTrust
  import opened TrustResolution
  import opened PipelineTypes
  import opened Checks
  import opened StepOrder
  import opened PipelineRun

  /** One run of the production engine over a fresh context. */
  ghost function RunTen(does: Does, sessionID: string): (PState, ReportV) {
    RunFrom(does, TEN_CHECKS, START, NewReport(sessionID))
  }

  /** Which step each of the ten is. */
  function StepAt(k: nat): (step: StepName)
    requires k < 10
    ensures TEN_CHECKS[k] == Shipped(step)
  {
    TEN_CHECKS[k].step
  }

  ghost function StateBefore(does: Does, k: nat): PState
    requires k <= 10
  {
    StateAt(does, TEN_CHECKS, START, k)
  }

  ghost function RowOf(does: Does, k: nat): CheckResult
    requires k < 10
  {
    RowAt(does, TEN_CHECKS, START, k)
  }

  lemma StepUnfolds(env: Env, does: Does, k: nat)
    requires Ships(env, does)
    requires k < 10
    ensures var out := RunStep(env, StepAt(k), StateBefore(does, k));
      && StateBefore(does, k + 1) == out.st && RowOf(does, k) == Finish(StepAt(k), out.answer)
  {
    assert RunStep(env, StepAt(k), StateBefore(does, k)) == does(TEN_CHECKS[k], StateBefore(does, k));
  }

  /** The credentials as step 10 finds them. */
  ghost function Credentials(does: Does): seq<CredV> {
    StateBefore(does, 9).creds
  }

  /** The presentations step 1 yields. */
  ghost function Presented(does: Does): seq<Presentation> {
    StateBefore(does, 1).presentations
  }

  // ---- steps 2 to 7 of the engine are the per-credential steps ----

  /** Step 2 builds credentials one by one, as a scan of fresh credentials would. */
  lemma {:induction false} ParseIsScan(env: Env, pres: seq<Presentation>, done: seq<CredV>)
    ensures var s := Scan(ParseFn(env), Fresh(env, pres)); var (creds, fail) := ParseAll(env, pres, done);
      && fail == s.fail && (fail.None? ==> creds == done + s.creds)
    decreases |pres|
  {
    if pres != [] {
      var one := ParseOne(env, NewCred(pres[0], env.zeroStatus));
      assert Fresh(env, pres)[0] == NewCred(pres[0], env.zeroStatus);
      assert Fresh(env, pres)[1..] == Fresh(env, pres[1..]);
      assert ParseFn(env)(Fresh(env, pres)[0]) == one;
      if one.fail.None? {
        ParseIsScan(env, pres[1..], done + [one.cred]);
      }
    } else {
      assert Fresh(env, pres) == [];
    }
  }

  function NoteOf(k: nat): string {
    if k == 4 then "revocation-partially-skipped" else if k == 5 then "device-binding-policy-skipped" else ""
  }

  /** The row fails iff the scan does, with its code. */
  predicate Reports(row: CheckResult, s: Scanned) {
    (row.outcome == Fail <==> s.fail.Some?) && (s.fail.Some? ==> row.code == s.fail.value.code)
  }

  lemma RunStepScans(env: Env, k: nat, st: PState)
    requires 2 <= k <= 6
    ensures var s := Scan(Steps(env)[k - 1], st.creds); var out := RunStep(env, StepAt(k), st);
      out.st == st.(creds := s.creds) && out.answer == Ok(Verdict(s, NoteOf(k)))
  {
    if k == 4 || k == 5 {
      PolicyStepScans(env, k, st);
    } else {
      PlainStepScans(env, k, st);
    }
  }

  /** Steps 3, 4 and 7, which record no policy branch. */
  lemma PlainStepScans(env: Env, k: nat, st: PState)
    requires k == 2 || k == 3 || k == 6
    ensures RunStep(env, StepAt(k), st) == ScanStep(st, Scan(Steps(env)[k - 1], st.creds), NoteOf(k))
  {
    if k == 2 { assert StepAt(k) == IssuerAuthenticity; }
    else if k == 3 { assert StepAt(k) == DataIntegrity; }
    else { assert StepAt(k) == UserBinding; }
  }

  /** Steps 5 and 6, which record theirs. */
  lemma PolicyStepScans(env: Env, k: nat, st: PState)
    requires k == 4 || k == 5
    ensures RunStep(env, StepAt(k), st)
      == ScanStep(st, Scan(Steps(env)[k - 1], st.creds), NoteOf(k)).(policy := BranchesOf(env, StepAt(k)))
  {
    if k == 4 { assert StepAt(k) == Revocation; }
    else { assert StepAt(k) == DeviceBinding; }
  }

  /** Checks 2 to 6 of the list (steps 3 to 7) scan the credentials with the step of the same number. */
  lemma ScanStepOf(env: Env, does: Does, k: nat)
    requires Ships(env, does)
    requires 2 <= k <= 6
    ensures var st := StateBefore(does, k); var s := Scan(Steps(env)[k - 1], st.creds);
      && StateBefore(does, k + 1) == st.(creds := s.creds)
      && RowOf(does, k) == Finish(StepAt(k), Ok(Verdict(s, NoteOf(k))))
      && Reports(RowOf(does, k), s)
  {
    StepUnfolds(env, does, k);
    RunStepScans(env, k, StateBefore(does, k));
    ScanFailIsFail(env, k - 1, StateBefore(does, k).creds);
  }

  /** A fail of a per-credential step is a fail row with its own code; anything else is not a fail. */
  lemma FailsAreFails(env: Env, k: nat, c: CredV)
    requires k < 6
    ensures Steps(env)[k](c).fail.Some? ==>
              Steps(env)[k](c).fail.value.outcome == Fail && Steps(env)[k](c).fail.value.specRef == ""
  {
    if k == 0 { assert Steps(env)[k](c) == ParseOne(env, c); }
    else if k == 1 { assert Steps(env)[k](c) == AuthOne(env, c); AuthFails(env, c); }
    else if k == 2 { assert Steps(env)[k](c) == IntegrityOne(c); }
    else if k == 3 { assert Steps(env)[k](c) == RevokeOne(env, c); RevokeFails(env, c); }
    else if k == 4 { assert Steps(env)[k](c) == BindOne(env, c); }
    else { assert Steps(env)[k](c) == UserOne(c); }
  }

  lemma AuthFails(env: Env, c: CredV)
    ensures AuthOne(env, c).fail.Some? ==>
      AuthOne(env, c).fail.value.outcome == Fail && AuthOne(env, c).fail.value.specRef == ""
  {
    var (c1, err) := VerifyFormat(env, c);
  }

  lemma RevokeFails(env: Env, c: CredV)
    ensures RevokeOne(env, c).fail.Some? ==>
      RevokeOne(env, c).fail.value.outcome == Fail && RevokeOne(env, c).fail.value.specRef == ""
  {
  }

  lemma ScanFailIsFail(env: Env, k: nat, cs: seq<CredV>)
    requires k < 6
    ensures Scan(Steps(env)[k], cs).fail.Some? ==> Scan(Steps(env)[k], cs).fail.value.outcome == Fail
  {
    var i := FirstFail(Steps(env)[k], cs);
    if i < |cs| {
      ScanStops(Steps(env)[k], cs, i);
      FailsAreFails(env, k, cs[i]);
    } else {
      ScanCompletes(Steps(env)[k], cs);
    }
  }

  /** Step 2 of the engine. */
  lemma EngineParses(env: Env, does: Does)
    requires Ships(env, does)
    requires Presented(does) != []
    ensures var s := Scan(ParseFn(env), Fresh(env, Presented(does)));
      (s.fail.None? ==> StateBefore(does, 2).creds == s.creds) && Reports(RowOf(does, 1), s)
  {
    StepUnfolds(env, does, 0);
    StepUnfolds(env, does, 1);
    assert StepAt(0) == ResponseIntegrity && StepAt(1) == Parse;
    ParseIsScan(env, Presented(does), []);
    ScanFailIsFail(env, 0, Fresh(env, Presented(does)));
    assert Fresh(env, Presented(does)) != [];
  }

  /** Lists that follow the steps one by one, and the rows that report each scan, are the step-major lists
      as long as the steps pass. */
  ghost predicate Followed(fs: seq<CredV -> One>, lists: seq<seq<CredV>>, rows: seq<CheckResult>, j: nat)
    requires |fs| == |rows| == |lists| - 1 && j < |fs|
  {
    var s := Scan(fs[j], lists[j]);
    Reports(rows[j], s) && (s.fail.None? ==> lists[j + 1] == s.creds)
  }

  lemma {:induction false} ListsFollow(
    fs: seq<CredV -> One>, cs: seq<CredV>, lists: seq<seq<CredV>>, rows: seq<CheckResult>, k: nat)
    requires |fs| == |rows| == |lists| - 1 && k <= |fs| && lists[0] == cs
    requires forall j :: 0 <= j < |fs| ==> Followed(fs, lists, rows, j)
    requires forall j :: 0 <= j < k ==> Passes(fs, j, cs)
    ensures lists[k] == CredsAfter(fs, k, cs)
    ensures forall j :: 0 <= j < k ==> rows[j].outcome != Fail
    ensures k < |fs| ==> Reports(rows[k], Scan(fs[k], CredsAfter(fs, k, cs)))
  {
    assert k < |fs| ==> Followed(fs, lists, rows, k);
    if k > 0 {
      ListsFollow(fs, cs, lists, rows, k - 1);
      assert Passes(fs, k - 1, cs) && Followed(fs, lists, rows, k - 1);
    }
  }

  ghost function Lists(env: Env, does: Does): seq<seq<CredV>> {
    seq(7, j requires 0 <= j < 7 => ListBefore(env, does, j))
  }

  ghost function ScanRows(does: Does): seq<CheckResult> {
    seq(6, j requires 0 <= j < 6 => RowOf(does, j + 1))
  }

  /** The list that scan j starts from. */
  ghost function ListBefore(env: Env, does: Does, j: nat): seq<CredV>
    requires j < 7
  {
    if j == 0 then Fresh(env, Presented(does)) else StateBefore(does, j + 1).creds
  }

  /** Row j + 1 reports scan j, which leads to the next list. */
  lemma ScanAt(env: Env, does: Does, j: nat)
    requires Ships(env, does) && Presented(does) != [] && j < 6
    ensures var s := Scan(Steps(env)[j], ListBefore(env, does, j));
      Reports(RowOf(does, j + 1), s) && (s.fail.None? ==> ListBefore(env, does, j + 1) == s.creds)
  {
    if j == 0 {
      EngineParses(env, does);
      assert Steps(env)[0] == ParseFn(env);
    } else {
      ScanStepOf(env, does, j + 1);
    }
  }

  /** Lists and rows of the run, given as any sequences that hold them. */
  lemma ListsOfRun(
    env: Env, does: Does, fs: seq<CredV -> One>, cs: seq<CredV>, lists: seq<seq<CredV>>, rows: seq<CheckResult>, k: nat)
    requires Ships(env, does) && Presented(does) != []
    requires fs == Steps(env) && |fs| == |rows| == 6 && |lists| == 7 && k <= 6
    requires forall j :: 0 <= j < 7 ==> lists[j] == ListBefore(env, does, j)
    requires forall j :: 0 <= j < 6 ==> rows[j] == RowOf(does, j + 1)
    requires cs == lists[0] && forall j :: 0 <= j < k ==> Passes(fs, j, cs)
    ensures lists[k] == CredsAfter(fs, k, cs)
    ensures forall j :: 0 <= j < k ==> rows[j].outcome != Fail
    ensures k < 6 ==> Reports(rows[k], Scan(fs[k], CredsAfter(fs, k, cs)))
  {
    forall j | 0 <= j < 6 ensures Followed(fs, lists, rows, j) {
      ScanAt(env, does, j);
    }
    ListsFollow(fs, cs, lists, rows, k);
  }

  /** The engine's list before scan k, once the scans before it met no fail, and the rows so far. */
  lemma EngineList(env: Env, does: Does, k: nat)
    requires Ships(env, does)
    requires k <= 6 && Presented(does) != []
    requires forall j :: 0 <= j < k ==> Passes(Steps(env), j, Fresh(env, Presented(does)))
    ensures ListBefore(env, does, k) == CredsAfter(Steps(env), k, Fresh(env, Presented(does)))
    ensures forall j :: 1 <= j <= k ==> RowOf(does, j).outcome != Fail
    ensures k < 6 ==>
      Reports(RowOf(does, k + 1), Scan(Steps(env)[k], CredsAfter(Steps(env), k, Fresh(env, Presented(does)))))
  {
    var lists, rows := Lists(env, does), ScanRows(does);
    ListsOfRun(env, does, Steps(env), Fresh(env, Presented(does)), lists, rows, k);
    forall j | 1 <= j <= k ensures RowOf(does, j).outcome != Fail {
      assert rows[j - 1] == RowOf(does, j);
    }
  }

  // ---- Theorem: step-major equals credential-major ----

  /** Where a presentation fails when it is presented alone: the index of the step (0 is parse, 5 is user
      binding) and the verdict, or None. */
  ghost function FailsAlone(env: Env, p: Presentation): Option<Stop> {
    StepOrder.Run(Steps(env), 0, [NewCred(p, env.zeroStatus)])
  }

  ghost predicate EarliestPresentation(env: Env, pres: seq<Presentation>, i: nat) {
    && i < |pres| && FailsAlone(env, pres[i]).Some?
    && (forall j :: 0 <= j < |pres| ==> !Before(FailsAlone(env, pres[j]), FailsAlone(env, pres[i])))
    && (forall j :: 0 <= j < i ==> Before(FailsAlone(env, pres[i]), FailsAlone(env, pres[j])))
  }

  /** A run of the ten checks over a non-empty list of presentations fails within steps 2 to 7 iff some
      presentation would fail alone. It then fails at the least of the steps at which they fail alone, with
      the code of the first presentation in list order that attains it: deferral and early exit never
      change which failure is reported. */
  lemma StepMajorEqualsCredentialMajor(env: Env, does: Does, sessionID: string)
    requires Ships(env, does)
    requires RowOf(does, 0).outcome != Fail && Presented(does) != []
    ensures var pres := Presented(does); var rep := RunTen(does, sessionID).1;
      && ((forall j :: 0 <= j < |pres| ==> FailsAlone(env, pres[j]).None?) <==> (rep.verified || |rep.checks| > 7))
      && (|rep.checks| <= 7 && !rep.verified ==>
            exists i: nat :: EarliestPresentation(env, pres, i) && StopsAs(rep, FailsAlone(env, pres[i]).value))
  {
    var pres, fs := Presented(does), Steps(env);
    var cs := Fresh(env, pres);
    var rep := RunTen(does, sessionID).1;
    forall j | 0 <= j < |pres| ensures FailsAlone(env, pres[j]) == Alone(fs, 0, cs[j]) {
      SingletonIsAlone(fs, 0, cs[j]);
    }
    StepMajorIsCredentialMajor(fs, 0, cs);
    EngineStops(env, does, TEN_CHECKS, sessionID);
    var stop := StepOrder.Run(fs, 0, cs);
    if stop.Some? {
      var i: nat :| EarliestFails(fs, 0, cs, i) && stop == Alone(fs, 0, cs[i]);
      assert EarliestPresentation(env, pres, i);
      assert StopsAs(rep, FailsAlone(env, pres[i]).value);
    }
  }

  /** The report of a run that stopped at that step, for that reason. */
  ghost predicate StopsAs(rep: ReportV, stop: Stop) {
    !rep.verified && |rep.checks| == stop.step + 2 && rep.failCode == stop.fail.code
  }

  /** The engine's run stops as the step-major run of its presentations does. */
  lemma EngineStops(env: Env, does: Does, checks: seq<Check>, sessionID: string)
    requires Ships(env, does) && checks == TEN_CHECKS
    requires RowOf(does, 0).outcome != Fail && Presented(does) != []
    ensures Stops(RunFrom(does, checks, START, NewReport(sessionID)).1,
      StepOrder.Run(Steps(env), 0, Fresh(env, Presented(does))))
  {
    StopsWithin(
      env, does, checks, sessionID, Steps(env), Fresh(env, Presented(does)), Lists(env, does), ScanRows(does));
  }

  lemma StopsWithin(
    env: Env, does: Does, checks: seq<Check>, sessionID: string,
    fs: seq<CredV -> One>, cs: seq<CredV>, lists: seq<seq<CredV>>, rows: seq<CheckResult>)
    requires Ships(env, does) && checks == TEN_CHECKS && RowOf(does, 0).outcome != Fail && Presented(does) != []
    requires fs == Steps(env) && |fs| == |rows| == 6 && |lists| == 7 && cs == lists[0]
    requires forall j :: 0 <= j < 7 ==> lists[j] == ListBefore(env, does, j)
    requires forall j :: 0 <= j < 6 ==> rows[j] == RowOf(does, j + 1)
    ensures Stops(RunFrom(does, checks, START, NewReport(sessionID)).1, StepOrder.Run(fs, 0, cs))
  {
    var k := FirstStop(fs, cs);
    ListsOfRun(env, does, fs, cs, lists, rows, k);
    StopsByScans(does, checks, sessionID, fs, cs, rows, k);
  }

  /** The report of a run of the ten checks in which the steps on credentials stop like this, or do not. */
  ghost predicate Stops(rep: ReportV, stop: Option<Stop>) {
    && (stop.None? ==> rep.verified || |rep.checks| > 7)
    && (stop.Some? ==> stop.value.step < 6 && StopsAs(rep, stop.value))
  }

  lemma StopsByScans(
    does: Does, checks: seq<Check>, sessionID: string, fs: seq<CredV -> One>, cs: seq<CredV>,
    rows: seq<CheckResult>, k: nat)
    requires k <= 6 && |rows| == 6 == |fs| && |checks| >= 7
    requires RowAt(does, checks, START, 0).outcome != Fail
    requires forall j :: 0 <= j < 6 ==> rows[j] == RowAt(does, checks, START, j + 1)
    requires forall j :: 0 <= j < k ==> rows[j].outcome != Fail
    requires k < 6 ==> Reports(rows[k], Scan(fs[k], CredsAfter(fs, k, cs)))
    requires StopsAtFirst(fs, cs, k)
    ensures Stops(RunFrom(does, checks, START, NewReport(sessionID)).1, StepOrder.Run(fs, 0, cs))
  {
    StopsByRows(does, checks, START, sessionID, rows, k, StepOrder.Run(fs, 0, cs));
  }

  /** The step-major run stops at step k, or nowhere. */
  ghost predicate StopsAtFirst(fs: seq<CredV -> One>, cs: seq<CredV>, k: nat)
    requires k <= |fs|
  {
    var stop := StepOrder.Run(fs, 0, cs);
    if k == |fs| then stop.None?
    else var fail := Scan(fs[k], CredsAfter(fs, k, cs)).fail; fail.Some? && stop == Some(Stop(k, fail.value))
  }

  /** Rows 1 to 6 of a run decide where it stops, once row 0 has passed. */
  lemma StopsByRows(
    does: Does, checks: seq<Check>, st: PState, sessionID: string, rows: seq<CheckResult>, k: nat, stop: Option<Stop>)
    requires k <= 6 && |rows| == 6 && |checks| >= 7
    requires RowAt(does, checks, st, 0).outcome != Fail
    requires forall j :: 0 <= j < 6 ==> rows[j] == RowAt(does, checks, st, j + 1)
    requires forall j :: 0 <= j < k ==> rows[j].outcome != Fail
    requires if k == 6 then stop.None? else
      stop.Some? && stop.value.step == k && rows[k].outcome == Fail && rows[k].code == stop.value.fail.code
    ensures Stops(RunFrom(does, checks, st, NewReport(sessionID)).1, stop)
  {
    forall j | 0 < j < k + 1 ensures RowAt(does, checks, st, j).outcome != Fail {
      assert rows[j - 1] == RowAt(does, checks, st, j - 1 + 1);
    }
    if k < 6 {
      RunGoes(does, checks, st, NewReport(sessionID), k + 1);
    } else {
      RunsPast(does, checks, st, NewReport(sessionID), 7);
    }
  }

  /** The first step that fails on the list, or their number: there the step-major run stops. */
  lemma FirstStop(fs: seq<CredV -> One>, cs: seq<CredV>) returns (k: nat)
    ensures k <= |fs| && forall j :: 0 <= j < k ==> Passes(fs, j, cs)
    ensures StopsAtFirst(fs, cs, k)
  {
    k := 0;
    while k < |fs| && Passes(fs, k, cs)
      invariant k <= |fs| && forall j :: 0 <= j < k ==> Passes(fs, j, cs)
    {
      k := k + 1;
    }
    RunReaches(fs, k, cs);
  }

  /** Passing the first k checks leaves either more than k rows or a verified run. */
  lemma {:induction false} RunsPast(does: Does, checks: seq<Check>, st: PState, rep: ReportV, k: nat)
    requires k <= |checks| && forall j :: 0 <= j < k ==> RowAt(does, checks, st, j).outcome != Fail
    ensures var r := RunFrom(does, checks, st, rep).1; r.verified || |r.checks| > |rep.checks| + k
    decreases |checks| - k
  {
    RunGoes(does, checks, st, rep, k);
    if k < |checks| && RowAt(does, checks, st, k).outcome != Fail {
      RunsPast(does, checks, st, rep, k + 1);
    }
  }
}
