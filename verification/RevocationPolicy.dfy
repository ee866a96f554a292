/** internal/pipeline/check_revocation.go and internal/policy: what fail-closed guarantees, what a skip
    shows, and why relaxing the policy is monotone. */
module RevocationPolicy {
  import opened Wrappers
  import opened ErrClass
  import opened PipelineTypes
  import opened Checks
  import opened StepOrder
  import opened PipelineRun
  import opened PipelineTheorems
  import opened Soundness

  /** The status of a verified credential was looked up and not concluded. */
  ghost predicate StatusWasSkipped(env: Env, c: CredV) {
    var a := StatusAnswerOf(env, c);
    a.Some? && (a.value.provenance == SkippedByLifetime || a.value.provenance == SkippedFailOpen)
  }

  /** The checker gave a definite answer that is not a revocation. */
  ghost predicate Conclusive(a: StatusAnswer) {
    a.err.None? && a.status != StatusRevoked && a.status != StatusSuspended && a.status != StatusUnknown
  }

  /** The credential is short-lived, and the policy does not forbid to skip its status for that. */
  ghost predicate Exempt(env: Env, c: CredV, a: StatusAnswer) {
    a.provenance == SkippedByLifetime && env.policy.shortLivedExemptionP != Some(false) && ValidityWindow(c) != 0
  }

  /** Under fail-closed policy, every credential of a verified run that carries a status reference has a
      conclusive status that is not a revocation, or a lifetime exemption that the policy allowed. */
  lemma FailClosedSettles(env: Env, does: Does, sessionID: string)
    requires Ships(env, does)
    requires RunTen(does, sessionID).1.verified
    requires env.policy.revocationFailClosedP != Some(false) && StatusContract(env)
    ensures forall c :: c in Credentials(does) && StatusAnswerOf(env, c).Some? ==>
      var a := StatusAnswerOf(env, c).value;
      Conclusive(a) || Exempt(env, c, a)
  {
    VerifiedSoundness(env, does, sessionID);
    forall c | c in Credentials(does) && StatusAnswerOf(env, c).Some?
      ensures var a := StatusAnswerOf(env, c).value;
        Conclusive(a) || Exempt(env, c, a)
    {
      SettledClosed(env, c);
    }
  }

  lemma SettledClosed(env: Env, c: CredV)
    requires Sound(env, c) && StatusAnswerOf(env, c).Some? && StatusContract(env)
    requires env.policy.revocationFailClosedP != Some(false)
    ensures var a := StatusAnswerOf(env, c).value;
      Conclusive(a) || Exempt(env, c, a)
  {
    AsksStatus(env, c);
    var input := StatusInputFor(env, c, StatusRefOf(c).value);
    var a := env.checkStatus(input);
    assert !input.allowFailOpen;
    assert a.provenance == SkippedFailOpen ==> input.allowFailOpen;
    assert a.provenance == SkippedByLifetime ==> input.validity != 0;
  }

  // ---- skips are visible ----

  /** Step 5 skips a credential that step 6 will fail, and one whose status was not concluded. */
  lemma SkippedIff(env: Env, c: CredV)
    requires DeferredTo(c, DeviceBinding) || Authentic(env, c)
    ensures RevokeOne(env, c).skipped <==> DeferredTo(c, DeviceBinding) || StatusWasSkipped(env, c)
  {
    if !DeferredTo(c, DeviceBinding) {
      AsksStatus(env, c);
    }
  }

  lemma StatusSkipKept(env: Env, c: CredV, d: CredV)
    requires SameEvidence(c, d)
    ensures StatusWasSkipped(env, c) <==> StatusWasSkipped(env, d)
  {
  }

  ghost predicate SomeSkipped(env: Env, cs: seq<CredV>) {
    exists i :: 0 <= i < |cs| && RevokeOne(env, cs[i]).skipped
  }

  /** Of any run whose revocation row is not a fail: the row is skipped, never pass, iff the step skipped
      some credential, a pending binding failure included. */
  lemma RevocationRow(env: Env, does: Does)
    requires Ships(env, does) && RowOf(does, 4).outcome != Fail
    ensures var row := RowOf(does, 4);
      if SomeSkipped(env, StateBefore(does, 4).creds)
      then row.outcome == Skipped && row.code == Note("revocation-partially-skipped")
      else row.outcome == Pass
  {
    var f, cs := RevokeFn(env), StateBefore(does, 4).creds;
    ScanStepOf(env, does, 4);
    assert Steps(env)[3] == f;
    var i := FirstFail(f, cs);
    if i < |cs| {
      ScanStops(f, cs, i);
    }
    ScanCompletes(f, cs);
    assert forall k :: 0 <= k < |cs| ==> f(cs[k]) == RevokeOne(env, cs[k]);
  }

  /** Steps 5 to 7 keep the evidence of a credential that was not deferred. */
  lemma EvidenceKept(env: Env, c: CredV)
    requires c.deferred.None? && RevokeOne(env, c).fail.None? && (c.pres.format == SDJWT || c.pres.format == Mdoc)
    ensures SameEvidence(c, BindOne(env, RevokeOne(env, c).cred).cred)
  {
    RevokeKeeps(env, c);
    BindKeeps(env, RevokeOne(env, c).cred);
  }

  /** One credential that passes every step: it was not deferred, and its status was skipped by step 5 iff
      its final state says so. */
  lemma SkipSeenAtEnd(env: Env, p: Presentation)
    requires var fs, c0 := Steps(env), NewCred(p, env.zeroStatus);
      forall k :: 0 <= k < 6 ==> fs[k](After(fs, k, c0)).fail.None?
    ensures var fs, c0 := Steps(env), NewCred(p, env.zeroStatus);
      RevokeOne(env, After(fs, 3, c0)).skipped <==> StatusWasSkipped(env, After(fs, 6, c0))
  {
    var fs, c0 := Steps(env), NewCred(p, env.zeroStatus);
    CredentialSound(env, p);
    var c3, c4, c5 := After(fs, 3, c0), After(fs, 4, c0), After(fs, 5, c0);
    assert c4 == fs[3](c3).cred == RevokeOne(env, c3).cred && c5 == fs[4](c4).cred == BindOne(env, c4).cred;
    assert After(fs, 6, c0) == fs[5](c5).cred == c5;
    assert fs[3](c3).fail.None? && fs[4](c4).fail.None? && fs[2](After(fs, 2, c0)).fail.None?;
    DeferralsStay(env, c3);
    EvidenceKept(env, c3);
    AuthenticKept(env, c5, c3);
    StatusSkipKept(env, c3, c5);
    SkippedIff(env, c3);
  }

  /** What is deferred before step 5 is deferred after step 6, and so is the format. */
  lemma DeferralsStay(env: Env, c: CredV)
    ensures var d := BindOne(env, RevokeOne(env, c).cred).cred; d.deferred == c.deferred && d.pres == c.pres
  {
    RevokeDefersNot(env, c);
    BindDefersNot(env, RevokeOne(env, c).cred);
  }

  lemma RevokeDefersNot(env: Env, c: CredV)
    ensures var d := RevokeOne(env, c).cred; d.deferred == c.deferred && d.pres == c.pres
  {
  }

  lemma BindDefersNot(env: Env, c: CredV)
    ensures var d := BindOne(env, c).cred; d.deferred == c.deferred && d.pres == c.pres
  {
  }

  /** The lists of a run that passed, credential by credential. */
  lemma ListsOfCredentials(env: Env, does: Does)
    requires Ships(env, does) && Presented(does) != []
    requires forall k :: 0 <= k < 10 ==> RowOf(does, k).outcome != Fail
    ensures var fs, cs := Steps(env), Fresh(env, Presented(does));
      && |StateBefore(does, 4).creds| == |StateBefore(does, 7).creds| == |cs|
      && (forall i :: 0 <= i < |cs| ==>
            StateBefore(does, 4).creds[i] == After(fs, 3, cs[i])
              && StateBefore(does, 7).creds[i] == After(fs, 6, cs[i]))
      && (forall i, k :: 0 <= i < |cs| && 0 <= k < 6 ==> fs[k](After(fs, k, cs[i])).fail.None?)
  {
    PassedSteps(env, does);
    EngineList(env, does, 3);
    ListAfter(Steps(env), 3, Fresh(env, Presented(does)));
    ListAfter(Steps(env), 6, Fresh(env, Presented(does)));
  }

  lemma SkipsAgree(env: Env, does: Does)
    requires Ships(env, does) && Presented(does) != []
    requires forall k :: 0 <= k < 10 ==> RowOf(does, k).outcome != Fail
    ensures var before, end := StateBefore(does, 4).creds, StateBefore(does, 7).creds;
      |before| == |end| && forall i :: 0 <= i < |end| ==>
        (RevokeOne(env, before[i]).skipped <==> StatusWasSkipped(env, end[i]))
  {
    ListsOfCredentials(env, does);
    var pres, cs := Presented(does), Fresh(env, Presented(does));
    forall i | 0 <= i < |pres|
      ensures RevokeOne(env, After(Steps(env), 3, cs[i])).skipped <==>
        StatusWasSkipped(env, After(Steps(env), 6, cs[i]))
    {
      var c0 := NewCred(pres[i], env.zeroStatus);
      assert cs[i] == c0;
      forall k | 0 <= k < 6 ensures Steps(env)[k](After(Steps(env), k, c0)).fail.None? {
        assert Steps(env)[k](After(Steps(env), k, cs[i])).fail.None?;
      }
      SkipSeenAtEnd(env, pres[i]);
    }
  }

  lemma PassedRun(env: Env, does: Does, sessionID: string)
    requires Ships(env, does) && RunTen(does, sessionID).1.verified
    ensures Presented(does) != [] && Credentials(does) == StateBefore(does, 7).creds
    ensures forall k :: 0 <= k < 10 ==> RowOf(does, k).outcome != Fail
  {
    RowsPassed(env, does, sessionID);
    if Presented(does) == [] {
      NothingPresented(env, does);
    }
    LastRows(env, does);
  }

  /** Of a verified run: the revocation row is skipped, never pass, iff the status of some credential was not
      concluded. */
  lemma SkippedNotPassed(env: Env, does: Does, sessionID: string)
    requires Ships(env, does) && RunTen(does, sessionID).1.verified
    ensures RowOf(does, 4).outcome ==
      if exists i :: 0 <= i < |Credentials(does)| && StatusWasSkipped(env, Credentials(does)[i]) then Skipped else Pass
  {
    PassedRun(env, does, sessionID);
    RevocationRow(env, does);
    SkipsAgree(env, does);
  }

  // ---- relaxing the policy ----

  /** The same wiring under a policy that lets an unresolved status through. */
  function Relaxed(env: Env): Env {
    env.(policy := env.policy.(revocationFailClosedP := Some(false)))
  }

  /** go-statuslist: allowing fail-open changes inconclusive answers only. */
  ghost predicate FailOpenContract(env: Env) {
    forall input: StatusInput | !input.allowFailOpen && AnswersWithoutFailOpen(env.checkStatus(input)) ::
      env.checkStatus(input.(allowFailOpen := true)) == env.checkStatus(input)
  }

  predicate AnswersWithoutFailOpen(a: StatusAnswer) {
    (a.err.None? && a.status != StatusUnknown) || a.provenance == SkippedByLifetime || a.provenance == SkippedFailOpen
  }

  lemma RevokeRelaxed(env: Env, c: CredV)
    requires FailOpenContract(env) && RevokeOne(env, c).fail.None?
    ensures RevokeOne(Relaxed(env), c) == RevokeOne(env, c)
  {
    if !DeferredTo(c, DeviceBinding) && StatusRefOf(c).Some? {
      var ref := StatusRefOf(c).value;
      var input := StatusInputFor(env, c, ref);
      assert StatusInputFor(Relaxed(env), c, ref) == input.(allowFailOpen := true);
      if input.allowFailOpen {
        assert input.(allowFailOpen := true) == input;
      } else {
        assert AnswersWithoutFailOpen(env.checkStatus(input));
      }
    }
  }

  lemma {:induction false} ScanSame(f: CredV -> One, g: CredV -> One, cs: seq<CredV>)
    requires forall c :: c in cs ==> f(c) == g(c)
    ensures Scan(f, cs) == Scan(g, cs)
  {
    if cs != [] {
      assert cs[0] in cs;
      ScanSame(f, g, cs[1..]);
    }
  }

  lemma ScanRevokeRelaxed(env: Env, cs: seq<CredV>)
    requires FailOpenContract(env) && Scan(RevokeFn(env), cs).fail.None?
    ensures Scan(RevokeFn(Relaxed(env)), cs) == Scan(RevokeFn(env), cs)
  {
    var i := FirstFail(RevokeFn(env), cs);
    if i < |cs| {
      ScanStops(RevokeFn(env), cs, i);
    }
    forall c | c in cs ensures RevokeFn(Relaxed(env))(c) == RevokeFn(env)(c) {
      var k :| 0 <= k < |cs| && cs[k] == c;
      assert RevokeFn(env)(cs[k]).fail.None?;
      RevokeRelaxed(env, c);
    }
    ScanSame(RevokeFn(Relaxed(env)), RevokeFn(env), cs);
  }

  /** No other step reads the relaxed choice. */
  lemma OtherStepsRelaxed(env: Env, cs: seq<CredV>)
    ensures Scan(AuthFn(Relaxed(env)), cs) == Scan(AuthFn(env), cs)
    ensures Scan(BindFn(Relaxed(env)), cs) == Scan(BindFn(env), cs)
  {
    forall c | c in cs ensures AuthFn(Relaxed(env))(c) == AuthFn(env)(c) {
      AuthRelaxed(env, c);
    }
    ScanSame(AuthFn(Relaxed(env)), AuthFn(env), cs);
    ScanSame(BindFn(Relaxed(env)), BindFn(env), cs);
  }

  lemma AuthRelaxed(env: Env, c: CredV)
    ensures AuthOne(Relaxed(env), c) == AuthOne(env, c)
  {
    assert VerifySDJWT(Relaxed(env), c) == VerifySDJWT(env, c);
    assert VerifyMdoc(Relaxed(env), c) == VerifyMdoc(env, c);
  }

  lemma {:induction false} ParseRelaxed(env: Env, pres: seq<Presentation>, done: seq<CredV>)
    ensures ParseAll(Relaxed(env), pres, done) == ParseAll(env, pres, done)
    decreases |pres|
  {
    if pres != [] {
      var one := ParseOne(env, NewCred(pres[0], env.zeroStatus));
      assert ParseOne(Relaxed(env), NewCred(pres[0], env.zeroStatus)) == one;
      if one.fail.None? {
        ParseRelaxed(env, pres[1..], done + [one.cred]);
      }
    }
  }

  /** A check that does not fail does the same under the relaxed policy. */
  lemma StepRelaxed(env: Env, step: StepName, st: PState)
    requires FailOpenContract(env) && Finish(step, RunStep(env, step, st).answer).outcome != Fail
    ensures var a, b := RunStep(Relaxed(env), step, st), RunStep(env, step, st); a.st == b.st && a.answer == b.answer
  {
    match step
    case Parse => ParseRelaxed(env, st.presentations, st.creds);
    case IssuerAuthenticity => OtherStepsRelaxed(env, st.creds);
    case Revocation =>
      var s := Scan(RevokeFn(env), st.creds);
      if s.fail.Some? {
        ScanFailIsFail(env, 3, st.creds);
      }
      ScanRevokeRelaxed(env, st.creds);
    case DeviceBinding => OtherStepsRelaxed(env, st.creds);
    case _ =>
  }

  /** Wherever a check of the list does not fail under one behaviour, it does the same under the other. */
  ghost predicate Follows(does: Does, other: Does, checks: seq<Check>) {
    forall c, st {:trigger FollowsAt(does, other, c, st)} | c in checks :: FollowsAt(does, other, c, st)
  }

  ghost predicate FollowsAt(does: Does, other: Does, c: Check, st: PState) {
    Finish(c.Name(), does(c, st).answer).outcome != Fail ==>
      other(c, st).st == does(c, st).st && other(c, st).answer == does(c, st).answer
  }

  lemma {:induction false} StatesFollow(does: Does, other: Does, checks: seq<Check>, st: PState, k: nat)
    requires k <= |checks| && Follows(does, other, checks)
    requires forall j :: 0 <= j < k ==> RowAt(does, checks, st, j).outcome != Fail
    ensures StateAt(other, checks, st, k) == StateAt(does, checks, st, k)
  {
    if k > 0 {
      StatesFollow(does, other, checks, st, k - 1);
      assert RowAt(does, checks, st, k - 1).outcome != Fail;
      OneFollows(does, other, checks, k - 1, StateAt(does, checks, st, k - 1));
    }
  }

  lemma RowFollows(does: Does, other: Does, checks: seq<Check>, st: PState, k: nat)
    requires k < |checks| && Follows(does, other, checks)
    requires forall j :: 0 <= j <= k ==> RowAt(does, checks, st, j).outcome != Fail
    ensures RowAt(other, checks, st, k) == RowAt(does, checks, st, k)
  {
    StatesFollow(does, other, checks, st, k);
    assert RowAt(does, checks, st, k).outcome != Fail;
    OneFollows(does, other, checks, k, StateAt(does, checks, st, k));
  }

  lemma OneFollows(does: Does, other: Does, checks: seq<Check>, j: nat, s: PState)
    requires j < |checks| && Follows(does, other, checks)
    requires Finish(checks[j].Name(), does(checks[j], s).answer).outcome != Fail
    ensures other(checks[j], s).st == does(checks[j], s).st && other(checks[j], s).answer == does(checks[j], s).answer
  {
    assert FollowsAt(does, other, checks[j], s);
  }

  lemma RelaxedFollows(env: Env, does: Does, other: Does)
    requires FailOpenContract(env) && Ships(env, does) && Ships(Relaxed(env), other)
    ensures Follows(does, other, TEN_CHECKS)
  {
    forall c, st | c in TEN_CHECKS && Finish(c.Name(), does(c, st).answer).outcome != Fail
      ensures FollowsAt(does, other, c, st)
    {
      assert c == Shipped(c.step);
      assert RunStep(env, c.step, st) == does(c, st) && RunStep(Relaxed(env), c.step, st) == other(c, st);
      StepRelaxed(env, c.step, st);
    }
  }

  /** Relaxing only revocation_fail_closed never turns a verified run into a failed one, and changes none
      of its rows. */
  lemma RelaxingKeepsVerified(env: Env, does: Does, other: Does, sessionID: string)
    requires FailOpenContract(env) && Ships(env, does) && Ships(Relaxed(env), other)
    requires RunTen(does, sessionID).1.verified
    ensures RunTen(other, sessionID).1.verified && Credentials(other) == Credentials(does)
    ensures forall k :: 0 <= k < 10 ==> RowOf(other, k) == RowOf(does, k)
  {
    RelaxedFollows(env, does, other);
    KeepsVerified(does, other, TEN_CHECKS, START, NewReport(sessionID), 9);
  }

  lemma KeepsVerified(does: Does, other: Does, checks: seq<Check>, st: PState, rep: ReportV, k: nat)
    requires k <= |checks| && Follows(does, other, checks) && RunFrom(does, checks, st, rep).1.verified
    ensures RunFrom(other, checks, st, rep).1.verified
    ensures StateAt(other, checks, st, k) == StateAt(does, checks, st, k)
    ensures forall j :: 0 <= j < |checks| ==> RowAt(other, checks, st, j) == RowAt(does, checks, st, j)
  {
    VerifiedPassedAll(does, checks, st, rep, |checks|);
    StatesFollow(does, other, checks, st, k);
    forall j | 0 <= j < |checks| ensures RowAt(other, checks, st, j) == RowAt(does, checks, st, j) {
      RowFollows(does, other, checks, st, j);
    }
    RunGoes(does, checks, st, rep, |checks|);
    RunGoes(other, checks, st, rep, |checks|);
  }
}
