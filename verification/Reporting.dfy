/** What the report of a run of the ten checks tells besides its rows: the policy branches of the checks that
    ran, and the credentials once step 10 was reached. */
module Reporting {
  import opened Wrappers
  import opened ErrClass
  import opened PipelineTypes
  import opened Checks
  import opened PipelineRun
  import opened PipelineTheorems
  import opened Soundness
  import FlattenNames

  /** The report after the first k checks. */
  ghost function ReportAt(does: Does, checks: seq<Check>, st: PState, rep: ReportV, k: nat): ReportV
    requires k <= |checks|
  {
    if k == 0 then rep
    else
      Noted(ReportAt(does, checks, st, rep, k - 1), does(checks[k - 1], StateAt(does, checks, st, k - 1)),
            RowAt(does, checks, st, k - 1))
  }

  lemma {:induction false} RunContinues(does: Does, checks: seq<Check>, st: PState, rep: ReportV, k: nat)
    requires k <= |checks| && forall j :: 0 <= j < k ==> RowAt(does, checks, st, j).outcome != Fail
    ensures RunFrom(does, checks, st, rep)
      == RunFrom(does, checks[k..], StateAt(does, checks, st, k), ReportAt(does, checks, st, rep, k))
  {
    if k == 0 {
      assert checks[0..] == checks;
    } else {
      RunContinues(does, checks, st, rep, k - 1);
      assert checks[k - 1..][0] == checks[k - 1] && checks[k - 1..][1..] == checks[k..];
      assert RowAt(does, checks, st, k - 1).outcome != Fail;
    }
  }

  /** A run reports what its first n checks wrote, n being the number of its rows. */
  lemma RunReports(does: Does, checks: seq<Check>, st: PState, rep: ReportV)
    ensures var r := RunFrom(does, checks, st, rep).1;
      && |rep.checks| <= |r.checks| <= |rep.checks| + |checks|
      && var last := ReportAt(does, checks, st, rep, |r.checks| - |rep.checks|);
         r.policy == last.policy && r.credentials == last.credentials && r.checks == last.checks
  {
    var k := FirstFailing(does, checks, st, 0);
    RunContinues(does, checks, st, rep, k);
    RowsCounted(does, checks, st, rep, k);
    if k < |checks| {
      assert checks[k..][0] == checks[k];
      assert ReportAt(does, checks, st, rep, k + 1) == Noted(
        ReportAt(does, checks, st, rep, k), does(checks[k], StateAt(does, checks, st, k)), RowAt(does, checks, st, k));
      RowsCounted(does, checks, st, rep, k + 1);
    } else {
      assert checks[k..] == [];
    }
  }

  lemma {:induction false} FirstFailing(does: Does, checks: seq<Check>, st: PState, n: nat) returns (k: nat)
    requires n <= |checks| && forall j :: 0 <= j < n ==> RowAt(does, checks, st, j).outcome != Fail
    ensures n <= k <= |checks| && forall j :: 0 <= j < k ==> RowAt(does, checks, st, j).outcome != Fail
    ensures k < |checks| ==> RowAt(does, checks, st, k).outcome == Fail
    decreases |checks| - n
  {
    if n < |checks| && RowAt(does, checks, st, n).outcome != Fail {
      k := FirstFailing(does, checks, st, n + 1);
    } else {
      k := n;
    }
  }

  lemma {:induction false} RowsCounted(does: Does, checks: seq<Check>, st: PState, rep: ReportV, k: nat)
    requires k <= |checks|
    ensures |ReportAt(does, checks, st, rep, k).checks| == |rep.checks| + k
  {
    if k > 0 {
      RowsCounted(does, checks, st, rep, k - 1);
    }
  }

  // ---- the ten checks ----

  /** The entry of a policy branch: there once the check that reads it ran, and then the choice as the policy
      makes it, absent choices being true. */
  ghost predicate Branch(policy: map<string, bool>, name: string, ran: bool, choice: Option<bool>) {
    (name in policy <==> ran) && (ran ==> policy[name] == (choice != Some(false)))
  }

  ghost predicate Branches(env: Env, policy: map<string, bool>, n: nat) {
    && Branch(policy, "revocation_fail_closed", n >= 5, env.policy.revocationFailClosedP)
    && Branch(policy, "short_lived_exemption", n >= 5, env.policy.shortLivedExemptionP)
    && Branch(policy, "require_device_binding_sdjwt", n >= 6, env.policy.requireDeviceBindingSDJWTP)
  }

  /** What a credential is summarised as: never a claim value. */
  ghost predicate Tells(c: CredV, s: Summary) {
    && s.queryCredID == c.pres.queryCredID && s.format == c.pres.format && s.doctypeOrVCT == c.DoctypeOrVCT()
    && s.issuerCountry == (if c.issuer.Some? then c.issuer.value.issuer.anchorCountry else "")
    && s.claimNames == FlattenNames.Names(c.Claims(), "")
    && s.statusProvenance == c.statusProvenance
    && s.decoyDigests == (if c.sd.Some? then c.sd.value.decoyDigests else 0)
  }

  /** The policy branches that check k writes. */
  ghost function WrittenBy(env: Env, k: nat): map<string, bool> {
    if k == 4 then map["revocation_fail_closed" := env.policy.revocationFailClosedP != Some(false),
                       "short_lived_exemption" := env.policy.shortLivedExemptionP != Some(false)]
    else if k == 5 then
      map["require_device_binding_sdjwt" := env.policy.requireDeviceBindingSDJWTP != Some(false)]
    else map[]
  }

  /** What one check writes into the report. */
  lemma StepWrites(env: Env, k: nat, st: PState)
    requires k < 10
    ensures var out := RunStep(env, StepAt(k), st);
      && out.summaries == (if k == 9 then Summaries(st.creds) else [])
      && out.policy == WrittenBy(env, k)
  {
    if k < 2 { FirstStepsWrite(env, k, st); }
    else if k > 6 { LastStepsWrite(env, k, st); }
    else { MiddleStepsWrite(env, k, st); }
  }

  lemma MiddleStepsWrite(env: Env, k: nat, st: PState)
    requires 2 <= k <= 6
    ensures var out := RunStep(env, StepAt(k), st); out.summaries == [] && out.policy == WrittenBy(env, k)
  {
    if k == 4 || k == 5 {
      PolicyStepScans(env, k, st);
      assert StepAt(k) == if k == 4 then Revocation else DeviceBinding;
    } else {
      PlainStepScans(env, k, st);
    }
  }

  lemma FirstStepsWrite(env: Env, k: nat, st: PState)
    requires k < 2
    ensures var out := RunStep(env, StepAt(k), st); out.summaries == [] && out.policy == map[]
  {
    if k == 0 { assert StepAt(k) == ResponseIntegrity; }
    else { assert StepAt(k) == Parse; }
  }

  lemma LastStepsWrite(env: Env, k: nat, st: PState)
    requires 7 <= k < 10
    ensures var out := RunStep(env, StepAt(k), st);
      out.summaries == (if k == 9 then Summaries(st.creds) else []) && out.policy == map[]
  {
    if k == 7 { assert StepAt(k) == QueryFulfilment; }
    else if k == 8 { assert StepAt(k) == CombinedChecks; }
    else { assert StepAt(k) == AssembleForward; }
  }

  lemma BranchesGrow(env: Env, policy: map<string, bool>, k: nat)
    requires k < 10 && Branches(env, policy, k)
    ensures Branches(env, policy + WrittenBy(env, k), k + 1)
  {
  }

  /** What holds of the policy at first, and goes on to hold with what each check writes, holds at the end. */
  lemma {:induction false} PolicyGrows(
    does: Does, checks: seq<Check>, st: PState, rep: ReportV, told: (map<string, bool>, nat) -> bool, n: nat)
    requires n <= |checks| && told(rep.policy, 0)
    requires forall m, k: nat :: k < n && told(m, k) ==>
      told(m + does(checks[k], StateAt(does, checks, st, k)).policy, k + 1)
    ensures told(ReportAt(does, checks, st, rep, n).policy, n)
  {
    if n > 0 {
      PolicyGrows(does, checks, st, rep, told, n - 1);
    }
  }

  ghost predicate SummarisesNone(does: Does, checks: seq<Check>, st: PState, k: nat)
    requires k < |checks|
  {
    does(checks[k], StateAt(does, checks, st, k)).summaries == []
  }

  lemma {:induction false} NoneSummarised(does: Does, checks: seq<Check>, st: PState, rep: ReportV, n: nat)
    requires n <= |checks|
    requires forall k: nat :: k < n ==> SummarisesNone(does, checks, st, k)
    ensures ReportAt(does, checks, st, rep, n).credentials == rep.credentials
  {
    if n > 0 {
      NoneSummarised(does, checks, st, rep, n - 1);
      assert SummarisesNone(does, checks, st, n - 1);
    }
  }

  lemma CheckWrites(env: Env, does: Does, checks: seq<Check>, k: nat)
    requires Ships(env, does) && checks == TEN_CHECKS && k < 10
    ensures var out := does(checks[k], StateAt(does, checks, START, k));
      out.policy == WrittenBy(env, k) && out.summaries == (if k == 9 then Summaries(Credentials(does)) else [])
  {
    assert does(TEN_CHECKS[k], StateBefore(does, k)) == RunStep(env, StepAt(k), StateBefore(does, k));
    StepWrites(env, k, StateBefore(does, k));
  }

  lemma PolicyTold(env: Env, does: Does, checks: seq<Check>, rep: ReportV, n: nat)
    requires Ships(env, does) && checks == TEN_CHECKS && n <= 10 && rep.policy == map[]
    ensures Branches(env, ReportAt(does, checks, START, rep, n).policy, n)
  {
    var told := (m: map<string, bool>, k: nat) => Branches(env, m, k);
    forall m, k: nat | k < n && told(m, k)
      ensures told(m + does(checks[k], StateAt(does, checks, START, k)).policy, k + 1)
    {
      CheckWrites(env, does, checks, k);
      BranchesGrow(env, m, k);
    }
    PolicyGrows(does, checks, START, rep, told, n);
  }

  lemma SummariesTold(env: Env, does: Does, checks: seq<Check>, rep: ReportV, n: nat)
    requires Ships(env, does) && checks == TEN_CHECKS && n <= 10 && rep.credentials == []
    ensures ReportAt(does, checks, START, rep, n).credentials == if n == 10 then Summaries(Credentials(does)) else []
  {
    var m := if n == 10 then 9 else n;
    forall k: nat | k < m ensures SummarisesNone(does, checks, START, k) {
      CheckWrites(env, does, checks, k);
    }
    NoneSummarised(does, checks, START, rep, m);
    if n == 10 {
      CheckWrites(env, does, checks, 9);
    }
  }

  /** A report names the policy branches of the checks that ran, with the choices of the policy, and summarises
      every credential, in order, once step 10 was reached, and none before. */
  lemma ReportTells(env: Env, does: Does, sessionID: string)
    requires Ships(env, does)
    ensures var r := RunTen(does, sessionID).1; var cs := Credentials(does);
      && Branches(env, r.policy, |r.checks|)
      && |r.credentials| == (if |r.checks| == 10 then |cs| else 0)
      && forall i :: 0 <= i < |r.credentials| ==> Tells(cs[i], r.credentials[i])
  {
    var n := |RunTen(does, sessionID).1.checks|;
    RunReports(does, TEN_CHECKS, START, NewReport(sessionID));
    PolicyTold(env, does, TEN_CHECKS, NewReport(sessionID), n);
    SummariesTold(env, does, TEN_CHECKS, NewReport(sessionID), n);
  }
}
