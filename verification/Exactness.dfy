/** Exactly when the pipeline verifies a response, in terms of what the wallet sent and what the libraries
    answer, without mention of steps, rows or state. */
module Exactness {
  import opened Wrappers
  import opened ErrClass
  import opened PipelineTypes
  import opened Checks
  import opened StepOrder
  import opened PipelineRun
  import opened PipelineTheorems
  import opened Soundness
  import opened FailCodes

  /** What step 1 makes of the response: presentations and response code, or nothing. */
  ghost function Received(env: Env): Option<(seq<Presentation>, string)> {
    if env.dcapi then
      match env.processDCAPI(env.origin, env.rawBody) case Ok(pres) => Some((pres, "")) case Fault(_) => None
    else
      match env.processResponse(env.rawBody) case Ok(got) => Some(got) case Fault(_) => None
  }

  /** The credentials, each taken through steps 2 to 7 on its own. */
  ghost function Judged(env: Env, pres: seq<Presentation>): seq<CredV> {
    seq(|pres|, i requires 0 <= i < |pres| => After(Steps(env), 6, NewCred(pres[i], env.zeroStatus)))
  }

  ghost predicate AllPass(env: Env, pres: seq<Presentation>) {
    forall i :: 0 <= i < |pres| ==> FailsAlone(env, pres[i]).None?
  }

  /** What the credentials must meet together, and the handoff. */
  ghost predicate Together(env: Env, creds: seq<CredV>, responseCode: string) {
    && env.matchQuery(Candidates(creds)).satisfied && NoReuse(creds)
    && FinalizeFault(env, responseCode).None?
  }

  ghost predicate Acceptable(env: Env, pres: seq<Presentation>, responseCode: string) {
    pres != [] && AllPass(env, pres) && Together(env, Judged(env, pres), responseCode)
  }

  /** None of the first n rows is a fail. */
  ghost predicate PassedFirst(does: Does, n: nat)
    requires n <= 10
  {
    forall k :: 0 <= k < n ==> RowOf(does, k).outcome != Fail
  }

  /** A run is verified iff none of its ten rows is a fail. */
  lemma VerifiedIffAllPassed(env: Env, does: Does, sessionID: string)
    requires Ships(env, does)
    ensures RunTen(does, sessionID).1.verified <==> PassedFirst(does, 10)
  {
    if RunTen(does, sessionID).1.verified {
      RowsPassed(env, does, sessionID);
    } else {
      var k := FailedStep(env, does, sessionID);
    }
  }

  lemma FirstCheck(env: Env, does: Does)
    requires Ships(env, does)
    ensures RowOf(does, 0).outcome != Fail <==> Received(env).Some?
    ensures Received(env).Some? ==>
      StateBefore(does, 1) == PState(Received(env).value.0, Received(env).value.1, [], false)
  {
    assert StateBefore(does, 0) == START;
    Unfolded(env, does, 0, ResponseIntegrity);
  }

  /** Steps 2 to 7 touch nothing but the credentials. */
  lemma OnlyCreds(env: Env, does: Does, k: nat)
    requires Ships(env, does) && 1 <= k <= 7
    ensures StateBefore(does, k) == StateBefore(does, 1).(creds := StateBefore(does, k).creds)
  {
    if k == 2 {
      Unfolded(env, does, 1, Parse);
    } else if k > 2 {
      OnlyCreds(env, does, k - 1);
      ScanStepOf(env, does, k - 1);
    }
  }

  /** After steps 2 to 7 without a fail, the list holds each credential as judged alone. */
  lemma ListIsJudged(env: Env, does: Does)
    requires Ships(env, does)
    requires Presented(does) != [] && PassedFirst(does, 7)
    ensures StateBefore(does, 7).creds == Judged(env, Presented(does))
  {
    PassedSteps(env, does);
    ListAfter(Steps(env), 6, Fresh(env, Presented(does)));
  }

  lemma PassedFirstOn(does: Does, n: nat)
    requires n < 10
    ensures PassedFirst(does, n + 1) <==> PassedFirst(does, n) && RowOf(does, n).outcome != Fail
  {
  }

  /** Rows 1 to 6 hold no fail iff every presentation passes alone. */
  lemma MiddleRows(env: Env, does: Does, sessionID: string)
    requires Ships(env, does)
    requires RowOf(does, 0).outcome != Fail && Presented(does) != []
    ensures PassedFirst(does, 7)
      <==> forall i :: 0 <= i < |Presented(does)| ==> FailsAlone(env, Presented(does)[i]).None?
  {
    StepMajorEqualsCredentialMajor(env, does, sessionID);
    VerifiedIffAllPassed(env, does, sessionID);
    if !RunTen(does, sessionID).1.verified {
      var k := FailedStep(env, does, sessionID);
    }
  }

  /** A run that step 1 lets pass with something presented is decided by the presentations. */
  lemma PresentationsDecide(env: Env, does: Does, sessionID: string)
    requires Ships(env, does)
    requires RowOf(does, 0).outcome != Fail && Presented(does) != []
    ensures PassedFirst(does, 10) <==> Acceptable(env, Presented(does), StateBefore(does, 1).responseCode)
  {
    MiddleRows(env, does, sessionID);
    LastRows(env, does);
    PassedFirstOn(does, 7);
    PassedFirstOn(does, 8);
    PassedFirstOn(does, 9);
    OnlyCreds(env, does, 7);
    if PassedFirst(does, 7) {
      ListIsJudged(env, does);
    }
  }

  lemma EndsAsJudged(env: Env, does: Does, sessionID: string)
    requires Ships(env, does) && RunTen(does, sessionID).1.verified
    requires Presented(does) != []
    ensures Credentials(does) == Judged(env, Presented(does))
  {
    RowsPassed(env, does, sessionID);
    ListIsJudged(env, does);
    LastRows(env, does);
  }

  /** The pipeline verifies a response iff step 1 accepts it, it presents something, every presentation
      passes alone, together they answer the query without reusing a payload, and the result is handed off
      and disposed of without error. */
  lemma VerifiedExactly(env: Env, does: Does, sessionID: string)
    requires Ships(env, does)
    ensures RunTen(does, sessionID).1.verified
      <==> Received(env).Some? && Acceptable(env, Received(env).value.0, Received(env).value.1)
    ensures RunTen(does, sessionID).1.verified ==> Credentials(does) == Judged(env, Received(env).value.0)
  {
    FirstCheck(env, does);
    VerifiedIffAllPassed(env, does, sessionID);
    if Received(env).Some? {
      if Presented(does) == [] {
        NothingPresented(env, does);
        assert !PassedFirst(does, 10);
      } else {
        PresentationsDecide(env, does, sessionID);
        if RunTen(does, sessionID).1.verified {
          EndsAsJudged(env, does, sessionID);
        }
      }
    }
  }
}
