/** What a run of the ten checks decides and reports, read off what the wallet sent and what the libraries
    answer: when it verifies, what refuses it, and what its report tells. */
module Verdicts {
  import opened Wrappers
  import opened ErrClass
  import opened PipelineTypes
  import opened Checks
  import opened StepOrder
  import opened PipelineRun
  import opened PipelineTheorems
  import opened Soundness
  import opened Exactness
  import opened Rulings
  import opened RevocationPolicy

  // ---- when a response is verified ----

  /** What the matcher is told of one credential. */
  ghost predicate Offers(c: CredV, cand: Candidate) {
    && cand.queryCredID == c.pres.queryCredID && cand.format == c.pres.format
    && cand.doctypeOrVCT == c.DoctypeOrVCT() && cand.claims == c.Claims() && cand.holderBound
  }

  ghost predicate QueryAnswered(env: Env, creds: seq<CredV>) {
    exists cands: seq<Candidate> ::
      |cands| == |creds| && (forall i :: 0 <= i < |creds| ==> Offers(creds[i], cands[i]))
      && env.matchQuery(cands).satisfied
  }

  /** The credential is what this presentation soundly becomes. */
  ghost predicate OutcomeOf(env: Env, p: Presentation, c: CredV) {
    c.pres == p && Sound(env, c)
  }

  ghost predicate Outcomes(env: Env, pres: seq<Presentation>, creds: seq<CredV>) {
    |creds| == |pres| && forall i :: 0 <= i < |pres| ==> OutcomeOf(env, pres[i], creds[i])
  }

  ghost predicate NoPayloadTwice(pres: seq<Presentation>) {
    forall i, j :: 0 <= i < j < |pres| && pres[i].queryCredID != pres[j].queryCredID ==>
      pres[i].payload != pres[j].payload
  }

  /** Together the credentials answer the query, no payload answers two query ids, and delivery and disposal
      meet no error. */
  ghost predicate AcceptsTogether(env: Env, pres: seq<Presentation>, responseCode: string, creds: seq<CredV>) {
    && QueryAnswered(env, creds) && NoPayloadTwice(pres)
    && env.deliverFault.None?
    && (if responseCode != "" then env.saveFault.None? else env.deleteFault.None?)
  }

  /** Every presentation has a sound outcome, and together they are accepted. */
  ghost predicate Accepts(env: Env, pres: seq<Presentation>, responseCode: string, creds: seq<CredV>) {
    pres != [] && Outcomes(env, pres, creds) && AcceptsTogether(env, pres, responseCode, creds)
  }

  lemma MatchedExactly(env: Env, creds: seq<CredV>)
    requires forall c :: c in creds ==> c.holderBound
    ensures QueryAnswered(env, creds) <==> env.matchQuery(Candidates(creds)).satisfied
  {
    forall i | 0 <= i < |creds| ensures Offers(creds[i], Candidates(creds)[i]) {
      assert creds[i] in creds;
    }
    if QueryAnswered(env, creds) {
      var cands: seq<Candidate> :| |cands| == |creds| && (forall i :: 0 <= i < |creds| ==> Offers(creds[i], cands[i]))
        && env.matchQuery(cands).satisfied;
      forall i | 0 <= i < |creds| ensures cands[i] == Candidates(creds)[i] {
        assert Offers(creds[i], cands[i]) && Offers(creds[i], Candidates(creds)[i]);
      }
      assert cands == Candidates(creds);
    }
  }

  lemma JudgedExactly(env: Env, pres: seq<Presentation>, creds: seq<CredV>)
    ensures Outcomes(env, pres, creds) <==> AllPass(env, pres) && creds == Judged(env, pres)
  {
    if |creds| == |pres| {
      forall i | 0 <= i < |pres|
        ensures OutcomeOf(env, pres[i], creds[i]) <==>
          FailsAlone(env, pres[i]).None? && creds[i] == Judged(env, pres)[i]
      {
        OneJudged(env, pres[i], creds[i]);
      }
    }
  }

  lemma OneJudged(env: Env, p: Presentation, c: CredV)
    ensures OutcomeOf(env, p, c) <==>
      FailsAlone(env, p).None? && c == After(Steps(env), 6, NewCred(p, env.zeroStatus))
  {
    var end := After(Steps(env), 6, NewCred(p, env.zeroStatus));
    if c.pres == p {
      AcceptedExactly(env, p, c);
    }
    if FailsAlone(env, p).None? {
      SingletonIsAlone(Steps(env), 0, NewCred(p, env.zeroStatus));
      AlonePasses(Steps(env), NewCred(p, env.zeroStatus), 6);
      CredentialSound(env, p);
    }
  }

  lemma AcceptsExactly(env: Env, pres: seq<Presentation>, responseCode: string, creds: seq<CredV>)
    ensures Accepts(env, pres, responseCode, creds) <==>
      Acceptable(env, pres, responseCode) && creds == Judged(env, pres)
  {
    JudgedExactly(env, pres, creds);
    if Outcomes(env, pres, creds) {
      TogetherExactly(env, pres, responseCode, creds);
    }
  }

  lemma TogetherExactly(env: Env, pres: seq<Presentation>, responseCode: string, creds: seq<CredV>)
    requires Outcomes(env, pres, creds)
    ensures AcceptsTogether(env, pres, responseCode, creds) <==> Together(env, creds, responseCode)
  {
    OutcomesAnswer(env, pres, creds);
    SameReuse(pres, creds);
  }

  lemma OutcomesAnswer(env: Env, pres: seq<Presentation>, creds: seq<CredV>)
    requires Outcomes(env, pres, creds)
    ensures QueryAnswered(env, creds) <==> env.matchQuery(Candidates(creds)).satisfied
    ensures forall i :: 0 <= i < |pres| ==> creds[i].pres == pres[i]
  {
    forall c | c in creds ensures c.holderBound {
      var i :| 0 <= i < |creds| && creds[i] == c;
      assert OutcomeOf(env, pres[i], creds[i]);
    }
    forall i | 0 <= i < |pres| ensures creds[i].pres == pres[i] {
      assert OutcomeOf(env, pres[i], creds[i]);
    }
    MatchedExactly(env, creds);
  }

  lemma SameReuse(pres: seq<Presentation>, creds: seq<CredV>)
    requires |creds| == |pres| && forall i :: 0 <= i < |pres| ==> creds[i].pres == pres[i]
    ensures NoReuse(creds) <==> NoPayloadTwice(pres)
  {
    if NoReuse(creds) {
      forall i, j | 0 <= i < j < |pres| && pres[i].queryCredID != pres[j].queryCredID
        ensures pres[i].payload != pres[j].payload
      {
        assert creds[i].pres == pres[i] && creds[j].pres == pres[j];
      }
    }
  }

  /** The pipeline verifies a response iff step 1 accepts it and there are credentials, sound outcomes of the
      presentations one by one, with which it is accepted; it ends with just those. */
  lemma VerifiedOnAnswers(env: Env, does: Does, sessionID: string)
    requires Ships(env, does)
    ensures RunTen(does, sessionID).1.verified <==> Received(env).Some? && exists creds ::
      Accepts(env, Received(env).value.0, Received(env).value.1, creds)
    ensures RunTen(does, sessionID).1.verified ==>
      Accepts(env, Received(env).value.0, Received(env).value.1, Credentials(does))
  {
    VerifiedExactly(env, does, sessionID);
    if Received(env).Some? {
      var (pres, code) := Received(env).value;
      forall creds
        ensures Accepts(env, pres, code, creds) <==> Acceptable(env, pres, code) && creds == Judged(env, pres)
      {
        AcceptsExactly(env, pres, code, creds);
      }
      assert Acceptable(env, pres, code) ==> Accepts(env, pres, code, Judged(env, pres));
    }
  }

  // ---- what refuses it ----

  ghost predicate RuledEarlier(a: Option<(nat, Code)>, b: Option<(nat, Code)>) {
    a.Some? && (b.None? || a.value.0 < b.value.0)
  }

  /** The ruling on presentation i is of the earliest step, and the first of that step. */
  ghost predicate EarliestRuling(env: Env, pres: seq<Presentation>, i: nat) {
    && i < |pres| && RulingOf(env, pres[i]).Some?
    && (forall j :: 0 <= j < |pres| ==> !RuledEarlier(RulingOf(env, pres[j]), RulingOf(env, pres[i])))
    && (forall j :: 0 <= j < i ==> RuledEarlier(RulingOf(env, pres[i]), RulingOf(env, pres[j])))
  }

  /** A response that step 1 accepts and that presents something fails within steps 2 to 7 iff some
      presentation is ruled out, and then at the step and with the code of the earliest ruling. */
  lemma RefusedOnAnswers(env: Env, does: Does, sessionID: string)
    requires Ships(env, does) && Received(env).Some? && Received(env).value.0 != []
    ensures var pres := Received(env).value.0; var rep := RunTen(does, sessionID).1;
      && ((exists j :: 0 <= j < |pres| && RulingOf(env, pres[j]).Some?) <==> !rep.verified && |rep.checks| <= 7)
      && (!rep.verified && |rep.checks| <= 7 ==>
            exists i: nat :: EarliestRuling(env, pres, i) && |rep.checks| == RulingOf(env, pres[i]).value.0 + 2
                             && rep.failCode == RulingOf(env, pres[i]).value.1)
  {
    FirstCheck(env, does);
    StepMajorEqualsCredentialMajor(env, does, sessionID);
    var pres, rep := Received(env).value.0, RunTen(does, sessionID).1;
    RuledAll(env, pres);
    if !rep.verified && |rep.checks| <= 7 {
      var i: nat :| EarliestPresentation(env, pres, i) && StopsAs(rep, FailsAlone(env, pres[i]).value);
      EarliestIsRuled(env, pres, i);
      RuledExactly(env, pres[i]);
    }
  }

  lemma RuledAll(env: Env, pres: seq<Presentation>)
    ensures AllPass(env, pres) <==> forall j :: 0 <= j < |pres| ==> RulingOf(env, pres[j]).None?
  {
    forall j | 0 <= j < |pres| ensures FailsAlone(env, pres[j]).None? <==> RulingOf(env, pres[j]).None? {
      RuledExactly(env, pres[j]);
    }
  }

  lemma RuledBefore(env: Env, p: Presentation, q: Presentation)
    ensures RuledEarlier(RulingOf(env, p), RulingOf(env, q)) <==> Before(FailsAlone(env, p), FailsAlone(env, q))
  {
    RuledExactly(env, p);
    RuledExactly(env, q);
  }

  lemma EarliestIsRuled(env: Env, pres: seq<Presentation>, i: nat)
    requires EarliestPresentation(env, pres, i)
    ensures EarliestRuling(env, pres, i)
  {
    RuledExactly(env, pres[i]);
    forall j | 0 <= j < |pres| ensures !RuledEarlier(RulingOf(env, pres[j]), RulingOf(env, pres[i])) {
      RuledBefore(env, pres[j], pres[i]);
    }
    forall j | 0 <= j < i ensures RuledEarlier(RulingOf(env, pres[i]), RulingOf(env, pres[j])) {
      RuledBefore(env, pres[i], pres[j]);
    }
  }

  /** What step 1 refuses, and why. */
  ghost function ResponseFault(env: Env): Option<Err> {
    if env.dcapi then
      match env.processDCAPI(env.origin, env.rawBody) case Ok(_) => None case Fault(e) => Some(e)
    else
      match env.processResponse(env.rawBody) case Ok(_) => None case Fault(e) => Some(e)
  }

  /** Step 1 fails iff the engine refuses the response. A wallet error, wherever it lies under the wrapping, is
      reported in the wallet's own words. */
  lemma ResponseRefused(env: Env, does: Does)
    requires Ships(env, does)
    ensures RowOf(does, 0).outcome == Fail <==> ResponseFault(env).Some?
    ensures ResponseFault(env).Some? ==>
      var e := ResponseFault(env).value;
      if HasWalletError(e)
      then exists code, description, text ::
        Within(WalletError(code, description, text), e)
        && RowOf(does, 0).detail
           == "wallet reported " + code + (if description != "" then ": " + description else "")
      else CutOff(RowOf(does, 0).detail, e.text)
    ensures ResponseFault(env).Some? ==>
      var e := ResponseFault(env).value;
      RowOf(does, 0).code ==
        if HasWalletError(e) then Problem(OfPresentation, WalletDeclined)
        else if StateMismatch in Carried(e) then Problem(OfPresentation, NonceMismatch)
        else if SessionConsumed in Carried(e) then Problem(OfSession, Consumed)
        else Problem(OfPresentation, InvalidResponse)
  {
    Unfolded(env, does, 0, ResponseIntegrity);
    assert StateBefore(does, 0) == START;
    if ResponseFault(env).Some? {
      ResponseCodeExactly(ResponseFault(env).value);
      DetailTells(ResponseFault(env).value);
    }
  }

  lemma DetailTells(e: Err)
    ensures AsWalletError(e).Some? <==> HasWalletError(e)
    ensures if HasWalletError(e)
      then exists code, description, text ::
        Within(WalletError(code, description, text), e)
        && FailDetail(e) == "wallet reported " + code + (if description != "" then ": " + description else "")
      else CutOff(FailDetail(e), e.text)
  {
    WalletErrorFound(e);
    if HasWalletError(e) {
      var w := AsWalletError(e).value;
      assert w == WalletError(w.code, w.description, w.text);
    }
  }

  // ---- which rows are skipped ----

  lemma PassedUpTo(env: Env, does: Does, n: nat)
    requires Ships(env, does) && n <= 6 && Presented(does) != []
    requires forall k :: 1 <= k <= n ==> RowOf(does, k).outcome != Fail
    ensures forall j :: 0 <= j < n ==> Passes(Steps(env), j, Fresh(env, Presented(does)))
  {
    var k := FirstStop(Steps(env), Fresh(env, Presented(does)));
    if k < n {
      EngineList(env, does, k);
      assert false;
    }
  }

  /** The list before step 5, and that before step 6, credential by credential. */
  lemma ListsBefore(env: Env, does: Does, n: nat)
    requires Ships(env, does) && (n == 3 || n == 4) && Presented(does) != []
    requires forall k :: 1 <= k <= n ==> RowOf(does, k).outcome != Fail
    ensures var pres, cs := Presented(does), StateBefore(does, n + 1).creds;
      |cs| == |pres| && forall i :: 0 <= i < |pres| ==>
        PassesTo(env, pres[i], n) && cs[i] == After(Steps(env), n, NewCred(pres[i], env.zeroStatus))
  {
    PassedUpTo(env, does, n);
    EngineList(env, does, n);
    var pres, fresh0 := Presented(does), Fresh(env, Presented(does));
    ListAfter(Steps(env), n, fresh0);
    forall i | 0 <= i < |pres|
      ensures PassesTo(env, pres[i], n)
      ensures StateBefore(does, n + 1).creds[i] == After(Steps(env), n, NewCred(pres[i], env.zeroStatus))
    {
      assert fresh0[i] == NewCred(pres[i], env.zeroStatus);
    }
  }

  /** The first n steps do not fail on the presentation. */
  ghost predicate PassesTo(env: Env, p: Presentation, n: nat)
    requires n <= 6
  {
    forall k :: 0 <= k < n ==> Steps(env)[k](After(Steps(env), k, NewCred(p, env.zeroStatus))).fail.None?
  }

  /** Step 5 skips a presentation whose binding failure is pending, or whose status was not concluded. */
  ghost predicate StatusSkips(env: Env, p: Presentation) {
    Decodes(env, p)
    && var ev := EvidenceOf(env, p);
       ev.Unverified? || (StatusOf(env, ev).Some? && SkippedStatus(StatusOf(env, ev).value))
  }

  lemma ThreeSteps(env: Env, p: Presentation)
    requires PassesTo(env, p, 3)
    ensures Decodes(env, p)
    ensures var one := AuthOne(env, Decoded(env, p));
      && one.fail.None? && IntegrityOne(one.cred).fail.None?
      && After(Steps(env), 3, NewCred(p, env.zeroStatus)) == one.cred
  {
    var fs, c0 := Steps(env), NewCred(p, env.zeroStatus);
    var c1, c2 := After(fs, 1, c0), After(fs, 2, c0);
    assert After(fs, 0, c0) == c0 && c1 == fs[0](c0).cred && c2 == fs[1](c1).cred && After(fs, 3, c0) == fs[2](c2).cred;
    assert fs[0](After(fs, 0, c0)).fail.None? && fs[1](c1).fail.None? && fs[2](c2).fail.None?;
    ParseDecodes(env, p);
  }

  /** A credential that steps 3 and 4 let by was verified, or its binding failure is pending. */
  lemma VerifiedOrPending(env: Env, p: Presentation)
    requires Decodes(env, p) && AuthOne(env, Decoded(env, p)).fail.None?
    requires IntegrityOne(AuthOne(env, Decoded(env, p)).cred).fail.None?
    ensures var ev := EvidenceOf(env, p); var c := AuthOne(env, Decoded(env, p)).cred;
      if ev.Unverified? then OwnerOf(ev.error).0 == DeviceBinding && DeferredTo(c, DeviceBinding)
      else Holds(env, c, p, ev)
  {
    Verifies(env, p);
    var ev := EvidenceOf(env, p);
    if ev.Unverified? {
      OwnerExactly(ev.error);
      OwnersCode(ev.error);
    }
  }

  lemma SkipsAsTold(env: Env, p: Presentation)
    requires PassesTo(env, p, 3)
    ensures RevokeOne(env, After(Steps(env), 3, NewCred(p, env.zeroStatus))).skipped <==> StatusSkips(env, p)
  {
    ThreeSteps(env, p);
    VerifiedOrPending(env, p);
    var c := AuthOne(env, Decoded(env, p)).cred;
    if !EvidenceOf(env, p).Unverified? {
      RevokeRules(env, c, p, EvidenceOf(env, p));
    }
  }

  /** Step 5 of a run whose steps 2 to 5 do not fail: its row is skipped iff the status of some presentation
      was skipped, and passes otherwise. */
  lemma StatusRow(env: Env, does: Does)
    requires Ships(env, does) && Presented(does) != [] && forall k :: 1 <= k <= 4 ==> RowOf(does, k).outcome != Fail
    ensures var pres, row := Presented(does), RowOf(does, 4);
      if exists i :: 0 <= i < |pres| && StatusSkips(env, pres[i])
      then row.outcome == Skipped && row.code == Note("revocation-partially-skipped")
      else row.outcome == Pass
  {
    var pres, cs := Presented(does), StateBefore(does, 4).creds;
    ListsBefore(env, does, 3);
    forall i | 0 <= i < |pres| ensures RevokeOne(env, cs[i]).skipped <==> StatusSkips(env, pres[i]) {
      assert PassesTo(env, pres[i], 3);
      SkipsAsTold(env, pres[i]);
    }
    RevocationRow(env, does);
    if i :| 0 <= i < |pres| && StatusSkips(env, pres[i]) {
      assert RevokeOne(env, cs[i]).skipped;
    }
  }

  lemma ScanRow(f: CredV -> One, cs: seq<CredV>)
    ensures var s := Scan(f, cs); s.fail.None? ==>
      && (forall k :: 0 <= k < |cs| ==> f(cs[k]).fail.None?)
      && (s.skipped <==> exists k :: 0 <= k < |cs| && f(cs[k]).skipped)
  {
    var i := FirstFail(f, cs);
    if i < |cs| {
      ScanStops(f, cs, i);
    } else {
      ScanCompletes(f, cs);
    }
  }

  /** Step 6 passes an mdoc, and skips an SD-JWT unless policy and query demand its binding. */
  lemma BindsAsTold(env: Env, p: Presentation)
    requires PassesTo(env, p, 4) && BindOne(env, After(Steps(env), 4, NewCred(p, env.zeroStatus))).fail.None?
    ensures BindOne(env, After(Steps(env), 4, NewCred(p, env.zeroStatus))).skipped <==>
      p.format == SDJWT && !BindingDemanded(env, p)
  {
    KeepsPresentation(env, p);
    BindRules(env, After(Steps(env), 4, NewCred(p, env.zeroStatus)));
  }

  /** A credential that steps 2 to 6 let by was verified. */
  lemma KeepsPresentation(env: Env, p: Presentation)
    requires PassesTo(env, p, 4) && BindOne(env, After(Steps(env), 4, NewCred(p, env.zeroStatus))).fail.None?
    ensures var c := After(Steps(env), 4, NewCred(p, env.zeroStatus));
      c.pres == p && c.deferred.None? && (p.format == SDJWT || p.format == Mdoc)
  {
    assert PassesTo(env, p, 3);
    ThreeSteps(env, p);
    VerifiedOrPending(env, p);
    var c := AuthOne(env, Decoded(env, p)).cred;
    assert After(Steps(env), 4, NewCred(p, env.zeroStatus)) == RevokeOne(env, c).cred;
    if EvidenceOf(env, p).Unverified? {
      assert false;
    } else {
      RevokeRules(env, c, p, EvidenceOf(env, p));
    }
  }

  /** Step 6 of a run whose steps 2 to 6 do not fail: its row is skipped iff some SD-JWT need not be bound. */
  lemma BindingRow(env: Env, does: Does)
    requires Ships(env, does) && Presented(does) != [] && forall k :: 1 <= k <= 5 ==> RowOf(does, k).outcome != Fail
    ensures var pres, row := Presented(does), RowOf(does, 5);
      if exists i :: 0 <= i < |pres| && pres[i].format == SDJWT && !BindingDemanded(env, pres[i])
      then row.outcome == Skipped && row.code == Note("device-binding-policy-skipped")
      else row.outcome == Pass
  {
    var pres, cs, f := Presented(does), StateBefore(does, 5).creds, BindFn(env);
    ListsBefore(env, does, 4);
    ScanStepOf(env, does, 5);
    assert Steps(env)[4] == f;
    ScanRow(f, cs);
    forall i | 0 <= i < |pres|
      ensures BindOne(env, cs[i]).skipped <==> pres[i].format == SDJWT && !BindingDemanded(env, pres[i])
    {
      assert PassesTo(env, pres[i], 4) && f(cs[i]).fail.None?;
      BindsAsTold(env, pres[i]);
    }
  }
}
