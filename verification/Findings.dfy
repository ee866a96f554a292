/** Runs of the code that its comments or its design do not foresee. The exact condition of each is proved
    where the operation is. */
module Findings {
  import opened Wrappers
  import opened ErrClass
  import opened CredentialTrust
  import opened TrustResolution
  import opened PipelineTypes
  import opened Checks
  import opened FailCodes
  import opened Attribution
  import opened Keyspace
  import opened ValkeyStore
  import opened Requests
  import TimedRuns

  // ---- an outage that the wallet is blamed for ----

  const MDOC_ERROR: Err := Of(OtherSentinel(0), "mdoc: issuer authentication failed: trust: cache expired")

  /** A deployment whose trust cache is stale, and an mdoc library that formats the callback's error. */
  function StaleDeployment(): Env {
    Env(ClientPolicy(None, None, None), [], false, "", [], AtCurrentTime, DEFAULT_TRUST,
        Resolver((t: AnchorType, country: string) => Fault(EXPIRED), (chain: seq<Bytes>) => ["XX"],
                 (anchors: seq<Anchor>, chain: seq<Bytes>, at: Time) => Fault(NO_TYPES)),
        1, StatusValid,
        (b: Bytes) => Fault(Plain("")), (o: string, b: Bytes) => Fault(Plain("")),
        (b: Bytes) => Fault(Plain("")), (b: Bytes) => None, (i: SDInput) => Fault(Plain("")),
        (b: Bytes, answers: Answers) => if answers == [] then Some(([], 1)) else None, (b: Bytes) => 1,
        (b: Bytes, t: Transcript, answers: Answers) => Fault(MDOC_ERROR),
        (i: StatusInput) => StatusAnswer(StatusValid, OtherProvenance(""), None),
        (cs: seq<Candidate>) => MatchResult(true, []),
        None, None, None)
  }

  function AnyMdoc(): CredV {
    NewCred(Presentation("id", Mdoc, [], "", "", [], ""), StatusValid)
  }

  ghost predicate FailsUntyped(env: Env) {
    forall payload, t, answers: Answers {:trigger env.mdVerify(payload, t, answers)} ::
      env.mdVerify(payload, t, answers) == Fault(MDOC_ERROR)
  }

  /** Whatever the issuer callback of an mdoc answered, a stale cache included, the credential is called
      untrusted and the wallet is told that it was not accepted. */
  lemma OutageBlamedOnCredential(env: Env, c: CredV)
    requires FailsUntyped(env) && c.pres.format == Mdoc
    ensures AuthOne(env, c).fail.Some? && AuthOne(env, c).fail.value.code == Problem(OfCredential, IssuerUntrusted)
  {
    BlamedFor(env, c);
  }

  lemma BlamedIsNotAccepted()
    ensures VerificationOutcome(Problem(OfCredential, IssuerUntrusted)) == Some(NotAccepted)
  {
    RatedAndTold(IssuerAuthenticity, Problem(OfCredential, IssuerUntrusted));
  }

  /** Such a deployment exists in which the cache is stale and the format libraries meet their contract. */
  lemma StaleDeploymentFails()
    ensures FailsUntyped(StaleDeployment()) && HidesTrust(StaleDeployment()) && AnyMdoc().pres.format == Mdoc
    ensures MDAnswers(StaleDeployment(), AnyMdoc()) == [Fault(EXPIRED)] && Is(EXPIRED, CacheExpired)
  {
    CallbackIsStale();
  }

  lemma CallbackIsStale()
    ensures MDAnswers(StaleDeployment(), AnyMdoc()) == [Fault(EXPIRED)] && Is(EXPIRED, CacheExpired)
  {
    var env, c := StaleDeployment(), AnyMdoc();
    var resolve := MDResolver(env, c);
    assert resolve(([], 1)) == ResolveIssuerFor(env.resolver, env.trustMap, [], "", 1);
    StaleAnchors(env.resolver, DEFAULT_TRUST.Issuance(""));
    assert Callbacks(env.mdAsk, resolve, [], 1, []) == Callbacks(env.mdAsk, resolve, [], 0, [] + [resolve(([], 1))]);
  }

  lemma BlamedFor(env: Env, c: CredV)
    requires c.pres.format == Mdoc
      && env.mdVerify(c.pres.payload, TranscriptFor(env, c), MDAnswers(env, c)) == Fault(MDOC_ERROR)
    ensures AuthOne(env, c).fail.Some? && AuthOne(env, c).fail.value.code == Problem(OfCredential, IssuerUntrusted)
  {
    var c1 := VerifyFormat(env, c).0;
    assert VerifyFormat(env, c).1 == Some(MDOC_ERROR);
    OtherIsUntrusted(MDOC_ERROR);
    OnlyAttributed(c1, MDOC_ERROR);
  }

  lemma OtherIsUntrusted(e: Err)
    requires e.Of? && e.sentinel.OtherSentinel?
    ensures ClassifyFormatError(e) == (IssuerAuthenticity, Problem(OfCredential, IssuerUntrusted))
  {
  }

  lemma StaleAnchors(rv: Resolver, types: seq<AnchorType>)
    requires types != [] && rv.territoryOrder([]) == ["XX"] && rv.anchors(types[0], "XX") == Fault(EXPIRED)
    ensures ResolveByTypes(rv, [], types, 1) == Fault(EXPIRED)
  {
  }

  // ---- a delete that reopens another session ----

  const CFG: Config := Config(600, 60, 60, 1000)

  /** Everything succeeds, and the pipeline passes with a response code. */
  const SMOOTH: ProcessFaults := ProcessFaults(Fine, true, Fine, Fine, Fine, Fine, Fine, Fine, Fine, true)

  const RESPOND: TimedRuns.Action :=
    TimedRuns.Post(PostRequest("t", 0, Fine, NO_FAULTS, Passed("code"), SMOOTH, Fine))

  const OPEN: TimedRuns.Action := TimedRuns.Create(CreateRequest("x", "t", 601, 0, true, true, Fine, Fine, Fine))

  const CLEAR: TimedRuns.Action := TimedRuns.Delete("x:consumed", Fine)

  function WorldAfter(actions: seq<TimedRuns.Action>): TimedRuns.World {
    TimedRuns.Run(CFG, TimedRuns.Start(1), actions)
  }

  lemma TwoDone(actions: seq<TimedRuns.Action>)
    requires actions == [OPEN, RESPOND]
    ensures OpenBut(WorldAfter(actions)) && WorldAfter(actions).processed == ["x"]
  {
    Opened(actions[..1]);
    assert actions == actions[..1] + [RESPOND];
    Responded(actions[..1]);
  }

  lemma ThreeDone(actions: seq<TimedRuns.Action>)
    requires actions == [OPEN, RESPOND, CLEAR]
    ensures Open(WorldAfter(actions)) && WorldAfter(actions).processed == ["x"]
  {
    TwoDone(actions[..2]);
    assert actions == actions[..2] + [CLEAR];
    Cleared(actions[..2]);
  }

  /** Create, respond, delete the id that spells out the marker, respond: the session is processed twice. */
  lemma DeleteReopens(actions: seq<TimedRuns.Action>)
    requires actions == [OPEN, RESPOND, CLEAR, RESPOND]
    ensures WorldAfter(actions).processed == ["x", "x"]
  {
    ThreeDone(actions[..3]);
    assert actions == actions[..3] + [RESPOND];
    Responded(actions[..3]);
  }

  /** Nothing in that run is ruled out by the hypotheses. */
  lemma ReopeningAllowed(actions: seq<TimedRuns.Action>)
    requires actions == [OPEN, RESPOND, CLEAR, RESPOND]
    ensures TimedRuns.AllAllowed(CFG, TimedRuns.Start(1), actions)
  {
    assert actions[..0] == [];
    assert TimedRuns.Allowed(CFG, TimedRuns.Start(1), OPEN);
  }

  /** The session x is there, with its token and its row, and nothing is known of its use. */
  ghost predicate Open(w: TimedRuns.World) {
    && w.now == 1 && "x" in w.st.rows && ConsumedRec("x") !in w.st.recs
    && LoadOp(w.st.recs, 1, "x", Fine).Ok? && LoadOp(w.st.recs, 1, "x", Fine).value.id == "x"
    && LoadOp(w.st.recs, 1, "x", Fine).value.expiresAt == 601
    && ResolveOp(w.st.recs, 1, "t", Fine) == Some("x")
  }

  lemma Opened(actions: seq<TimedRuns.Action>)
    requires actions == [OPEN]
    ensures Open(WorldAfter(actions)) && WorldAfter(actions).processed == []
  {
    assert actions[..0] == [];
    assert TimedRuns.Run(CFG, TimedRuns.Start(1), actions[..0]) == TimedRuns.Start(1);
  }

  /** Open, but for a marker. */
  ghost predicate OpenBut(w: TimedRuns.World) {
    Open(w.(st := w.st.(recs := w.st.recs - {ConsumedRec("x")})))
  }

  /** A response to an open session is processed and leaves everything but the marker as it was. */
  lemma Responded(actions: seq<TimedRuns.Action>)
    requires Open(WorldAfter(actions))
    ensures var w := WorldAfter(actions + [RESPOND]);
      w.processed == WorldAfter(actions).processed + ["x"] && OpenBut(w)
  {
    assert (actions + [RESPOND])[..|actions|] == actions;
    RespondedTo(WorldAfter(actions));
  }

  lemma RespondedTo(w: TimedRuns.World)
    requires Open(w)
    ensures var w' := TimedRuns.Step(CFG, w, RESPOND); w'.processed == w.processed + ["x"] && OpenBut(w')
  {
  }

  lemma Cleared(actions: seq<TimedRuns.Action>)
    requires OpenBut(WorldAfter(actions))
    ensures var w := WorldAfter(actions + [CLEAR]); Open(w) && w.processed == WorldAfter(actions).processed
  {
    assert (actions + [CLEAR])[..|actions|] == actions;
    SpelledByX();
  }

  /** The id of the delete spells out the marker of x and nothing else. */
  lemma SpelledByX()
    ensures Spelled("x:consumed") == {ConsumedRec("x")}
  {
    assert EndsIn("x:consumed", ":consumed") && "x:consumed"[..1] == "x";
    Endings("x:consumed");
  }

  // ---- failures that leave something behind ----

  /** A response to the session that OPEN makes, when the checks end like this and these faults strike. */
  function Response(c: Checked, f: ProcessFaults): TimedRuns.Action {
    TimedRuns.Post(PostRequest("t", 0, Fine, NO_FAULTS, c, f, Fine))
  }

  /** The world after OPEN: the session, its token and its row, and nothing delivered. */
  ghost predicate Opening(w: TimedRuns.World) {
    && Open(w) && w.st.rows == map["x" := MetaRow(Created, None, true, 601)] && w.st.queue == []
    && PayloadRec("x") !in w.st.recs && w.processed == []
    && LoadOp(w.st.recs, 1, "x", Fine) == Ok(Session("x", 601, false, ""))
  }

  lemma JustOpened(w: TimedRuns.World)
    requires w == WorldAfter([OPEN])
    ensures Opening(w)
  {
    assert [OPEN][..0] == [];
    assert TimedRuns.Run(CFG, TimedRuns.Start(1), [OPEN][..0]) == TimedRuns.Start(1);
  }

  lemma OneResponse(actions: seq<TimedRuns.Action>, c: Checked, f: ProcessFaults)
    requires actions == [OPEN, Response(c, f)]
    ensures WorldAfter(actions) == TimedRuns.Step(CFG, WorldAfter([OPEN]), Response(c, f))
    ensures Opening(WorldAfter([OPEN]))
  {
    assert actions[..1] == [OPEN];
    JustOpened(WorldAfter([OPEN]));
  }

  lemma LeavesSession(w: TimedRuns.World)
    requires Opening(w)
    ensures var w' := TimedRuns.Step(CFG, w, Response(FailedEarly, SMOOTH.(report := Refused)));
      && LoadOp(w'.st.recs, 1, "x", Fine) == Ok(Session("x", 601, true, "")) && w'.now == 1
      && Live(w'.st.recs, 1, ConsumedRec("x")).Some? && w'.processed == ["x"]
  {
  }

  /** A run fails early and its report cannot be saved: the session is still there, marked consumed, and the
      attribute memory is not erased. */
  lemma FailedRunLeavesSession(actions: seq<TimedRuns.Action>)
    requires actions == [OPEN, Response(FailedEarly, SMOOTH.(report := Refused))]
    ensures var w := WorldAfter(actions);
      && LoadOp(w.st.recs, w.now, "x", Fine) == Ok(Session("x", 601, true, ""))
      && Live(w.st.recs, w.now, ConsumedRec("x")).Some? && w.processed == ["x"]
    ensures !Erases(WorldAfter([OPEN]).st, "x", FailedEarly, SMOOTH.(report := Refused))
  {
    OneResponse(actions, FailedEarly, SMOOTH.(report := Refused));
    LeavesSession(WorldAfter([OPEN]));
  }

  lemma DeliveredVerified(w: TimedRuns.World)
    requires Opening(w)
    ensures var f := SMOOTH.(dispose := Refused, deliverFailed := Refused);
      var w' := TimedRuns.Step(CFG, w, Response(Passed("code"), f));
      && "x" in w'.st.rows && w'.st.rows["x"].report == Some(false) && w'.st.queue == ["x"] && Disagree(w'.st, "x")
      && Live(w'.st.recs, 1, PayloadRec("x")) == Some(EnvelopeVal(Envelope("x", true, true)))
  {
  }

  /** Step 10 delivers, its disposal is refused, and so is the second delivery: the report says failed, and a
      payload that says verified is live and queued. */
  lemma FailedRunDeliveredVerified(actions: seq<TimedRuns.Action>)
    requires actions
      == [OPEN, Response(Passed("code"), SMOOTH.(dispose := Refused, deliverFailed := Refused))]
    ensures var st := WorldAfter(actions).st;
      && "x" in st.rows && st.rows["x"].report == Some(false) && st.queue == ["x"] && Disagree(st, "x")
      && Live(st.recs, 1, PayloadRec("x")) == Some(EnvelopeVal(Envelope("x", true, true)))
  {
    OneResponse(actions, Passed("code"), SMOOTH.(dispose := Refused, deliverFailed := Refused));
    DeliveredVerified(WorldAfter([OPEN]));
  }

  lemma MarkedFailed(w: TimedRuns.World)
    requires Opening(w)
    ensures var w' := TimedRuns.Step(CFG, w, Response(Passed("code"), SMOOTH.(respCode := Refused)));
      && "x" in w'.st.rows && w'.st.rows["x"].report == Some(true) && w'.st.rows["x"].status == FailedStatus
      && Live(w'.st.recs, 1, PayloadRec("x")) == Some(EnvelopeVal(Envelope("x", true, true))) && w'.st.queue == ["x"]
  {
  }

  /** A verified run whose response code cannot be indexed: report and payload say verified, the status failed. */
  lemma VerifiedRunMarkedFailed(actions: seq<TimedRuns.Action>)
    requires actions == [OPEN, Response(Passed("code"), SMOOTH.(respCode := Refused))]
    ensures var st := WorldAfter(actions).st;
      && "x" in st.rows && st.rows["x"].report == Some(true) && st.rows["x"].status == FailedStatus
      && Live(st.recs, 1, PayloadRec("x")) == Some(EnvelopeVal(Envelope("x", true, true))) && st.queue == ["x"]
  {
    OneResponse(actions, Passed("code"), SMOOTH.(respCode := Refused));
    MarkedFailed(WorldAfter([OPEN]));
  }
}
