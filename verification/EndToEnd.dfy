/** The pipeline inside the requests: the run that Process performs on the shared stores is the run of the ten
    checks, so an accepted response means sound credentials, claimed once. */
module EndToEnd {
  import opened Wrappers
  import opened ErrClass
  import opened PipelineTypes
  import opened PipelineRun
  import opened PipelineTheorems
  import opened Soundness
  import opened Exactness
  import opened ValkeyStore
  import opened Requests
  import opened Outcomes
  import opened Keyspace
  import TimedRuns

  /** How checks 1 to 9 ended. */
  ghost function CheckedOf(does: Does): Checked {
    if PassedFirst(does, 9) then Passed(StateBefore(does, 9).responseCode) else FailedEarly
  }

  /** The errors the pipeline sees are those of the store commands it causes. */
  predicate SameFaults(env: Env, s: Session, f: ProcessFaults) {
    && (env.deliverFault.None? <==> f.deliver == Fine)
    && (env.saveFault.None? <==> SaveOk(s, f.dispose))
    && (env.deleteFault.None? <==> f.dispose == Fine)
  }

  /** A run is verified iff nine checks held and the commands of step 10 met no error. */
  lemma NineAndHandOff(env: Env, does: Does, sessionID: string)
    requires Ships(env, does)
    ensures RunTen(does, sessionID).1.verified
      <==> PassedFirst(does, 9) && FinalizeFault(env, StateBefore(does, 9).responseCode).None?
  {
    VerifiedIffAllPassed(env, does, sessionID);
    PassedFirstOn(does, 9);
    LastRows(env, does);
  }

  /** The stores see a verified run iff the ten checks verify. */
  lemma RunAgrees(env: Env, does: Does, cfg: Config, st: Stores, now: Time, s: Session, webhook: bool, f: ProcessFaults)
    requires Ships(env, does) && SameFaults(env, s, f)
    ensures RunTen(does, s.id).1.verified == RunOp(cfg, st, now, s, webhook, CheckedOf(does), f).1
  {
    NineAndHandOff(env, does, s.id);
  }

  /** An accepted response was processed with a row and a verified run. */
  lemma AcceptedRan(cfg: Config, st: Stores, now: Time, s: Session, c: Checked, f: ProcessFaults)
    requires ProcessOp(cfg, st, now, s, c, f).1
    ensures s.id in st.rows && RunOp(cfg, st, now, s, st.rows[s.id].webhook, c, f).1
  {
  }

  /** At any point of any allowed run whose deletes are harmless, a response that is accepted is the first for
      its session, routed there by the token minted with it, and all its credentials are sound; the response
      code that it minted, if it did, leads to that session. */
  lemma AcceptedIsFirstAndSound(
    cfg: Config, start: Time, actions: seq<TimedRuns.Action>, req: PostRequest, env: Env, does: Does)
    requires start >= 0 && TimedRuns.AllAllowed(cfg, TimedRuns.Start(start), actions)
    requires TimedRuns.AllHarmless(cfg, TimedRuns.Start(start), actions)
    requires Ships(env, does) && req.checked == CheckedOf(does)
    requires forall s: Session {:trigger SameFaults(env, s, req.process)} :: s.id != "" ==>
      SameFaults(env, s, req.process)
    requires var w := TimedRuns.Run(cfg, TimedRuns.Start(start), actions);
      var answer := PostOp(cfg, w.st, w.now, req).1;
      answer.Processed? && answer.ok
    ensures var w := TimedRuns.Run(cfg, TimedRuns.Start(start), actions);
      var id := PostOp(cfg, w.st, w.now, req).1.id;
      && id !in w.processed && req.token in w.minted && w.minted[req.token] == id
      && RunTen(does, id).1.verified
      && var creds := Credentials(does); creds != [] && forall c :: c in creds ==> Sound(env, c)
    ensures var w := TimedRuns.Run(cfg, TimedRuns.Start(start), actions);
      var (st', answer) := PostOp(cfg, w.st, w.now, req); var code := StateBefore(does, 9).responseCode;
      code != "" && cfg.respCodeTTL > 0 ==> Live(st'.recs, w.now, RespCodeRec(code)) == Some(IdVal(answer.id))
  {
    var w := TimedRuns.Run(cfg, TimedRuns.Start(start), actions);
    TimedRuns.RunKeeps(cfg, TimedRuns.Start(start), actions);
    TimedRuns.RoutingAndQueue(cfg, start, actions, req.token);
    var id := ResolveOp(w.st.recs, w.now, req.token, req.resolve).value;
    TimedRuns.ConsumeKeeps(w.st.recs, id, req.consume, w.now, cfg.sessionTTL, w.ids, w.processed, w.served);
    var (recs1, consumed) := ConsumeOp(w.st.recs, w.now, cfg.sessionTTL, id, req.consume);
    var s := consumed.value;
    var st1 := w.st.(recs := recs1);
    assert s.id == id != "";
    AcceptedRan(cfg, st1, w.now, s, req.checked, req.process);
    RunAgrees(env, does, cfg, st1, w.now, s, st1.rows[id].webhook, req.process);
    VerifiedSoundness(env, does, id);
    CodeLeads(cfg, st1, w.now, s, req.checked, req.process);
  }
}
