/** What each request decides and leaves in the stores, read off the stores and the faults: when a response is
    consumed and processed, what an accepted and a refused one leave behind, and where a response code leads. */
module Outcomes {
  import opened Wrappers
  import opened Keyspace
  import opened ValkeyStore
  import opened Requests

  // ---- when a response is processed ----

  /** The record is there, alive, and holds this value. */
  predicate LivesAs(recs: Recs, now: Time, r: Rec, v: Val) {
    r in recs && now < recs[r].expiry && recs[r].val == v
  }

  /** The session can be read and has not expired. */
  predicate Loads(recs: Recs, now: Time, id: string, s: Session) {
    LivesAs(recs, now, SessionRec(id), SessionVal(s)) && (s.expiresAt == ZERO_TIME || now < s.expiresAt)
  }

  /** A live marker is there, whatever it holds. */
  predicate Marked(recs: Recs, now: Time, marker: Rec) {
    marker in recs && now < recs[marker].expiry
  }

  lemma LoadsExactly(recs: Recs, now: Time, id: string, fault: Fault, s: Session)
    ensures LoadOp(recs, now, id, fault) == Ok(s) <==> fault == Fine && Loads(recs, now, id, s)
  {
  }

  /** When a session written now is gone: at its own expiry if that comes first, else after its lifetime. */
  function SavedUntil(s: Session, now: Time, ttl: int): Time {
    if now < s.expiresAt < now + ttl then s.expiresAt else now + ttl
  }

  /** A session is consumed exactly when it can be read, has an id, has no live marker, and its three commands
      meet no error; it is then marked for a whole lifetime and saved as consumed. */
  lemma ConsumedExactly(recs: Recs, now: Time, ttl: int, id: string, f: ConsumeFaults, t: Session)
    ensures ConsumeOp(recs, now, ttl, id, f).1 == Ok(t) <==>
      && f.get == Fine && f.setnx == Fine && f.set_ == Fine && t.id != ""
      && !Marked(recs, now, ConsumedRec(id))
      && exists s :: Loads(recs, now, id, s) && t == Session(s.id, s.expiresAt, true, s.responseCode)
    ensures ConsumeOp(recs, now, ttl, id, f).1 == Ok(t) ==>
      ConsumeOp(recs, now, ttl, id, f).0
      == recs[ConsumedRec(id) := Entry(MarkerVal, now + ttl)]
             [SessionRec(t.id) := Entry(SessionVal(t), SavedUntil(t, now, ttl))]
  {
    var loaded := LoadOp(recs, now, id, f.get);
    if loaded.Ok? {
      LoadsExactly(recs, now, id, f.get, loaded.value);
    }
    forall s | Loads(recs, now, id, s) && f.get == Fine ensures loaded == Ok(s) {
      LoadsExactly(recs, now, id, f.get, s);
    }
  }

  /** What the response endpoint answers, for every request. */
  lemma AnsweredExactly(cfg: Config, st: Stores, now: Time, req: PostRequest)
    ensures var a := PostOp(cfg, st, now, req).1;
      var leads := req.resolve == Fine && exists id :: LivesAs(st.recs, now, TokenRec(req.token), IdVal(id));
      && (a == UnknownToken <==> !leads)
      && (a == BodyTooLarge <==> leads && req.bodyLen > cfg.maxBody)
      && (a.NotConsumed? || a.Processed? <==> leads && req.bodyLen <= cfg.maxBody)
    ensures var a := PostOp(cfg, st, now, req).1;
      a.Processed? <==>
        && req.resolve == Fine && req.bodyLen <= cfg.maxBody
        && exists id, s :: && LivesAs(st.recs, now, TokenRec(req.token), IdVal(id)) && Loads(st.recs, now, id, s)
                           && s.id != "" && !Marked(st.recs, now, ConsumedRec(id))
                           && req.consume.get == Fine && req.consume.setnx == Fine && req.consume.set_ == Fine
    ensures var a := PostOp(cfg, st, now, req).1;
      a.Processed? ==> LivesAs(st.recs, now, TokenRec(req.token), IdVal(a.id))
  {
    var resolved := ResolveOp(st.recs, now, req.token, req.resolve);
    if resolved.Some? {
      var id := resolved.value;
      assert LivesAs(st.recs, now, TokenRec(req.token), IdVal(id));
      var consumed := ConsumeOp(st.recs, now, cfg.sessionTTL, id, req.consume).1;
      if consumed.Ok? {
        ConsumedExactly(st.recs, now, cfg.sessionTTL, id, req.consume, consumed.value);
      }
      forall s | Loads(st.recs, now, id, s) && s.id != "" && !Marked(st.recs, now, ConsumedRec(id))
                 && req.consume.get == Fine && req.consume.setnx == Fine && req.consume.set_ == Fine
        ensures consumed.Ok?
      {
        ConsumedExactly(st.recs, now, cfg.sessionTTL, id, req.consume,
                        Session(s.id, s.expiresAt, true, s.responseCode));
      }
    }
  }

  // ---- what processing leaves ----

  /** The run of the pipeline came to a verified end that was reported and recorded. */
  predicate Completed(st: Stores, id: string, c: Checked, f: ProcessFaults) {
    && f.meta == Fine && id in st.rows && f.policyOk
    && c.Passed? && f.deliver == Fine && f.dispose == Fine && f.report == Fine && f.status == Fine
  }

  /** A response is accepted exactly when its checks passed, no command failed, and its redirect was built; a
      response code, if there is one, was indexed. */
  lemma AcceptedWhen(cfg: Config, st: Stores, now: Time, s: Session, c: Checked, f: ProcessFaults)
    requires s.id != ""
    ensures ProcessOp(cfg, st, now, s, c, f).1 <==>
      Completed(st, s.id, c, f) && (c.responseCode != "" ==> f.respCode == Fine) && f.redirectOk
  {
  }

  /** The records that an accepted response leaves, from those it found after the session was consumed. */
  ghost function AcceptedRecs(cfg: Config, st: Stores, now: Time, s: Session, code: string): Recs
    requires s.id in st.rows
  {
    var kept := Session(s.id, s.expiresAt, s.consumed, code);
    var delivered := st.recs[PayloadRec(s.id) :=
      Entry(EnvelopeVal(Envelope(s.id, st.rows[s.id].webhook, true)), now + QueueTTL(cfg.handoffTTL))];
    if code == "" then delivered - {SessionRec(s.id), ServedRec(s.id), ConsumedRec(s.id)} - Spelled(s.id)
    else delivered[SessionRec(s.id) := Entry(SessionVal(kept), SavedUntil(kept, now, cfg.sessionTTL))]
                  [RespCodeRec(code) := Entry(IdVal(s.id), now + cfg.respCodeTTL)]
  }

  /** Everything an accepted response leaves: a payload and a row that say verified, the id queued if a webhook
      is set; with a response code the session kept under it, and the code leading to the session; without one
      the session and its markers gone. Nothing else changes. */
  lemma AcceptedLeaves(cfg: Config, st: Stores, now: Time, s: Session, c: Checked, f: ProcessFaults)
    requires s.id != "" && ProcessOp(cfg, st, now, s, c, f).1
    ensures s.id in st.rows && c.Passed?
    ensures var st' := ProcessOp(cfg, st, now, s, c, f).0; var row := st.rows[s.id];
      && st'.rows == st.rows[s.id := MetaRow(VerifiedStatus, Some(true), row.webhook, row.expiresAt)]
      && st'.queue == (if row.webhook then [s.id] + st.queue else st.queue)
      && st'.recs == AcceptedRecs(cfg, st, now, s, c.responseCode)
  {
    AcceptedWhen(cfg, st, now, s, c, f);
    var st' := ProcessOp(cfg, st, now, s, c, f).0;
    assert st'.recs == AcceptedRecs(cfg, st, now, s, c.responseCode);
  }

  /** A run that fails before step 10, and meets no error on the way out, leaves a payload and a row that say
      failed, the id queued if a webhook is set, and no session. */
  lemma RefusedLeaves(cfg: Config, st: Stores, now: Time, s: Session, f: ProcessFaults)
    requires f.meta == Fine && s.id in st.rows && f.policyOk
    requires f.report == Fine && f.status == Fine && f.deliverFailed == Fine && f.disposeFailed == Fine
    ensures var (st', ok) := ProcessOp(cfg, st, now, s, FailedEarly, f); var row := st.rows[s.id];
      && !ok
      && st'.rows == st.rows[s.id := MetaRow(FailedStatus, Some(false), row.webhook, row.expiresAt)]
      && st'.queue == (if row.webhook then [s.id] + st.queue else st.queue)
      && st'.recs == st.recs[PayloadRec(s.id) :=
           Entry(EnvelopeVal(Envelope(s.id, row.webhook, false)), now + QueueTTL(cfg.handoffTTL))]
           - {SessionRec(s.id), ServedRec(s.id), ConsumedRec(s.id)} - Spelled(s.id)
  {
    var st' := ProcessOp(cfg, st, now, s, FailedEarly, f).0;
    var row := st.rows[s.id];
    assert st'.recs == st.recs[PayloadRec(s.id) :=
           Entry(EnvelopeVal(Envelope(s.id, row.webhook, false)), now + QueueTTL(cfg.handoffTTL))]
           - {SessionRec(s.id), ServedRec(s.id), ConsumedRec(s.id)} - Spelled(s.id);
  }

  // ---- where a response code leads ----

  /** The response indexed this code: its checks minted it, and its verified run was reported and recorded. */
  predicate Indexes(st: Stores, id: string, c: Checked, f: ProcessFaults, code: string) {
    Completed(st, id, c, f) && c.responseCode == code != "" && f.respCode != Refused
  }

  /** After a response every code leads where it led before, except the one that a verified run minted: that
      one leads to its session, for its own lifetime. */
  lemma CodesAfterProcess(cfg: Config, st: Stores, now: Time, s: Session, c: Checked, f: ProcessFaults, code: string)
    requires s.id != ""
    ensures var st' := ProcessOp(cfg, st, now, s, c, f).0; var r := RespCodeRec(code);
      if Indexes(st, s.id, c, f, code) then r in st'.recs && st'.recs[r] == Entry(IdVal(s.id), now + cfg.respCodeTTL)
      else (r in st'.recs <==> r in st.recs) && (r in st.recs ==> st'.recs[r] == st.recs[r])
  {
    if f.meta == Fine && s.id in st.rows && f.policyOk {
      var webhook := st.rows[s.id].webhook;
      RunKeepsCodes(cfg, st, now, s, webhook, c, f, code);
      var (st1, verified) := RunOp(cfg, st, now, s, webhook, c, f);
      VerifiedByFaults(cfg, st, now, s, webhook, c, f);
      if f.report == Fine && !verified {
        FinalizeKeepsCodes(
          cfg, SetStatus(SaveReport(st1, s.id, verified, f.report), s.id, FailedStatus, f.status), now,
          WithCode(s, c), webhook, false, f.deliverFailed, f.disposeFailed, code);
      }
    }
  }

  lemma FinalizeKeepsCodes(
    cfg: Config, st: Stores, now: Time, s: Session, webhook: bool, verified: bool, deliver: Fault, dispose: Fault,
    code: string)
    ensures var st' := FinalizeOp(cfg, st, now, s, webhook, verified, deliver, dispose).0; var r := RespCodeRec(code);
      (r in st'.recs <==> r in st.recs) && (r in st.recs ==> st'.recs[r] == st.recs[r])
  {
    Endings(s.id);
  }

  lemma RunKeepsCodes(
    cfg: Config, st: Stores, now: Time, s: Session, webhook: bool, c: Checked, f: ProcessFaults, code: string)
    ensures var st' := RunOp(cfg, st, now, s, webhook, c, f).0; var r := RespCodeRec(code);
      (r in st'.recs <==> r in st.recs) && (r in st.recs ==> st'.recs[r] == st.recs[r])
  {
    if c.Passed? {
      FinalizeKeepsCodes(cfg, st, now, WithCode(s, c), webhook, true, f.deliver, f.dispose, code);
    }
  }

  /** The response code of an accepted response can be redeemed for its session. */
  lemma CodeLeads(cfg: Config, st: Stores, now: Time, s: Session, c: Checked, f: ProcessFaults)
    requires s.id != "" && ProcessOp(cfg, st, now, s, c, f).1
    ensures c.Passed?
    ensures c.responseCode != "" && cfg.respCodeTTL > 0 ==>
      Live(ProcessOp(cfg, st, now, s, c, f).0.recs, now, RespCodeRec(c.responseCode)) == Some(IdVal(s.id))
  {
    AcceptedWhen(cfg, st, now, s, c, f);
    CodesAfterProcess(cfg, st, now, s, c, f, c.responseCode);
  }

  /** The same of a whole request: a response that was not consumed moves no code. */
  lemma CodesAfterPost(cfg: Config, st: Stores, now: Time, req: PostRequest, code: string)
    requires SessionsKeyed(st.recs)
    ensures var (st', a) := PostOp(cfg, st, now, req); var r := RespCodeRec(code);
      if a.Processed? && Indexes(st, a.id, req.checked, req.process, code)
      then r in st'.recs && st'.recs[r] == Entry(IdVal(a.id), now + cfg.respCodeTTL)
      else (r in st'.recs <==> r in st.recs) && (r in st.recs ==> st'.recs[r] == st.recs[r])
  {
    var a := PostOp(cfg, st, now, req).1;
    if a.Processed? {
      var (recs1, consumed) := ConsumeOp(st.recs, now, cfg.sessionTTL, a.id, req.consume);
      var s := consumed.value;
      ConsumedExactly(st.recs, now, cfg.sessionTTL, a.id, req.consume, s);
      assert s.id == a.id;
      CodesAfterProcess(cfg, st.(recs := recs1), now, s, req.checked, req.process, code);
    } else {
      RejectedChangesNothing(cfg, st, now, req);
    }
  }

  // ---- the other two endpoints ----

  /** The request object is served exactly when the session can be read, was not served before, the object is
      signed, and neither command fails; it is then marked for a whole lifetime. */
  lemma ServedExactly(cfg: Config, st: Stores, now: Time, req: GetRequest)
    ensures GetOp(cfg, st, now, req).1 <==>
      && req.load == Fine && req.mark == Fine && req.signed
      && (exists s :: Loads(st.recs, now, req.id, s)) && !Marked(st.recs, now, ServedRec(req.id))
    ensures GetOp(cfg, st, now, req).1 ==>
      && GetOp(cfg, st, now, req).0.recs == st.recs[ServedRec(req.id) := Entry(MarkerVal, now + cfg.sessionTTL)]
      && (req.status != Refused && req.id in st.rows ==>
            GetOp(cfg, st, now, req).0.rows == st.rows[req.id := st.rows[req.id].(status := WalletEngaged)])
  {
    var loaded := LoadOp(st.recs, now, req.id, req.load);
    if loaded.Ok? {
      LoadsExactly(st.recs, now, req.id, req.load, loaded.value);
    }
  }

  /** A session is created exactly when the engine minted one with an id and no write failed. */
  lemma CreatedExactly(cfg: Config, st: Stores, now: Time, req: CreateRequest)
    ensures CreateOp(cfg, st, now, req).1 <==>
      req.minted && req.id != "" && req.save == Fine && req.put == Fine && req.row == Fine
  {
  }
}
