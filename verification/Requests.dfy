/** routes/wallet.go, routes/processor_pipeline.go, internal/sessions/creator.go and internal/handoff/queue.go:
    what one whole request does to the shared stores, any command failing. */
module Requests {
  import opened Wrappers
  import opened Keyspace
  import opened ValkeyStore

  /** Lifetimes in seconds, and the body cap. */
  datatype Config = Config(sessionTTL: int, respCodeTTL: int, handoffTTL: int, maxBody: nat)

  const HARD_CAP: int := 86400

  /** NewQueue: a lifetime outside (0, 24h] becomes 24h. */
  function QueueTTL(configured: int): int {
    if configured <= 0 || configured > HARD_CAP then HARD_CAP else configured
  }

  datatype SessionStatus = Created | WalletEngaged | VerifiedStatus | FailedStatus

  /** A metadata row: its status, the last report saved (whether it was verified), whether the client gave a
      webhook, and when it expires. */
  datatype MetaRow = MetaRow(status: SessionStatus, report: Option<bool>, webhook: bool, expiresAt: Time)

  /** What requests share: the key-value store, the delivery queue, the metadata rows. */
  datatype Stores = Stores(recs: Recs, queue: seq<string>, rows: RowTable)

  type RowTable = map<string, MetaRow>

  function WithStatus(rows: RowTable, id: string, status: SessionStatus, fault: Fault): RowTable {
    if fault == Refused || id !in rows then rows else rows[id := rows[id].(status := status)]
  }

  function WithReport(rows: RowTable, id: string, verified: bool, fault: Fault): RowTable {
    if fault == Refused || id !in rows then rows else rows[id := rows[id].(report := Some(verified))]
  }

  function AddRow(st: Stores, id: string, row: MetaRow, fault: Fault): Stores {
    if fault == Refused then st else st.(rows := st.rows[id := row])
  }

  function SetStatus(st: Stores, id: string, status: SessionStatus, fault: Fault): Stores {
    st.(rows := WithStatus(st.rows, id, status, fault))
  }

  function SaveReport(st: Stores, id: string, verified: bool, fault: Fault): Stores {
    st.(rows := WithReport(st.rows, id, verified, fault))
  }

  // ---- handoff ----

  /** Queue.Deliver: the payload and the queue entry in one transaction. */
  function Deliver(cfg: Config, st: Stores, now: Time, id: string, webhook: bool, verified: bool, fault: Fault)
    : Stores
  {
    if fault == Refused then st
    else st.(
      recs := SetRec(st.recs, now, PayloadRec(id), EnvelopeVal(Envelope(id, webhook, verified)),
        QueueTTL(cfg.handoffTTL), Fine),
      queue := if webhook then [id] + st.queue else st.queue)
  }

  /** Finalize: deliver, then keep the session for a verified result with a code to redeem, else delete it. */
  function FinalizeOp(
    cfg: Config, st: Stores, now: Time, s: Session, webhook: bool, verified: bool, deliver: Fault, dispose: Fault)
    : (Stores, bool)
  {
    var st1 := Deliver(cfg, st, now, s.id, webhook, verified, deliver);
    if deliver != Fine then (st1, false)
    else if verified && s.responseCode != "" then
      (st1.(recs := SaveOp(st1.recs, now, cfg.sessionTTL, s, dispose)), SaveOk(s, dispose))
    else (st1.(recs := DeleteOp(st1.recs, s.id, dispose)), dispose == Fine)
  }

  // ---- the response endpoint ----

  /** How the checks before step 10 ended: a fail, or all passed with this response code. */
  datatype Checked = FailedEarly | Passed(responseCode: string)

  /** Everything that may go wrong while a response is processed; redirectOk is false when the flow wants a
      redirect URI and the engine cannot build one. */
  datatype ProcessFaults = ProcessFaults(
    meta: Fault, policyOk: bool, deliver: Fault, dispose: Fault, report: Fault, status: Fault,
    deliverFailed: Fault, disposeFailed: Fault, respCode: Fault, redirectOk: bool)

  /** The run of the pipeline: the stores as its step 10 leaves them, and whether it is verified. */
  function RunOp(cfg: Config, st: Stores, now: Time, s: Session, webhook: bool, c: Checked, f: ProcessFaults)
    : (Stores, bool)
  {
    match c
    case FailedEarly => (st, false)
    case Passed(code) => FinalizeOp(cfg, st, now, s.(responseCode := code), webhook, true, f.deliver, f.dispose)
  }

  /** The session as step 1 leaves it. */
  function WithCode(s: Session, c: Checked): Session {
    match c case FailedEarly => s case Passed(code) => s.(responseCode := code)
  }

  /** Process after a run that was not verified: mark the row, deliver the failed result, delete. */
  function FinishFailed(cfg: Config, st: Stores, now: Time, s: Session, webhook: bool, f: ProcessFaults): Stores {
    FinalizeOp(cfg, SetStatus(st, s.id, FailedStatus, f.status), now, s, webhook, false, f.deliverFailed,
      f.disposeFailed).0
  }

  /** Process after a verified run: mark the row, index the response code when one was minted. */
  function FinishVerified(cfg: Config, st: Stores, now: Time, id: string, code: string, f: ProcessFaults)
    : (Stores, bool)
  {
    var st1 := SetStatus(st, id, VerifiedStatus, f.status);
    if f.status != Fine then (st1, false)
    else if code != "" then
      (st1.(recs := SetRec(st1.recs, now, RespCodeRec(code), IdVal(id), cfg.respCodeTTL, f.respCode)),
        f.respCode == Fine && f.redirectOk)
    else (st1, f.redirectOk)
  }

  /** Process after the report was saved, or not. */
  function ConcludeOp(
    cfg: Config, st: Stores, now: Time, s: Session, webhook: bool, verified: bool, f: ProcessFaults): (Stores, bool)
  {
    if f.report != Fine then (st, false)
    else if !verified then (FinishFailed(cfg, st, now, s, webhook, f), false)
    else FinishVerified(cfg, st, now, s.id, s.responseCode, f)
  }

  /** Process: run, save the report, then finish either way. */
  function ProcessOp(cfg: Config, st: Stores, now: Time, s: Session, c: Checked, f: ProcessFaults): (Stores, bool) {
    if f.meta != Fine || s.id !in st.rows || !f.policyOk then (st, false)
    else
      var webhook := st.rows[s.id].webhook;
      var (st1, verified) := RunOp(cfg, st, now, s, webhook, c, f);
      ConcludeOp(cfg, SaveReport(st1, s.id, verified, f.report), now, WithCode(s, c), webhook, verified, f)
  }

  /** Finalize, and with it the erasure of attribute memory, runs in step 10 or on the failure path. */
  predicate Erases(st: Stores, id: string, c: Checked, f: ProcessFaults) {
    f.meta == Fine && id in st.rows && f.policyOk && (c.Passed? || f.report == Fine)
  }

  /** RespondTokens.Resolve */
  function ResolveOp(recs: Recs, now: Time, token: string, fault: Fault): Option<string> {
    if fault != Fine then None
    else match Live(recs, now, TokenRec(token))
      case Some(IdVal(id)) => Some(id)
      case _ => None
  }

  datatype PostRequest = PostRequest(
    token: string, bodyLen: nat, resolve: Fault, consume: ConsumeFaults, checked: Checked,
    process: ProcessFaults, failStatus: Fault)

  /** How the response endpoint answered. */
  datatype PostAnswer = UnknownToken | BodyTooLarge | NotConsumed(error: StoreError) | Processed(id: string, ok: bool)

  /** walletResponse */
  function PostOp(cfg: Config, st: Stores, now: Time, req: PostRequest): (Stores, PostAnswer) {
    match ResolveOp(st.recs, now, req.token, req.resolve)
    case None => (st, UnknownToken)
    case Some(id) =>
      if req.bodyLen > cfg.maxBody then (st, BodyTooLarge)
      else
        var (recs1, consumed) := ConsumeOp(st.recs, now, cfg.sessionTTL, id, req.consume);
        match consumed
        case Fault(e) => (st.(recs := recs1), NotConsumed(e))
        case Ok(s) => AnswerOp(cfg, st.(recs := recs1), now, id, s, req)
  }

  /** walletResponse, once the session is consumed. */
  function AnswerOp(cfg: Config, st: Stores, now: Time, id: string, s: Session, req: PostRequest)
    : (Stores, PostAnswer)
  {
    var (st2, ok) := ProcessOp(cfg, st, now, s, req.checked, req.process);
    (if ok then st2 else SetStatus(st2, id, FailedStatus, req.failStatus), Processed(id, ok))
  }

  // ---- the request endpoint ----

  datatype GetRequest = GetRequest(id: string, load: Fault, mark: Fault, signed: bool, status: Fault)

  /** requestObject: load, mark, then serve the one signed request object; true iff it was served. */
  function GetOp(cfg: Config, st: Stores, now: Time, req: GetRequest): (Stores, bool) {
    if LoadOp(st.recs, now, req.id, req.load).Fault? then (st, false)
    else
      var (recs1, first) := ServeOp(st.recs, now, cfg.sessionTTL, req.id, req.mark);
      var st1 := st.(recs := recs1);
      if first.Fault? || !first.value || !req.signed then (st1, false)
      else (SetStatus(st1, req.id, WalletEngaged, req.status), true)
  }

  // ---- the delete endpoint ----

  /** internalDeleteSession: the id of the path, whatever it is, goes to the store. */
  function DeleteRequestOp(st: Stores, id: string, fault: Fault): (Stores, bool) {
    (st.(recs := DeleteOp(st.recs, id, fault)), fault == Fine)
  }

  // ---- creation ----

  datatype CreateRequest = CreateRequest(
    id: string, token: string, expiresAt: Time, ttl: int, webhook: bool, minted: bool,
    save: Fault, put: Fault, row: Fault)

  /** The request may shorten the configured lifetime, never extend it. */
  function EffectiveTTL(configured: int, wanted: int): int {
    if 0 < wanted < configured then wanted else configured
  }

  /** Create: one write to each of the three stores, in order; true iff all succeeded. */
  function CreateOp(cfg: Config, st: Stores, now: Time, req: CreateRequest): (Stores, bool) {
    if !req.minted then (st, false)
    else
      var s := Session(req.id, req.expiresAt, false, "");
      var st1 := st.(recs := SaveOp(st.recs, now, cfg.sessionTTL, s, req.save));
      if !SaveOk(s, req.save) then (st1, false)
      else
        var ttl := EffectiveTTL(cfg.sessionTTL, req.ttl);
        var st2 := st1.(recs := SetRec(st1.recs, now, TokenRec(req.token), IdVal(req.id), ttl, req.put));
        if req.put != Fine then (st2, false)
        else (AddRow(st2, req.id, MetaRow(Created, None, req.webhook, now + ttl), req.row), req.row == Fine)
  }

  // ---- properties of single requests ----

  /** The handoff lifetime is in (0, 24h] for every configuration, and is the configured one when that is. */
  lemma QueueTTLBounded(configured: int)
    ensures 0 < QueueTTL(configured) <= 24 * 3600
    ensures QueueTTL(configured) == if 0 < configured <= 24 * 3600 then configured else 24 * 3600
  {
  }

  /** A delivery that takes effect commits a live payload and queues its id in the same step, the latter
      exactly when a webhook is set; one that does not changes nothing. */
  lemma DeliverCommits(cfg: Config, st: Stores, now: Time, id: string, webhook: bool, verified: bool, fault: Fault)
    ensures var st' := Deliver(cfg, st, now, id, webhook, verified, fault);
      && (fault == Refused ==> st' == st)
      && (fault != Refused ==>
            && Live(st'.recs, now, PayloadRec(id)) == Some(EnvelopeVal(Envelope(id, webhook, verified)))
            && now < st'.recs[PayloadRec(id)].expiry <= now + HARD_CAP
            && st'.queue == (if webhook then [id] else []) + st.queue)
  {
    QueueTTLBounded(cfg.handoffTTL);
  }

  /** A response that is not consumed touches no row, payload, queue entry or response code; rejected as a
      replay or as unknown, it changes nothing at all. */
  lemma RejectedChangesNothing(cfg: Config, st: Stores, now: Time, req: PostRequest)
    requires !PostOp(cfg, st, now, req).1.Processed?
    requires SessionsKeyed(st.recs)
    ensures var (st', answer) := PostOp(cfg, st, now, req);
      && st'.rows == st.rows && st'.queue == st.queue
      && (forall r: Rec :: r.PayloadRec? || r.RespCodeRec? || r.TokenRec? ==>
            (r in st'.recs <==> r in st.recs) && (r in st.recs ==> st'.recs[r] == st.recs[r]))
      && (!answer.NotConsumed? || answer.error == NotFound || answer.error == AlreadyConsumed ==> st' == st)
  {
    var answer := PostOp(cfg, st, now, req).1;
    if answer.NotConsumed? {
      var id := ResolveOp(st.recs, now, req.token, req.resolve).value;
      forall r: Rec | r.PayloadRec? || r.RespCodeRec? || r.TokenRec?
        ensures var recs' := PostOp(cfg, st, now, req).0.recs;
          (r in recs' <==> r in st.recs) && (r in st.recs ==> recs'[r] == st.recs[r])
      {
        OperationsFrameOthers(st.recs, now, cfg.sessionTTL, id, req.consume, Fine, r);
      }
    }
  }

  /** A create that succeeds leaves one id in all three stores: the session can be loaded, the token
      resolves to it, and its row is there; token and row both expire after the effective lifetime, which is
      positive, at most the configured one, and the request's own when that is shorter. */
  lemma CreateAgrees(cfg: Config, st: Stores, now: Time, req: CreateRequest)
    requires cfg.sessionTTL > 0 && now < req.expiresAt && CreateOp(cfg, st, now, req).1
    ensures var st' := CreateOp(cfg, st, now, req).0; var ttl := EffectiveTTL(cfg.sessionTTL, req.ttl);
      && LoadOp(st'.recs, now, req.id, Fine) == Ok(Session(req.id, req.expiresAt, false, ""))
      && ResolveOp(st'.recs, now, req.token, Fine) == Some(req.id)
      && req.id in st'.rows && st'.rows[req.id] == MetaRow(Created, None, req.webhook, now + ttl)
      && st'.recs[TokenRec(req.token)].expiry == now + ttl
      && 0 < ttl <= cfg.sessionTTL && (0 < req.ttl < cfg.sessionTTL ==> ttl == req.ttl)
  {
  }

  /** When a run that was not verified is processed, the session is gone afterwards exactly when the
      report could be saved, the failed result delivered and the delete took effect, or when step 10 had
      already deleted it without learning so: any other error leaves it behind until it expires. */
  lemma FailedRunDeletes(cfg: Config, st: Stores, now: Time, s: Session, c: Checked, f: ProcessFaults)
    requires f.meta == Fine && s.id in st.rows && f.policyOk && SessionRec(s.id) in st.recs
    requires !RunOp(cfg, st, now, s, st.rows[s.id].webhook, c, f).1
    ensures var st' := ProcessOp(cfg, st, now, s, c, f).0;
      SessionRec(s.id) !in st'.recs <==>
        || (f.report == Fine && f.deliverFailed == Fine && f.disposeFailed != Refused)
        || (c == Passed("") && f.deliver == Fine && f.dispose == ReplyLost)
  {
    var webhook := st.rows[s.id].webhook;
    var st1 := RunOp(cfg, st, now, s, webhook, c, f).0;
    assert SessionRec(s.id) in st1.recs <==> !(c == Passed("") && f.deliver == Fine && f.dispose == ReplyLost);
  }

  /** The payload waiting for the client says the opposite of the saved report. */
  predicate Disagree(st: Stores, id: string) {
    && PayloadRec(id) in st.recs && st.recs[PayloadRec(id)].val.EnvelopeVal?
    && id in st.rows && st.rows[id].report.Some?
    && st.recs[PayloadRec(id)].val.env.verified != st.rows[id].report.value
  }

  /** What Finalize leaves waiting: its own result if the delivery took effect, else what was there. */
  lemma PayloadAfter(
    cfg: Config, st: Stores, now: Time, s: Session, webhook: bool, verified: bool, deliver: Fault, dispose: Fault)
    ensures var st' := FinalizeOp(cfg, st, now, s, webhook, verified, deliver, dispose).0; var p := PayloadRec(s.id);
      && st'.rows == st.rows
      && (p in st'.recs <==> p in st.recs || deliver != Refused)
      && (deliver != Refused ==> st'.recs[p].val == EnvelopeVal(Envelope(s.id, webhook, verified)))
      && (deliver == Refused && p in st.recs ==> st'.recs[p] == st.recs[p])
  {
  }

  /** Whether the run of the pipeline is verified, in terms of the faults. */
  lemma VerifiedByFaults(
    cfg: Config, st: Stores, now: Time, s: Session, webhook: bool, c: Checked, f: ProcessFaults)
    ensures RunOp(cfg, st, now, s, webhook, c, f).1 <==>
      c.Passed? && f.deliver == Fine && f.dispose == Fine && (s.id != "" || c.responseCode == "")
  {
  }

  /** What is delivered and what is saved disagree after a response is processed exactly when step 10's
      delivery took effect although its reply or the disposal failed, the failed report was saved, and the
      failed result was not delivered over the first: its delivery was refused, or never tried for want of a
      reply to the save. */
  lemma DisagreeExactly(cfg: Config, st: Stores, now: Time, s: Session, c: Checked, f: ProcessFaults)
    requires f.meta == Fine && s.id in st.rows && f.policyOk
    requires PayloadRec(s.id) !in st.recs && st.rows[s.id].report.None?
    ensures Disagree(ProcessOp(cfg, st, now, s, c, f).0, s.id) <==>
      && c.Passed? && f.deliver != Refused
      && (f.deliver == ReplyLost || f.dispose != Fine || (s.id == "" && c.responseCode != ""))
      && f.report != Refused && (f.report == ReplyLost || f.deliverFailed == Refused)
  {
    var webhook := st.rows[s.id].webhook;
    var (st1, verified) := RunOp(cfg, st, now, s, webhook, c, f);
    VerifiedByFaults(cfg, st, now, s, webhook, c, f);
    if c.Passed? {
      PayloadAfter(cfg, st, now, WithCode(s, c), webhook, true, f.deliver, f.dispose);
    }
    var st2 := SaveReport(st1, s.id, verified, f.report);
    if f.report == Fine && !verified {
      var st3 := SetStatus(st2, s.id, FailedStatus, f.status);
      PayloadAfter(cfg, st3, now, WithCode(s, c), webhook, false, f.deliverFailed, f.disposeFailed);
    }
  }

  /** The row's status says the opposite of the report saved in it. */
  predicate StatusContradicts(row: MetaRow) {
    || (row.report == Some(true) && row.status == FailedStatus)
    || (row.report == Some(false) && row.status == VerifiedStatus)
  }

  /** Something goes wrong after a verified report was saved: its reply, the status, the response code or the
      redirect. */
  predicate FailsAfterReport(code: string, f: ProcessFaults) {
    f.report == ReplyLost || f.status != Fine || (code != "" && f.respCode != Fine) || !f.redirectOk
  }

  /** What the first response to a session leaves in its row. */
  lemma RowAfter(cfg: Config, st: Stores, now: Time, s: Session, c: Checked, f: ProcessFaults)
    requires f.meta == Fine && s.id in st.rows && f.policyOk
    ensures var webhook := st.rows[s.id].webhook; var v := RunOp(cfg, st, now, s, webhook, c, f).1;
      var (st', ok) := ProcessOp(cfg, st, now, s, c, f);
      && s.id in st'.rows
      && st'.rows[s.id].report == (if f.report == Refused then st.rows[s.id].report else Some(v))
      && st'.rows[s.id].status == (
           if f.report != Fine || f.status == Refused then st.rows[s.id].status
           else if v then VerifiedStatus else FailedStatus)
      && (ok <==> v && f.report == Fine && !FailsAfterReport(c.responseCode, f))
  {
  }

  /** After the first response to a session its status contradicts its report exactly when the run was
      verified, its report was saved, something failed afterwards, and the endpoint's own mark of failure took
      effect. */
  lemma StatusContradictsExactly(cfg: Config, st: Stores, now: Time, req: PostRequest)
    requires SessionsKeyed(st.recs) && PostOp(cfg, st, now, req).1.Processed?
    requires var id := PostOp(cfg, st, now, req).1.id;
      id in st.rows && st.rows[id].report.None? && st.rows[id].status in {Created, WalletEngaged}
    ensures var (st', answer) := PostOp(cfg, st, now, req); var f := req.process;
      answer.id in st'.rows
      && (StatusContradicts(st'.rows[answer.id]) <==>
            && f.meta == Fine && f.policyOk
            && req.checked.Passed? && f.deliver == Fine && f.dispose == Fine
            && f.report != Refused && FailsAfterReport(req.checked.responseCode, f) && req.failStatus != Refused)
  {
    var id := PostOp(cfg, st, now, req).1.id;
    var (recs1, consumed) := ConsumeOp(st.recs, now, cfg.sessionTTL, id, req.consume);
    var s, st1 := consumed.value, st.(recs := recs1);
    assert s.id == id != "";
    if req.process.meta == Fine && req.process.policyOk {
      VerifiedByFaults(cfg, st1, now, s, st.rows[id].webhook, req.checked, req.process);
      RowAfter(cfg, st1, now, s, req.checked, req.process);
    }
  }
}
