/** The handlers on the heap: routes/wallet.go, routes/processor_pipeline.go, internal/sessions/creator.go,
    internal/sessions/respondtokens.go and internal/handoff/queue.go, sequencing commands on the shared
    stores. Each is proved to do what its operation on values says. */
module Server {
  import opened Wrappers
  import opened Keyspace
  import opened ValkeyStore
  import opened Requests
  import opened Finalization

  /** sessiondb: the metadata rows. */
  class SessionDB {
    var rows: RowTable

    constructor ()
      ensures rows == map[]
    {
      rows := map[];
    }

    method Get(id: string, fault: Fault) returns (row: Option<MetaRow>)
      ensures row == if fault == Fine && id in rows then Some(rows[id]) else None
    {
      row := if fault == Fine && id in rows then Some(rows[id]) else None;
    }

    method Create(id: string, webhook: bool, expiresAt: Time, fault: Fault) returns (ok: bool)
      modifies this
      ensures ok == (fault == Fine)
      ensures rows ==
        if fault == Refused then old(rows) else old(rows)[id := MetaRow(Created, None, webhook, expiresAt)]
    {
      if fault != Refused {
        rows := rows[id := MetaRow(Created, None, webhook, expiresAt)];
      }
      ok := fault == Fine;
    }

    method SetStatus(id: string, status: SessionStatus, fault: Fault) returns (ok: bool)
      modifies this
      ensures ok == (fault == Fine) && rows == WithStatus(old(rows), id, status, fault)
    {
      if fault != Refused && id in rows {
        rows := rows[id := rows[id].(status := status)];
      }
      ok := fault == Fine;
    }

    method SaveReport(id: string, verified: bool, fault: Fault) returns (ok: bool)
      modifies this
      ensures ok == (fault == Fine) && rows == WithReport(old(rows), id, verified, fault)
    {
      if fault != Refused && id in rows {
        rows := rows[id := rows[id].(report := Some(verified))];
      }
      ok := fault == Fine;
    }
  }

  /** sessions.ValkeyRespondTokens */
  class RespondTokens {
    const rdb: Valkey

    constructor (rdb: Valkey)
      ensures this.rdb == rdb
    {
      this.rdb := rdb;
    }

    method Put(token: string, sessionID: string, ttl: int, fault: Fault) returns (ok: bool)
      requires rdb.Valid() && ':' !in sessionID
      modifies rdb`kv, rdb`recs
      ensures rdb.Valid() && ok == (fault == Fine) && (old(Sane(rdb.recs)) ==> Sane(rdb.recs))
      ensures rdb.recs == SetRec(old(rdb.recs), rdb.now, TokenRec(token), IdVal(sessionID), ttl, fault)
    {
      ok := rdb.Set(TokenRec(token), IdVal(sessionID), ttl, fault);
    }

    method Resolve(token: string, fault: Fault) returns (id: Option<string>)
      requires rdb.Valid() && Sane(rdb.recs)
      ensures id == ResolveOp(rdb.recs, rdb.now, token, fault)
      ensures id.Some? ==> ':' !in id.value
    {
      var v := rdb.Get(TokenRec(token), fault);
      match v
      case Ok(Some(IdVal(i))) => id := Some(i);
      case _ => id := None;
    }
  }

  /** handoff.Queue. The list of ids is the Redis list under the queue key, newest first. */
  class Queue {
    const rdb: Valkey
    const ttl: int
    var ids: seq<string>

    /** NewQueue: a lifetime outside (0, 24h] fails closed to 24h. */
    constructor (rdb: Valkey, ttl: int)
      ensures this.rdb == rdb && ids == [] && this.ttl == QueueTTL(ttl) && 0 < this.ttl <= HARD_CAP
    {
      var clamped := ttl;
      if clamped <= 0 || clamped > HARD_CAP {
        clamped := HARD_CAP;
      }
      this.rdb, this.ttl, ids := rdb, clamped, [];
    }

    /** One transaction: both writes or neither. */
    method Deliver(id: string, webhook: bool, verified: bool, fault: Fault, ghost cfg: Config, ghost st: Stores)
      returns (ok: bool)
      requires rdb.Valid() && Sane(rdb.recs) && ttl == QueueTTL(cfg.handoffTTL)
      requires st.recs == rdb.recs && st.queue == ids
      modifies this, rdb`kv, rdb`recs
      ensures rdb.Valid() && Sane(rdb.recs) && ok == (fault == Fine)
      ensures st.(recs := rdb.recs, queue := ids) == Requests.Deliver(cfg, st, rdb.now, id, webhook, verified, fault)
    {
      if fault != Refused {
        var _ := rdb.Set(PayloadRec(id), EnvelopeVal(Envelope(id, webhook, verified)), ttl, Fine);
        if webhook {
          ids := [id] + ids;
        }
      }
      ok := fault == Fine;
    }
  }

  /** The application's shared parts, over one store client. */
  class App {
    const rdb: Valkey
    const sessions: Store
    const tokens: RespondTokens
    const queue: Queue
    const db: SessionDB
    const cfg: Config

    constructor (prefix: string, now: Time, cfg: Config)
      ensures Valid() && fresh(rdb) && fresh(queue) && fresh(db) && this.cfg == cfg && rdb.now == now
      ensures Contents() == Stores(map[], [], map[])
    {
      var rdb := new Valkey(prefix, now);
      var sessions := new Store(rdb, cfg.sessionTTL, cfg.respCodeTTL);
      var tokens := new RespondTokens(rdb);
      var queue := new Queue(rdb, cfg.handoffTTL);
      var db := new SessionDB();
      this.rdb, this.sessions, this.tokens, this.queue, this.db, this.cfg := rdb, sessions, tokens, queue, db, cfg;
    }

    ghost predicate Valid()
      reads this, rdb
    {
      && rdb.Valid() && Sane(rdb.recs)
      && sessions.rdb == rdb && tokens.rdb == rdb && queue.rdb == rdb
      && sessions.sessionTTL == cfg.sessionTTL && sessions.respCodeTTL == cfg.respCodeTTL
      && queue.ttl == QueueTTL(cfg.handoffTTL)
    }

    /** What is in the stores. */
    ghost function Contents(): Stores
      reads rdb, queue, db
    {
      Stores(rdb.recs, queue.ids, db.rows)
    }

    /** Finalize against the real stores; mem is the attribute-carrying memory of the response. */
    method Finalize(s: Session, webhook: bool, verified: bool, deliver: Fault, dispose: Fault, mem: Memory)
      returns (ok: bool)
      requires Valid() && ':' !in s.id && mem.Valid()
      modifies rdb`kv, rdb`recs, queue, mem.Buffers(), mem.Maps()
      ensures Valid()
        && (Contents(), ok) == FinalizeOp(cfg, old(Contents()), rdb.now, s, webhook, verified, deliver, dispose)
      ensures mem.Erased()
    {
      ok := DeliverAndDispose(s, webhook, verified, deliver, dispose);
      Zero(mem);
    }

    method DeliverAndDispose(s: Session, webhook: bool, verified: bool, deliver: Fault, dispose: Fault)
      returns (ok: bool)
      requires Valid() && ':' !in s.id
      modifies rdb`kv, rdb`recs, queue
      ensures Valid()
        && (Contents(), ok) == FinalizeOp(cfg, old(Contents()), rdb.now, s, webhook, verified, deliver, dispose)
    {
      ok := queue.Deliver(s.id, webhook, verified, deliver, cfg, Contents());
      if !ok {
        return;
      }
      if verified && s.responseCode != "" {
        ok := sessions.Save(s, dispose);
      } else {
        ok := sessions.DeleteSession(s.id, dispose);
      }
    }

    /** Process after its run: what is written, in order, with every early return. */
    method Conclude(s: Session, webhook: bool, verified: bool, f: ProcessFaults, mem: Memory) returns (ok: bool)
      requires Valid() && ':' !in s.id && mem.Valid()
      modifies rdb`kv, rdb`recs, queue, db, mem.Buffers(), mem.Maps()
      ensures Valid()
      ensures var st := SaveReport(old(Contents()), s.id, verified, f.report);
        (Contents(), ok) == ConcludeOp(cfg, st, rdb.now, s, webhook, verified, f)
      ensures if f.report == Fine && !verified then mem.Erased() else unchanged(mem.Buffers()) && unchanged(mem.Maps())
      ensures old(mem.Erased()) ==> mem.Erased()
    {
      var saved := db.SaveReport(s.id, verified, f.report);
      if !saved {
        return false;
      }
      if !verified {
        var _ := db.SetStatus(s.id, FailedStatus, f.status);
        var _ := Finalize(s, webhook, false, f.deliverFailed, f.disposeFailed, mem);
        return false;
      }
      var set_ := db.SetStatus(s.id, VerifiedStatus, f.status);
      if !set_ {
        return false;
      }
      if s.responseCode != "" {
        var indexed := sessions.SaveResponseCode(s.responseCode, s.id, f.respCode);
        if !indexed {
          return false;
        }
      }
      ok := f.redirectOk;
    }

    /** Process, with the checks before step 10 decided elsewhere. Attribute memory is erased on exactly the
        paths that reach Finalize; on the others it keeps what it held. */
    method Process(sess: Session, c: Checked, f: ProcessFaults, mem: Memory) returns (ok: bool)
      requires Valid() && ':' !in sess.id && mem.Valid()
      modifies rdb`kv, rdb`recs, queue, db, mem.Buffers(), mem.Maps()
      ensures Valid() && (Contents(), ok) == ProcessOp(cfg, old(Contents()), rdb.now, sess, c, f)
      ensures if Erases(old(Contents()), sess.id, c, f) then mem.Erased()
              else unchanged(mem.Buffers()) && unchanged(mem.Maps())
    {
      var meta := db.Get(sess.id, f.meta);
      if meta.None? || !f.policyOk {
        return false;
      }
      if c.Passed? {
        ok := ConcludePassed(WithCode(sess, c), meta.value.webhook, f, mem);
      } else {
        ok := Conclude(sess, meta.value.webhook, false, f, mem);
      }
    }

    /** Process of a response that passed the checks before step 10, from step 10 on. */
    method ConcludePassed(s: Session, webhook: bool, f: ProcessFaults, mem: Memory) returns (ok: bool)
      requires Valid() && ':' !in s.id && mem.Valid()
      modifies rdb`kv, rdb`recs, queue, db, mem.Buffers(), mem.Maps()
      ensures Valid() && mem.Erased()
      ensures var (st, verified) := FinalizeOp(cfg, old(Contents()), rdb.now, s, webhook, true, f.deliver, f.dispose);
        (Contents(), ok) == ConcludeOp(cfg, SaveReport(st, s.id, verified, f.report), rdb.now, s, webhook, verified, f)
    {
      var verified := Finalize(s, webhook, true, f.deliver, f.dispose, mem);
      ok := Conclude(s, webhook, verified, f, mem);
    }

    /** walletResponse */
    method WalletResponse(req: PostRequest, mem: Memory) returns (answer: PostAnswer)
      requires Valid() && mem.Valid()
      modifies rdb`kv, rdb`recs, queue, db, mem.Buffers(), mem.Maps()
      ensures Valid() && (Contents(), answer) == PostOp(cfg, old(Contents()), rdb.now, req)
    {
      var resolved := tokens.Resolve(req.token, req.resolve);
      if resolved.None? {
        return UnknownToken;
      }
      var id := resolved.value;
      if req.bodyLen > cfg.maxBody {
        return BodyTooLarge;
      }
      var sess := sessions.ConsumeOnce(id, req.consume);
      if sess.Fault? {
        return NotConsumed(sess.error);
      }
      answer := Answer(id, sess.value, req, mem);
    }

    /** walletResponse, once the session is consumed. */
    method Answer(id: string, sess: Session, req: PostRequest, mem: Memory) returns (answer: PostAnswer)
      requires Valid() && ':' !in sess.id && mem.Valid()
      modifies rdb`kv, rdb`recs, queue, db, mem.Buffers(), mem.Maps()
      ensures Valid() && (Contents(), answer) == AnswerOp(cfg, old(Contents()), rdb.now, id, sess, req)
    {
      var ok := Process(sess, req.checked, req.process, mem);
      if !ok {
        var _ := db.SetStatus(id, FailedStatus, req.failStatus);
      }
      answer := Processed(id, ok);
    }

    /** internalDeleteSession, for any id in the path. */
    method Delete(id: string, fault: Fault) returns (ok: bool)
      requires Valid()
      modifies rdb`kv, rdb`recs
      ensures Valid() && (Contents(), ok) == DeleteRequestOp(old(Contents()), id, fault)
    {
      ok := sessions.DeleteSession(id, fault);
    }

    /** requestObject, for any id a wallet may put in the path. */
    method RequestObject(req: GetRequest) returns (served: bool)
      requires Valid()
      modifies rdb`kv, rdb`recs, db
      ensures Valid() && (Contents(), served) == GetOp(cfg, old(Contents()), rdb.now, req)
    {
      var sess := sessions.Load(req.id, req.load);
      if sess.Fault? {
        return false;
      }
      var first := sessions.MarkRequestObjectServed(req.id, req.mark);
      if first.Fault? || !first.value || !req.signed {
        return false;
      }
      var _ := db.SetStatus(req.id, WalletEngaged, req.status);
      served := true;
    }

    /** Create: the session, its routing token, its row. */
    method Create(req: CreateRequest) returns (ok: bool)
      requires Valid() && ':' !in req.id
      modifies rdb`kv, rdb`recs, db
      ensures Valid() && (Contents(), ok) == CreateOp(cfg, old(Contents()), rdb.now, req)
    {
      var ttl := cfg.sessionTTL;
      if req.ttl > 0 && req.ttl < cfg.sessionTTL {
        ttl := req.ttl;
      }
      if !req.minted {
        return false;
      }
      ok := sessions.Save(Session(req.id, req.expiresAt, false, ""), req.save);
      if !ok {
        return;
      }
      ok := tokens.Put(req.token, req.id, ttl, req.put);
      if !ok {
        return;
      }
      ok := db.Create(req.id, req.webhook, rdb.now + ttl, req.row);
    }
  }
}
