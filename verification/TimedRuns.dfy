/** The single-use guarantees over whole runs: any sequence of create, GET request.jwt, POST response, DELETE
    and clock ticks, each request atomic, any store command failing.
    Hypotheses: ids and tokens are fresh when minted, and ids have no colon; a session expires after it is
    minted and at most one session lifetime later; the injected clock is the real one. A delete may name any
    id; the theorems say exactly which deletes break them. */
module TimedRuns {
  import opened Wrappers
  import opened Keyspace
  import opened ValkeyStore
  import opened Requests

  datatype Action =
    | Create(create: CreateRequest)
    | Get(get: GetRequest)
    | Post(post: PostRequest)
    | Delete(id: string, fault: Fault)
    | Tick(seconds: nat)

  /** The stores, the clock, and what has happened: ids minted, tokens and the ids they were minted for,
      ids handed to the processor, ids whose request object was served. */
  datatype World = World(
    st: Stores, now: Time, ids: set<string>, minted: map<string, string>, processed: seq<string>, served: seq<string>)

  function Step(cfg: Config, w: World, a: Action): World {
    match a
    case Create(req) =>
      w.(st := CreateOp(cfg, w.st, w.now, req).0, ids := w.ids + {req.id}, minted := w.minted[req.token := req.id])
    case Get(req) =>
      var (st, ok) := GetOp(cfg, w.st, w.now, req);
      w.(st := st, served := if ok then w.served + [req.id] else w.served)
    case Post(req) =>
      var (st, answer) := PostOp(cfg, w.st, w.now, req);
      w.(st := st, processed := if answer.Processed? then w.processed + [answer.id] else w.processed)
    case Delete(id, fault) => w.(st := DeleteRequestOp(w.st, id, fault).0)
    case Tick(seconds) => w.(now := w.now + seconds)
  }

  /** The hypotheses, as they bear on one action. */
  predicate Allowed(cfg: Config, w: World, a: Action) {
    a.Create? ==>
      && a.create.id !in w.ids && ':' !in a.create.id && a.create.token !in w.minted
      && w.now < a.create.expiresAt <= w.now + cfg.sessionTTL
  }

  function Run(cfg: Config, w: World, actions: seq<Action>): World {
    if actions == [] then w else Step(cfg, Run(cfg, w, actions[..|actions| - 1]), actions[|actions| - 1])
  }

  ghost predicate AllAllowed(cfg: Config, w: World, actions: seq<Action>) {
    forall k :: 0 <= k < |actions| ==> Allowed(cfg, Run(cfg, w, actions[..k]), actions[k])
  }

  predicate Loadable(w: World, id: string) {
    LoadOp(w.st.recs, w.now, id, Fine).Ok?
  }

  /** The marker is what keeps a loadable session from being used a second time. */
  predicate Guards(w: World, m: Rec) {
    || (m.ConsumedRec? && m.id in w.processed && Loadable(w, m.id))
    || (m.ServedRec? && m.id in w.served && Loadable(w, m.id))
  }

  /** The action is not a delete whose id spells out such a marker. */
  ghost predicate Harmless(w: World, a: Action) {
    a.Delete? && a.fault != Refused ==> forall m :: m in Spelled(a.id) ==> !Guards(w, m)
  }

  ghost predicate AllHarmless(cfg: Config, w: World, actions: seq<Action>) {
    forall k :: 0 <= k < |actions| ==> Harmless(Run(cfg, w, actions[..k]), actions[k])
  }

  /** Every loadable session that was processed, or served, has the live marker that says so. */
  ghost predicate Guarded(w: World) {
    forall m {:trigger Guards(w, m)} :: Guards(w, m) ==> Live(w.st.recs, w.now, m).Some?
  }

  function Start(now: Time): World {
    World(Stores(map[], [], map[]), now, {}, map[], [], [])
  }

  // ---- the invariant ----

  /** A session record holds a session of that id, minted, and expiring within one lifetime from now. */
  ghost predicate SessionOk(recs: Recs, id: string, now: Time, ttl: int, ids: set<string>) {
    SessionRec(id) in recs ==>
      && recs[SessionRec(id)].val.SessionVal?
      && var s := recs[SessionRec(id)].val.session;
         s.id == id && id in ids && ':' !in id && s.expiresAt != ZERO_TIME && s.expiresAt <= now + ttl
  }

  /** While the session can be loaded, the marker outlives it. */
  ghost predicate Outlives(recs: Recs, now: Time, id: string, marker: Rec) {
    LoadOp(recs, now, id, Fine).Ok? ==>
      marker in recs && recs[marker].expiry >= LoadOp(recs, now, id, Fine).value.expiresAt
  }

  ghost predicate RecsInv(
    recs: Recs, now: Time, ttl: int, ids: set<string>, processed: seq<string>, served: seq<string>)
  {
    && (forall id :: SessionOk(recs, id, now, ttl, ids))
    && (forall id :: id in processed ==> id in ids && Outlives(recs, now, id, ConsumedRec(id)))
    && (forall id :: id in served ==> id in ids && Outlives(recs, now, id, ServedRec(id)))
  }

  /** No id twice. */
  ghost predicate Unique(s: seq<string>) {
    forall i, j :: 0 <= i < j < |s| ==> s[i] != s[j]
  }

  /** A live token resolves to the one session it was minted for. */
  ghost predicate TokensRoute(recs: Recs, minted: map<string, string>) {
    forall t {:trigger TokenRec(t)} :: TokenRec(t) in recs ==> t in minted && recs[TokenRec(t)].val == IdVal(minted[t])
  }

  ghost predicate PayloadOf(recs: Recs, id: string) {
    PayloadRec(id) in recs && recs[PayloadRec(id)].val.EnvelopeVal? && recs[PayloadRec(id)].val.env.sessionID == id
  }

  /** Every queued id was committed with its payload. */
  ghost predicate QueueBacked(st: Stores) {
    forall id :: id in st.queue ==> PayloadOf(st.recs, id)
  }

  ghost predicate Inv(cfg: Config, w: World) {
    && RecsInv(w.st.recs, w.now, cfg.sessionTTL, w.ids, w.processed, w.served)
    && Unique(w.processed) && Unique(w.served)
    && TokensRoute(w.st.recs, w.minted) && QueueBacked(w.st)
    && (forall t :: t in w.minted ==> w.minted[t] in w.ids)
  }

  // ---- each operation keeps the record invariant ----

  lemma KeyedFromInv(recs: Recs, now: Time, ttl: int, ids: set<string>, processed: seq<string>, served: seq<string>)
    requires RecsInv(recs, now, ttl, ids, processed, served)
    ensures SessionsKeyed(recs)
  {
    forall id {:trigger SessionRec(id)}
      ensures SessionRec(id) in recs && recs[SessionRec(id)].val.SessionVal? ==>
        recs[SessionRec(id)].val.session.id == id
    {
      assert SessionOk(recs, id, now, ttl, ids);
    }
  }

  /** Writing records of other kinds is harmless. */
  lemma OthersKeep(
    recs: Recs, recs': Recs, now: Time, ttl: int,
    ids: set<string>, processed: seq<string>, served: seq<string>)
    requires RecsInv(recs, now, ttl, ids, processed, served)
    requires forall r: Rec :: r.SessionRec? || r.ConsumedRec? || r.ServedRec? ==>
      (r in recs' <==> r in recs) && (r in recs ==> recs'[r] == recs[r])
    ensures RecsInv(recs', now, ttl, ids, processed, served)
  {
    forall id ensures SessionOk(recs', id, now, ttl, ids) {
      assert SessionOk(recs, id, now, ttl, ids);
    }
    forall id | id in processed ensures Outlives(recs', now, id, ConsumedRec(id)) {
      assert Outlives(recs, now, id, ConsumedRec(id));
    }
    forall id | id in served ensures Outlives(recs', now, id, ServedRec(id)) {
      assert Outlives(recs, now, id, ServedRec(id));
    }
  }

  /** A session can be loaded under this id, with this expiry. */
  ghost predicate Resavable(recs: Recs, now: Time, s: Session) {
    LoadOp(recs, now, s.id, Fine).Ok? && LoadOp(recs, now, s.id, Fine).value.expiresAt == s.expiresAt
  }

  /** Saving a session again, with its expiry unchanged, keeps the markers' lead. */
  lemma ResaveKeeps(
    recs: Recs, s: Session, fault: Fault, now: Time, ttl: int,
    ids: set<string>, processed: seq<string>, served: seq<string>)
    requires RecsInv(recs, now, ttl, ids, processed, served)
    requires Resavable(recs, now, s)
    ensures RecsInv(SaveOp(recs, now, ttl, s, fault), now, ttl, ids, processed, served)
  {
    var recs' := SaveOp(recs, now, ttl, s, fault);
    assert SessionOk(recs, s.id, now, ttl, ids);
    forall id ensures SessionOk(recs', id, now, ttl, ids) {
      assert SessionOk(recs, id, now, ttl, ids);
    }
    forall id | id in processed ensures Outlives(recs', now, id, ConsumedRec(id)) {
      assert Outlives(recs, now, id, ConsumedRec(id));
    }
    forall id | id in served ensures Outlives(recs', now, id, ServedRec(id)) {
      assert Outlives(recs, now, id, ServedRec(id));
    }
  }

  /** A delete that spells out no guarding marker keeps the markers ahead. */
  lemma DeleteKeeps(
    recs: Recs, id: string, fault: Fault, now: Time, ttl: int,
    ids: set<string>, processed: seq<string>, served: seq<string>)
    requires RecsInv(recs, now, ttl, ids, processed, served)
    requires fault != Refused ==> forall i :: LoadOp(recs, now, i, Fine).Ok? ==>
      && (i in processed ==> ConsumedRec(i) !in Spelled(id))
      && (i in served ==> ServedRec(i) !in Spelled(id))
    ensures RecsInv(DeleteOp(recs, id, fault), now, ttl, ids, processed, served)
  {
    var recs' := DeleteOp(recs, id, fault);
    forall i ensures SessionOk(recs', i, now, ttl, ids) {
      assert SessionOk(recs, i, now, ttl, ids);
    }
    forall i | i in processed ensures Outlives(recs', now, i, ConsumedRec(i)) {
      assert Outlives(recs, now, i, ConsumedRec(i));
    }
    forall i | i in served ensures Outlives(recs', now, i, ServedRec(i)) {
      assert Outlives(recs, now, i, ServedRec(i));
    }
  }

  /** A loadable session that was processed before still has its marker: it cannot be claimed again. */
  lemma LiveMarkerBlocks(recs: Recs, id: string, marker: Rec, now: Time, ttl: int, ids: set<string>)
    requires SessionOk(recs, id, now, ttl, ids) && Outlives(recs, now, id, marker)
    requires LoadOp(recs, now, id, Fine).Ok?
    ensures Live(recs, now, marker).Some?
  {
  }

  /** ConsumeOnce keeps the invariant, adds the consumed id to it, and never succeeds on an id that was
      processed before. */
  lemma ConsumeKeeps(
    recs: Recs, id: string, f: ConsumeFaults, now: Time, ttl: int,
    ids: set<string>, processed: seq<string>, served: seq<string>)
    requires RecsInv(recs, now, ttl, ids, processed, served)
    ensures var (recs', res) := ConsumeOp(recs, now, ttl, id, f);
      && RecsInv(recs', now, ttl, ids, processed, served)
      && (res.Ok? ==>
            && id !in processed && res.value.id == id && RecsInv(recs', now, ttl, ids, processed + [id], served)
            && LoadOp(recs', now, id, Fine) == Ok(res.value))
  {
    var (recs', res) := ConsumeOp(recs, now, ttl, id, f);
    assert SessionOk(recs, id, now, ttl, ids);
    if id in processed && LoadOp(recs, now, id, Fine).Ok? {
      LiveMarkerBlocks(recs, id, ConsumedRec(id), now, ttl, ids);
    }
    forall i ensures SessionOk(recs', i, now, ttl, ids) {
      assert SessionOk(recs, i, now, ttl, ids);
    }
    forall i | i in processed ensures Outlives(recs', now, i, ConsumedRec(i)) {
      assert Outlives(recs, now, i, ConsumedRec(i));
    }
    forall i | i in served ensures Outlives(recs', now, i, ServedRec(i)) {
      assert Outlives(recs, now, i, ServedRec(i));
    }
  }

  lemma ServeKeeps(
    recs: Recs, id: string, fault: Fault, now: Time, ttl: int,
    ids: set<string>, processed: seq<string>, served: seq<string>)
    requires RecsInv(recs, now, ttl, ids, processed, served)
    ensures var (recs', res) := ServeOp(recs, now, ttl, id, fault);
      && RecsInv(recs', now, ttl, ids, processed, served)
      && (res == Ok(true) && LoadOp(recs, now, id, Fine).Ok? ==>
            id !in served && RecsInv(recs', now, ttl, ids, processed, served + [id]))
  {
    var (recs', res) := ServeOp(recs, now, ttl, id, fault);
    assert SessionOk(recs, id, now, ttl, ids);
    if id in served && LoadOp(recs, now, id, Fine).Ok? {
      LiveMarkerBlocks(recs, id, ServedRec(id), now, ttl, ids);
    }
    forall i ensures SessionOk(recs', i, now, ttl, ids) {
      assert SessionOk(recs, i, now, ttl, ids);
    }
    forall i | i in processed ensures Outlives(recs', now, i, ConsumedRec(i)) {
      assert Outlives(recs, now, i, ConsumedRec(i));
    }
    forall i | i in served ensures Outlives(recs', now, i, ServedRec(i)) {
      assert Outlives(recs, now, i, ServedRec(i));
    }
  }

  // ---- each request keeps the invariant ----

  /** A request that mints nothing touches no token, loses no payload, and queues no id without one. */
  ghost predicate Carries(st: Stores, st': Stores) {
    && (forall t :: TokenRec(t) in st'.recs <==> TokenRec(t) in st.recs)
    && (forall t :: TokenRec(t) in st.recs ==> st'.recs[TokenRec(t)] == st.recs[TokenRec(t)])
    && (forall id :: PayloadOf(st.recs, id) ==> PayloadOf(st'.recs, id))
    && (forall id :: id in st'.queue ==> id in st.queue || PayloadOf(st'.recs, id))
  }

  lemma CarriesInv(st: Stores, st': Stores, minted: map<string, string>)
    requires Carries(st, st') && TokensRoute(st.recs, minted) && QueueBacked(st)
    ensures TokensRoute(st'.recs, minted) && QueueBacked(st')
  {
  }

  lemma DeliverKeeps(
    cfg: Config, st: Stores, now: Time, id: string, webhook: bool, verified: bool, fault: Fault,
    ids: set<string>, processed: seq<string>, served: seq<string>)
    requires RecsInv(st.recs, now, cfg.sessionTTL, ids, processed, served)
    ensures var st' := Deliver(cfg, st, now, id, webhook, verified, fault);
      RecsInv(st'.recs, now, cfg.sessionTTL, ids, processed, served) && Carries(st, st') && st'.rows == st.rows
  {
    OthersKeep(st.recs, Deliver(cfg, st, now, id, webhook, verified, fault).recs, now, cfg.sessionTTL, ids, processed,
      served);
  }

  /** Saving or deleting sessions touches no token, payload or queue entry. */
  lemma DisposalCarries(st: Stores, recs: Recs)
    requires forall r: Rec :: r.TokenRec? || r.PayloadRec? ==>
      (r in recs <==> r in st.recs) && (r in recs ==> recs[r] == st.recs[r])
    ensures Carries(st, st.(recs := recs))
  {
  }

  lemma CarriesOn(st: Stores, st1: Stores, st2: Stores)
    requires Carries(st, st1) && Carries(st1, st2)
    ensures Carries(st, st2)
  {
  }

  lemma FinalizeKeeps(
    cfg: Config, st: Stores, now: Time, s: Session, webhook: bool, verified: bool, deliver: Fault, dispose: Fault,
    ids: set<string>, processed: seq<string>, served: seq<string>)
    requires RecsInv(st.recs, now, cfg.sessionTTL, ids, processed, served)
    requires ':' !in s.id && (verified ==> Resavable(st.recs, now, s))
    ensures var st' := FinalizeOp(cfg, st, now, s, webhook, verified, deliver, dispose).0;
      && RecsInv(st'.recs, now, cfg.sessionTTL, ids, processed, served) && Carries(st, st') && st'.rows == st.rows
  {
    var st1 := Deliver(cfg, st, now, s.id, webhook, verified, deliver);
    DeliverKeeps(cfg, st, now, s.id, webhook, verified, deliver, ids, processed, served);
    if deliver == Fine {
      var kept := verified && s.responseCode != "";
      var recs2 :=
        if kept then SaveOp(st1.recs, now, cfg.sessionTTL, s, dispose) else DeleteOp(st1.recs, s.id, dispose);
      DisposalCarries(st1, recs2);
      CarriesOn(st, st1, st1.(recs := recs2));
      if kept {
        ResaveKeeps(st1.recs, s, dispose, now, cfg.sessionTTL, ids, processed, served);
      } else {
        MintedSpellsNothing(s.id);
        DeleteKeeps(st1.recs, s.id, dispose, now, cfg.sessionTTL, ids, processed, served);
      }
    }
  }

  lemma FinishVerifiedKeeps(
    cfg: Config, st: Stores, now: Time, id: string, code: string, f: ProcessFaults,
    ids: set<string>, processed: seq<string>, served: seq<string>)
    requires RecsInv(st.recs, now, cfg.sessionTTL, ids, processed, served)
    ensures var st' := FinishVerified(cfg, st, now, id, code, f).0;
      RecsInv(st'.recs, now, cfg.sessionTTL, ids, processed, served) && Carries(st, st')
  {
    var recs' := SetRec(st.recs, now, RespCodeRec(code), IdVal(id), cfg.respCodeTTL, f.respCode);
    OthersKeep(st.recs, recs', now, cfg.sessionTTL, ids, processed, served);
  }

  lemma RunKeepsStores(
    cfg: Config, st: Stores, now: Time, s: Session, webhook: bool, c: Checked, f: ProcessFaults,
    ids: set<string>, processed: seq<string>, served: seq<string>)
    requires RecsInv(st.recs, now, cfg.sessionTTL, ids, processed, served) && ':' !in s.id && Resavable(st.recs, now, s)
    ensures var st' := RunOp(cfg, st, now, s, webhook, c, f).0;
      RecsInv(st'.recs, now, cfg.sessionTTL, ids, processed, served) && Carries(st, st')
  {
    if c.Passed? {
      FinalizeKeeps(cfg, st, now, WithCode(s, c), webhook, true, f.deliver, f.dispose, ids, processed, served);
    }
  }

  lemma ProcessKeeps(
    cfg: Config, st: Stores, now: Time, s: Session, c: Checked, f: ProcessFaults,
    ids: set<string>, processed: seq<string>, served: seq<string>)
    requires RecsInv(st.recs, now, cfg.sessionTTL, ids, processed, served) && ':' !in s.id && Resavable(st.recs, now, s)
    ensures var st' := ProcessOp(cfg, st, now, s, c, f).0;
      RecsInv(st'.recs, now, cfg.sessionTTL, ids, processed, served) && Carries(st, st')
  {
    if f.meta == Fine && s.id in st.rows && f.policyOk {
      var webhook := st.rows[s.id].webhook;
      var (st1, verified) := RunOp(cfg, st, now, s, webhook, c, f);
      RunKeepsStores(cfg, st, now, s, webhook, c, f, ids, processed, served);
      var st2 := SaveReport(st1, s.id, verified, f.report);
      assert st2.recs == st1.recs && st2.queue == st1.queue;
      if verified {
        FinishVerifiedKeeps(cfg, st2, now, s.id, c.responseCode, f, ids, processed, served);
      } else {
        var st3 := SetStatus(st2, s.id, FailedStatus, f.status);
        assert st3.recs == st1.recs && st3.queue == st1.queue;
        FinalizeKeeps(cfg, st3, now, WithCode(s, c), webhook, false, f.deliverFailed, f.disposeFailed, ids, processed,
          served);
      }
    }
  }

  lemma ConsumeCarries(st: Stores, now: Time, ttl: int, id: string, f: ConsumeFaults)
    requires SessionsKeyed(st.recs)
    ensures Carries(st, st.(recs := ConsumeOp(st.recs, now, ttl, id, f).0))
  {
    assert SessionRec(id) in st.recs && st.recs[SessionRec(id)].val.SessionVal? ==>
      st.recs[SessionRec(id)].val.session.id == id;
  }

  lemma PostKeeps(cfg: Config, w: World, req: PostRequest)
    requires Inv(cfg, w)
    ensures Inv(cfg, Step(cfg, w, Post(req)))
  {
    var (st', answer) := PostOp(cfg, w.st, w.now, req);
    var resolved := ResolveOp(w.st.recs, w.now, req.token, req.resolve);
    if resolved.Some? && req.bodyLen <= cfg.maxBody {
      var id := resolved.value;
      KeyedFromInv(w.st.recs, w.now, cfg.sessionTTL, w.ids, w.processed, w.served);
      ConsumeKeeps(w.st.recs, id, req.consume, w.now, cfg.sessionTTL, w.ids, w.processed, w.served);
      ConsumeCarries(w.st, w.now, cfg.sessionTTL, id, req.consume);
      var (recs1, consumed) := ConsumeOp(w.st.recs, w.now, cfg.sessionTTL, id, req.consume);
      var st1 := w.st.(recs := recs1);
      CarriesInv(w.st, st1, w.minted);
      if consumed.Ok? {
        assert SessionOk(recs1, id, w.now, cfg.sessionTTL, w.ids);
        ProcessKeeps(cfg, st1, w.now, consumed.value, req.checked, req.process, w.ids, w.processed + [id], w.served);
        var st2 := ProcessOp(cfg, st1, w.now, consumed.value, req.checked, req.process).0;
        CarriesInv(st1, st2, w.minted);
        assert st'.recs == st2.recs && st'.queue == st2.queue;
        assert Unique(w.processed + [id]);
      }
    }
  }

  lemma GetKeeps(cfg: Config, w: World, req: GetRequest)
    requires Inv(cfg, w)
    ensures Inv(cfg, Step(cfg, w, Get(req)))
  {
    var (st', ok) := GetOp(cfg, w.st, w.now, req);
    ServeKeeps(w.st.recs, req.id, req.mark, w.now, cfg.sessionTTL, w.ids, w.processed, w.served);
    var st1 := w.st.(recs := ServeOp(w.st.recs, w.now, cfg.sessionTTL, req.id, req.mark).0);
    CarriesInv(w.st, st1, w.minted);
    if ok {
      assert Unique(w.served + [req.id]);
    }
  }

  lemma DeleteStepKeeps(cfg: Config, w: World, id: string, fault: Fault)
    requires Inv(cfg, w) && Harmless(w, Delete(id, fault))
    ensures Inv(cfg, Step(cfg, w, Delete(id, fault)))
  {
    forall i | LoadOp(w.st.recs, w.now, i, Fine).Ok? && fault != Refused
      ensures i in w.processed ==> ConsumedRec(i) !in Spelled(id)
      ensures i in w.served ==> ServedRec(i) !in Spelled(id)
    {
      assert i in w.processed ==> Guards(w, ConsumedRec(i));
      assert i in w.served ==> Guards(w, ServedRec(i));
    }
    DeleteKeeps(w.st.recs, id, fault, w.now, cfg.sessionTTL, w.ids, w.processed, w.served);
    CarriesInv(w.st, w.st.(recs := DeleteOp(w.st.recs, id, fault)), w.minted);
  }

  /** A session that can be loaded later can be loaded now. */
  lemma TickKeeps(cfg: Config, w: World, seconds: nat)
    requires Inv(cfg, w)
    ensures Inv(cfg, Step(cfg, w, Tick(seconds)))
  {
    var later, recs := w.now + seconds, w.st.recs;
    forall id ensures SessionOk(recs, id, later, cfg.sessionTTL, w.ids) {
      assert SessionOk(recs, id, w.now, cfg.sessionTTL, w.ids);
    }
    forall id | id in w.processed ensures Outlives(recs, later, id, ConsumedRec(id)) {
      assert Outlives(recs, w.now, id, ConsumedRec(id));
    }
    forall id | id in w.served ensures Outlives(recs, later, id, ServedRec(id)) {
      assert Outlives(recs, w.now, id, ServedRec(id));
    }
  }

  /** A minted id was never seen, so no marker of an earlier session can stand for it. */
  lemma MintKeeps(
    recs: Recs, s: Session, fault: Fault, now: Time, ttl: int,
    ids: set<string>, processed: seq<string>, served: seq<string>)
    requires RecsInv(recs, now, ttl, ids, processed, served)
    requires s.id !in ids && ':' !in s.id && s.expiresAt != ZERO_TIME && s.expiresAt <= now + ttl
    ensures RecsInv(SaveOp(recs, now, ttl, s, fault), now, ttl, ids + {s.id}, processed, served)
  {
    var recs' := SaveOp(recs, now, ttl, s, fault);
    forall id ensures SessionOk(recs', id, now, ttl, ids + {s.id}) {
      assert SessionOk(recs, id, now, ttl, ids);
    }
    forall id | id in processed ensures Outlives(recs', now, id, ConsumedRec(id)) {
      assert Outlives(recs, now, id, ConsumedRec(id));
    }
    forall id | id in served ensures Outlives(recs', now, id, ServedRec(id)) {
      assert Outlives(recs, now, id, ServedRec(id));
    }
  }

  lemma CreateKeeps(cfg: Config, w: World, req: CreateRequest)
    requires Inv(cfg, w) && Allowed(cfg, w, Create(req)) && w.now >= 0
    ensures Inv(cfg, Step(cfg, w, Create(req)))
  {
    var s := Session(req.id, req.expiresAt, false, "");
    var st1 := w.st.(recs := SaveOp(w.st.recs, w.now, cfg.sessionTTL, s, req.save));
    MintKeeps(w.st.recs, s, req.save, w.now, cfg.sessionTTL, w.ids, w.processed, w.served);
    CarriesInv(w.st, st1, w.minted);
    var ids := w.ids + {req.id};
    var minted := w.minted[req.token := req.id];
    forall id ensures SessionOk(w.st.recs, id, w.now, cfg.sessionTTL, ids) {
      assert SessionOk(w.st.recs, id, w.now, cfg.sessionTTL, w.ids);
    }
    assert TokenRec(req.token) !in w.st.recs;
    var recs2 := SetRec(st1.recs, w.now, TokenRec(req.token), IdVal(req.id), EffectiveTTL(cfg.sessionTTL, req.ttl),
      req.put);
    OthersKeep(st1.recs, recs2, w.now, cfg.sessionTTL, ids, w.processed, w.served);
    assert TokensRoute(recs2, minted) && TokensRoute(st1.recs, minted) && TokensRoute(w.st.recs, minted);
    assert QueueBacked(st1.(recs := recs2)) by {
      forall id | id in w.st.queue ensures PayloadOf(recs2, id) { assert PayloadOf(st1.recs, id); }
    }
  }

  lemma StepKeeps(cfg: Config, w: World, a: Action)
    requires Inv(cfg, w) && Allowed(cfg, w, a) && Harmless(w, a) && w.now >= 0
    ensures Inv(cfg, Step(cfg, w, a)) && Step(cfg, w, a).now >= 0
  {
    match a
    case Create(req) => CreateKeeps(cfg, w, req);
    case Get(req) => GetKeeps(cfg, w, req);
    case Post(req) => PostKeeps(cfg, w, req);
    case Delete(id, fault) => DeleteStepKeeps(cfg, w, id, fault);
    case Tick(seconds) => TickKeeps(cfg, w, seconds);
  }

  lemma {:induction false} RunKeeps(cfg: Config, w: World, actions: seq<Action>)
    requires Inv(cfg, w) && w.now >= 0 && AllAllowed(cfg, w, actions) && AllHarmless(cfg, w, actions)
    ensures Inv(cfg, Run(cfg, w, actions)) && Run(cfg, w, actions).now >= 0
  {
    if actions != [] {
      var n := |actions| - 1;
      assert forall k :: 0 <= k < n ==> actions[..n][..k] == actions[..k];
      RunKeeps(cfg, w, actions[..n]);
      assert Allowed(cfg, Run(cfg, w, actions[..n]), actions[n]) && Harmless(Run(cfg, w, actions[..n]), actions[n]);
      StepKeeps(cfg, Run(cfg, w, actions[..n]), actions[n]);
    }
  }

  // ---- the theorems ----

  /** Over every allowed run whose deletes are harmless, no session reaches the processor twice, and none has
      its request object served twice. */
  lemma SingleUse(cfg: Config, start: Time, actions: seq<Action>)
    requires start >= 0 && AllAllowed(cfg, Start(start), actions) && AllHarmless(cfg, Start(start), actions)
    ensures var w := Run(cfg, Start(start), actions); Unique(w.processed) && Unique(w.served)
  {
    RunKeeps(cfg, Start(start), actions);
  }

  lemma InvGuards(cfg: Config, w: World)
    requires Inv(cfg, w)
    ensures Guarded(w)
  {
    forall m | Guards(w, m) ensures Live(w.st.recs, w.now, m).Some? {
      var id := m.id;
      assert SessionOk(w.st.recs, id, w.now, cfg.sessionTTL, w.ids);
      assert m.ConsumedRec? ==> Outlives(w.st.recs, w.now, id, ConsumedRec(id));
      assert m.ServedRec? ==> Outlives(w.st.recs, w.now, id, ServedRec(id));
    }
  }

  /** A delete of the id that spells out a guarding marker takes that marker and leaves the session. */
  lemma HarmUnguards(cfg: Config, w: World, a: Action)
    requires !Harmless(w, a)
    ensures !Guarded(Step(cfg, w, a))
  {
    var m :| m in Spelled(a.id) && Guards(w, m);
    SpelledExactly(a.id, m);
    var w' := Step(cfg, w, a);
    assert m !in w'.st.recs;
    assert a.id != m.id;
    assert LoadOp(w'.st.recs, w'.now, m.id, Fine) == LoadOp(w.st.recs, w.now, m.id, Fine);
    assert Guards(w', m);
  }

  /** The exact condition: every loadable session that was processed or served has its live marker at every
      point of an allowed run iff no delete of the run spells out such a marker. */
  lemma MarkersOutliveSessions(cfg: Config, start: Time, actions: seq<Action>)
    requires start >= 0 && AllAllowed(cfg, Start(start), actions)
    ensures (forall k {:trigger actions[..k]} :: 0 <= k <= |actions| ==> Guarded(Run(cfg, Start(start), actions[..k])))
      <==> AllHarmless(cfg, Start(start), actions)
  {
    var w0 := Start(start);
    if AllHarmless(cfg, w0, actions) {
      forall k | 0 <= k <= |actions| ensures Guarded(Run(cfg, w0, actions[..k])) {
        assert forall j :: 0 <= j < k ==> actions[..k][..j] == actions[..j];
        RunKeeps(cfg, w0, actions[..k]);
        InvGuards(cfg, Run(cfg, w0, actions[..k]));
      }
    } else {
      var k :| 0 <= k < |actions| && !Harmless(Run(cfg, w0, actions[..k]), actions[k]);
      HarmUnguards(cfg, Run(cfg, w0, actions[..k]), actions[k]);
      assert actions[..k + 1][..k] == actions[..k];
      assert Run(cfg, w0, actions[..k + 1]) == Step(cfg, Run(cfg, w0, actions[..k]), actions[k]);
    }
  }

  /** One more request would use some session a second time. */
  ghost predicate CanRepeat(cfg: Config, w: World) {
    || (exists req: GetRequest :: req.id in w.served && GetOp(cfg, w.st, w.now, req).1)
    || (exists req: PostRequest :: var a := PostOp(cfg, w.st, w.now, req).1; a.Processed? && a.id in w.processed)
  }

  /** A loadable session without its marker, and for a processed one a live token that leads to it. */
  ghost predicate Exposed(w: World, id: string) {
    Loadable(w, id)
    && ((id in w.served && Live(w.st.recs, w.now, ServedRec(id)).None?)
        || (id in w.processed && id != "" && Live(w.st.recs, w.now, ConsumedRec(id)).None?
            && exists token :: ResolveOp(w.st.recs, w.now, token, Fine) == Some(id)))
  }

  lemma RepeatExposes(cfg: Config, w: World, id: string)
    requires exists req: PostRequest ::
      PostOp(cfg, w.st, w.now, req).1.Processed? && PostOp(cfg, w.st, w.now, req).1.id == id
    requires id in w.processed && SessionsKeyed(w.st.recs)
    ensures Exposed(w, id)
  {
    var req: PostRequest :| PostOp(cfg, w.st, w.now, req).1.Processed? && PostOp(cfg, w.st, w.now, req).1.id == id;
    assert ResolveOp(w.st.recs, w.now, req.token, Fine) == Some(id);
    assert LoadOp(w.st.recs, w.now, id, Fine).value.id == id;
  }

  lemma ExposedRepeats(cfg: Config, w: World, id: string)
    requires SessionsKeyed(w.st.recs) && Exposed(w, id)
    ensures CanRepeat(cfg, w)
  {
    if id in w.served && Live(w.st.recs, w.now, ServedRec(id)).None? {
      var req := GetRequest(id, Fine, Fine, true, Fine);
      assert GetOp(cfg, w.st, w.now, req).1;
    } else {
      var token :| ResolveOp(w.st.recs, w.now, token, Fine) == Some(id);
      var faults := ProcessFaults(Refused, false, Fine, Fine, Fine, Fine, Fine, Fine, Fine, true);
      var req := PostRequest(token, 0, Fine, NO_FAULTS, FailedEarly, faults, Fine);
      var s := LoadOp(w.st.recs, w.now, id, Fine).value;
      assert s.id == id;
      assert ConsumeOp(w.st.recs, w.now, cfg.sessionTTL, id, NO_FAULTS).1.Ok?;
      assert PostOp(cfg, w.st, w.now, req).1.Processed?;
    }
  }

  /** A world without its history: what the other invariants rest on. */
  function Forget(w: World): World {
    w.(processed := [], served := [])
  }

  lemma ForgetKeeps(cfg: Config, w: World, a: Action)
    requires Inv(cfg, Forget(w)) && Allowed(cfg, w, a) && w.now >= 0
    ensures Inv(cfg, Forget(Step(cfg, w, a))) && Step(cfg, w, a).now >= 0
  {
    StepKeeps(cfg, Forget(w), a);
    assert Forget(Step(cfg, Forget(w), a)) == Forget(Step(cfg, w, a));
  }

  lemma {:induction false} ForgetRun(cfg: Config, start: Time, actions: seq<Action>)
    requires start >= 0 && AllAllowed(cfg, Start(start), actions)
    ensures Inv(cfg, Forget(Run(cfg, Start(start), actions))) && Run(cfg, Start(start), actions).now >= 0
  {
    if actions != [] {
      var n := |actions| - 1;
      assert forall k :: 0 <= k < n ==> actions[..n][..k] == actions[..k];
      ForgetRun(cfg, start, actions[..n]);
      assert Allowed(cfg, Run(cfg, Start(start), actions[..n]), actions[n]);
      ForgetKeeps(cfg, Run(cfg, Start(start), actions[..n]), actions[n]);
    }
  }

  /** After any allowed run, whatever was deleted: some session can be used again iff it is exposed. */
  lemma RepeatsExactly(cfg: Config, start: Time, actions: seq<Action>)
    requires start >= 0 && AllAllowed(cfg, Start(start), actions)
    ensures var w := Run(cfg, Start(start), actions); CanRepeat(cfg, w) <==> exists id :: Exposed(w, id)
  {
    var w := Run(cfg, Start(start), actions);
    ForgetRun(cfg, start, actions);
    KeyedFromInv(w.st.recs, w.now, cfg.sessionTTL, w.ids, [], []);
    if req: GetRequest :| req.id in w.served && GetOp(cfg, w.st, w.now, req).1 {
      assert Exposed(w, req.id);
    }
    forall id | id in w.processed && exists req: PostRequest ::
      PostOp(cfg, w.st, w.now, req).1.Processed? && PostOp(cfg, w.st, w.now, req).1.id == id
      ensures Exposed(w, id)
    {
      RepeatExposes(cfg, w, id);
    }
    forall id | Exposed(w, id) ensures CanRepeat(cfg, w) {
      ExposedRepeats(cfg, w, id);
    }
  }

  /** Over every allowed run, whatever was deleted: a token that resolves at all resolves to the id it was
      minted with, and every id in the delivery queue was committed with its payload. */
  lemma RoutingAndQueue(cfg: Config, start: Time, actions: seq<Action>, token: string)
    requires start >= 0 && AllAllowed(cfg, Start(start), actions)
    ensures var w := Run(cfg, Start(start), actions);
      && (ResolveOp(w.st.recs, w.now, token, Fine).Some? ==>
            token in w.minted && ResolveOp(w.st.recs, w.now, token, Fine) == Some(w.minted[token]))
      && QueueBacked(w.st)
  {
    ForgetRun(cfg, start, actions);
  }
}
