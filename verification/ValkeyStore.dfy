/** internal/valkeystore/store.go over a flat string-keyed store with expiry. Every operation is stated on
    typed records: the string keys refine them. */
module ValkeyStore {
  import opened Wrappers
  import opened Keyspace

  /** The protocol session; expiresAt is never the zero time in a session the engine mints. */
  datatype Session = Session(id: string, expiresAt: Time, consumed: bool, responseCode: string)

  datatype Envelope = Envelope(sessionID: string, webhook: bool, verified: bool)

  datatype Val = SessionVal(session: Session) | MarkerVal | IdVal(id: string) | EnvelopeVal(env: Envelope)

  /** A value and the instant at which the key is gone. */
  datatype Entry = Entry(val: Val, expiry: Time)

  type Recs = map<Rec, Entry>

  /** How one command ends: done, refused with an error, or done with its reply lost. */
  datatype Fault = Fine | Refused | ReplyLost

  // ---- typed records ----

  function Live(recs: Recs, now: Time, r: Rec): Option<Val> {
    if r in recs && now < recs[r].expiry then Some(recs[r].val) else None
  }

  function SetRec(recs: Recs, now: Time, r: Rec, v: Val, ttl: int, fault: Fault): Recs {
    if fault == Refused then recs else recs[r := Entry(v, now + ttl)]
  }

  /** SET NX: written only when no live value is there. */
  function SetNXRec(recs: Recs, now: Time, r: Rec, v: Val, ttl: int, fault: Fault): Recs {
    if fault == Refused || Live(recs, now, r).Some? then recs else recs[r := Entry(v, now + ttl)]
  }

  function DelRecs(recs: Recs, rs: set<Rec>, fault: Fault): Recs {
    if fault == Refused then recs else recs - rs
  }

  // ---- the operations ----

  /** The lifetime Save gives a session: its own remaining time when that is shorter. */
  function SaveTTL(sessionTTL: int, expiresAt: Time, now: Time): int {
    if 0 < expiresAt - now < sessionTTL then expiresAt - now else sessionTTL
  }

  /** Save refuses a session without an id before it touches the store. */
  predicate SaveOk(s: Session, fault: Fault) {
    s.id != "" && fault == Fine
  }

  function SaveOp(recs: Recs, now: Time, ttl: int, s: Session, fault: Fault): Recs {
    if s.id == "" then recs
    else SetRec(recs, now, SessionRec(s.id), SessionVal(s), SaveTTL(ttl, s.expiresAt, now), fault)
  }

  datatype StoreError = NotFound | AlreadyConsumed | StoreFault

  /** Load, with a read that may fail. */
  function LoadOp(recs: Recs, now: Time, id: string, fault: Fault): Result<Session, StoreError> {
    if fault != Fine then Result.Fault(StoreFault)
    else match Live(recs, now, SessionRec(id))
      case None => Result.Fault(NotFound)
      case Some(SessionVal(s)) =>
        if s.expiresAt != ZERO_TIME && now >= s.expiresAt then Result.Fault(NotFound) else Ok(s)
      case Some(_) => Result.Fault(StoreFault)
  }

  /** The faults of the four commands of ConsumeOnce. */
  datatype ConsumeFaults = ConsumeFaults(get: Fault, setnx: Fault, set_: Fault, del: Fault)

  const NO_FAULTS: ConsumeFaults := ConsumeFaults(Fine, Fine, Fine, Fine)

  function ConsumeOp(recs: Recs, now: Time, ttl: int, id: string, f: ConsumeFaults)
    : (Recs, Result<Session, StoreError>)
  {
    match LoadOp(recs, now, id, f.get)
    case Fault(e) => (recs, Result.Fault(e))
    case Ok(s) =>
      var first := Live(recs, now, ConsumedRec(id)).None?;
      var recs1 := SetNXRec(recs, now, ConsumedRec(id), MarkerVal, ttl, f.setnx);
      if f.setnx != Fine then (recs1, Result.Fault(StoreFault))
      else if !first then (recs1, Result.Fault(AlreadyConsumed))
      else
        var s1 := s.(consumed := true);
        var recs2 := SaveOp(recs1, now, ttl, s1, f.set_);
        if !SaveOk(s1, f.set_) then (DelRecs(recs2, {ConsumedRec(id)}, f.del), Result.Fault(StoreFault))
        else (recs2, Ok(s1))
  }

  function ServeOp(recs: Recs, now: Time, ttl: int, id: string, fault: Fault): (Recs, Result<bool, StoreError>) {
    var first := Live(recs, now, ServedRec(id)).None?;
    (SetNXRec(recs, now, ServedRec(id), MarkerVal, ttl, fault),
      if fault != Fine then Result.Fault(StoreFault) else Ok(first))
  }

  /** DeleteSession, for any id at all: its three keys also reach the marker that the id spells out. */
  function DeleteOp(recs: Recs, id: string, fault: Fault): Recs {
    DelRecs(recs, {SessionRec(id), ServedRec(id), ConsumedRec(id)} + Spelled(id), fault)
  }

  // ---- the flat store ----

  /** A key that reads as a session key with a colon in its id is the key of a marker. */
  ghost predicate OfMarker(prefix: string, kv: map<string, Entry>, recs: Recs, id: string) {
    Key(prefix, SessionRec(id)) in kv ==>
      exists m :: m in recs && Shadows(SessionRec(id), m) && kv[Key(prefix, SessionRec(id))] == recs[m]
  }

  /** A key is present when its record is, with the record's entry. */
  ghost predicate HeldAt(prefix: string, kv: map<string, Entry>, recs: Recs, r: Rec) {
    (r in recs <==> Key(prefix, r) in kv) && (r in recs ==> kv[Key(prefix, r)] == recs[r])
  }

  /** The string-keyed map holds exactly these records, and perhaps keys of other families. */
  ghost predicate Refines(prefix: string, kv: map<string, Entry>, recs: Recs) {
    && (forall r :: Plain(r) ==> HeldAt(prefix, kv, recs, r))
    && (forall id :: ':' in id ==> OfMarker(prefix, kv, recs, id))
  }

  lemma RefinesAt(prefix: string, kv: map<string, Entry>, recs: Recs, r: Rec)
    requires Refines(prefix, kv, recs) && Plain(r)
    ensures (r in recs <==> Key(prefix, r) in kv) && (r in recs ==> kv[Key(prefix, r)] == recs[r])
  {
    assert HeldAt(prefix, kv, recs, r);
  }

  lemma RefinesSet(prefix: string, kv: map<string, Entry>, recs: Recs, r: Rec, e: Entry)
    requires Refines(prefix, kv, recs) && Plain(r)
    ensures Refines(prefix, kv[Key(prefix, r) := e], recs[r := e])
  {
    forall o | Plain(o) ensures HeldAt(prefix, kv[Key(prefix, r) := e], recs[r := e], o) {
      if o != r { KeysDistinct(prefix, o, r); }
      assert HeldAt(prefix, kv, recs, o);
    }
    forall id | ':' in id ensures OfMarker(prefix, kv[Key(prefix, r) := e], recs[r := e], id) {
      KeysCollide(prefix, SessionRec(id), r);
      if Key(prefix, SessionRec(id)) in kv && Key(prefix, SessionRec(id)) != Key(prefix, r) {
        assert OfMarker(prefix, kv, recs, id);
        var m :| m in recs && Shadows(SessionRec(id), m) && kv[Key(prefix, SessionRec(id))] == recs[m];
        KeysCollide(prefix, SessionRec(id), m);
        assert m in recs[r := e] && recs[r := e][m] == recs[m];
      } else if Key(prefix, SessionRec(id)) == Key(prefix, r) {
        assert r in recs[r := e];
      }
    }
  }

  /** Deleting any key deletes exactly the records it reaches. */
  lemma RefinesDel(prefix: string, kv: map<string, Entry>, recs: Recs, r: Rec)
    requires Refines(prefix, kv, recs)
    ensures Refines(prefix, kv - {Key(prefix, r)}, recs - Reached(r))
  {
    forall o | Plain(o) ensures HeldAt(prefix, kv - {Key(prefix, r)}, recs - Reached(r), o) {
      ReachedExactly(prefix, r, o);
      assert HeldAt(prefix, kv, recs, o);
    }
    forall id | ':' in id ensures OfMarker(prefix, kv - {Key(prefix, r)}, recs - Reached(r), id) {
      if Key(prefix, SessionRec(id)) in kv - {Key(prefix, r)} {
        assert OfMarker(prefix, kv, recs, id);
        var m :| m in recs && Shadows(SessionRec(id), m) && kv[Key(prefix, SessionRec(id))] == recs[m];
        KeysCollide(prefix, SessionRec(id), m);
        ReachedExactly(prefix, r, m);
        assert m in recs - Reached(r) && (recs - Reached(r))[m] == recs[m];
      }
    }
  }

  /** What each kind of record holds. */
  predicate SaneVal(r: Rec, v: Val) {
    match r
    case SessionRec(id) => ':' !in id && v.SessionVal? && v.session.id == id
    case ServedRec(_) => v == MarkerVal
    case ConsumedRec(_) => v == MarkerVal
    case TokenRec(_) => v.IdVal? && ':' !in v.id
    case _ => true
  }

  predicate Sane(recs: Recs) {
    forall r :: r in recs ==> SaneVal(r, recs[r].val)
  }

  /** A session record holds the session of that id. */
  ghost predicate SessionsKeyed(recs: Recs) {
    forall id {:trigger SessionRec(id)} :: SessionRec(id) in recs && recs[SessionRec(id)].val.SessionVal? ==>
      recs[SessionRec(id)].val.session.id == id
  }

  /** The shared client: one map of strings, a clock, and the deployment prefix every store lays in front of
      its keys. */
  class Valkey {
    const prefix: string
    var kv: map<string, Entry>
    var now: Time
    ghost var recs: Recs

    ghost predicate Valid()
      reads this
    {
      Refines(prefix, kv, recs)
    }

    constructor (prefix: string, now: Time)
      ensures Valid() && recs == map[] && this.prefix == New(prefix) && this.now == now
    {
      this.prefix, kv, this.now, recs := New(prefix), map[], now, map[];
    }

    /** A session id with a colon in it may read a marker, never another session. */
    method Get(r: Rec, fault: Fault) returns (v: Result<Option<Val>, StoreError>)
      requires Valid()
      ensures Plain(r) ==> v == if fault != Fine then Result.Fault(StoreFault) else Ok(Live(recs, now, r))
      ensures !Plain(r) && v.Ok? && v.value.Some? ==>
        exists m :: m in recs && Shadows(r, m) && v.value.value == recs[m].val
    {
      if fault != Fine {
        return Result.Fault(StoreFault);
      }
      var k := Key(prefix, r);
      if k in kv && now < kv[k].expiry {
        assert !Plain(r) ==> OfMarker(prefix, kv, recs, r.id);
        return Ok(Some(kv[k].val));
      }
      v := Ok(None);
    }

    method Set(r: Rec, v: Val, ttl: int, fault: Fault) returns (ok: bool)
      requires Valid() && Plain(r)
      modifies this`kv, this`recs
      ensures Valid() && ok == (fault == Fine) && recs == SetRec(old(recs), now, r, v, ttl, fault)
    {
      if fault != Refused {
        RefinesSet(prefix, kv, recs, r, Entry(v, now + ttl));
        kv := kv[Key(prefix, r) := Entry(v, now + ttl)];
        recs := recs[r := Entry(v, now + ttl)];
      }
      ok := fault == Fine;
    }

    method Absent(r: Rec) returns (absent: bool)
      requires Valid() && Plain(r)
      ensures absent == Live(recs, now, r).None?
    {
      var k := Key(prefix, r);
      absent := k !in kv || now >= kv[k].expiry;
      RefinesAt(prefix, kv, recs, r);
    }

    method SetNX(r: Rec, v: Val, ttl: int, fault: Fault) returns (first: Result<bool, StoreError>)
      requires Valid() && Plain(r)
      modifies this`kv, this`recs
      ensures Valid() && recs == SetNXRec(old(recs), now, r, v, ttl, fault)
      ensures first == if fault != Fine then Result.Fault(StoreFault) else Ok(Live(old(recs), now, r).None?)
    {
      var absent := Absent(r);
      if fault != Refused && absent {
        var _ := Set(r, v, ttl, Fine);
      }
      first := if fault != Fine then Result.Fault(StoreFault) else Ok(absent);
    }

    method DelOne(r: Rec)
      requires Valid()
      modifies this`kv, this`recs
      ensures Valid() && recs == old(recs) - Reached(r)
    {
      RefinesDel(prefix, kv, recs, r);
      kv := kv - {Key(prefix, r)};
      recs := recs - Reached(r);
    }

    /** Any keys may be named; the records they reach are gone. */
    method Del(rs: seq<Rec>, fault: Fault) returns (ok: bool)
      requires Valid()
      modifies this`kv, this`recs
      ensures Valid() && ok == (fault == Fine) && recs == DelRecs(old(recs), ReachedUpTo(rs, |rs|), fault)
    {
      if fault != Refused {
        for i := 0 to |rs|
          invariant Valid() && recs == old(recs) - ReachedUpTo(rs, i)
        {
          RemovedInTurn(recs, old(recs), ReachedUpTo(rs, i), Reached(rs[i]));
          DelOne(rs[i]);
        }
      }
      ok := fault == Fine;
    }
  }

  lemma RemovedInTurn(now: Recs, before: Recs, gone: set<Rec>, more: set<Rec>)
    requires now == before - gone
    ensures now - more == before - (gone + more)
  {
  }

  ghost function ReachedUpTo(rs: seq<Rec>, i: nat): set<Rec>
    requires i <= |rs|
  {
    if i == 0 then {} else ReachedUpTo(rs, i - 1) + Reached(rs[i - 1])
  }

  /** valkeystore.Store */
  class Store {
    const rdb: Valkey
    const sessionTTL: int
    const respCodeTTL: int

    constructor (rdb: Valkey, sessionTTL: int, respCodeTTL: int)
      ensures this.rdb == rdb && this.sessionTTL == sessionTTL && this.respCodeTTL == respCodeTTL
    {
      this.rdb, this.sessionTTL, this.respCodeTTL := rdb, sessionTTL, respCodeTTL;
    }

    method Save(s: Session, fault: Fault) returns (ok: bool)
      requires rdb.Valid() && ':' !in s.id
      modifies rdb`kv, rdb`recs
      ensures rdb.Valid() && ok == SaveOk(s, fault) && (old(Sane(rdb.recs)) ==> Sane(rdb.recs))
      ensures rdb.recs == SaveOp(old(rdb.recs), rdb.now, sessionTTL, s, fault)
    {
      if s.id == "" {
        return false;
      }
      var ttl := sessionTTL;
      var until := s.expiresAt - rdb.now;
      if until > 0 && until < ttl {
        ttl := until;
      }
      ok := rdb.Set(SessionRec(s.id), SessionVal(s), ttl, fault);
    }

    /** Any id at all may be asked for; one with a colon in it is never found. */
    method Load(id: string, fault: Fault) returns (r: Result<Session, StoreError>)
      requires rdb.Valid() && Sane(rdb.recs)
      ensures r == LoadOp(rdb.recs, rdb.now, id, fault)
        || (':' in id && r.Fault? && LoadOp(rdb.recs, rdb.now, id, fault).Fault?)
    {
      var v := rdb.Get(SessionRec(id), fault);
      if v.Fault? {
        return Result.Fault(v.error);
      }
      match v.value
      case None => return Result.Fault(NotFound);
      case Some(SessionVal(s)) =>
        if s.expiresAt != ZERO_TIME && !(rdb.now < s.expiresAt) {
          return Result.Fault(NotFound);
        }
        return Ok(s);
      case Some(_) => return Result.Fault(StoreFault);
    }

    method ConsumeOnce(id: string, f: ConsumeFaults) returns (r: Result<Session, StoreError>)
      requires rdb.Valid() && ':' !in id && Sane(rdb.recs)
      modifies rdb`kv, rdb`recs
      ensures rdb.Valid() && Sane(rdb.recs) && (rdb.recs, r) == ConsumeOp(old(rdb.recs), rdb.now, sessionTTL, id, f)
    {
      var loaded := Load(id, f.get);
      if loaded.Fault? {
        return loaded;
      }
      var first := rdb.SetNX(ConsumedRec(id), MarkerVal, sessionTTL, f.setnx);
      if first.Fault? {
        return Result.Fault(StoreFault);
      }
      if !first.value {
        return Result.Fault(AlreadyConsumed);
      }
      var s := loaded.value.(consumed := true);
      var saved := Save(s, f.set_);
      if !saved {
        var _ := rdb.Del([ConsumedRec(id)], f.del);
        assert ReachedUpTo([ConsumedRec(id)], 1) == {ConsumedRec(id)};
        return Result.Fault(StoreFault);
      }
      r := Ok(s);
    }

    method MarkRequestObjectServed(id: string, fault: Fault) returns (r: Result<bool, StoreError>)
      requires rdb.Valid()
      modifies rdb`kv, rdb`recs
      ensures rdb.Valid() && (old(Sane(rdb.recs)) ==> Sane(rdb.recs))
        && (rdb.recs, r) == ServeOp(old(rdb.recs), rdb.now, sessionTTL, id, fault)
    {
      r := rdb.SetNX(ServedRec(id), MarkerVal, sessionTTL, fault);
    }

    method SaveResponseCode(code: string, sessionID: string, fault: Fault) returns (ok: bool)
      requires rdb.Valid()
      modifies rdb`kv, rdb`recs
      ensures rdb.Valid() && ok == (fault == Fine) && (old(Sane(rdb.recs)) ==> Sane(rdb.recs))
      ensures rdb.recs == SetRec(old(rdb.recs), rdb.now, RespCodeRec(code), IdVal(sessionID), respCodeTTL, fault)
    {
      ok := rdb.Set(RespCodeRec(code), IdVal(sessionID), respCodeTTL, fault);
    }

    method DeleteSession(id: string, fault: Fault) returns (ok: bool)
      requires rdb.Valid()
      modifies rdb`kv, rdb`recs
      ensures rdb.Valid() && ok == (fault == Fine) && (old(Sane(rdb.recs)) ==> Sane(rdb.recs))
      ensures rdb.recs == DeleteOp(old(rdb.recs), id, fault)
    {
      var rs := [SessionRec(id), ServedRec(id), ConsumedRec(id)];
      ok := rdb.Del(rs, fault);
      ReachedThree(rs);
    }
  }

  lemma ReachedThree(rs: seq<Rec>)
    requires |rs| == 3
    ensures ReachedUpTo(rs, 3) == Reached(rs[0]) + Reached(rs[1]) + Reached(rs[2])
  {
    assert ReachedUpTo(rs, 1) == Reached(rs[0]);
    assert ReachedUpTo(rs, 2) == ReachedUpTo(rs, 1) + Reached(rs[1]);
  }

  predicate OfSession(r: Rec, id: string) {
    r == SessionRec(id) || r == ServedRec(id) || r == ConsumedRec(id)
  }

  /** An operation on one session leaves the records of every other session as they were, but for a delete
      of an id that spells out a marker. */
  lemma OperationsFrameOthers(recs: Recs, now: Time, ttl: int, id: string, f: ConsumeFaults, fault: Fault, r: Rec)
    requires !OfSession(r, id) && SessionsKeyed(recs)
    ensures var c := ConsumeOp(recs, now, ttl, id, f).0; (r in c <==> r in recs) && (r in c ==> c[r] == recs[r])
    ensures var s := ServeOp(recs, now, ttl, id, fault).0; (r in s <==> r in recs) && (r in s ==> s[r] == recs[r])
    ensures var d := DeleteOp(recs, id, fault);
      && (r in d <==> r in recs && (fault == Refused || !Shadows(SessionRec(id), r)))
      && (r in d ==> d[r] == recs[r])
  {
    assert SessionRec(id) in recs && recs[SessionRec(id)].val.SessionVal? ==> recs[SessionRec(id)].val.session.id == id;
    SpelledExactly(id, r);
  }
}
