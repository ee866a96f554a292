/** internal/valkeystore/store.go, ConsumeOnce as a protocol: any number of calls on one session, each split
    into its GET, SET NX, SET and rollback DEL, and into what the winner's own Finalize then does to the
    session, interleaved in any order with deletes of the session by others, any command failing.
    Hypotheses: no delete spells out the marker of the session, and the whole run is shorter than the marker's
    lifetime. The instants of a run need not be in order: each service instance has its own clock. */
module ConsumeProtocol {
  import opened Wrappers
  import opened Keyspace
  import opened ValkeyStore

  /** How a call ended. LostClaim is a SET NX that took effect but answered with an error; RolledBack says
      whether the rollback took effect. */
  datatype Ending =
    | Won(session: Session)
    | Rejected(error: StoreError)
    | LostClaim
    | RolledBack(effective: bool)

  /** Where a call stands: the command it will issue next. A call that has won hands the session to the
      processor, whose Finalize saves or deletes it; when that fails, the failure path deletes it. */
  datatype Call =
    | ToGet
    | ToClaim(session: Session)
    | ToSave(session: Session)
    | ToRollBack
    | ToDispose(session: Session)
    | ToDiscard(session: Session)
    | Done(ending: Ending)

  /** The shared store and the calls. */
  datatype State = State(recs: Recs, calls: seq<Call>)

  /** A call arrives; a call issues its next command at an instant, and how that ends; anyone deletes the
      session. A disposal keeps the session with a response code, or without one deletes it. */
  datatype Move =
    | Arrive
    | Issue(call: nat, at: Time, fault: Fault, keep: Option<string>)
    | Delete(at: Time, fault: Fault)

  function Command(
    recs: Recs, ttl: int, id: string, c: Call, at: Time, fault: Fault, keep: Option<string>): (Recs, Call)
  {
    match c
    case ToGet => (
      match LoadOp(recs, at, id, fault)
      case Fault(e) => (recs, Done(Rejected(e)))
      case Ok(s) => (recs, ToClaim(s)))
    case ToClaim(s) =>
      var first := Live(recs, at, ConsumedRec(id)).None?;
      (SetNXRec(recs, at, ConsumedRec(id), MarkerVal, ttl, fault),
       if fault == ReplyLost && first then Done(LostClaim)
       else if fault != Fine then Done(Rejected(StoreFault))
       else if !first then Done(Rejected(AlreadyConsumed))
       else ToSave(s.(consumed := true)))
    case ToSave(s) =>
      (SaveOp(recs, at, ttl, s, fault), if SaveOk(s, fault) then ToDispose(s) else ToRollBack)
    case ToRollBack =>
      (DelRecs(recs, {ConsumedRec(id)}, fault), Done(RolledBack(fault != Refused)))
    case ToDispose(s) =>
      (if keep.Some? then SaveOp(recs, at, ttl, s.(responseCode := keep.value), fault) else DeleteOp(recs, id, fault),
       if fault == Fine then Done(Won(s)) else ToDiscard(s))
    case ToDiscard(s) =>
      (DeleteOp(recs, id, fault), Done(Won(s)))
    case Done(_) => (recs, c)
  }

  function Step(st: State, ttl: int, id: string, m: Move): State {
    match m
    case Arrive => st.(calls := st.calls + [ToGet])
    case Delete(at, fault) => st.(recs := DeleteOp(st.recs, id, fault))
    case Issue(call, at, fault, keep) =>
      if call >= |st.calls| then st
      else
        var (recs, c) := Command(st.recs, ttl, id, st.calls[call], at, fault, keep);
        State(recs, st.calls[call := c])
  }

  /** The state after a schedule of moves. */
  function Exec(st: State, ttl: int, id: string, moves: seq<Move>): State {
    if moves == [] then st else Step(Exec(st, ttl, id, moves[..|moves| - 1]), ttl, id, moves[|moves| - 1])
  }

  lemma {:induction false} ExecAppend(st: State, ttl: int, id: string, moves: seq<Move>, more: seq<Move>)
    ensures Exec(st, ttl, id, moves + more) == Exec(Exec(st, ttl, id, moves), ttl, id, more)
  {
    if more == [] {
      assert moves + more == moves;
    } else {
      var n := |more| - 1;
      ExecAppend(st, ttl, id, moves, more[..n]);
      assert (moves + more)[..|moves + more| - 1] == moves + more[..n];
    }
  }

  /** The move falls inside one marker lifetime of the start. */
  predicate Timely(m: Move, start: Time, ttl: int) {
    !m.Arrive? ==> start <= m.at < start + ttl
  }

  predicate Within(moves: seq<Move>, start: Time, ttl: int) {
    forall k :: 0 <= k < |moves| ==> Timely(moves[k], start, ttl)
  }

  /** A run starts with idle calls and no live marker. */
  ghost predicate Starts(st: State, id: string, start: Time) {
    && (forall i :: 0 <= i < |st.calls| ==> st.calls[i] == ToGet)
    && Live(st.recs, start, ConsumedRec(id)).None?
    && SessionsKeyed(st.recs)
  }

  // ---- deletes ----

  predicate IsWinner(c: Call) {
    c.ToDispose? || c.ToDiscard? || (c.Done? && c.ending.Won?)
  }

  /** The move deletes the session: a delete by anyone, or a winner's own disposal. */
  predicate Deletes(st: State, m: Move) {
    match m
    case Arrive => false
    case Delete(_, fault) => fault != Refused
    case Issue(call, _, fault, keep) =>
      call < |st.calls| && fault != Refused
      && ((st.calls[call].ToDispose? && keep.None?) || st.calls[call].ToDiscard?)
  }

  /** A call will yet write the session: it claimed and has not saved, or won and has not disposed of it. */
  predicate Saving(calls: seq<Call>) {
    exists i :: 0 <= i < |calls| && (calls[i].ToSave? || calls[i].ToDispose?)
  }

  /** A call has loaded the session and not claimed it. */
  predicate Claiming(calls: seq<Call>) {
    exists i :: 0 <= i < |calls| && calls[i].ToClaim?
  }

  /** A call has won, or will take back a marker. */
  predicate Yielding(calls: seq<Call>) {
    exists i :: 0 <= i < |calls| && (IsWinner(calls[i]) || calls[i].ToRollBack?)
  }

  /** The move deletes the session and its marker while calls are under way that can use it once more: one
      that will write it back, or one that has it in hand beside one that has won or will roll back. */
  predicate Reopens(st: State, ttl: int, id: string, m: Move) {
    Deletes(st, m)
    && var calls := Step(st, ttl, id, m).calls;
       Saving(calls) || (Claiming(calls) && Yielding(calls))
  }

  /** Move k of the run is not a delete that reopens the session. */
  ghost predicate StaysClosed(st: State, ttl: int, id: string, moves: seq<Move>, k: nat)
    requires k < |moves|
  {
    !Reopens(Exec(st, ttl, id, moves[..k]), ttl, id, moves[k])
  }

  /** Move k of the run does not delete the session. */
  ghost predicate Spares(st: State, ttl: int, id: string, moves: seq<Move>, k: nat)
    requires k < |moves|
  {
    !Deletes(Exec(st, ttl, id, moves[..k]), moves[k])
  }

  /** No delete of the run reopens the session. */
  ghost predicate NoneReopens(st: State, ttl: int, id: string, moves: seq<Move>) {
    forall k {:trigger StaysClosed(st, ttl, id, moves, k)} :: 0 <= k < |moves| ==> StaysClosed(st, ttl, id, moves, k)
  }

  /** No move of the run deletes the session. */
  ghost predicate NoneDeletes(st: State, ttl: int, id: string, moves: seq<Move>) {
    forall k {:trigger Spares(st, ttl, id, moves, k)} :: 0 <= k < |moves| ==> Spares(st, ttl, id, moves, k)
  }

  // ---- the invariant of a run in which nothing is deleted ----

  /** The marker is this call's doing. */
  predicate Owns(c: Call) {
    Active(c) || LeftMarker(c)
  }

  /** The call has claimed and holds on to its claim. */
  predicate Active(c: Call) {
    c.ToSave? || c.ToRollBack? || IsWinner(c)
  }

  /** A call that left the marker behind without winning. */
  predicate LeftMarker(c: Call) {
    c.Done? && (c.ending.LostClaim? || (c.ending.RolledBack? && !c.ending.effective))
  }

  /** The marker was set within this run; otherwise it was dead before it. */
  predicate MarkerSet(recs: Recs, id: string, start: Time, ttl: int) {
    ConsumedRec(id) in recs && recs[ConsumedRec(id)].expiry >= start + ttl
  }

  predicate MarkerUnset(recs: Recs, id: string, start: Time) {
    Live(recs, start, ConsumedRec(id)).None?
  }

  /** Every session in the store or in the hands of a call has the right id. */
  ghost predicate Keyed(st: State, id: string) {
    && SessionsKeyed(st.recs)
    && (forall i :: 0 <= i < |st.calls| ==>
          (st.calls[i].ToClaim? || st.calls[i].ToSave? || st.calls[i].ToDispose? ==> st.calls[i].session.id == id))
  }

  /** owner is the one call the marker is due to, or there is none and no marker. */
  ghost predicate Owned(st: State, id: string, start: Time, ttl: int, owner: Option<nat>) {
    && (forall i :: 0 <= i < |st.calls| && Owns(st.calls[i]) ==> owner == Some(i))
    && (owner.Some? ==> owner.value < |st.calls| && Owns(st.calls[owner.value]) && MarkerSet(st.recs, id, start, ttl))
    && (owner.None? ==> MarkerUnset(st.recs, id, start))
    && Keyed(st, id)
  }

  lemma StepKeepsKeyed(st: State, ttl: int, id: string, m: Move)
    requires Keyed(st, id)
    ensures Keyed(Step(st, ttl, id, m), id)
  {
    if m.Issue? && m.call < |st.calls| {
      assert SessionRec(id) in st.recs && st.recs[SessionRec(id)].val.SessionVal? ==>
        st.recs[SessionRec(id)].val.session.id == id;
    }
  }

  lemma StepKeepsOwner(st: State, ttl: int, id: string, m: Move, start: Time, owner: Option<nat>)
    returns (next: Option<nat>)
    requires Owned(st, id, start, ttl, owner) && Timely(m, start, ttl) && !Deletes(st, m)
    ensures Owned(Step(st, ttl, id, m), id, start, ttl, next)
  {
    next := owner;
    StepKeepsKeyed(st, ttl, id, m);
    if m.Issue? && m.call < |st.calls| {
      var c := st.calls[m.call];
      var (recs, c') := Command(st.recs, ttl, id, c, m.at, m.fault, m.keep);
      if !Owns(c) && Owns(c') {
        next := Some(m.call);
      } else if Owns(c) && !Owns(c') {
        next := None;
      }
    }
  }

  lemma {:induction false} ExecKeepsOwner(st: State, ttl: int, id: string, moves: seq<Move>, start: Time)
    returns (owner: Option<nat>)
    requires Starts(st, id, start) && Within(moves, start, ttl) && NoneDeletes(st, ttl, id, moves)
    ensures Owned(Exec(st, ttl, id, moves), id, start, ttl, owner)
  {
    if moves == [] {
      owner := None;
    } else {
      var n := |moves| - 1;
      forall k | 0 <= k < n ensures Spares(st, ttl, id, moves[..n], k) {
        assert moves[..n][..k] == moves[..k] && Spares(st, ttl, id, moves, k);
      }
      assert Spares(st, ttl, id, moves, n);
      var before := ExecKeepsOwner(st, ttl, id, moves[..n], start);
      owner := StepKeepsOwner(Exec(st, ttl, id, moves[..n]), ttl, id, moves[n], start, before);
    }
  }

  // ---- the invariant of a run in which no delete reopens the session ----

  /** owner is the one call that holds on to a claim, and its marker stands; or there is no such call. */
  ghost predicate Sole(st: State, id: string, start: Time, ttl: int, owner: Option<nat>) {
    && (forall i :: 0 <= i < |st.calls| && Active(st.calls[i]) ==> owner == Some(i))
    && (owner.Some? ==> owner.value < |st.calls| && Active(st.calls[owner.value]) && MarkerSet(st.recs, id, start, ttl))
  }

  /** The session is gone, no call can bring it back or has it in hand, and at most one call has won. */
  ghost predicate Gone(st: State, id: string, owner: Option<nat>) {
    && SessionRec(id) !in st.recs && !Saving(st.calls) && !Claiming(st.calls)
    && (forall i :: 0 <= i < |st.calls| && IsWinner(st.calls[i]) ==> owner == Some(i))
  }

  lemma GoneStaysGone(st: State, ttl: int, id: string, m: Move, owner: Option<nat>)
    requires Gone(st, id, owner)
    ensures Gone(Step(st, ttl, id, m), id, owner)
  {
    var next := Step(st, ttl, id, m);
    forall i | 0 <= i < |next.calls|
      ensures !next.calls[i].ToSave? && !next.calls[i].ToDispose? && !next.calls[i].ToClaim?
      ensures IsWinner(next.calls[i]) ==> owner == Some(i)
    {
      if i < |st.calls| {
        assert !st.calls[i].ToSave? && !st.calls[i].ToDispose? && !st.calls[i].ToClaim?;
      }
    }
  }

  /** A move that deletes nothing keeps the one owner, or makes one. */
  lemma StepKeepsSole(st: State, ttl: int, id: string, m: Move, start: Time, owner: Option<nat>)
    returns (next: Option<nat>)
    requires Sole(st, id, start, ttl, owner) && Timely(m, start, ttl) && !Deletes(st, m)
    ensures Sole(Step(st, ttl, id, m), id, start, ttl, next)
  {
    next := owner;
    if m.Issue? && m.call < |st.calls| {
      var c := st.calls[m.call];
      var c' := Command(st.recs, ttl, id, c, m.at, m.fault, m.keep).1;
      if !Active(c) && Active(c') {
        next := Some(m.call);
      } else if Active(c) && !Active(c') {
        next := None;
      }
    }
  }

  /** A delete that does not reopen the session finds no call that holds on to a claim, or leaves the session
      gone for good. */
  lemma DeleteSettles(st: State, ttl: int, id: string, m: Move, start: Time, owner: Option<nat>)
    requires Sole(st, id, start, ttl, owner) && Deletes(st, m) && !Reopens(st, ttl, id, m)
    ensures var next := Step(st, ttl, id, m); Sole(next, id, start, ttl, owner) || Gone(next, id, owner)
  {
    var next := Step(st, ttl, id, m);
    assert |next.calls| == |st.calls|;
    assert forall i :: 0 <= i < |st.calls| ==> (Active(next.calls[i]) <==> Active(st.calls[i]));
    if owner.Some? {
      var c := next.calls[owner.value];
      assert !c.ToSave? && !c.ToDispose?;
      assert Yielding(next.calls);
      assert forall i :: 0 <= i < |next.calls| && IsWinner(next.calls[i]) ==> Active(next.calls[i]);
    }
  }

  lemma {:induction false} ExecSettles(st: State, ttl: int, id: string, moves: seq<Move>, start: Time)
    returns (owner: Option<nat>)
    requires Starts(st, id, start) && Within(moves, start, ttl) && NoneReopens(st, ttl, id, moves)
    ensures var end := Exec(st, ttl, id, moves); Sole(end, id, start, ttl, owner) || Gone(end, id, owner)
  {
    if moves == [] {
      owner := None;
    } else {
      var n := |moves| - 1;
      forall k | 0 <= k < n ensures StaysClosed(st, ttl, id, moves[..n], k) {
        assert moves[..n][..k] == moves[..k] && StaysClosed(st, ttl, id, moves, k);
      }
      owner := ExecSettles(st, ttl, id, moves[..n], start);
      var before := Exec(st, ttl, id, moves[..n]);
      assert StaysClosed(st, ttl, id, moves, n);
      if Gone(before, id, owner) {
        GoneStaysGone(before, ttl, id, moves[n], owner);
      } else if Deletes(before, moves[n]) {
        DeleteSettles(before, ttl, id, moves[n], start, owner);
      } else {
        owner := StepKeepsSole(before, ttl, id, moves[n], start, owner);
      }
    }
  }

  // ---- at most one winner, and when there can be a second ----

  predicate TwoWinners(st: State) {
    exists i, j :: 0 <= i < j < |st.calls| && IsWinner(st.calls[i]) && IsWinner(st.calls[j])
  }

  /** In every interleaving, with faults anywhere, in which no delete reopens the session, at most one call
      returns it; and then its marker stands or the session is gone. */
  lemma AtMostOneWinner(st: State, ttl: int, id: string, moves: seq<Move>, start: Time)
    requires Starts(st, id, start) && Within(moves, start, ttl) && NoneReopens(st, ttl, id, moves)
    ensures var end := Exec(st, ttl, id, moves);
      && !TwoWinners(end)
      && forall i :: 0 <= i < |end.calls| && IsWinner(end.calls[i]) ==>
           MarkerSet(end.recs, id, start, ttl) || SessionRec(id) !in end.recs
  {
    var owner := ExecSettles(st, ttl, id, moves, start);
    var end := Exec(st, ttl, id, moves);
    forall i | 0 <= i < |end.calls| && IsWinner(end.calls[i]) ensures owner == Some(i) {
      assert Active(end.calls[i]);
    }
  }

  predicate UnexpiredAt(s: Session, at: Time) {
    s.expiresAt == ZERO_TIME || at < s.expiresAt
  }

  /** No session that a call will write is expired at that instant. */
  ghost predicate HeldUnexpired(calls: seq<Call>, at: Time) {
    forall i :: 0 <= i < |calls| ==>
      (calls[i].ToClaim? || calls[i].ToSave? || calls[i].ToDispose? ==> UnexpiredAt(calls[i].session, at))
  }

  /** A run of moves all at one instant that deletes nothing. */
  ghost predicate Calm(st: State, ttl: int, id: string, more: seq<Move>, at: Time) {
    NoneDeletes(st, ttl, id, more) && forall k :: 0 <= k < |more| ==> more[k].Arrive? || more[k].at == at
  }

  /** One more move, without a fault, that deletes nothing. */
  lemma MoveOn(st: State, ttl: int, id: string, more: seq<Move>, m: Move, at: Time)
    requires Calm(st, ttl, id, more, at) && (m.Arrive? || m.at == at)
    requires !Deletes(Exec(st, ttl, id, more), m)
    ensures Calm(st, ttl, id, more + [m], at)
    ensures Exec(st, ttl, id, more + [m]) == Step(Exec(st, ttl, id, more), ttl, id, m)
  {
    var all := more + [m];
    assert all[..|more|] == more;
    forall k | 0 <= k < |all| ensures Spares(st, ttl, id, all, k) {
      if k < |more| {
        assert all[..k] == more[..k] && all[k] == more[k] && Spares(st, ttl, id, more, k);
      }
    }
  }

  function Next(call: nat, at: Time): Move {
    Issue(call, at, Fine, Some(""))
  }

  /** The session can be loaded and its marker is not there. */
  predicate Reusable(recs: Recs, id: string, at: Time) {
    ConsumedRec(id) !in recs && LoadOp(recs, at, id, Fine).Ok? && LoadOp(recs, at, id, Fine).value.id == id
  }

  /** A call that has the session in hand claims it, when no marker is there. */
  lemma Claims(st: State, ttl: int, id: string, i: nat, at: Time)
    requires i < |st.calls| && st.calls[i].ToClaim? && ConsumedRec(id) !in st.recs
    ensures var s := st.calls[i].session;
      Step(st, ttl, id, Next(i, at))
        == State(st.recs[ConsumedRec(id) := Entry(MarkerVal, at + ttl)], st.calls[i := ToSave(s.(consumed := true))])
  {
  }

  /** A call that writes the session has won and leaves it in the store; the marker stays as it was. */
  lemma Saves(st: State, ttl: int, id: string, i: nat, at: Time)
    requires i < |st.calls| && (st.calls[i].ToSave? || st.calls[i].ToDispose?) && st.calls[i].session.id == id != ""
    ensures var st2 := Step(st, ttl, id, Next(i, at));
      && IsWinner(st2.calls[i]) && st2.calls == st.calls[i := st2.calls[i]]
      && (ConsumedRec(id) in st2.recs <==> ConsumedRec(id) in st.recs)
      && (ttl > 0 && UnexpiredAt(st.calls[i].session, at) ==>
            LoadOp(st2.recs, at, id, Fine).Ok? && LoadOp(st2.recs, at, id, Fine).value.id == id)
  {
  }

  lemma Extend(st: State, ttl: int, id: string, more: seq<Move>, i: nat, at: Time) returns (all: seq<Move>)
    requires Calm(st, ttl, id, more, at) && !Deletes(Exec(st, ttl, id, more), Next(i, at))
    ensures Calm(st, ttl, id, all, at)
    ensures Exec(st, ttl, id, all) == Step(Exec(st, ttl, id, more), ttl, id, Next(i, at))
  {
    MoveOn(st, ttl, id, more, Next(i, at), at);
    all := more + [Next(i, at)];
  }

  /** A call that has the session in hand claims it and wins, when no marker is there. */
  lemma ClaimWins(st: State, ttl: int, id: string, more: seq<Move>, i: nat, at: Time) returns (all: seq<Move>)
    requires Calm(st, ttl, id, more, at)
    requires var s0 := Exec(st, ttl, id, more);
      i < |s0.calls| && s0.calls[i].ToClaim? && s0.calls[i].session.id == id != "" && ConsumedRec(id) !in s0.recs
    ensures Calm(st, ttl, id, all, at)
    ensures var s0, s2 := Exec(st, ttl, id, more), Exec(st, ttl, id, all);
      |s2.calls| == |s0.calls| && IsWinner(s2.calls[i]) && s2.calls == s0.calls[i := s2.calls[i]]
  {
    var s0 := Exec(st, ttl, id, more);
    Claims(s0, ttl, id, i, at);
    all := Extend(st, ttl, id, more, i, at);
    Saves(Exec(st, ttl, id, all), ttl, id, i, at);
    all := Extend(st, ttl, id, all, i, at);
  }

  /** A call that arrives when the session can be used wins beside one that has won. */
  lemma FreshWins(st: State, ttl: int, id: string, more: seq<Move>, j: nat, at: Time) returns (all: seq<Move>)
    requires id != "" && Calm(st, ttl, id, more, at) && Reusable(Exec(st, ttl, id, more).recs, id, at)
    requires j < |Exec(st, ttl, id, more).calls| && IsWinner(Exec(st, ttl, id, more).calls[j])
    ensures Calm(st, ttl, id, all, at) && TwoWinners(Exec(st, ttl, id, all))
  {
    var s0 := Exec(st, ttl, id, more);
    var n := |s0.calls|;
    MoveOn(st, ttl, id, more, Arrive, at);
    all := more + [Arrive];
    assert Exec(st, ttl, id, all) == State(s0.recs, s0.calls + [ToGet]);
    all := Extend(st, ttl, id, all, n, at);
    assert Exec(st, ttl, id, all) == State(s0.recs, s0.calls + [ToClaim(LoadOp(s0.recs, at, id, Fine).value)]);
    all := ClaimWins(st, ttl, id, all, n, at);
    assert IsWinner(Exec(st, ttl, id, all).calls[j]) && IsWinner(Exec(st, ttl, id, all).calls[n]);
  }

  /** The call that will write the session back does, and a fresh call wins beside it. */
  lemma SavingReopens(st: State, ttl: int, id: string, i: nat, at: Time) returns (all: seq<Move>)
    requires id != "" && ttl > 0 && i < |st.calls| && (st.calls[i].ToSave? || st.calls[i].ToDispose?)
    requires st.calls[i].session.id == id && UnexpiredAt(st.calls[i].session, at) && ConsumedRec(id) !in st.recs
    ensures Calm(st, ttl, id, all, at) && TwoWinners(Exec(st, ttl, id, all))
  {
    Saves(st, ttl, id, i, at);
    all := Extend(st, ttl, id, [], i, at);
    all := FreshWins(st, ttl, id, all, i, at);
  }

  /** A call that has the session in hand wins beside one that has won. */
  lemma ClaimingReopens(st: State, ttl: int, id: string, i: nat, j: nat, at: Time) returns (all: seq<Move>)
    requires id != "" && i < |st.calls| && st.calls[i].ToClaim? && st.calls[i].session.id == id
    requires j < |st.calls| && IsWinner(st.calls[j]) && ConsumedRec(id) !in st.recs
    ensures Calm(st, ttl, id, all, at) && TwoWinners(Exec(st, ttl, id, all))
  {
    all := ClaimWins(st, ttl, id, [], i, at);
    assert IsWinner(Exec(st, ttl, id, all).calls[i]) && IsWinner(Exec(st, ttl, id, all).calls[j]);
  }

  /** A call that has the session in hand claims it, another's rollback takes that claim's marker, and a fresh
      call wins beside it. */
  lemma RollBackReopens(st: State, ttl: int, id: string, i: nat, j: nat, at: Time) returns (all: seq<Move>)
    requires id != "" && ttl > 0 && i < |st.calls| && st.calls[i].ToClaim? && st.calls[i].session.id == id
    requires UnexpiredAt(st.calls[i].session, at)
    requires j < |st.calls| && st.calls[j].ToRollBack? && ConsumedRec(id) !in st.recs
    ensures Calm(st, ttl, id, all, at) && TwoWinners(Exec(st, ttl, id, all))
  {
    Claims(st, ttl, id, i, at);
    all := Extend(st, ttl, id, [], i, at);
    all := Extend(st, ttl, id, all, j, at);
    var s2 := Exec(st, ttl, id, all);
    assert ConsumedRec(id) !in s2.recs && s2.calls[i].ToSave?;
    Saves(s2, ttl, id, i, at);
    all := Extend(st, ttl, id, all, i, at);
    all := FreshWins(st, ttl, id, all, i, at);
  }

  /** After a delete that reopens the session two calls can win. */
  lemma ReopenedTwice(st: State, ttl: int, id: string, at: Time) returns (all: seq<Move>)
    requires id != "" && ttl > 0 && Keyed(st, id) && HeldUnexpired(st.calls, at) && ConsumedRec(id) !in st.recs
    requires Saving(st.calls) || (Claiming(st.calls) && Yielding(st.calls))
    ensures Calm(st, ttl, id, all, at) && TwoWinners(Exec(st, ttl, id, all))
  {
    if Saving(st.calls) {
      var i :| 0 <= i < |st.calls| && (st.calls[i].ToSave? || st.calls[i].ToDispose?);
      all := SavingReopens(st, ttl, id, i, at);
    } else {
      var i :| 0 <= i < |st.calls| && st.calls[i].ToClaim?;
      var j :| 0 <= j < |st.calls| && (IsWinner(st.calls[j]) || st.calls[j].ToRollBack?);
      if IsWinner(st.calls[j]) {
        all := ClaimingReopens(st, ttl, id, i, j, at);
      } else {
        all := RollBackReopens(st, ttl, id, i, j, at);
      }
    }
  }

  lemma {:induction false} ExecKeyed(st: State, ttl: int, id: string, moves: seq<Move>)
    requires Keyed(st, id)
    ensures Keyed(Exec(st, ttl, id, moves), id)
  {
    if moves != [] {
      ExecKeyed(st, ttl, id, moves[..|moves| - 1]);
      StepKeepsKeyed(Exec(st, ttl, id, moves[..|moves| - 1]), ttl, id, moves[|moves| - 1]);
    }
  }

  /** Without any further delete a second call may come to win. */
  ghost predicate SecondMayWin(st: State, ttl: int, id: string, start: Time) {
    exists more :: Within(more, start, ttl) && NoneDeletes(st, ttl, id, more) && TwoWinners(Exec(st, ttl, id, more))
  }

  /** Where no delete has reopened the session yet, a delete makes a second winner possible, with no further
      delete, exactly when it reopens the session. The instant at is any at which the sessions in the hands of
      calls have not expired. */
  lemma SecondWinnerExactly(st: State, ttl: int, id: string, moves: seq<Move>, start: Time, m: Move, at: Time)
    requires Starts(st, id, start) && Within(moves, start, ttl) && NoneReopens(st, ttl, id, moves)
    requires id != "" && Timely(m, start, ttl) && Deletes(Exec(st, ttl, id, moves), m)
    requires start <= at < start + ttl && HeldUnexpired(Exec(st, ttl, id, moves).calls, at)
    ensures var before := Exec(st, ttl, id, moves);
      Reopens(before, ttl, id, m) <==> SecondMayWin(Step(before, ttl, id, m), ttl, id, start)
  {
    if Reopens(Exec(st, ttl, id, moves), ttl, id, m) {
      ExecKeyed(st, ttl, id, moves);
      SecondWins(Exec(st, ttl, id, moves), ttl, id, start, m, at);
    } else {
      SecondLoses(st, ttl, id, moves, start, m);
    }
  }

  lemma SecondWins(st: State, ttl: int, id: string, start: Time, m: Move, at: Time)
    requires Keyed(st, id) && Reopens(st, ttl, id, m) && id != ""
    requires start <= at < start + ttl && HeldUnexpired(st.calls, at)
    ensures SecondMayWin(Step(st, ttl, id, m), ttl, id, start)
  {
    DeletedHands(st, ttl, id, m, at);
    var more := ReopenedTwice(Step(st, ttl, id, m), ttl, id, at);
    assert Within(more, start, ttl);
  }

  lemma SecondLoses(st: State, ttl: int, id: string, moves: seq<Move>, start: Time, m: Move)
    requires Starts(st, id, start) && Within(moves, start, ttl) && NoneReopens(st, ttl, id, moves)
    requires Timely(m, start, ttl) && !Reopens(Exec(st, ttl, id, moves), ttl, id, m)
    ensures !SecondMayWin(Step(Exec(st, ttl, id, moves), ttl, id, m), ttl, id, start)
  {
    ClosedByOne(st, ttl, id, moves, m);
    NobodyElseWins(st, ttl, id, moves + [m], start);
  }

  lemma NobodyElseWins(st: State, ttl: int, id: string, moves: seq<Move>, start: Time)
    requires Starts(st, id, start) && Within(moves, start, ttl) && NoneReopens(st, ttl, id, moves)
    ensures !SecondMayWin(Exec(st, ttl, id, moves), ttl, id, start)
  {
    var after := Exec(st, ttl, id, moves);
    if SecondMayWin(after, ttl, id, start) {
      var more :|
        Within(more, start, ttl) && NoneDeletes(after, ttl, id, more) && TwoWinners(Exec(after, ttl, id, more));
      NoSecondWinner(st, ttl, id, moves, more, start);
    }
  }

  lemma ClosedByOne(st: State, ttl: int, id: string, moves: seq<Move>, m: Move)
    requires NoneReopens(st, ttl, id, moves) && !Reopens(Exec(st, ttl, id, moves), ttl, id, m)
    ensures NoneReopens(st, ttl, id, moves + [m])
    ensures Exec(st, ttl, id, moves + [m]) == Step(Exec(st, ttl, id, moves), ttl, id, m)
  {
    var all := moves + [m];
    assert all[..|moves|] == moves;
    forall k | 0 <= k < |all| ensures StaysClosed(st, ttl, id, all, k) {
      if k < |moves| {
        ClosedBefore(st, ttl, id, moves, [m], k);
      }
    }
  }

  /** After a delete the marker is gone, and what calls have in hand is what they had before. */
  lemma DeletedHands(st: State, ttl: int, id: string, m: Move, at: Time)
    requires Deletes(st, m) && Keyed(st, id) && HeldUnexpired(st.calls, at)
    ensures var after := Step(st, ttl, id, m);
      ConsumedRec(id) !in after.recs && Keyed(after, id) && HeldUnexpired(after.calls, at)
  {
    StepKeepsKeyed(st, ttl, id, m);
  }

  lemma NoSecondWinner(st: State, ttl: int, id: string, moves: seq<Move>, more: seq<Move>, start: Time)
    requires Starts(st, id, start) && Within(moves, start, ttl) && NoneReopens(st, ttl, id, moves)
    requires Within(more, start, ttl) && NoneDeletes(Exec(st, ttl, id, moves), ttl, id, more)
    ensures !TwoWinners(Exec(Exec(st, ttl, id, moves), ttl, id, more))
  {
    ClosedGoesOn(st, ttl, id, moves, more);
    ExecAppend(st, ttl, id, moves, more);
    AtMostOneWinner(st, ttl, id, moves + more, start);
  }

  /** A run in which no delete reopens the session goes on as one, when nothing more is deleted. */
  lemma ClosedGoesOn(st: State, ttl: int, id: string, moves: seq<Move>, more: seq<Move>)
    requires NoneReopens(st, ttl, id, moves) && NoneDeletes(Exec(st, ttl, id, moves), ttl, id, more)
    ensures NoneReopens(st, ttl, id, moves + more)
  {
    forall k | 0 <= k < |moves + more| ensures StaysClosed(st, ttl, id, moves + more, k) {
      ClosedAt(st, ttl, id, moves, more, k);
    }
  }

  lemma ClosedAt(st: State, ttl: int, id: string, moves: seq<Move>, more: seq<Move>, k: nat)
    requires NoneReopens(st, ttl, id, moves) && NoneDeletes(Exec(st, ttl, id, moves), ttl, id, more)
    requires k < |moves + more|
    ensures StaysClosed(st, ttl, id, moves + more, k)
  {
    if k < |moves| {
      ClosedBefore(st, ttl, id, moves, more, k);
    } else {
      NotReopened(st, ttl, id, moves, more, k);
    }
  }

  lemma ClosedBefore(st: State, ttl: int, id: string, moves: seq<Move>, more: seq<Move>, k: nat)
    requires k < |moves| && NoneReopens(st, ttl, id, moves)
    ensures StaysClosed(st, ttl, id, moves + more, k)
  {
    assert (moves + more)[..k] == moves[..k] && (moves + more)[k] == moves[k] && StaysClosed(st, ttl, id, moves, k);
  }

  lemma NotReopened(st: State, ttl: int, id: string, moves: seq<Move>, more: seq<Move>, k: nat)
    requires |moves| <= k < |moves + more| && NoneDeletes(Exec(st, ttl, id, moves), ttl, id, more)
    ensures StaysClosed(st, ttl, id, moves + more, k)
  {
    var n := k - |moves|;
    assert (moves + more)[..k] == moves + more[..n] && (moves + more)[k] == more[n];
    ExecAppend(st, ttl, id, moves, more[..n]);
    assert Spares(Exec(st, ttl, id, moves), ttl, id, more, n);
  }

  /** Two responses arrive at once: both read the session, the second wins, and its Finalize disposes of the
      session before the first claims. */
  function Race(at: Time): seq<Move> {
    [Next(0, at), Next(1, at), Next(1, at), Next(1, at), Issue(1, at, Fine, None), Next(0, at), Next(0, at)]
  }

  function Racers(ttl: int, at: Time): State {
    State(map[SessionRec("s") := Entry(SessionVal(Session("s", at + ttl, false, "")), at + ttl)], [ToGet, ToGet])
  }

  lemma RaceStep(ttl: int, at: Time, k: nat)
    requires k < 7
    ensures var st, moves := Racers(ttl, at), Race(at);
      Exec(st, ttl, "s", moves[..k + 1]) == Step(Exec(st, ttl, "s", moves[..k]), ttl, "s", moves[k])
  {
    assert Race(at)[..k + 1][..k] == Race(at)[..k];
  }

  /** The second call has won, its session is gone, and the first still has it in hand. */
  lemma SecondDisposed(ttl: int, at: Time)
    requires ttl > 0 && at > 0
    ensures var s := Session("s", at + ttl, false, "");
      var st5 := Exec(Racers(ttl, at), ttl, "s", Race(at)[..5]);
      st5.calls == [ToClaim(s), Done(Won(s.(consumed := true)))] && ConsumedRec("s") !in st5.recs
  {
    var s := Session("s", at + ttl, false, "");
    var st, moves := Racers(ttl, at), Race(at);
    assert moves[..0] == [];
    RaceStep(ttl, at, 0);
    RaceStep(ttl, at, 1);
    assert Exec(st, ttl, "s", moves[..2]) == State(st.recs, [ToClaim(s), ToClaim(s)]);
    Claims(Exec(st, ttl, "s", moves[..2]), ttl, "s", 1, at);
    RaceStep(ttl, at, 2);
    RaceStep(ttl, at, 3);
    RaceStep(ttl, at, 4);
    assert Exec(st, ttl, "s", moves[..4]).calls == [ToClaim(s), ToDispose(s.(consumed := true))];
  }

  /** The first then wins as well. No command fails, and nobody else deletes the session. */
  lemma BothResponsesWin(ttl: int, at: Time)
    requires ttl > 0 && at > 0
    ensures Starts(Racers(ttl, at), "s", at) && Within(Race(at), at, ttl)
    ensures TwoWinners(Exec(Racers(ttl, at), ttl, "s", Race(at)))
  {
    var st, moves := Racers(ttl, at), Race(at);
    SecondDisposed(ttl, at);
    RaceStep(ttl, at, 5);
    RaceStep(ttl, at, 6);
    Claims(Exec(st, ttl, "s", moves[..5]), ttl, "s", 0, at);
    Saves(Exec(st, ttl, "s", moves[..6]), ttl, "s", 0, at);
    assert moves[..7] == moves;
    assert IsWinner(Exec(st, ttl, "s", moves).calls[0]) && IsWinner(Exec(st, ttl, "s", moves).calls[1]);
  }

  // ---- retries ----

  /** All calls have finished and none won. */
  predicate NoWinner(st: State) {
    forall i :: 0 <= i < |st.calls| ==> st.calls[i].Done? && !st.calls[i].ending.Won?
  }

  predicate SomeLeftMarker(st: State) {
    exists i :: 0 <= i < |st.calls| && LeftMarker(st.calls[i])
  }

  /** When all calls have finished without a winner and nothing was deleted, a fault-free retry within the run's
      span wins exactly when the session can still be loaded and no call left its marker behind: neither a claim
      whose reply was lost nor a rollback that did not take effect. */
  lemma RetryWinsExactly(st: State, ttl: int, id: string, moves: seq<Move>, start: Time, at: Time)
    requires Starts(st, id, start) && Within(moves, start, ttl) && start <= at < start + ttl
    requires NoneDeletes(st, ttl, id, moves) && NoWinner(Exec(st, ttl, id, moves))
    ensures MarkerUnset(Exec(st, ttl, id, moves).recs, id, start) <==> !SomeLeftMarker(Exec(st, ttl, id, moves))
    ensures var end := Exec(st, ttl, id, moves);
      ConsumeOp(end.recs, at, ttl, id, NO_FAULTS).1.Ok? <==>
        LoadOp(end.recs, at, id, Fine).Ok? && id != "" && !SomeLeftMarker(end)
  {
    var end := Exec(st, ttl, id, moves);
    var owner := ExecKeepsOwner(st, ttl, id, moves, start);
    assert SessionRec(id) in end.recs && end.recs[SessionRec(id)].val.SessionVal? ==>
      end.recs[SessionRec(id)].val.session.id == id;
    if owner.Some? {
      assert LeftMarker(end.calls[owner.value]);
      assert Live(end.recs, at, ConsumedRec(id)).Some?;
    } else {
      assert Live(end.recs, at, ConsumedRec(id)).None?;
      assert forall i :: 0 <= i < |end.calls| ==> !Owns(end.calls[i]);
    }
  }

  /** The retry guarantee as the code's comments state it (a failed save is rolled back) does not cover a
      claim whose reply is lost: one call, one lost reply, and the session stays locked out. */
  lemma LostClaimLocksOut(ttl: int, at: Time)
    requires ttl > 0 && at > 0
    ensures var s := Session("s", at + ttl, false, "");
      var st := State(map[SessionRec("s") := Entry(SessionVal(s), at + ttl)], [ToGet]);
      var end := Exec(st, ttl, "s", [Next(0, at), Issue(0, at, ReplyLost, None)]);
      && NoWinner(end)
      && LoadOp(end.recs, at, "s", Fine) == Ok(s)
      && ConsumeOp(end.recs, at, ttl, "s", NO_FAULTS).1 == Result.Fault(AlreadyConsumed)
  {
    var s := Session("s", at + ttl, false, "");
    var st := State(map[SessionRec("s") := Entry(SessionVal(s), at + ttl)], [ToGet]);
    var m := [Next(0, at), Issue(0, at, ReplyLost, None)];
    assert m[..1] == [Next(0, at)] && m[..1][..0] == [];
    assert Exec(st, ttl, "s", m[..1]) == Step(st, ttl, "s", m[0]);
    assert Step(st, ttl, "s", m[0]) == State(st.recs, [ToClaim(s)]);
  }

  /** A call left alone does in its steps what ConsumeOnce does as one operation. */
  lemma AloneIsConsumeOnce(recs: Recs, ttl: int, id: string, at: Time, f: ConsumeFaults)
    ensures var (r1, c1) := Command(recs, ttl, id, ToGet, at, f.get, None);
      var (r2, c2) := Command(r1, ttl, id, c1, at, f.setnx, None);
      var (r3, c3) := Command(r2, ttl, id, c2, at, f.set_, None);
      var (r4, c4) := if c3.ToRollBack? then Command(r3, ttl, id, c3, at, f.del, None) else (r3, c3);
      var (recs', res) := ConsumeOp(recs, at, ttl, id, f);
      && recs' == r4 && (c4.Done? || c4.ToDispose?)
      && (res.Ok? <==> IsWinner(c4)) && (res.Ok? ==> c4 == ToDispose(res.value))
      && (c4.Done? && c4.ending.Rejected? ==> res == Result.Fault(c4.ending.error))
  {
  }
}
