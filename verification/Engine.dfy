/** internal/pipeline/pipeline.go on the heap: Engine.Run over a mutable context, and the report that step 10
    delivers before the run has finished writing its own. */
module Engine {
  import opened Wrappers
  import opened ErrClass
  import opened PipelineTypes
  import opened PipelineRun
  import opened Report
  import opened Finalization
  import opened Held
  import opened Forwarding
  import opened ContextChecks
  import opened PipelineTheorems
  import opened Soundness

  /** The observability seam: what it is told of each executed check. */
  class Recorder {
    var trace: seq<(CheckName, Outcome)>

    method Done(check: CheckName, outcome: Outcome)
      modifies this
      ensures trace == old(trace) + [(check, outcome)]
    {
      trace := trace + [(check, outcome)];
    }
  }

  /** The trace that tells of these rows: each names its check. */
  ghost predicate Tells(trace: seq<(CheckName, Outcome)>, rows: seq<CheckResult>) {
    |trace| == |rows| && forall k :: 0 <= k < |rows| ==>
      rows[k].check == Some(trace[k].0) && rows[k].outcome == trace[k].1
  }

  /** The last delivery saw this report, marked verified, and still reads the same: it shares the
      credentials and the policy map, and has its rows in an array of its own. */
  ghost predicate HandedOver(sink: ResultSink, rep: Report, rows: array<CheckResult>)
    requires rep.Valid()
    reads sink, rep.checks.arr, rep.credentials.arr, rep.policy, rows
  {
    |sink.log| > 0
    && var d := sink.log[|sink.log| - 1];
       && d.res.report == rep.(verified := true, checks := Slice(rows, rep.checks.len))
       && rows != rep.checks.arr && rep.checks.len <= rows.Length
       && rows[..rep.checks.len] == rep.checks.Contents()
       && d.seen == rep.Contents().(verified := true)
  }

  /** Run a check and make its row. */
  method RunAndFinish(pc: PipelineContext, check: Check, ghost does: Does)
    returns (row: CheckResult, ghost rows: array<CheckResult>)
    requires pc.Valid() && pc.Backed() && Models(pc.env, does)
    modifies pc, pc.credentials, pc.report, pc.report.r.credentials.arr, pc.report.r.policy
    modifies pc.sink, pc.cleaner, pc.buffers, pc.maps
    ensures pc.Valid() && pc.Backed()
    ensures var out := does(check, old(pc.State()));
      row == Finish(check.Name(), out.answer) && DidCheck(pc, out)
      && (check == Shipped(AssembleForward) && row.outcome != Fail ==> Cap(row) == FORWARDED)
    ensures check == Shipped(AssembleForward) ==>
      fresh(rows) && Delivered(pc.sink, pc.report, rows) && Served(pc.sink, old(pc.State()).creds)
  {
    ghost var st := pc.State();
    var answer;
    answer, rows := ContextChecks.RunCheck(pc, check);
    assert does(check, st) == PipelineRun.CheckOut(pc.env, check, st);
    match answer {
      case Ok(res) => row := res;
      case Fault(e) => row := Row(Fail, CodeForError(e), SafeDetail(e));
    }
    row := row.(check := Some(check.Name()));
    if row.specRef == "" {
      row := row.(specRef := SpecRefOf(check.Name()));
    }
    ForwardedRow(pc.env, st);
  }

  /** A row of step 10 that is not a fail is the row it delivered. */
  lemma ForwardedRow(env: Env, st: PState)
    ensures var row := Finish(AssembleForward, RunStep(env, AssembleForward, st).answer);
      row.outcome != Fail ==> Cap(row) == FORWARDED
  {
  }

  /** Adding the row of step 10 makes the builder's report the delivered one, without touching its rows. */
  method AddDelivered(b: Builder, row: CheckResult, sink: ResultSink, ghost rows: array<CheckResult>)
    requires b.Valid()
    modifies b, b.r.checks.arr
    ensures b.Valid()
    ensures b.r == old(b.r).(checks := b.r.checks)
    ensures b.r.checks.arr == old(b.r.checks.arr) || fresh(b.r.checks.arr)
    ensures b.Contents() == old(b.Contents()).(checks := old(b.Contents()).checks + [Cap(row)])
    ensures old(Delivered(sink, b, rows)) && Cap(row) == FORWARDED ==> HandedOver(sink, b.r, rows)
  {
    ghost var before := b.Contents();
    assert |before.checks| == b.r.checks.len;
    b.Add(row);
    assert |b.Contents().checks| == b.r.checks.len;
  }

  /** Tell the recorder, if there is one. */
  method Observe(rec: Recorder?, check: CheckName, outcome: Outcome)
    modifies rec
    ensures rec != null ==> rec.trace == old(rec.trace) + [(check, outcome)]
  {
    if rec != null {
      rec.Done(check, outcome);
    }
  }

  /** Report the row to the recorder; the context does not notice. */
  method RecordRow(
    pc: PipelineContext, name: CheckName, row: CheckResult, rec: Recorder?, ghost rows: array<CheckResult>)
    requires pc.Valid() && pc.Backed()
    modifies rec
    ensures pc.Valid() && pc.Backed() && pc.State() == old(pc.State())
    ensures pc.report.Contents() == old(pc.report.Contents())
    ensures forall vs :: old(Served(pc.sink, vs)) ==> Served(pc.sink, vs)
    ensures old(Delivered(pc.sink, pc.report, rows)) ==> Delivered(pc.sink, pc.report, rows)
    ensures rec != null ==> rec.trace == old(rec.trace) + [(name, row.outcome)]
  {
    Observe(rec, name, row.outcome);
  }

  /** Add the row to the builder; the state of the run and what the sink was served do not change. */
  method AddToReport(pc: PipelineContext, row: CheckResult, ghost rows: array<CheckResult>)
    requires pc.Valid() && pc.Backed()
    modifies pc.report, pc.report.r.checks.arr
    ensures pc.Valid() && pc.Backed() && pc.State() == old(pc.State())
    ensures forall vs :: old(Served(pc.sink, vs)) ==> Served(pc.sink, vs)
    ensures pc.report.r == old(pc.report.r).(checks := pc.report.r.checks)
    ensures pc.report.r.checks.arr == old(pc.report.r.checks.arr) || fresh(pc.report.r.checks.arr)
    ensures pc.report.Contents() == old(pc.report.Contents()).(checks := old(pc.report.Contents()).checks + [Cap(row)])
    ensures old(Delivered(pc.sink, pc.report, rows)) && Cap(row) == FORWARDED ==> HandedOver(pc.sink, pc.report.r, rows)
  {
    AddDelivered(pc.report, row, pc.sink, rows);
  }

  /** Report the row to the recorder and add it to the builder. */
  method AddRow(pc: PipelineContext, name: CheckName, row: CheckResult, rec: Recorder?, ghost rows: array<CheckResult>)
    requires pc.Valid() && pc.Backed()
    modifies pc.report, pc.report.r.checks.arr, rec
    ensures pc.Valid() && pc.Backed() && pc.State() == old(pc.State())
    ensures forall vs :: old(Served(pc.sink, vs)) ==> Served(pc.sink, vs)
    ensures pc.report.r == old(pc.report.r).(checks := pc.report.r.checks)
    ensures pc.report.r.checks.arr == old(pc.report.r.checks.arr) || fresh(pc.report.r.checks.arr)
    ensures pc.report.Contents() == old(pc.report.Contents()).(checks := old(pc.report.Contents()).checks + [Cap(row)])
    ensures rec != null ==> rec.trace == old(rec.trace) + [(name, row.outcome)]
    ensures old(Delivered(pc.sink, pc.report, rows)) && Cap(row) == FORWARDED ==> HandedOver(pc.sink, pc.report.r, rows)
  {
    RecordRow(pc, name, row, rec, rows);
    AddToReport(pc, row, rows);
  }

  /** One turn of the loop: run the check, make its row, add it. */
  method RunTurn(pc: PipelineContext, check: Check, rec: Recorder?, ghost does: Does)
    returns (row: CheckResult, ghost rows: array<CheckResult>)
    requires pc.Valid() && pc.Backed() && Models(pc.env, does)
    modifies pc, pc.credentials, pc.report, pc.report.r.checks.arr, pc.report.r.credentials.arr, pc.report.r.policy
    modifies pc.sink, pc.cleaner, pc.buffers, pc.maps, rec
    ensures pc.Valid() && pc.Backed() && Grew(pc)
    ensures pc.report.r == old(pc.report.r).(checks := pc.report.r.checks, credentials := pc.report.r.credentials)
    ensures pc.report.r.checks.arr == old(pc.report.r.checks.arr) || fresh(pc.report.r.checks.arr)
    ensures pc.report.r.credentials.arr == old(pc.report.r.credentials.arr) || fresh(pc.report.r.credentials.arr)
    ensures var out := does(check, old(pc.State()));
      && row == Finish(check.Name(), out.answer) && pc.State() == out.st
      && pc.report.Contents() == Noted(old(pc.report.Contents()), out, row)
    ensures rec != null ==> rec.trace == old(rec.trace) + [(check.Name(), row.outcome)]
    ensures check == Shipped(AssembleForward) ==> Served(pc.sink, old(pc.State()).creds)
    ensures check == Shipped(AssembleForward) && row.outcome != Fail ==> HandedOver(pc.sink, pc.report.r, rows)
  {
    row, rows := RunAndFinish(pc, check, does);
    assert rec != null ==> rec.trace == old(rec.trace);
    AddRow(pc, check.Name(), row, rec, rows);
  }

  type Trace = seq<(CheckName, Outcome)>

  /** The run of a list of checks: from where, to where it ends on values, and what was there before it. */
  datatype Course = Course(
    does: Does, checks: seq<Check>, start: PState, end: (PState, ReportV),
    code: Code, trace0: Trace, rows0: seq<CheckResult>)

  /** Where a run stands: the state, the report, and the recorder's trace if there is a recorder. */
  datatype Stand = Stand(st: PState, rep: ReportV, trace: Option<Trace>)

  /** The entries new in a trace tell of the rows new in a report. */
  ghost predicate TraceMatches(trace0: Trace, trace: Trace, rows0: seq<CheckResult>, rows: seq<CheckResult>) {
    trace0 <= trace && rows0 <= rows && Tells(trace[|trace0|..], rows[|rows0|..])
  }

  /** The recorder was told of the rows added, and the builder has no code of its own yet. */
  ghost predicate Recorded(c: Course, s: Stand) {
    s.rep.failCode == c.code && (s.trace.Some? ==> TraceMatches(c.trace0, s.trace.value, c.rows0, s.rep.checks))
  }

  /** The report of a run that fails with this code. */
  function FailedWith(rep: ReportV, code: Code): ReportV {
    rep.(verified := false, failCode := code)
  }

  /** Where the loop is. Without a fail, the first i checks led from start to here, and what is left to run from
      here ends as the whole run does; with one, the run ends here. */
  ghost predicate OnTrack(c: Course, i: nat, s: Stand, fail: Option<Code>)
    requires i <= |c.checks|
  {
    && Recorded(c, s)
    && if fail.Some? then c.end == (s.st, FailedWith(s.rep, fail.value))
       else s.st == StateAt(c.does, c.checks, c.start, i) && RunFrom(c.does, c.checks[i..], s.st, s.rep) == c.end
  }

  ghost function CourseFrom(does: Does, checks: seq<Check>, s: Stand): Course {
    Course(does, checks, s.st, RunFrom(does, checks, s.st, s.rep), s.rep.failCode,
           if s.trace.Some? then s.trace.value else [], s.rep.checks)
  }

  lemma StartsOnTrack(does: Does, checks: seq<Check>, s: Stand)
    ensures OnTrack(CourseFrom(does, checks, s), 0, s, None)
  {
    assert checks[0..] == checks;
  }

  /** A loop that is on track at its end leaves what the run on values ends with. */
  lemma EndsOnTrack(c: Course, n: nat, s: Stand, fail: Option<Code>)
    requires n <= |c.checks| && OnTrack(c, n, s, fail) && (fail.None? ==> n == |c.checks|)
    ensures Recorded(c, s)
    ensures c.end ==
      (s.st, if fail.Some? then FailedWith(s.rep, fail.value) else s.rep.(verified := true, failCode := NoCode))
  {
    assert c.checks[|c.checks|..] == [];
  }

  /** Where a run stands after its next check. */
  ghost function NextStand(c: Course, i: nat, s: Stand): (Stand, CheckResult)
    requires i < |c.checks|
  {
    var out := c.does(c.checks[i], s.st);
    var row := Finish(c.checks[i].Name(), out.answer);
    (Stand(out.st, Noted(s.rep, out, row),
       if s.trace.Some? then Some(s.trace.value + [(c.checks[i].Name(), row.outcome)]) else None), row)
  }

  lemma StillOnTrack(c: Course, i: nat, s: Stand)
    requires i < |c.checks| && OnTrack(c, i, s, None)
    ensures var (next, row) := NextStand(c, i, s);
      OnTrack(c, i + 1, next, if row.outcome == Fail then Some(row.code) else None)
  {
    assert c.checks[i..][0] == c.checks[i] && c.checks[i..][1..] == c.checks[i + 1..];
    var row := NextStand(c, i, s).1;
    if s.trace.Some? {
      TellsMore(c.trace0, s.trace.value, c.rows0, s.rep.checks, c.checks[i].Name(), Cap(row));
    }
  }

  lemma TellsMore(
    trace0: Trace, trace: Trace, rows0: seq<CheckResult>, rows: seq<CheckResult>, name: CheckName, row: CheckResult)
    requires TraceMatches(trace0, trace, rows0, rows) && row.check == Some(name)
    ensures TraceMatches(trace0, trace + [(name, row.outcome)], rows0, rows + [row])
  {
    assert (trace + [(name, row.outcome)])[|trace0|..] == trace[|trace0|..] + [(name, row.outcome)];
    assert (rows + [row])[|rows0|..] == rows[|rows0|..] + [row];
  }

  type Track = (nat, Stand, Option<Code>) -> bool

  /** OnTrack under another name: a predicate of the loop that does not unfold the rest of the run. */
  ghost predicate Tracks(track: Track, c: Course) {
    forall i: nat, s, fail {:trigger OnTrack(c, i, s, fail)} | i <= |c.checks| ::
      track(i, s, fail) == OnTrack(c, i, s, fail)
  }

  ghost function Tracker(c: Course): (track: Track)
    ensures Tracks(track, c)
  {
    (i: nat, s, fail) => i <= |c.checks| && OnTrack(c, i, s, fail)
  }

  /** Where the context and the recorder stand. */
  ghost function StandOf(pc: PipelineContext, rec: Recorder?): Stand
    requires pc.Valid()
    reads pc, pc.credentials, pc.report, pc.report.r.checks.arr, pc.report.r.credentials.arr, pc.report.r.policy, rec
  {
    Stand(pc.State(), pc.report.Contents(), if rec == null then None else Some(rec.trace))
  }

  /** Step 10 handed the report over, and the claims of these credentials were served. */
  ghost predicate Handed(pc: PipelineContext, rows: array<CheckResult>, vs: seq<CredV>)
    requires pc.Valid()
    reads pc, pc.sink, pc.report, pc.report.r.checks.arr, pc.report.r.credentials.arr, pc.report.r.policy, rows
    reads if |pc.sink.log| > 0 then ClaimMaps(pc.sink.log[|pc.sink.log| - 1].res.credentials) else {}
  {
    HandedOver(pc.sink, pc.report.r, rows) && Served(pc.sink, vs)
  }

  /** A turn keeps the run on track, or ends it. */
  method TurnOnTrack(
    checks: seq<Check>, i: nat, pc: PipelineContext, rec: Recorder?,
    ghost c: Course, ghost track: Track, ghost frame: set<object?>)
    returns (row: CheckResult, ghost rows: array<CheckResult>, ghost wider: set<object?>)
    requires pc.Valid() && pc.Backed() && Models(pc.env, c.does) && Tracks(track, c) && c.checks == checks
    requires i < |checks| && track(i, StandOf(pc, rec), None) && pc.Footprint() + {rec} <= frame
    modifies frame
    ensures pc.Valid() && pc.Backed() && pc.Footprint() + {rec} <= wider && frame <= wider && fresh(wider - frame)
    ensures track(i + 1, StandOf(pc, rec), if row.outcome == Fail then Some(row.code) else None)
    ensures checks[i] == Shipped(AssembleForward) && row.outcome != Fail ==>
      Handed(pc, rows, StateAt(c.does, checks, c.start, i).creds)
  {
    ghost var s := StandOf(pc, rec);
    assert OnTrack(c, i, s, None);
    StillOnTrack(c, i, s);
    row, rows := RunTurn(pc, checks[i], rec, c.does);
    wider := frame + pc.Footprint();
    assert StandOf(pc, rec) == NextStand(c, i, s).0;
    assert OnTrack(c, i + 1, StandOf(pc, rec), if row.outcome == Fail then Some(row.code) else None);
  }

  method EndFailed(pc: PipelineContext, code: Code) returns (rep: Report)
    requires pc.Valid() && pc.Backed()
    modifies pc.report
    ensures rep.Valid() && pc.Backed() && pc.State() == old(pc.State())
    ensures rep.Contents() == FailedWith(old(pc.report.Contents()), code) && !rep.verified
  {
    pc.report.Failed(code);
    rep := pc.report.Build();
  }

  method EndVerified(pc: PipelineContext, ghost rows: array<CheckResult>, ghost vs: seq<CredV>) returns (rep: Report)
    requires pc.Valid() && pc.Backed()
    modifies pc.report
    ensures rep.Valid() && pc.Backed() && pc.State() == old(pc.State())
    ensures rep.Contents() == old(pc.report.Contents()).(verified := true, failCode := NoCode)
    ensures old(HandedOver(pc.sink, pc.report.r, rows) && Served(pc.sink, vs) && pc.report.r.failCode == NoCode) ==>
      HandedOver(pc.sink, rep, rows) && Served(pc.sink, vs)
  {
    pc.report.Verified();
    rep := pc.report.Build();
  }

  /** The end of Engine.Run, after a fail or after the whole list. */
  method End(
    pc: PipelineContext, failed: Option<CheckResult>, rec: Recorder?, ghost rows: array<CheckResult>,
    ghost vs: seq<CredV>)
    returns (rep: Report)
    requires pc.Valid() && pc.Backed()
    modifies pc.report
    ensures rep.Valid() && pc.Backed() && pc.State() == old(pc.State())
    ensures failed.Some? ==> rep.Contents() == FailedWith(old(pc.report.Contents()), failed.value.code)
    ensures failed.None? ==> rep.Contents() == old(pc.report.Contents()).(verified := true, failCode := NoCode)
    ensures failed.None? && old(HandedOver(pc.sink, pc.report.r, rows) && Served(pc.sink, vs))
            && old(pc.report.r.failCode) == NoCode ==>
      HandedOver(pc.sink, rep, rows) && Served(pc.sink, vs)
    ensures rec != null ==> rec.trace == old(rec.trace)
  {
    if failed.Some? {
      rep := EndFailed(pc, failed.value.code);
    } else {
      rep := EndVerified(pc, rows, vs);
    }
  }

  /** The loop of Engine.Run, up to the first fail. */
  method RunLoop(checks: seq<Check>, pc: PipelineContext, rec: Recorder?, ghost c: Course, ghost track: Track)
    returns (failed: Option<CheckResult>, ghost n: nat, ghost rows: array<CheckResult>)
    requires pc.Valid() && pc.Backed() && Models(pc.env, c.does) && Tracks(track, c) && c.checks == checks
    requires track(0, StandOf(pc, rec), None)
    modifies pc.Footprint(), rec
    ensures pc.Valid() && pc.Backed() && n <= |checks| && (failed.None? ==> n == |checks|)
    ensures track(n, StandOf(pc, rec), if failed.Some? then Some(failed.value.code) else None)
    ensures failed.None? && EndsInStep10(checks) ==>
      Handed(pc, rows, StateAt(c.does, checks, c.start, |checks| - 1).creds)
  {
    rows := pc.report.r.checks.arr;
    ghost var before: set<object?> := pc.Footprint() + {rec};
    ghost var frame := before;
    for i := 0 to |checks|
      invariant pc.Valid() && pc.Backed() && track(i, StandOf(pc, rec), None)
      invariant pc.Footprint() + {rec} <= frame && fresh(frame - before)
      invariant i > 0 && checks[i - 1] == Shipped(AssembleForward) ==>
        Handed(pc, rows, StateAt(c.does, checks, c.start, i - 1).creds)
    {
      var row;
      row, rows, frame := TurnOnTrack(checks, i, pc, rec, c, track, frame);
      if row.outcome == Fail {
        return Some(row), i + 1, rows;
      }
    }
    failed, n := None, |checks|;
  }

  predicate EndsInStep10(checks: seq<Check>) {
    checks != [] && checks[|checks| - 1] == Shipped(AssembleForward)
  }

  /** A verified run whose last check is step 10 ends in an erased state. */
  lemma EndsBlank(env: Env, does: Does, checks: seq<Check>, st: PState, rep: ReportV)
    requires Models(env, does) && EndsInStep10(checks) && RunFrom(does, checks, st, rep).1.verified
    ensures Blank(RunFrom(does, checks, st, rep).0)
  {
    var n := |checks| - 1;
    VerifiedPassedAll(does, checks, st, rep, n + 1);
    var before := StateAt(does, checks, st, n);
    assert does(checks[n], before) == PipelineRun.CheckOut(env, checks[n], before) == Step10(env, before);
    EraseBlanks(before);
  }

  /** Engine.Run: the report it returns, the state it leaves and the trace it records are those of the run on
      values. If the last check is step 10 and the run is verified, the report that was delivered is the
      report returned, field by field, and neither has written into the other's rows; the claims that were
      delivered are those of the credentials as step 10 found them; and no attribute value is left in the
      context's memory or in the claim maps that were delivered. */
  method Run(checks: seq<Check>, pc: PipelineContext, rec: Recorder?, ghost does: Does)
    returns (rep: Report, ghost rows: array<CheckResult>)
    requires pc.Valid() && pc.Backed() && Models(pc.env, does)
    modifies pc.Footprint(), rec
    ensures rep.Valid() && pc.Backed()
    ensures (pc.State(), rep.Contents()) == RunFrom(does, checks, old(pc.State()), old(pc.report.Contents()))
    ensures EndsInStep10(checks) && rep.verified && old(pc.report.r.failCode) == NoCode ==>
      && HandedOver(pc.sink, rep, rows) && Blank(pc.State())
      && Served(pc.sink, StateAt(does, checks, old(pc.State()), |checks| - 1).creds)
    ensures rec != null ==>
      TraceMatches(old(rec.trace), rec.trace, old(pc.report.Contents()).checks, rep.Contents().checks)
  {
    ghost var s0 := StandOf(pc, rec);
    ghost var c := CourseFrom(does, checks, s0);
    StartsOnTrack(does, checks, s0);
    ghost var n;
    var failed;
    failed, n, rows := RunLoop(checks, pc, rec, c, Tracker(c));
    ghost var code := if failed.Some? then Some(failed.value.code) else None;
    EndsOnTrack(c, n, StandOf(pc, rec), code);
    rep := End(pc, failed, rec, rows, if checks == [] then [] else StateAt(does, checks, s0.st, |checks| - 1).creds);
    if rep.verified && EndsInStep10(checks) {
      EndsBlank(pc.env, does, checks, s0.st, s0.rep);
    }
  }

  /** A list of checks that ends in step 10, over a fresh context and the raw body of a response. */
  method RunFresh(
    checks: seq<Check>, env: Env, sessionID: string, sink: ResultSink, cleaner: Cleaner, raw: ByteSlice, rec: Recorder?,
    ghost does: Does)
    returns (rep: Report, ghost rows: array<CheckResult>, ghost end: PState)
    requires raw.Valid() && raw.Contents() == env.rawBody && Models(env, does) && EndsInStep10(checks)
    modifies sink, cleaner, raw.arr, rec
    ensures rep.Valid() && (end, rep.Contents()) == RunFrom(does, checks, START, NewReport(sessionID))
    ensures rep.verified ==>
      HandedOver(sink, rep, rows) && Served(sink, StateAt(does, checks, START, |checks| - 1).creds)
    ensures rep.verified ==> Blank(end) && AllZero(raw.Contents())
  {
    var pc := new PipelineContext(env, sessionID, sink, cleaner, raw);
    rep, rows := Run(checks, pc, rec, does);
    end := pc.State();
    assert rep.Contents().verified == rep.verified;
    assert pc.BodyBacked() && pc.raw == raw;
  }

  /** The production engine. A verified report means sound credentials, whose claims are what was delivered,
      with the report the sink was given; and no attribute value is left in memory. */
  method RunProduction(env: Env, sessionID: string, sink: ResultSink, cleaner: Cleaner, raw: ByteSlice, rec: Recorder?)
    returns (rep: Report, ghost rows: array<CheckResult>, ghost end: PState)
    requires raw.Valid() && raw.Contents() == env.rawBody
    modifies sink, cleaner, raw.arr, rec
    ensures rep.Valid() && (end, rep.Contents()) == RunTen(Behaviour(env), sessionID)
    ensures rep.verified ==> var creds := Credentials(Behaviour(env));
      && creds != [] && (forall c :: c in creds ==> Sound(env, c))
      && HandedOver(sink, rep, rows) && Served(sink, creds)
      && Blank(end) && AllZero(raw.Contents())
  {
    BehaviourModels(env);
    rep, rows, end := RunFresh(TEN_CHECKS, env, sessionID, sink, cleaner, raw, rec, Behaviour(env));
    ProductionMeans(env, sessionID);
    assert rep.Contents().verified == rep.verified;
  }

  lemma ProductionMeans(env: Env, sessionID: string)
    ensures RunTen(Behaviour(env), sessionID).1.verified ==>
      Credentials(Behaviour(env)) != [] && forall c :: c in Credentials(Behaviour(env)) ==> Sound(env, c)
    ensures Credentials(Behaviour(env)) == StateAt(Behaviour(env), TEN_CHECKS, START, |TEN_CHECKS| - 1).creds
  {
    BehaviourShips(env);
    if RunTen(Behaviour(env), sessionID).1.verified {
      VerifiedSoundness(env, Behaviour(env), sessionID);
    }
  }
}
