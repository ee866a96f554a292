/** PipelineContext and step 10, internal/pipeline/check_assemble_forward.go, on the heap: what is delivered
    is an independent report and references to claim maps, which Finalize then empties. */
module Forwarding {
  import opened Wrappers
  import opened ErrClass
  import opened PipelineTypes
  import opened PipelineRun
  import opened Context
  import opened Report
  import opened Finalization
  import opened Held
  import FlattenNames

  /** PipelineContext. Payloads and claims are memory, in the given arrays and claim maps, aliased in any way;
      the ghost fields say what the presentations read and whether Zero has run. */
  class PipelineContext {
    const env: Env
    const sessionID: string
    const report: Builder
    const sink: ResultSink
    const cleaner: Cleaner
    const raw: ByteSlice
    var presentations: seq<HeldPresentation>
    var responseCode: string
    var credentials: seq<Credential>
    ghost var views: seq<Presentation>
    ghost var erased: bool
    ghost var buffers: set<array<byte>>
    ghost var maps: set<ClaimMap>

    ghost predicate Valid()
      reads this, report
    {
      Distinct(credentials) && report.Valid()
    }

    /** The attribute-carrying memory reads as the state says. */
    ghost predicate Backed()
      reads this, credentials`sd, credentials`md, credentials`payload, credentials`claims, credentials`namespaces
      reads buffers, maps, raw.arr
    {
      BodyBacked() && AllBacked(credentials, buffers, maps)
    }

    /** The part of it that holds the response. */
    ghost predicate BodyBacked()
      reads this`presentations, this`views, this`erased, this`buffers, buffers, raw.arr
    {
      && raw.arr in buffers && raw.Valid() && raw.Contents() == RawOf(env, erased)
      && PresBacked(presentations, views, buffers)
    }

    ghost function State(): PState
      reads this, credentials
    {
      PState(views, responseCode, Views(credentials), erased)
    }

    /** Every object a run may write. */
    ghost function Footprint(): set<object>
      reads this, report
    {
      {this, report, report.r.checks.arr, report.r.credentials.arr, report.r.policy, sink, cleaner}
      + (set c | c in credentials) + buffers + maps
    }

    function FaultsOf(): Faults {
      Faults(env.deliverFault, env.saveFault, env.deleteFault)
    }

    /** What Zero reaches from the context, besides the result. */
    function MemoryOf(): Memory
      reads this, credentials
    {
      Memory(seq(|presentations|, i requires 0 <= i < |presentations| reads this => presentations[i].payload),
             seq(|credentials|, i requires 0 <= i < |credentials| reads this, credentials => HeldBy(credentials[i])),
             None, raw)
    }

    /** NewContext, with the raw body of the response. */
    constructor (env: Env, sessionID: string, sink: ResultSink, cleaner: Cleaner, raw: ByteSlice)
      requires raw.Valid() && raw.Contents() == env.rawBody
      ensures Valid() && Backed()
      ensures forall o :: o in Footprint() ==> o == sink || o == cleaner || o == raw.arr || fresh(o)
      ensures this.env == env && this.sink == sink && this.cleaner == cleaner && this.raw == raw
      ensures State() == START && report.Contents() == NewReport(sessionID)
    {
      this.env, this.sessionID, this.sink, this.cleaner, this.raw := env, sessionID, sink, cleaner, raw;
      presentations, responseCode, credentials := [], "", [];
      views, erased, buffers, maps := [], false, {raw.arr}, {};
      report := new Builder(sessionID);
      new;
      assert Footprint()
        == {this, report, report.r.checks.arr, report.r.credentials.arr, report.r.policy, sink, cleaner, raw.arr};
    }
  }

  /** The memory of a credential. */
  function HeldBy(c: Credential): HeldCredential
    reads c`sd, c`md
  {
    HeldCredential(c.pres.payload, if c.sd.Some? then Some(c.sd.value.claims) else None,
                   if c.md.Some? then Some(c.md.value.namespaces) else None)
  }

  function ResultOf(c: CredV): ResultV {
    ResultV(c.pres.queryCredID, c.pres.format, c.DoctypeOrVCT(), c.Claims())
  }

  function ResultsOf(vs: seq<CredV>): seq<ResultV> {
    seq(|vs|, i requires 0 <= i < |vs| => ResultOf(vs[i]))
  }

  /** One turn of step 10's loop: the summary goes into the report, the result, which holds the claim map
      itself, to the sink. */
  method Collect(b: Builder, cred: Credential) returns (forwarded: ResultCredential)
    requires b.Valid() && cred.Backed()
    modifies b, b.r.credentials.arr
    ensures b.Valid() && forwarded.Read() == ResultOf(cred.View())
    ensures forwarded.claims in cred.Maps() || fresh(forwarded.claims)
    ensures b.Contents() == old(b.Contents()).(credentials := old(b.Contents()).credentials + [SummaryOf(cred.View())])
    ensures b.r == old(b.r).(credentials := b.r.credentials)
    ensures b.r.credentials.arr == old(b.r.credentials.arr) || fresh(b.r.credentials.arr)
  {
    var claims := cred.Claims();
    forwarded := ResultCredential(cred.pres.queryCredID, cred.pres.format, cred.TypeName(), claims);
    var country := if cred.issuer.Some? then cred.issuer.value.issuer.anchorCountry else "";
    var decoys := if cred.sd.Some? then cred.sd.value.decoyDigests else 0;
    var named := cred.Claims();
    var sum := Summary(cred.pres.queryCredID, cred.pres.format, cred.TypeName(), country, [], cred.statusProvenance,
      decoys);
    assert sum.(claimNames := FlattenNames.Names(named.m, "")) == SummaryOf(cred.View());
    b.AddCredential(sum, named.m);
  }

  /** What the loop of step 10 has done after i credentials: their summaries are in the report, and their
      results, in order, read as they do. */
  ghost predicate Gathers(
    b: Builder, cs: seq<Credential>, forwarded: seq<ResultCredential>, before: ReportV, vs: seq<CredV>, i: nat,
    buffers: set<array<byte>>, maps: set<ClaimMap>)
    requires b.Valid() && i <= |vs|
    reads b, b.r.checks.arr, b.r.credentials.arr, b.r.policy, cs, buffers, maps, ClaimMaps(forwarded)
  {
    && AllBacked(cs, buffers, maps) && Views(cs) == vs
    && ReadAll(forwarded) == ResultsOf(vs[..i]) && b.Contents() == Gathered(before, vs, i)
  }

  /** One turn of that loop. */
  method CollectNext(
    b: Builder, cs: seq<Credential>, i: nat, sofar: seq<ResultCredential>,
    ghost before: ReportV, ghost vs: seq<CredV>, ghost buffers: set<array<byte>>, ghost maps: set<ClaimMap>)
    returns (one: ResultCredential)
    requires b.Valid() && i < |cs| == |vs| && Gathers(b, cs, sofar, before, vs, i, buffers, maps)
    modifies b, b.r.credentials.arr
    ensures b.Valid() && Gathers(b, cs, sofar + [one], before, vs, i + 1, buffers, maps)
    ensures one.claims in maps || fresh(one.claims)
    ensures b.r == old(b.r).(credentials := b.r.credentials)
    ensures b.r.credentials.arr == old(b.r.credentials.arr) || fresh(b.r.credentials.arr)
  {
    OneMore(before, vs, i);
    assert cs[i] in cs && cs[i].View() == vs[i];
    one := Collect(b, cs[i]);
    assert AllBacked(cs, buffers, maps) && Views(cs) == vs;
    assert ReadAll(sofar) == ResultsOf(vs[..i]);
    ReadMore(sofar, one);
  }

  /** The loop of step 10 over the credentials. */
  method CollectCredentials(b: Builder, cs: seq<Credential>, ghost buffers: set<array<byte>>, ghost maps: set<ClaimMap>)
    returns (forwarded: seq<ResultCredential>)
    requires b.Valid() && AllBacked(cs, buffers, maps)
    modifies b, b.r.credentials.arr
    ensures b.Valid() && ReadAll(forwarded) == ResultsOf(Views(cs))
    ensures forall r :: r in forwarded ==> r.claims in maps || fresh(r.claims)
    ensures b.Contents() == old(b.Contents()).(credentials := old(b.Contents()).credentials + Summaries(Views(cs)))
    ensures b.r == old(b.r).(credentials := b.r.credentials)
    ensures b.r.credentials.arr == old(b.r.credentials.arr) || fresh(b.r.credentials.arr)
  {
    ghost var vs := Views(cs);
    ghost var before := b.Contents();
    ghost var start := b.r;
    forwarded := [];
    for i := 0 to |cs|
      invariant b.Valid() && Gathers(b, cs, forwarded, before, vs, i, buffers, maps)
      invariant forall r :: r in forwarded ==> r.claims in maps || fresh(r.claims)
      invariant b.r == start.(credentials := b.r.credentials)
      invariant b.r.credentials.arr == start.credentials.arr || fresh(b.r.credentials.arr)
    {
      var one := CollectNext(b, cs, i, forwarded, before, vs, buffers, maps);
      forwarded := forwarded + [one];
    }
    assert vs[..|vs|] == vs;
  }

  lemma ReadMore(rs: seq<ResultCredential>, one: ResultCredential)
    ensures ReadAll(rs + [one]) == ReadAll(rs) + [one.Read()]
  {
  }

  /** A report with the summaries of the first i credentials added. */
  ghost function Gathered(rep: ReportV, vs: seq<CredV>, i: nat): ReportV
    requires i <= |vs|
  {
    rep.(credentials := rep.credentials + Summaries(vs[..i]))
  }

  lemma OneMore(rep: ReportV, vs: seq<CredV>, i: nat)
    requires i < |vs|
    ensures var now := Gathered(rep, vs, i);
      Gathered(rep, vs, i + 1) == now.(credentials := now.credentials + [SummaryOf(vs[i])])
    ensures ResultsOf(vs[..i + 1]) == ResultsOf(vs[..i]) + [ResultOf(vs[i])]
  {
    assert vs[..i + 1] == vs[..i] + [vs[i]];
    SummariesAppend(vs[..i], vs[i]);
    ResultsAppend(vs[..i], vs[i]);
    assert rep.credentials + (Summaries(vs[..i]) + [SummaryOf(vs[i])])
      == rep.credentials + Summaries(vs[..i]) + [SummaryOf(vs[i])];
  }

  lemma SummariesAppend(vs: seq<CredV>, c: CredV)
    ensures Summaries(vs + [c]) == Summaries(vs) + [SummaryOf(c)]
  {
  }

  lemma ResultsAppend(vs: seq<CredV>, c: CredV)
    ensures ResultsOf(vs + [c]) == ResultsOf(vs) + [ResultOf(c)]
  {
  }

  /** The builder's report with one more row, in a rows array of its own; the rest stays shared. */
  method CopyWithRow(b: Builder, row: CheckResult) returns (delivered: Report)
    requires b.Valid()
    ensures delivered.Valid() && fresh(delivered.checks.arr) && delivered.checks.len == b.r.checks.len + 1
    ensures delivered == b.r.(verified := true, checks := delivered.checks)
    ensures delivered.Contents() == b.Contents().(verified := true, checks := b.Contents().checks + [row])
  {
    delivered := b.Build();
    var n := delivered.checks.len;
    var checks := new CheckResult[n + 1];
    forall k | 0 <= k < n {
      checks[k] := delivered.checks.arr[k];
    }
    var copied := Append(Slice(checks, n), row);
    assert copied.Contents() == delivered.checks.Contents() + [row];
    assert |copied.Contents()| == n + 1;
    delivered := delivered.(checks := copied, verified := true);
  }

  /** The report of the last delivery is what the builder's report will be, marked verified, once the row of
      step 10 is added; its rows are in an array of their own. */
  ghost predicate Delivered(sink: ResultSink, b: Builder, arr: array<CheckResult>)
    requires b.Valid()
    reads sink, b, b.r.checks.arr, b.r.credentials.arr, b.r.policy, arr
  {
    |sink.log| > 0
    && var d := sink.log[|sink.log| - 1];
       && d.res.report == b.r.(verified := true, checks := Slice(arr, b.r.checks.len + 1))
       && arr != b.r.checks.arr && b.r.checks.len + 1 <= arr.Length
       && arr[..b.r.checks.len + 1] == b.r.checks.Contents() + [FORWARDED]
       && d.seen == b.Contents().(verified := true, checks := b.Contents().checks + [FORWARDED])
  }

  /** What a reader of the result of this credential finds: its own query id, type and claims. */
  ghost predicate ReadsAs(c: CredV, r: ResultV) {
    && r.queryCredentialID == c.pres.queryCredID && r.format == c.pres.format
    && r.doctypeOrVCT == c.DoctypeOrVCT() && r.claims == c.Claims()
  }

  lemma ResultsRead(vs: seq<CredV>)
    ensures |ResultsOf(vs)| == |vs| && forall i :: 0 <= i < |vs| ==> ReadsAs(vs[i], ResultsOf(vs)[i])
  {
  }

  /** The last delivery read the claims of these credentials, and the claim maps it was given are empty now. */
  ghost predicate Served(sink: ResultSink, vs: seq<CredV>)
    reads sink, if |sink.log| > 0 then ClaimMaps(sink.log[|sink.log| - 1].res.credentials) else {}
  {
    |sink.log| > 0
    && var d := sink.log[|sink.log| - 1];
       && |d.read| == |vs| && (forall i :: 0 <= i < |vs| ==> ReadsAs(vs[i], d.read[i]))
       && forall r :: r in d.res.credentials ==> r.claims.m == map[]
  }

  /** Ghost views and memory have equal sizes. */
  ghost predicate Sized(pc: PipelineContext)
    reads pc, pc.credentials
  {
    && pc.raw.len == |pc.env.rawBody| && |pc.views| == |pc.presentations|
    && (forall i :: 0 <= i < |pc.views| ==> pc.views[i] == pc.presentations[i].As(pc.views[i].payload)
                                            && |pc.views[i].payload| == pc.presentations[i].payload.len)
    && (forall c :: c in pc.credentials ==> |c.payload| == c.pres.payload.len)
    && (forall c :: c in pc.credentials && c.md.Some? ==> c.md.value.namespaces.Keys == c.namespaces.Keys)
  }

  lemma BackedMemory(pc: PipelineContext)
    requires pc.Backed()
    ensures Sized(pc) && pc.MemoryOf().Valid()
    ensures pc.MemoryOf().Buffers() <= pc.buffers && pc.MemoryOf().Maps() <= pc.maps
  {
    var mem := pc.MemoryOf();
    forall i | 0 <= i < |pc.presentations| ensures mem.presentations[i] == pc.presentations[i].payload {}
    forall h | h in mem.credentials ensures h.payload.Valid() && h.payload.arr in pc.buffers && h.Maps() <= pc.maps {
      var i :| 0 <= i < |pc.credentials| && h == HeldBy(pc.credentials[i]);
      assert pc.credentials[i] in pc.credentials && pc.credentials[i].Backed();
      assert h.Maps() == pc.credentials[i].Maps();
    }
  }

  /** The memory of the context is erased, whatever its ghost views still say. */
  ghost predicate Wiped(pc: PipelineContext)
    reads pc, pc.credentials`sd, pc.credentials`md, pc.buffers, pc.maps, pc.raw.arr
  {
    && pc.raw.arr in pc.buffers && pc.raw.Valid() && pc.raw.Contents() == Zeros(pc.raw.len)
    && (forall p :: p in pc.presentations ==>
          p.payload.arr in pc.buffers && p.payload.Valid() && p.payload.Contents() == Zeros(p.payload.len))
    && (forall c :: c in pc.credentials ==>
          && c.pres.payload.arr in pc.buffers && c.Maps() <= pc.maps
          && c.pres.payload.Valid() && c.pres.payload.Contents() == Zeros(c.pres.payload.len)
          && forall m :: m in c.Maps() ==> m.m == map[])
  }

  lemma ErasedWipes(pc: PipelineContext)
    requires pc.MemoryOf().Valid() && pc.MemoryOf().Erased() && pc.raw.arr in pc.buffers
    requires pc.MemoryOf().Buffers() <= pc.buffers && pc.MemoryOf().Maps() <= pc.maps
    ensures Wiped(pc)
  {
    var mem := pc.MemoryOf();
    pc.raw.ZeroContents();
    forall p | p in pc.presentations
      ensures p.payload.arr in pc.buffers && p.payload.Valid() && p.payload.Contents() == Zeros(p.payload.len)
    {
      var i :| 0 <= i < |pc.presentations| && pc.presentations[i] == p;
      assert mem.presentations[i] == p.payload;
      assert p.payload in mem.presentations;
      p.payload.ZeroContents();
    }
    forall c | c in pc.credentials
      ensures c.pres.payload.arr in pc.buffers && c.Maps() <= pc.maps
      ensures c.pres.payload.Valid() && c.pres.payload.Contents() == Zeros(c.pres.payload.len)
      ensures forall m :: m in c.Maps() ==> m.m == map[]
    {
      var i :| 0 <= i < |pc.credentials| && pc.credentials[i] == c;
      assert mem.credentials[i] == HeldBy(c) && HeldBy(c) in mem.credentials;
      c.pres.payload.ZeroContents();
      assert HeldBy(c).Maps() == c.Maps();
    }
  }

  /** Bring the ghost views of wiped credentials in line with their memory. */
  ghost method ViewErased(cs: seq<Credential>)
    modifies cs`payload, cs`claims, cs`namespaces
    ensures forall c :: c in cs ==> c.payload == Zeros(|old(c.payload)|) && c.claims == map[]
    ensures forall c :: c in cs ==> c.namespaces == map ns | ns in old(c.namespaces) :: map[]
    ensures Views(cs) == seq(|cs|, i requires 0 <= i < |cs| => EraseCred(old(Views(cs))[i]))
  {
    ghost var was := Views(cs);
    forall c | c in cs {
      c.payload := Zeros(|c.payload|);
    }
    forall c | c in cs {
      c.claims := map[];
    }
    forall c | c in cs {
      c.namespaces := map ns | ns in c.namespaces :: map[];
    }
    forall i | 0 <= i < |cs| ensures cs[i].View() == EraseCred(was[i]) {
      assert was[i] == old(cs[i].View());
    }
  }

  lemma WipedBacks(c: Credential)
    requires c.pres.payload.Valid() && c.pres.payload.Contents() == c.payload
    requires forall m :: m in c.Maps() ==> m.m == map[]
    requires c.sd.Some? ==> c.claims == map[]
    requires c.md.Some? ==>
      c.namespaces.Keys == c.md.value.namespaces.Keys && forall ns :: ns in c.namespaces ==> c.namespaces[ns] == map[]
    ensures c.Backed()
  {
  }

  lemma CredentialsWiped(cs: seq<Credential>, buffers: set<array<byte>>, maps: set<ClaimMap>)
    requires forall c :: c in cs ==>
      && c.pres.payload.arr in buffers && c.Maps() <= maps
      && c.pres.payload.Valid() && c.pres.payload.Contents() == c.payload
      && (forall m :: m in c.Maps() ==> m.m == map[]) && c.claims == map[]
      && (c.md.Some? ==> c.namespaces.Keys == c.md.value.namespaces.Keys)
      && forall ns :: ns in c.namespaces ==> c.namespaces[ns] == map[]
    ensures AllBacked(cs, buffers, maps)
  {
    forall c | c in cs ensures c.Backed() {
      WipedBacks(c);
    }
  }

  lemma PresentationsWiped(
    ps: seq<HeldPresentation>, was: seq<Presentation>, views: seq<Presentation>, buffers: set<array<byte>>)
    requires |was| == |ps| && views == seq(|was|, i requires 0 <= i < |was| => ErasePres(was[i]))
    requires forall i :: 0 <= i < |was| ==>
      was[i] == ps[i].As(was[i].payload) && |was[i].payload| == ps[i].payload.len
    requires forall p :: p in ps ==>
      p.payload.arr in buffers && p.payload.Valid() && p.payload.Contents() == Zeros(p.payload.len)
    ensures PresBacked(ps, views, buffers)
  {
    forall i | 0 <= i < |ps|
      ensures ps[i].payload.arr in buffers && ps[i].payload.Valid() && views[i] == ps[i].As(ps[i].payload.Contents())
    {
      assert ps[i] in ps;
    }
  }

  ghost method MarkCredentials(pc: PipelineContext)
    requires Sized(pc) && Wiped(pc)
    modifies pc.credentials`payload, pc.credentials`claims, pc.credentials`namespaces
    ensures AllBacked(pc.credentials, pc.buffers, pc.maps)
    ensures Views(pc.credentials) == Erase(old(pc.State())).creds
  {
    ViewErased(pc.credentials);
    CredentialsWiped(pc.credentials, pc.buffers, pc.maps);
  }

  /** Bring the ghost views of the context in line with wiped memory. */
  ghost method MarkErased(pc: PipelineContext)
    requires pc.Valid() && Sized(pc) && Wiped(pc)
    modifies pc`views, pc`erased, pc.credentials
    ensures pc.Valid() && pc.Backed() && pc.State() == Erase(old(pc.State()))
  {
    ghost var was := pc.views;
    ghost var now := seq(|was|, i requires 0 <= i < |was| => ErasePres(was[i]));
    PresentationsWiped(pc.presentations, was, now, pc.buffers);
    ghost var goal := Erase(pc.State());
    MarkCredentials(pc);
    assert PresBacked(pc.presentations, now, pc.buffers);
    pc.views, pc.erased := now, true;
    assert pc.raw.Contents() == RawOf(pc.env, true);
    assert Views(pc.credentials) == goal.creds && now == goal.presentations;
  }

  /** Finalize, called on the context. */
  method FinalizeContext(pc: PipelineContext, res: RunResult) returns (err: Option<Err>)
    requires pc.Valid() && pc.Backed() && res.report.Valid()
    modifies pc.sink, pc.cleaner, pc.buffers, pc.maps, ClaimMaps(res.credentials)
    ensures pc.Valid() && pc.State() == old(pc.State()) && Sized(pc) && Wiped(pc)
    ensures err == if pc.env.deliverFault.Some? then pc.env.deliverFault
                   else DisposalFault(pc.FaultsOf(), res.verified, pc.responseCode)
    ensures pc.sink.log
      == old(pc.sink.log) + [Delivery(res, old(res.report.Contents()), old(ReadAll(res.credentials)))]
    ensures forall r :: r in res.credentials ==> r.claims.m == map[]
  {
    BackedMemory(pc);
    var mem := pc.MemoryOf();
    err := Finalize(pc.sink, pc.cleaner, pc.FaultsOf(), mem, pc.sessionID, pc.responseCode, res);
    assert pc.MemoryOf() == mem && Sized(pc);
    ErasedWipes(pc);
  }

  /** The delivery of step 10: an independent copy of the report with the row the engine has not added yet;
      then the session is disposed of and memory erased. */
  method Forward(pc: PipelineContext, forwarded: seq<ResultCredential>)
    returns (err: Option<Err>, ghost rows: array<CheckResult>)
    requires pc.Valid() && pc.Backed()
    modifies pc.sink, pc.cleaner, pc.buffers, pc.maps, ClaimMaps(forwarded)
    ensures pc.Valid() && pc.State() == old(pc.State()) && pc.report.Contents() == old(pc.report.Contents())
    ensures Sized(pc) && Wiped(pc) && err == FinalizeFault(pc.env, pc.responseCode)
    ensures fresh(rows) && Delivered(pc.sink, pc.report, rows)
    ensures |pc.sink.log| == |old(pc.sink.log)| + 1
    ensures var d := pc.sink.log[|pc.sink.log| - 1];
      && d.read == old(ReadAll(forwarded)) && d.res.credentials == forwarded
      && forall r :: r in forwarded ==> r.claims.m == map[]
  {
    var delivered := CopyWithRow(pc.report, FORWARDED);
    rows := delivered.checks.arr;
    err := FinalizeContext(pc, RunResult(pc.sessionID, true, delivered, forwarded));
  }

  /** Marking does not touch what the sink was given. */
  ghost method MarkDelivered(pc: PipelineContext, rows: array<CheckResult>, vs: seq<CredV>)
    requires pc.Valid() && Sized(pc) && Wiped(pc) && Delivered(pc.sink, pc.report, rows) && Served(pc.sink, vs)
    modifies pc`views, pc`erased, pc.credentials
    ensures pc.Valid() && pc.Backed() && pc.State() == Erase(old(pc.State()))
    ensures pc.report.Contents() == old(pc.report.Contents())
    ensures Delivered(pc.sink, pc.report, rows) && Served(pc.sink, vs)
  {
    MarkErased(pc);
  }

  /** The second half of step 10. */
  method HandOff(pc: PipelineContext, forwarded: seq<ResultCredential>)
    returns (res: CheckResult, ghost rows: array<CheckResult>)
    requires pc.Valid() && pc.Backed() && ReadAll(forwarded) == ResultsOf(Views(pc.credentials))
    modifies pc`views, pc`erased, pc.credentials
    modifies pc.sink, pc.cleaner, pc.buffers, pc.maps, ClaimMaps(forwarded)
    ensures pc.Valid() && pc.Backed() && pc.State() == Erase(old(pc.State()))
    ensures pc.report.Contents() == old(pc.report.Contents())
    ensures res == HandoffVerdict(FinalizeFault(pc.env, pc.responseCode))
    ensures fresh(rows) && Delivered(pc.sink, pc.report, rows) && Served(pc.sink, old(Views(pc.credentials)))
  {
    ghost var vs := Views(pc.credentials);
    var err;
    err, rows := Forward(pc, forwarded);
    ResultsRead(vs);
    MarkDelivered(pc, rows, vs);
    if err.Some? {
      return Row(Fail, Problem(OfSession, HandoffFailed), SafeDetail(err.value)), rows;
    }
    res := FORWARDED;
  }

  /** Step 10. */
  method RunAssembleForward(pc: PipelineContext) returns (res: CheckResult, ghost rows: array<CheckResult>)
    requires pc.Valid() && pc.Backed()
    modifies pc`views, pc`erased, pc.credentials
    modifies pc.report, pc.report.r.credentials.arr, pc.sink, pc.cleaner, pc.buffers, pc.maps
    ensures pc.Valid() && pc.Backed() && pc.State() == Erase(old(pc.State()))
    ensures res == HandoffVerdict(FinalizeFault(pc.env, pc.responseCode))
    ensures pc.report.Contents() == old(pc.report.Contents()).(credentials :=
      old(pc.report.Contents()).credentials + Summaries(old(Views(pc.credentials))))
    ensures pc.report.r == old(pc.report.r).(credentials := pc.report.r.credentials)
    ensures pc.report.r.credentials.arr == old(pc.report.r.credentials.arr) || fresh(pc.report.r.credentials.arr)
    ensures fresh(rows) && Delivered(pc.sink, pc.report, rows) && Served(pc.sink, old(Views(pc.credentials)))
  {
    var forwarded := CollectCredentials(pc.report, pc.credentials, pc.buffers, pc.maps);
    assert pc.State() == old(pc.State());
    res, rows := HandOff(pc, forwarded);
  }
}
