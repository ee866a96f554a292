/** internal/pipeline/finalize.go: deliver, dispose, and erase attribute values on every return path. */
module Finalization {
  import opened Wrappers
  import opened ErrClass
  import opened PipelineTypes
  import opened PipelineRun
  import opened Report
  import opened Held

  // ---- attribute-carrying memory ----

  /** The memory of one credential: its payload, SD-JWT claims, and mdoc namespaces. */
  datatype HeldCredential = HeldCredential(payload: ByteSlice, sd: Option<ClaimMap>, md: Option<map<string, ClaimMap>>)
  {
    ghost function Maps(): set<ClaimMap> {
      (if sd.Some? then {sd.value} else {}) + (if md.Some? then md.value.Values else {})
    }
  }

  /** Everything Zero reaches from the context and the result. Any two of these may alias: a presentation's
      payload is also its credential's, and a result claim map is its SD-JWT's. */
  datatype Memory = Memory(
    presentations: seq<ByteSlice>, credentials: seq<HeldCredential>, result: Option<seq<ClaimMap>>, raw: ByteSlice)
  {
    ghost predicate Valid() {
      && (forall p :: p in presentations ==> p.Valid())
      && (forall c :: c in credentials ==> c.payload.Valid())
      && raw.Valid()
    }

    ghost function Buffers(): set<array<byte>> {
      (set p | p in presentations :: p.arr) + (set c | c in credentials :: c.payload.arr) + {raw.arr}
    }

    ghost function Maps(): set<ClaimMap> {
      (set c, m | c in credentials && m in c.Maps() :: m) + (if result.Some? then set m | m in result.value else {})
    }

    ghost predicate PayloadsZero()
      requires Valid()
      reads Buffers()
    {
      && (forall p :: p in presentations ==> p.AllZero())
      && (forall c :: c in credentials ==> c.payload.AllZero())
      && raw.AllZero()
    }

    ghost predicate MapsEmpty()
      reads Maps()
    {
      forall m :: m in Maps() ==> m.m == map[]
    }

    /** No attribute value is left in any of this memory. */
    ghost predicate Erased()
      requires Valid()
      reads Buffers(), Maps()
    {
      PayloadsZero() && MapsEmpty()
    }
  }

  /** zeroBytes: the window becomes zero and nothing else changes. */
  method ZeroBytes(b: ByteSlice)
    requires b.Valid()
    modifies b.arr
    ensures forall k :: 0 <= k < b.arr.Length ==> b.arr[k] == if b.off <= k < b.off + b.len then 0 else old(b.arr[k])
  {
    for i := 0 to b.len
      invariant forall k :: 0 <= k < b.arr.Length ==> b.arr[k] == if b.off <= k < b.off + i then 0 else old(b.arr[k])
    {
      b.arr[b.off + i] := 0;
    }
  }

  /** clearMap: each key is overwritten, then deleted. */
  method ClearMap(c: ClaimMap)
    modifies c
    ensures c.m == map[]
  {
    var todo := c.m.Keys;
    while todo != {}
      invariant c.m.Keys == todo
      decreases |todo|
    {
      var k :| k in todo;
      c.m := c.m[k := Leaf(0)];
      c.m := c.m - {k};
      todo := todo - {k};
    }
  }

  /** Bytes only ever become zero. */
  twostate predicate OnlyZeroed(buffers: set<array<byte>>)
    reads buffers
  {
    forall b, k {:trigger b[k]} :: b in buffers && 0 <= k < b.Length ==> b[k] == old(b[k]) || b[k] == 0
  }

  method ClearNamespaces(md: map<string, ClaimMap>)
    modifies md.Values
    ensures forall m :: m in md.Values ==> m.m == map[]
  {
    var todo := md.Keys;
    while todo != {}
      invariant todo <= md.Keys
      invariant forall ns :: ns in md && ns !in todo ==> md[ns].m == map[]
      decreases |todo|
    {
      var ns :| ns in todo;
      ClearMap(md[ns]);
      todo := todo - {ns};
    }
  }

  method ZeroCredential(c: HeldCredential)
    requires c.payload.Valid()
    modifies c.payload.arr, c.Maps()
    ensures c.payload.AllZero() && OnlyZeroed({c.payload.arr})
    ensures forall m :: m in c.Maps() ==> m.m == map[]
  {
    ZeroBytes(c.payload);
    if c.sd.Some? {
      ClearMap(c.sd.value);
    }
    if c.md.Some? {
      ClearNamespaces(c.md.value);
    }
  }

  /** Zero: whatever aliases what, every payload byte and the raw body end up zero and every claim map
      empty; nothing outside the windows changes other than to zero. */
  method Zero(mem: Memory)
    requires mem.Valid()
    modifies mem.Buffers(), mem.Maps()
    ensures mem.Erased() && OnlyZeroed(mem.Buffers())
  {
    ZeroPresentations(mem);
    ZeroCredentials(mem);
    ZeroRest(mem);
  }

  /** The end of Zero: the result's claim maps and the raw body. */
  method ZeroRest(mem: Memory)
    requires mem.Valid()
    requires forall p :: p in mem.presentations ==> p.AllZero()
    requires forall c :: c in mem.credentials ==> c.payload.AllZero()
    requires forall c, m :: c in mem.credentials && m in c.Maps() ==> m.m == map[]
    modifies mem.raw.arr, if mem.result.Some? then set m | m in mem.result.value else {}
    ensures mem.Erased() && OnlyZeroed(mem.Buffers())
  {
    if mem.result.Some? {
      ClearResult(mem.result.value);
    }
    ZeroBytes(mem.raw);
  }

  /** The first loop of Zero. */
  method ZeroPresentations(mem: Memory)
    requires mem.Valid()
    modifies mem.Buffers()
    ensures forall p :: p in mem.presentations ==> p.AllZero()
    ensures OnlyZeroed(mem.Buffers())
  {
    for i := 0 to |mem.presentations|
      invariant forall p :: p in mem.presentations[..i] ==> p.AllZero()
      invariant OnlyZeroed(mem.Buffers())
    {
      assert mem.presentations[i].Valid();
      ghost var seen := mem.presentations[..i];
      assert forall p :: p in seen ==> p in mem.presentations && p.AllZero();
      ZeroBytes(mem.presentations[i]);
      assert forall p :: p in seen ==> p.AllZero();
      assert mem.presentations[..i + 1] == seen + [mem.presentations[i]];
    }
    assert mem.presentations[..|mem.presentations|] == mem.presentations;
  }

  /** The last loop of Zero. */
  method ClearResult(claims: seq<ClaimMap>)
    modifies set m | m in claims
    ensures forall m :: m in claims ==> m.m == map[]
  {
    for i := 0 to |claims|
      invariant forall m :: m in claims[..i] ==> m.m == map[]
    {
      ClearMap(claims[i]);
      assert claims[..i + 1] == claims[..i] + [claims[i]];
    }
    assert claims[..|claims|] == claims;
  }

  /** The middle loop of Zero. */
  method ZeroCredentials(mem: Memory)
    requires mem.Valid()
    requires forall p :: p in mem.presentations ==> p.AllZero()
    modifies mem.Buffers(), mem.Maps()
    ensures forall p :: p in mem.presentations ==> p.AllZero()
    ensures forall c :: c in mem.credentials ==> c.payload.AllZero()
    ensures forall c, m :: c in mem.credentials && m in c.Maps() ==> m.m == map[]
    ensures OnlyZeroed(mem.Buffers())
  {
    for i := 0 to |mem.credentials|
      invariant forall p :: p in mem.presentations ==> p.AllZero()
      invariant forall c :: c in mem.credentials[..i] ==> c.payload.AllZero()
      invariant forall c, m :: c in mem.credentials[..i] && m in c.Maps() ==> m.m == map[]
      invariant OnlyZeroed(mem.Buffers())
    {
      assert mem.credentials[i].payload.Valid();
      ZeroCredential(mem.credentials[i]);
      assert mem.credentials[..i + 1] == mem.credentials[..i] + [mem.credentials[i]];
    }
    assert mem.credentials[..|mem.credentials|] == mem.credentials;
  }

  // ---- delivery and disposal ----

  /** ResultCredential, the only value-bearing part of a result. */
  datatype ResultCredential = ResultCredential(
    queryCredentialID: string, format: Format, doctypeOrVCT: string, claims: ClaimMap)
  {
    function Read(): ResultV
      reads claims
    {
      ResultV(queryCredentialID, format, doctypeOrVCT, claims.m)
    }
  }

  /** What a reader of a result credential finds. */
  datatype ResultV = ResultV(queryCredentialID: string, format: Format, doctypeOrVCT: string, claims: map<string, Node>)

  ghost function ClaimMaps(rs: seq<ResultCredential>): set<ClaimMap> {
    set r | r in rs :: r.claims
  }

  ghost function ReadAll(rs: seq<ResultCredential>): seq<ResultV>
    reads ClaimMaps(rs)
  {
    seq(|rs|, i requires 0 <= i < |rs| reads ClaimMaps(rs) => rs[i].Read())
  }

  /** Result: the report and the claim maps are references into the run's memory. */
  datatype RunResult = RunResult(sessionID: string, verified: bool, report: Report, credentials: seq<ResultCredential>)

  /** One call of Deliver: what it was given, and what it read out of the report and out of the claim maps. */
  datatype Delivery = Delivery(res: RunResult, seen: ReportV, read: seq<ResultV>)

  class ResultSink {
    var log: seq<Delivery>

    constructor ()
      ensures log == []
    {
      log := [];
    }

    method Deliver(res: RunResult, fault: Option<Err>) returns (err: Option<Err>)
      requires res.report.Valid()
      modifies this
      ensures err == fault
      ensures log == old(log) + [Delivery(res, old(res.report.Contents()), old(ReadAll(res.credentials)))]
    {
      ghost var all := ReadAll(res.credentials);
      var read: seq<ResultV> := [];
      for i := 0 to |res.credentials|
        invariant read == all[..i]
      {
        read := read + [res.credentials[i].Read()];
      }
      assert all[..|all|] == all;
      log := log + [Delivery(res, res.report.Contents(), read)];
      err := fault;
    }
  }

  datatype Disposal = Saved(id: string) | Deleted(id: string)

  class Cleaner {
    var log: seq<Disposal>

    constructor ()
      ensures log == []
    {
      log := [];
    }

    method Save(id: string, fault: Option<Err>) returns (err: Option<Err>)
      modifies this
      ensures err == fault && log == old(log) + [Saved(id)]
    {
      log := log + [Saved(id)];
      err := fault;
    }

    method DeleteSession(id: string, fault: Option<Err>) returns (err: Option<Err>)
      modifies this
      ensures err == fault && log == old(log) + [Deleted(id)]
    {
      log := log + [Deleted(id)];
      err := fault;
    }
  }

  /** What the stores answer when asked. */
  datatype Faults = Faults(deliver: Option<Err>, save: Option<Err>, delete: Option<Err>)

  /** The session is kept only for a verified result with a response code to redeem. */
  function DisposalOf(id: string, verified: bool, responseCode: string): Disposal {
    if verified && responseCode != "" then Saved(id) else Deleted(id)
  }

  function DisposalFault(faults: Faults, verified: bool, responseCode: string): Option<Err> {
    if verified && responseCode != "" then faults.save else faults.delete
  }

  /** The body of Finalize, before its deferred Zero. */
  method DeliverAndDispose(
    sink: ResultSink, cleaner: Cleaner, faults: Faults, sessionID: string, responseCode: string, res: RunResult)
    returns (err: Option<Err>)
    requires res.report.Valid()
    modifies sink, cleaner
    ensures err == if faults.deliver.Some? then faults.deliver else DisposalFault(faults, res.verified, responseCode)
    ensures sink.log == old(sink.log) + [Delivery(res, old(res.report.Contents()), old(ReadAll(res.credentials)))]
    ensures cleaner.log == old(cleaner.log) +
      if faults.deliver.Some? then [] else [DisposalOf(sessionID, res.verified, responseCode)]
  {
    err := sink.Deliver(res, faults.deliver);
    if err.Some? {
      return;
    }
    if res.verified && responseCode != "" {
      err := cleaner.Save(sessionID, faults.save);
    } else {
      err := cleaner.DeleteSession(sessionID, faults.delete);
    }
  }

  function ClaimsOf(rs: seq<ResultCredential>): (ms: seq<ClaimMap>) {
    seq(|rs|, i requires 0 <= i < |rs| => rs[i].claims)
  }

  /** Finalize: on every return path, with or without a sink, save or delete error, the context's memory and
      the result's claim maps are erased. The sink was given the result once and read its claims as they were
      on entry, before any of them was erased; erasing changes no report. */
  method Finalize(
    sink: ResultSink, cleaner: Cleaner, faults: Faults, context: Memory,
    sessionID: string, responseCode: string, res: RunResult)
    returns (err: Option<Err>)
    requires context.Valid() && context.result.None? && res.report.Valid()
    modifies sink, cleaner, context.Buffers(), context.Maps(), ClaimMaps(res.credentials)
    ensures context.Erased() && OnlyZeroed(context.Buffers())
    ensures forall r :: r in res.credentials ==> r.claims.m == map[]
    ensures err == if faults.deliver.Some? then faults.deliver else DisposalFault(faults, res.verified, responseCode)
    ensures sink.log == old(sink.log) + [Delivery(res, old(res.report.Contents()), old(ReadAll(res.credentials)))]
    ensures cleaner.log == old(cleaner.log) +
      if faults.deliver.Some? then [] else [DisposalOf(sessionID, res.verified, responseCode)]
    ensures res.report.Contents() == old(res.report.Contents())
  {
    err := DeliverAndDispose(sink, cleaner, faults, sessionID, responseCode, res);
    ZeroWith(context, res.credentials);
  }

  /** The deferred Zero, of the context and of the result. */
  method ZeroWith(context: Memory, rs: seq<ResultCredential>)
    requires context.Valid() && context.result.None?
    modifies context.Buffers(), context.Maps(), ClaimMaps(rs)
    ensures context.Erased() && OnlyZeroed(context.Buffers())
    ensures forall r :: r in rs ==> r.claims.m == map[]
  {
    WithResult(context, rs);
    Zero(context.(result := Some(ClaimsOf(rs))));
    assert forall r :: r in rs ==> r.claims in ClaimMaps(rs);
  }

  lemma WithResult(context: Memory, rs: seq<ResultCredential>)
    requires context.result.None?
    ensures var mem := context.(result := Some(ClaimsOf(rs)));
      mem.Buffers() == context.Buffers() && mem.Maps() == context.Maps() + ClaimMaps(rs)
  {
    var ms := ClaimsOf(rs);
    forall m ensures m in ms <==> m in ClaimMaps(rs) {
      if m in ClaimMaps(rs) {
        var i :| 0 <= i < |rs| && rs[i].claims == m;
        assert ms[i] == m;
      }
      if m in ms {
        var i :| 0 <= i < |ms| && ms[i] == m;
        assert rs[i] in rs;
      }
    }
  }
}
