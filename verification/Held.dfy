/** Attribute-carrying memory: byte slices that may overlap and claim maps that may be reached by two routes. */
module Held {
  import opened Wrappers
  import opened ErrClass
  import opened TrustResolution
  import opened PipelineTypes

  /** A []byte: a window of a backing array that other slices may overlap. */
  datatype ByteSlice = ByteSlice(arr: array<byte>, off: nat, len: nat)
  {
    predicate Valid() {
      off + len <= arr.Length
    }

    /** The bytes in the window; a slice always lies within its array. */
    function Contents(): Bytes
      reads arr
    {
      if Valid() then arr[off..off + len] else []
    }

    ghost predicate AllZero()
      requires Valid()
      reads arr
    {
      forall k :: off <= k < off + len ==> arr[k] == 0
    }

    lemma ZeroContents()
      requires Valid() && AllZero()
      ensures Contents() == Zeros(len)
    {
    }
  }

  /** A map[string]any. Nested maps are values: nothing writes into them after they are made. */
  class ClaimMap {
    var m: map<string, Node>

    constructor (m: map<string, Node>)
      ensures this.m == m
    {
      this.m := m;
    }
  }

  /** oid4vp.Presentation: copying it copies the slice header, not the payload. */
  datatype HeldPresentation = HeldPresentation(
    queryCredID: string, format: Format, payload: ByteSlice,
    clientID: string, nonce: string, jwkThumbprint: Bytes, responseURI: string)
  {
    /** The presentation, when its payload reads as these bytes. */
    function As(bytes: Bytes): Presentation {
      Presentation(queryCredID, format, bytes, clientID, nonce, jwkThumbprint, responseURI)
    }
  }

  /** sdjwt.VerifiedCredential */
  datatype HeldSD = HeldSD(
    vct: string, issuedAt: Time, notBefore: Time, expiry: Time,
    status: Option<StatusRef>, decoyDigests: nat, claims: ClaimMap)
  {
    /** The credential, when its claim map reads as this map. */
    function As(m: map<string, Node>): SDVerified {
      SDVerified(vct, issuedAt, notBefore, expiry, status, decoyDigests, m)
    }
  }

  /** mdoc.VerifiedDocument */
  datatype HeldMD = HeldMD(
    docType: string, namespaces: map<string, ClaimMap>, status: Option<StatusRef>, validFrom: Time, validUntil: Time)
  {
    function As(m: map<string, map<string, Node>>): MDVerified {
      MDVerified(docType, m, status, validFrom, validUntil)
    }

    /** Each namespace reads as this map says. */
    ghost predicate Reads(m: map<string, map<string, Node>>)
      reads namespaces.Values
    {
      m.Keys == namespaces.Keys && forall ns :: ns in namespaces ==> namespaces[ns].m == m[ns]
    }
  }

  /** The verified credential as the SD-JWT library allocates it. */
  method HoldSD(vc: SDVerified) returns (held: HeldSD)
    ensures held.As(vc.claims) == vc && held.claims.m == vc.claims && fresh(held.claims)
  {
    var claims := new ClaimMap(vc.claims);
    held := HeldSD(vc.vct, vc.issuedAt, vc.notBefore, vc.expiry, vc.status, vc.decoyDigests, claims);
  }

  /** The document as the mdoc library allocates it. */
  method HoldMD(doc: MDVerified) returns (held: HeldMD)
    ensures held.As(doc.namespaces) == doc && held.Reads(doc.namespaces) && fresh(held.namespaces.Values)
  {
    var namespaces: map<string, ClaimMap> := map[];
    var todo := doc.namespaces.Keys;
    while todo != {}
      invariant todo <= doc.namespaces.Keys && namespaces.Keys == doc.namespaces.Keys - todo
      invariant fresh(namespaces.Values) && forall ns :: ns in namespaces ==> namespaces[ns].m == doc.namespaces[ns]
      decreases |todo|
    {
      var ns :| ns in todo;
      var elems := new ClaimMap(doc.namespaces[ns]);
      ghost var before := namespaces;
      namespaces := namespaces[ns := elems];
      assert forall o :: o in namespaces.Values ==> o == elems || o in before.Values;
      todo := todo - {ns};
    }
    held := HeldMD(doc.docType, namespaces, doc.status, doc.validFrom, doc.validUntil);
  }

  /** These presentations, when their payloads, which lie in these arrays, read as the given bytes. */
  ghost predicate PresBacked(ps: seq<HeldPresentation>, views: seq<Presentation>, buffers: set<array<byte>>)
    reads buffers
  {
    |views| == |ps| && forall i :: 0 <= i < |ps| ==>
      ps[i].payload.arr in buffers && ps[i].payload.Valid() && views[i] == ps[i].As(ps[i].payload.Contents())
  }

  method HoldBytes(b: Bytes) returns (s: ByteSlice)
    ensures s.Valid() && s.Contents() == b && fresh(s.arr)
  {
    var arr := new byte[|b|](k requires 0 <= k < |b| => b[k]);
    s := ByteSlice(arr, 0, |b|);
    assert arr[..] == b;
  }

  /** The presentations as the library of step 1 allocates them: their payloads lie in new arrays. */
  method HoldPresentations(pres: seq<Presentation>)
    returns (held: seq<HeldPresentation>, ghost buffers: set<array<byte>>)
    ensures PresBacked(held, pres, buffers) && fresh(buffers)
  {
    held, buffers := [], {};
    for i := 0 to |pres|
      invariant fresh(buffers) && PresBacked(held, pres[..i], buffers)
    {
      var p := pres[i];
      var payload := HoldBytes(p.payload);
      held := held + [HeldPresentation(p.queryCredID, p.format, payload, p.clientID, p.nonce, p.jwkThumbprint,
        p.responseURI)];
      buffers := buffers + {payload.arr};
    }
    assert pres[..|pres|] == pres;
  }
}
