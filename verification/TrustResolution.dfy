/** internal/anchors/valkey.go and the resolution half of check_issuer_authenticity.go: an ordered search
    over (anchor type, territory) lookups, each found, empty or stale, that fails closed. */
module TrustResolution {
  import opened Wrappers
  import opened ErrClass
  import opened CredentialTrust

  datatype CachedAnchor = CachedAnchor(
    certDER: Bytes, territory: string, status: string, validUntil: Time, tlSequence: int, useCases: seq<string>)

  datatype CacheEntry = CacheEntry(anchors: seq<CachedAnchor>, upstreamStale: bool, validUntil: Time)

  datatype FreshnessRecord = FreshnessRecord(upstreamStale: bool, validUntil: Time)

  /** What the cache reader answers: the record, trustcache.ErrCacheExpired, or any other read error. */
  datatype Read<+T> = Present(value: T) | Missing | Failed(error: Err)

  /** The trust cache: the reader, the certificate parser, and the taxonomy of types it carries. */
  datatype Cache = Cache(
    anchorSet: (AnchorType, string) -> Read<CacheEntry>,
    freshness: AnchorType -> Read<FreshnessRecord>,
    parseCert: Bytes -> Option<Err>)

  datatype Anchor = Anchor(
    certDER: Bytes, kind: AnchorType, country: string, status: string, validUntil: Time, tlSequence: int,
    useCases: seq<string>)

  const ALL_TYPES: set<AnchorType> := {
    PIDProvider, QEAAProvider, PubEAAProvider, EAAProvider, WalletProvider, AccessCA, WRPRCIssuer,
    PIDProviderStatus, QEAAProviderStatus, PubEAAProviderStatus, EAAProviderStatus }

  /** typeFreshForVerification */
  predicate TypeFresh(cache: Cache, now: Time, t: AnchorType) {
    match cache.freshness(t)
    case Present(fr) => !fr.upstreamStale && now < fr.validUntil
    case _ => false
  }

  /** A cache entry verification must not use. */
  predicate Degraded(entry: CacheEntry, now: Time) {
    entry.upstreamStale || now > entry.validUntil
  }

  function ToAnchor(a: CachedAnchor, t: AnchorType): Anchor {
    Anchor(a.certDER, t, a.territory, a.status, a.validUntil, a.tlSequence, a.useCases)
  }

  function ToAnchors(cached: seq<CachedAnchor>, t: AnchorType): seq<Anchor> {
    seq(|cached|, i requires 0 <= i < |cached| => ToAnchor(cached[i], t))
  }

  /** The first certificate of an entry that does not parse. */
  function FirstBadCert(cache: Cache, anchors: seq<CachedAnchor>): Option<Err> {
    if anchors == [] then None
    else if cache.parseCert(anchors[0].certDER).Some? then
      Some(Wrap(cache.parseCert(anchors[0].certDER).value, "bad certificate"))
    else FirstBadCert(cache, anchors[1..])
  }

  const EXPIRED: Err := Of(CacheExpired, "trust: cache expired")

  /** What one lookup answers. The readiness grace is not among the arguments. */
  function AnchorsOf(cache: Cache, now: Time, t: AnchorType, country: string): Result<seq<Anchor>, Err> {
    if t !in ALL_TYPES then Fault(Wrap(Of(UnknownAnchorType, "unknown anchor type"), "anchors"))
    else match cache.anchorSet(t, country)
      case Missing => if TypeFresh(cache, now, t) then Ok([]) else Fault(EXPIRED)
      case Failed(e) => Fault(Wrap(e, "anchors: read"))
      case Present(entry) =>
        if Degraded(entry, now) then Fault(EXPIRED)
        else match FirstBadCert(cache, entry.anchors)
          case Some(e) => Fault(e)
          case None => Ok(ToAnchors(entry.anchors, t))
  }

  /** anchors.Valkey, the production anchor source. */
  datatype Valkey = Valkey(cache: Cache, grace: int, now: Time)
  {
    method AnchorsFor(t: AnchorType, country: string) returns (r: Result<seq<Anchor>, Err>)
      ensures r == AnchorsOf(cache, now, t, country)
    {
      if t !in ALL_TYPES {
        return Fault(Wrap(Of(UnknownAnchorType, "unknown anchor type"), "anchors"));
      }
      match cache.anchorSet(t, country)
      case Missing =>
        if TypeFresh(cache, now, t) {
          return Ok([]);
        }
        return Fault(EXPIRED);
      case Failed(e) =>
        return Fault(Wrap(e, "anchors: read"));
      case Present(entry) =>
        if entry.upstreamStale || now > entry.validUntil {
          return Fault(EXPIRED);
        }
        var out := [];
        for i := 0 to |entry.anchors|
          invariant |out| == i
          invariant forall k :: 0 <= k < i ==> out[k] == ToAnchor(entry.anchors[k], t)
          invariant FirstBadCert(cache, entry.anchors) == FirstBadCert(cache, entry.anchors[i..])
        {
          var a := entry.anchors[i];
          if cache.parseCert(a.certDER).Some? {
            return Fault(Wrap(cache.parseCert(a.certDER).value, "bad certificate"));
          }
          out := out + [Anchor(a.certDER, t, a.territory, a.status, a.validUntil, a.tlSequence, a.useCases)];
          assert entry.anchors[i..][1..] == entry.anchors[i + 1..];
        }
        assert out == ToAnchors(entry.anchors, t);
        return Ok(out);
    }

    /** Freshness, for readiness reporting. A type is reported fresh iff its record can be read, is not
        marked stale upstream, and has not been out of date for the grace; so whatever verification takes
        as fresh is reported fresh under every grace that is not negative. */
    method Freshness(types: seq<AnchorType>) returns (out: map<AnchorType, bool>)
      ensures out.Keys == set t | t in types
      ensures forall t :: t in types ==> (out[t] <==>
        && cache.freshness(t).Present? && !cache.freshness(t).value.upstreamStale
        && now < cache.freshness(t).value.validUntil + grace)
      ensures grace >= 0 ==> forall t :: t in types && TypeFresh(cache, now, t) ==> out[t]
    {
      out := map[];
      for i := 0 to |types|
        invariant out.Keys == set t | t in types[..i]
        invariant forall t :: t in types[..i] ==> (out[t] <==>
          cache.freshness(t).Present? && !cache.freshness(t).value.upstreamStale
          && now < cache.freshness(t).value.validUntil + grace)
      {
        var wt := types[i];
        match cache.freshness(wt)
        case Present(fr) => out := out[wt := !fr.upstreamStale && now < fr.validUntil + grace];
        case _ => out := out[wt := false];
      }
      assert types[..|types|] == types;
    }
  }

  type Key = Bytes

  datatype ResolvedIssuer = ResolvedIssuer(anchorCountry: string, useCases: seq<string>)

  datatype Resolved = Resolved(key: Key, issuer: ResolvedIssuer)

  /** go-eudi-trust: the anchor source, the order in which a leaf's territories are tried, and the path
      check of a chain against a non-empty anchor set at an instant. */
  datatype Resolver = Resolver(
    anchors: (AnchorType, string) -> Result<seq<Anchor>, Err>,
    territoryOrder: seq<Bytes> -> seq<string>,
    matchChain: (seq<Anchor>, seq<Bytes>, Time) -> Result<Resolved, Err>)

  /** The resolver the service wires: anchors come from the trust cache. */
  function CacheResolver(
    cache: Cache, now: Time, order: seq<Bytes> -> seq<string>,
    matchChain: (seq<Anchor>, seq<Bytes>, Time) -> Result<Resolved, Err>): Resolver
  {
    Resolver((t: AnchorType, country: string) => AnchorsOf(cache, now, t, country), order, matchChain)
  }

  /** trust.ResolveIssuerKey over the territories still to try: an empty set moves on, an error aborts,
      a non-empty set decides. */
  function ResolveAmong(rv: Resolver, chain: seq<Bytes>, t: AnchorType, at: Time, territories: seq<string>)
    : Result<Resolved, Err>
  {
    if territories == [] then Fault(Of(ChainUntrusted, "trust: no anchor for chain"))
    else match rv.anchors(t, territories[0])
      case Fault(e) => Fault(e)
      case Ok(anchors) =>
        if anchors == [] then ResolveAmong(rv, chain, t, at, territories[1..])
        else rv.matchChain(anchors, chain, at)
  }

  function ResolveIssuerKey(rv: Resolver, chain: seq<Bytes>, t: AnchorType, at: Time): Result<Resolved, Err> {
    ResolveAmong(rv, chain, t, at, rv.territoryOrder(chain))
  }

  predicate Stale<T>(r: Result<T, Err>) {
    r.Fault? && Is(r.error, CacheExpired)
  }

  const NO_TYPES: Err := Wrap(Of(ChainUntrusted, "trust: chain untrusted"), "no anchor types configured for credential")

  /** resolveByTypes over the types still to try; last is the loop's lastErr. */
  function ResolveAfter(rv: Resolver, chain: seq<Bytes>, types: seq<AnchorType>, at: Time, last: Option<Err>)
    : Result<Resolved, Err>
  {
    if types == [] then Fault(match last case Some(e) => e case None => NO_TYPES)
    else
      var r := ResolveIssuerKey(rv, chain, types[0], at);
      if r.Ok? || Stale(r) then r
      else ResolveAfter(rv, chain, types[1..], at, Some(r.error))
  }

  function ResolveByTypes(rv: Resolver, chain: seq<Bytes>, types: seq<AnchorType>, at: Time): Result<Resolved, Err> {
    ResolveAfter(rv, chain, types, at, None)
  }

  method ResolveByTypesLoop(rv: Resolver, chain: seq<Bytes>, types: seq<AnchorType>, at: Time)
    returns (r: Result<Resolved, Err>)
    ensures r == ResolveByTypes(rv, chain, types, at)
  {
    var lastErr: Option<Err> := None;
    for i := 0 to |types|
      invariant ResolveByTypes(rv, chain, types, at) == ResolveAfter(rv, chain, types[i..], at, lastErr)
    {
      var one := ResolveIssuerKey(rv, chain, types[i], at);
      if one.Ok? {
        return one;
      }
      if Is(one.error, CacheExpired) {
        return one;
      }
      assert types[i..][1..] == types[i + 1..];
      lastErr := Some(one.error);
    }
    if lastErr.None? {
      lastErr := Some(NO_TYPES);
    }
    r := Fault(lastErr.value);
  }

  predicate UseCaseAllowed(required: string, have: seq<string>) {
    required == "" || required in have
  }

  const NOT_ACCREDITED: Err := Wrap(Of(ChainUntrusted, "trust: chain untrusted"), "issuer not accredited for use case")

  /** resolveIssuerFor */
  function ResolveIssuerFor(rv: Resolver, trustMap: CredentialTrustMap, chain: seq<Bytes>, name: string, at: Time)
    : Result<Resolved, Err>
  {
    var r := ResolveByTypes(rv, chain, trustMap.Issuance(name), at);
    if r.Fault? then r
    else if !UseCaseAllowed(trustMap.UseCaseFor(name), r.value.issuer.useCases) then
      Fault(NOT_ACCREDITED)
    else r
  }

  // ---- The search read as one flat scan of lookups ----

  /** Territories of one type that are consulted, in order. */
  ghost function ConsultedAmong(rv: Resolver, t: AnchorType, territories: seq<string>): seq<(AnchorType, string)> {
    if territories == [] then []
    else if rv.anchors(t, territories[0]) == Ok([]) then
      [(t, territories[0])] + ConsultedAmong(rv, t, territories[1..])
    else [(t, territories[0])]
  }

  /** Every lookup the search makes, in order. */
  ghost function Consulted(rv: Resolver, chain: seq<Bytes>, types: seq<AnchorType>, at: Time)
    : seq<(AnchorType, string)>
  {
    if types == [] then []
    else
      var r := ResolveIssuerKey(rv, chain, types[0], at);
      var here := ConsultedAmong(rv, types[0], rv.territoryOrder(chain));
      if r.Ok? || Stale(r) then here else here + Consulted(rv, chain, types[1..], at)
  }

  ghost predicate StaleLookup(rv: Resolver, q: (AnchorType, string)) {
    Stale(rv.anchors(q.0, q.1))
  }

  /** A path check does not itself report a stale cache. */
  ghost predicate MatchContract(rv: Resolver) {
    forall anchors, chain, at :: !Stale(rv.matchChain(anchors, chain, at))
  }

  lemma {:induction false} StaleAmong(
    rv: Resolver, chain: seq<Bytes>, t: AnchorType, at: Time, territories: seq<string>)
    requires MatchContract(rv)
    ensures var qs := ConsultedAmong(rv, t, territories);
      && (Stale(ResolveAmong(rv, chain, t, at, territories)) <==> |qs| > 0 && StaleLookup(rv, qs[|qs| - 1]))
      && (forall k :: 0 <= k < |qs| - 1 ==> !StaleLookup(rv, qs[k]))
  {
    if territories != [] && rv.anchors(t, territories[0]) == Ok([]) {
      StaleAmong(rv, chain, t, at, territories[1..]);
    }
  }

  /** The search answers cache-expired exactly when a lookup it consulted was stale, and then that lookup
      is the last: a stale lookup is never followed by another and never turned into untrusted. */
  lemma {:induction false} StaleStopsTheSearch(
    rv: Resolver, chain: seq<Bytes>, types: seq<AnchorType>, at: Time, last: Option<Err>)
    requires MatchContract(rv)
    requires last.Some? ==> !Is(last.value, CacheExpired)
    ensures var qs := Consulted(rv, chain, types, at);
      && (Stale(ResolveAfter(rv, chain, types, at, last)) <==> |qs| > 0 && StaleLookup(rv, qs[|qs| - 1]))
      && (forall k :: 0 <= k < |qs| - 1 ==> !StaleLookup(rv, qs[k]))
    decreases |types|
  {
    if types != [] {
      StaleAmong(rv, chain, types[0], at, rv.territoryOrder(chain));
      var r := ResolveIssuerKey(rv, chain, types[0], at);
      if !r.Ok? && !Stale(r) {
        StaleStopsTheSearch(rv, chain, types[1..], at, Some(r.error));
      }
    }
  }

  /** Types before i were tried and refused, none of them on a stale cache. */
  ghost predicate RefusedBefore(rv: Resolver, chain: seq<Bytes>, types: seq<AnchorType>, at: Time, i: nat) {
    forall j :: 0 <= j < i && j < |types| ==>
      ResolveIssuerKey(rv, chain, types[j], at).Fault? && !Stale(ResolveIssuerKey(rv, chain, types[j], at))
  }

  /** The exact answer: a key is returned iff some type yields it and every earlier type was refused on a
      cache that was not stale. */
  lemma {:induction false} FirstDecisiveType(
    rv: Resolver, chain: seq<Bytes>, types: seq<AnchorType>, at: Time, last: Option<Err>, res: Resolved)
    ensures ResolveAfter(rv, chain, types, at, last) == Ok(res) <==>
      exists i :: 0 <= i < |types| && ResolveIssuerKey(rv, chain, types[i], at) == Ok(res)
        && RefusedBefore(rv, chain, types, at, i)
    decreases |types|
  {
    if types != [] {
      var r := ResolveIssuerKey(rv, chain, types[0], at);
      var rest := types[1..];
      if r.Ok? {
        assert RefusedBefore(rv, chain, types, at, 0);
        forall i | 0 < i < |types| ensures !RefusedBefore(rv, chain, types, at, i) {
          assert ResolveIssuerKey(rv, chain, types[0], at).Ok?;
        }
      } else if Stale(r) {
        forall i | 0 < i < |types| ensures !RefusedBefore(rv, chain, types, at, i) {
          assert Stale(ResolveIssuerKey(rv, chain, types[0], at));
        }
      } else {
        FirstDecisiveType(rv, chain, rest, at, Some(r.error), res);
        forall i | 0 < i < |types|
          ensures RefusedBefore(rv, chain, types, at, i) <==> RefusedBefore(rv, chain, rest, at, i - 1)
        {
          if RefusedBefore(rv, chain, rest, at, i - 1) {
            forall j | 0 <= j < i
              ensures ResolveIssuerKey(rv, chain, types[j], at).Fault?
                && !Stale(ResolveIssuerKey(rv, chain, types[j], at))
            {
              if j > 0 { assert types[j] == rest[j - 1]; }
            }
          }
          if RefusedBefore(rv, chain, types, at, i) {
            forall j | 0 <= j < i - 1
              ensures ResolveIssuerKey(rv, chain, rest[j], at).Fault?
                && !Stale(ResolveIssuerKey(rv, chain, rest[j], at))
            {
              assert rest[j] == types[j + 1];
            }
          }
        }
        if i :| (0 <= i < |rest| && ResolveIssuerKey(rv, chain, rest[i], at) == Ok(res)
                 && RefusedBefore(rv, chain, rest, at, i))
        {
          assert types[i + 1] == rest[i];
          assert RefusedBefore(rv, chain, types, at, i + 1);
        }
      }
    }
  }

  /** A lookup that verification must not rely on. The entry is marked stale upstream or its time is past; or
      there is none, and the record of the type's own sync cannot be read, is marked stale upstream, or its
      time has come. */
  predicate Outdated(cache: Cache, now: Time, t: AnchorType, country: string) {
    t in ALL_TYPES
    && match cache.anchorSet(t, country)
       case Present(entry) => entry.upstreamStale || now > entry.validUntil
       case Failed(_) => false
       case Missing => (
         match cache.freshness(t)
         case Present(fr) => fr.upstreamStale || now >= fr.validUntil
         case _ => true)
  }

  /** A lookup answers with anchors exactly when it is not outdated, it could be read, and every certificate
      parses; the anchors are those of the entry, one by one, under the type asked for, and none if the type
      was synced and the territory has no entry. */
  lemma AnchorsExactly(cache: Cache, now: Time, t: AnchorType, country: string, found: seq<Anchor>)
    ensures AnchorsOf(cache, now, t, country) == Ok(found) <==>
      && t in ALL_TYPES && !Outdated(cache, now, t, country)
      && match cache.anchorSet(t, country)
         case Missing => found == []
         case Failed(_) => false
         case Present(entry) =>
           && |found| == |entry.anchors|
           && forall k :: 0 <= k < |found| ==>
                && cache.parseCert(entry.anchors[k].certDER).None? && found[k].kind == t
                && found[k].certDER == entry.anchors[k].certDER && found[k].country == entry.anchors[k].territory
                && found[k].status == entry.anchors[k].status && found[k].validUntil == entry.anchors[k].validUntil
                && found[k].tlSequence == entry.anchors[k].tlSequence
                && found[k].useCases == entry.anchors[k].useCases
  {
    if t in ALL_TYPES && cache.anchorSet(t, country).Present? {
      var anchors := cache.anchorSet(t, country).value.anchors;
      CertsParse(cache, anchors);
      if |found| == |anchors| && forall k :: 0 <= k < |found| ==> found[k] == ToAnchor(anchors[k], t) {
        assert found == ToAnchors(anchors, t);
      }
    }
  }

  lemma {:induction false} CertsParse(cache: Cache, anchors: seq<CachedAnchor>)
    ensures FirstBadCert(cache, anchors).None? <==>
      forall k :: 0 <= k < |anchors| ==> cache.parseCert(anchors[k].certDER).None?
  {
    if anchors != [] {
      CertsParse(cache, anchors[1..]);
      assert forall k :: 0 < k < |anchors| ==> anchors[k] == anchors[1..][k - 1];
    }
  }

  /** The cache reader and the certificate parser have errors of their own. */
  ghost predicate CacheContract(cache: Cache) {
    && (forall t, country {:trigger cache.anchorSet(t, country)} ::
          cache.anchorSet(t, country).Failed? ==> !Is(cache.anchorSet(t, country).error, CacheExpired))
    && (forall der {:trigger cache.parseCert(der)} ::
          cache.parseCert(der).Some? ==> !Is(cache.parseCert(der).value, CacheExpired))
  }

  /** One cache lookup is stale exactly when it must fail closed, and then its error is the bare sentinel.
      Readiness grace plays no part. */
  lemma StaleLookupExactly(cache: Cache, now: Time, t: AnchorType, country: string)
    requires CacheContract(cache)
    ensures Stale(AnchorsOf(cache, now, t, country)) <==> Outdated(cache, now, t, country)
    ensures Stale(AnchorsOf(cache, now, t, country)) ==> AnchorsOf(cache, now, t, country) == Fault(EXPIRED)
  {
    if t in ALL_TYPES && cache.anchorSet(t, country).Present? {
      BadCertNotStale(cache, cache.anchorSet(t, country).value.anchors);
    }
  }

  lemma {:induction false} BadCertNotStale(cache: Cache, anchors: seq<CachedAnchor>)
    requires CacheContract(cache)
    ensures FirstBadCert(cache, anchors).Some? ==> !Is(FirstBadCert(cache, anchors).value, CacheExpired)
  {
    if anchors != [] {
      BadCertNotStale(cache, anchors[1..]);
    }
  }

  /** Issuer resolution end to end: a returned key is accredited for the use case its type is scoped to
      and came from a search in which no consulted lookup was stale; a stale lookup is answered
      with cache-expired, and nothing else is; an empty type list is untrusted. */
  lemma IssuerResolutionFailsClosed(
    rv: Resolver, trustMap: CredentialTrustMap, chain: seq<Bytes>, name: string, at: Time)
    requires MatchContract(rv)
    ensures var r := ResolveIssuerFor(rv, trustMap, chain, name, at);
      var qs := Consulted(rv, chain, trustMap.Issuance(name), at);
      && (r.Ok? ==> UseCaseAllowed(trustMap.UseCaseFor(name), r.value.issuer.useCases))
      && (r.Ok? ==> forall k :: 0 <= k < |qs| ==> !StaleLookup(rv, qs[k]))
      && (Stale(r) <==> exists k :: 0 <= k < |qs| && StaleLookup(rv, qs[k]))
      && (trustMap.Issuance(name) == [] ==> r.Fault? && Is(r.error, ChainUntrusted))
  {
    var types := trustMap.Issuance(name);
    StaleStopsTheSearch(rv, chain, types, at, None);
    ScopedErrors();
    if types == [] {
      assert ResolveByTypes(rv, chain, types, at) == Fault(NO_TYPES);
    }
  }

  /** Over anchors whose stale answers are bare, the search's are too. */
  lemma {:induction false} StaleAmongBare(
    rv: Resolver, chain: seq<Bytes>, t: AnchorType, at: Time, territories: seq<string>)
    requires MatchContract(rv) && BareWhenStale(rv)
    ensures Stale(ResolveAmong(rv, chain, t, at, territories)) ==>
      ResolveAmong(rv, chain, t, at, territories) == Fault(EXPIRED)
  {
    if territories != [] {
      StaleAmongBare(rv, chain, t, at, territories[1..]);
    }
  }

  ghost predicate BareWhenStale(rv: Resolver) {
    forall t, country {:trigger rv.anchors(t, country)} :: Stale(rv.anchors(t, country)) ==>
      rv.anchors(t, country) == Fault(EXPIRED)
  }

  lemma {:induction false} StaleIsBare(
    rv: Resolver, chain: seq<Bytes>, types: seq<AnchorType>, at: Time, last: Option<Err>)
    requires MatchContract(rv) && BareWhenStale(rv) && (last.Some? ==> !Is(last.value, CacheExpired))
    ensures Stale(ResolveAfter(rv, chain, types, at, last)) ==>
      ResolveAfter(rv, chain, types, at, last) == Fault(EXPIRED)
    decreases |types|
  {
    ScopedErrors();
    if types != [] {
      StaleAmongBare(rv, chain, types[0], at, rv.territoryOrder(chain));
      var r := ResolveIssuerKey(rv, chain, types[0], at);
      if r.Fault? && !Stale(r) {
        StaleIsBare(rv, chain, types[1..], at, Some(r.error));
      }
    }
  }

  /** Over the production cache, issuer resolution answers with a stale cache iff some lookup it consulted
      was degraded, or missing under a type whose own sync is not fresh; the answer is the bare sentinel. */
  lemma ProductionStaleExactly(
    cache: Cache, now: Time, order: seq<Bytes> -> seq<string>,
    matchChain: (seq<Anchor>, seq<Bytes>, Time) -> Result<Resolved, Err>,
    trustMap: CredentialTrustMap, chain: seq<Bytes>, name: string, at: Time)
    requires CacheContract(cache) && MatchContract(CacheResolver(cache, now, order, matchChain))
    ensures var rv := CacheResolver(cache, now, order, matchChain);
      var r := ResolveIssuerFor(rv, trustMap, chain, name, at);
      var qs := Consulted(rv, chain, trustMap.Issuance(name), at);
      && (Stale(r) <==> exists k :: 0 <= k < |qs| && Outdated(cache, now, qs[k].0, qs[k].1))
      && (Stale(r) ==> r == Fault(EXPIRED))
  {
    var rv := CacheResolver(cache, now, order, matchChain);
    var qs := Consulted(rv, chain, trustMap.Issuance(name), at);
    forall t, country
      ensures Stale(rv.anchors(t, country)) <==> Outdated(cache, now, t, country)
      ensures Stale(rv.anchors(t, country)) ==> rv.anchors(t, country) == Fault(EXPIRED)
    {
      StaleLookupExactly(cache, now, t, country);
    }
    IssuerResolutionFailsClosed(rv, trustMap, chain, name, at);
    StaleIsBare(rv, chain, trustMap.Issuance(name), at, None);
    assert forall k :: 0 <= k < |qs| ==> (StaleLookup(rv, qs[k]) <==> Outdated(cache, now, qs[k].0, qs[k].1));
  }

  lemma ScopedErrors()
    ensures Is(NO_TYPES, ChainUntrusted) && !Is(NO_TYPES, CacheExpired) && !Is(NOT_ACCREDITED, CacheExpired)
  {
  }
}
