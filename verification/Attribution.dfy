/** Exactly when step 3 reports the service's own outage (a stale trust cache) instead of blaming the
    credential. */
module Attribution {
  import opened Wrappers
  import opened ErrClass
  import opened TrustResolution
  import opened PipelineTypes
  import opened Checks

  /** The error carries a malformed, integrity or binding sentinel, which the table looks at first. */
  predicate FormatFault(e: Err) {
    || Is(e, SdMalformed) || Is(e, MdMalformed)
    || Is(e, SdDigestMismatch) || Is(e, MdIntegrity) || Is(e, SdDuplicateDigest) || Is(e, SdClaimCollision)
    || Is(e, KBRequired) || Is(e, KBType) || Is(e, KBSignature) || Is(e, KBAudience) || Is(e, KBNonce)
    || Is(e, KBStale) || Is(e, KBSDHash) || Is(e, MissingCNF) || Is(e, MdDeviceAuth) || Is(e, MdDeviceMacUnsupported)
  }

  const OUTAGE: Code := Problem(OfTrust, AnchorUnavailable)

  predicate ReportsOutage(env: Env, c: CredV) {
    AuthOne(env, c).fail.Some? && AuthOne(env, c).fail.value.code == OUTAGE
  }

  /** The format libraries do not pass a trust sentinel on: go-mdoc formats the error of its issuer callback
      as text, and go-sdjwt is given a key that is already resolved. */
  ghost predicate HidesTrust(env: Env) {
    && (forall payload, t, answers: Answers {:trigger env.mdVerify(payload, t, answers)} ::
          env.mdVerify(payload, t, answers).Fault? ==> !Is(env.mdVerify(payload, t, answers).error, CacheExpired))
    && (forall input {:trigger env.sdVerify(input)} ::
          env.sdVerify(input).Fault? ==> !Is(env.sdVerify(input).error, CacheExpired))
  }

  lemma TableReportsOutage(e: Err)
    ensures ClassifyFormatError(e) == (IssuerAuthenticity, OUTAGE) <==> Is(e, CacheExpired) && !FormatFault(e)
    ensures ClassifyFormatError(e).1 == OUTAGE ==> ClassifyFormatError(e).0 == IssuerAuthenticity
  {
  }

  lemma OwnErrorsAreFaults()
    ensures FormatFault(SIGNING_TIME_DIFFERS) && !Is(SIGNING_TIME_DIFFERS, CacheExpired)
    ensures FormatFault(NOT_ONE_DOCUMENT) && !Is(NOT_ONE_DOCUMENT, CacheExpired)
  {
  }

  /** The error that step 3 attributes carries the stale-cache sentinel only if an SD-JWT's issuer
      resolution answered with it. */
  lemma StaleErrorExactly(env: Env, c: CredV)
    requires HidesTrust(env)
    ensures var err := VerifyFormat(env, c).1;
      err.Some? && Is(err.value, CacheExpired) <==> c.pres.format == SDJWT && Stale(SDIssuer(env, c))
    ensures c.pres.format == SDJWT && Stale(SDIssuer(env, c)) ==> VerifyFormat(env, c).1 == Some(SDIssuer(env, c).error)
  {
    OwnErrorsAreFaults();
  }

  /** Step 3 reports anchor-unavailable iff the credential is an SD-JWT whose issuer could not be resolved
      for a stale cache. An mdoc never makes it say so. */
  lemma OutageExactly(env: Env, c: CredV)
    requires HidesTrust(env)
    ensures ReportsOutage(env, c) <==>
      c.pres.format == SDJWT && Stale(SDIssuer(env, c)) && !FormatFault(SDIssuer(env, c).error)
  {
    StaleErrorExactly(env, c);
    var (c1, err) := VerifyFormat(env, c);
    if err.Some? {
      TableReportsOutage(err.value);
      OnlyAttributed(c1, err.value);
    }
  }

  /** The code of step 3's fail is the table's. */
  lemma OnlyAttributed(c: CredV, e: Err)
    ensures var f := Attribute(c, e).fail; var (step, code) := ClassifyFormatError(e);
      && (f.Some? <==> step == IssuerAuthenticity || step == Parse)
      && (f.Some? ==> f.value.code == code)
  {
  }

  /** With the production cache: iff the credential is an SD-JWT and some lookup of its issuer resolution
      was degraded, or missing under a type whose own sync is not fresh. */
  lemma ProductionOutageExactly(
    env: Env, c: CredV, cache: Cache, order: seq<Bytes> -> seq<string>,
    matchChain: (seq<Anchor>, seq<Bytes>, Time) -> Result<Resolved, Err>)
    requires HidesTrust(env) && CacheContract(cache) && MatchContract(env.resolver)
    requires env.resolver == CacheResolver(cache, env.now, order, matchChain)
    ensures var name := VctFromQuery(env.query, c.pres.queryCredID);
      var at := env.validity.PathValidationTime(ClaimedIAT(c), env.now);
      var qs := Consulted(env.resolver, c.x5c, env.trustMap.Issuance(name), at);
      ReportsOutage(env, c) <==>
        c.pres.format == SDJWT && exists k :: 0 <= k < |qs| && Outdated(cache, env.now, qs[k].0, qs[k].1)
  {
    var name := VctFromQuery(env.query, c.pres.queryCredID);
    var at := env.validity.PathValidationTime(ClaimedIAT(c), env.now);
    OutageExactly(env, c);
    ProductionStaleExactly(cache, env.now, order, matchChain, env.trustMap, c.x5c, name, at);
    assert SDIssuer(env, c) == ResolveIssuerFor(env.resolver, env.trustMap, c.x5c, name, at);
    BareOutage();
  }

  lemma BareOutage()
    ensures !FormatFault(EXPIRED)
  {
  }
}
