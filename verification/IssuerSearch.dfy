/** What it means to resolve the issuer of a credential, or the signer of its status list, in terms of single
    lookups, path checks and accreditations. */
module IssuerSearch {
  import opened Wrappers
  import opened ErrClass
  import opened CredentialTrust
  import opened TrustResolution
  import opened PipelineTypes
  import opened Checks

  /** Of the territories of a chain, in their order, those before k have no anchors of this type, and k has
      some or answers with an error, or there is none left. */
  ghost predicate DecidedAt(rv: Resolver, chain: seq<Bytes>, t: AnchorType, k: nat) {
    var ts := rv.territoryOrder(chain);
    && k <= |ts|
    && (forall j :: 0 <= j < k ==> rv.anchors(t, ts[j]) == Ok([]))
    && (k < |ts| ==> rv.anchors(t, ts[k]) != Ok([]))
  }

  /** What territory k makes of the chain. */
  ghost function Decision(rv: Resolver, chain: seq<Bytes>, t: AnchorType, at: Time, k: nat): Result<Resolved, Err> {
    var ts := rv.territoryOrder(chain);
    if k >= |ts| then Fault(Of(ChainUntrusted, "trust: no anchor for chain"))
    else match rv.anchors(t, ts[k])
      case Fault(e) => Fault(e)
      case Ok(anchors) => rv.matchChain(anchors, chain, at)
  }

  lemma {:induction false} SkipsEmpty(
    rv: Resolver, chain: seq<Bytes>, t: AnchorType, at: Time, territories: seq<string>, k: nat)
    requires k <= |territories| && forall j :: 0 <= j < k ==> rv.anchors(t, territories[j]) == Ok([])
    ensures ResolveAmong(rv, chain, t, at, territories) == ResolveAmong(rv, chain, t, at, territories[k..])
  {
    if k > 0 {
      SkipsEmpty(rv, chain, t, at, territories[1..], k - 1);
      assert territories[1..][k - 1..] == territories[k..];
    } else {
      assert territories[0..] == territories;
    }
  }

  /** The first territory that is not empty decides, whatever it answers; none is tried after it. */
  lemma TerritoryDecides(rv: Resolver, chain: seq<Bytes>, t: AnchorType, at: Time, k: nat)
    requires DecidedAt(rv, chain, t, k)
    ensures ResolveIssuerKey(rv, chain, t, at) == Decision(rv, chain, t, at, k)
  {
    SkipsEmpty(rv, chain, t, at, rv.territoryOrder(chain), k);
  }

  lemma {:induction false} SomeDecides(rv: Resolver, chain: seq<Bytes>, t: AnchorType, n: nat) returns (k: nat)
    requires n <= |rv.territoryOrder(chain)|
    requires forall j :: 0 <= j < n ==> rv.anchors(t, rv.territoryOrder(chain)[j]) == Ok([])
    ensures DecidedAt(rv, chain, t, k)
    decreases |rv.territoryOrder(chain)| - n
  {
    var ts := rv.territoryOrder(chain);
    if n < |ts| && rv.anchors(t, ts[n]) == Ok([]) {
      k := SomeDecides(rv, chain, t, n + 1);
    } else {
      k := n;
    }
  }

  /** Some type of the list yields this issuer, and the deciding territory of every type before it refused
      the chain on a cache that was not stale. */
  ghost predicate FirstYields(rv: Resolver, chain: seq<Bytes>, types: seq<AnchorType>, at: Time, found: Resolved) {
    exists i :: 0 <= i < |types| && Yields(rv, chain, types[i], at, found) && RefusesAll(rv, chain, types[..i], at)
  }

  ghost predicate Yields(rv: Resolver, chain: seq<Bytes>, t: AnchorType, at: Time, found: Resolved) {
    exists k :: DecidedAt(rv, chain, t, k) && Decision(rv, chain, t, at, k) == Ok(found)
  }

  ghost predicate RefusesAll(rv: Resolver, chain: seq<Bytes>, types: seq<AnchorType>, at: Time) {
    forall j :: 0 <= j < |types| ==> Refuses(rv, chain, types[j], at)
  }

  ghost predicate Refuses(rv: Resolver, chain: seq<Bytes>, t: AnchorType, at: Time) {
    exists k :: DecidedAt(rv, chain, t, k)
      && Decision(rv, chain, t, at, k).Fault? && CacheExpired !in Carried(Decision(rv, chain, t, at, k).error)
  }

  /** An unscoped class asks for nothing; otherwise the use case is among those the issuer is accredited for. */
  ghost predicate Accredited(useCase: string, found: Resolved) {
    useCase == "" || exists k :: 0 <= k < |found.issuer.useCases| && found.issuer.useCases[k] == useCase
  }

  lemma TypeYields(rv: Resolver, chain: seq<Bytes>, t: AnchorType, at: Time, found: Resolved)
    ensures ResolveIssuerKey(rv, chain, t, at) == Ok(found) <==> Yields(rv, chain, t, at, found)
  {
    var k := SomeDecides(rv, chain, t, 0);
    TerritoryDecides(rv, chain, t, at, k);
    if Yields(rv, chain, t, at, found) {
      var n: nat :| DecidedAt(rv, chain, t, n) && Decision(rv, chain, t, at, n) == Ok(found);
      TerritoryDecides(rv, chain, t, at, n);
    }
  }

  lemma TypeRefuses(rv: Resolver, chain: seq<Bytes>, t: AnchorType, at: Time)
    ensures var r := ResolveIssuerKey(rv, chain, t, at); r.Fault? && !Stale(r) <==> Refuses(rv, chain, t, at)
  {
    var k := SomeDecides(rv, chain, t, 0);
    TerritoryDecides(rv, chain, t, at, k);
    var r := ResolveIssuerKey(rv, chain, t, at);
    if r.Fault? {
      IsCarried(r.error, CacheExpired);
    }
    if Refuses(rv, chain, t, at) {
      var n: nat :| DecidedAt(rv, chain, t, n) && Decision(rv, chain, t, at, n).Fault?
        && CacheExpired !in Carried(Decision(rv, chain, t, at, n).error);
      TerritoryDecides(rv, chain, t, at, n);
    }
  }

  lemma SearchYields(rv: Resolver, chain: seq<Bytes>, types: seq<AnchorType>, at: Time, found: Resolved)
    ensures ResolveByTypes(rv, chain, types, at) == Ok(found) <==> FirstYields(rv, chain, types, at, found)
  {
    FirstDecisiveType(rv, chain, types, at, None, found);
    forall i | 0 <= i < |types|
      ensures ResolveIssuerKey(rv, chain, types[i], at) == Ok(found) <==> Yields(rv, chain, types[i], at, found)
      ensures RefusedBefore(rv, chain, types, at, i) <==> RefusesAll(rv, chain, types[..i], at)
    {
      TypeYields(rv, chain, types[i], at, found);
      forall j | 0 <= j < i
        ensures var r := ResolveIssuerKey(rv, chain, types[j], at);
          r.Fault? && !Stale(r) <==> Refuses(rv, chain, types[..i][j], at)
      {
        TypeRefuses(rv, chain, types[j], at);
      }
    }
  }

  /** A credential's issuer is resolved to this key and issuer exactly when the types that may issue it yield
      them and the issuer is accredited for the use case its type is scoped to. */
  lemma ResolvesExactly(
    rv: Resolver, trustMap: CredentialTrustMap, chain: seq<Bytes>, name: string, at: Time, found: Resolved)
    ensures ResolveIssuerFor(rv, trustMap, chain, name, at) == Ok(found) <==>
      && FirstYields(rv, chain, trustMap.Issuance(name), at, found)
      && Accredited(trustMap.UseCaseFor(name), found)
  {
    SearchYields(rv, chain, trustMap.Issuance(name), at, found);
  }

  /** The signer of a status list is trusted with this key exactly when the status counterparts of those
      types, or then those types themselves, yield it now, whatever the validity model, and the signer is
      accredited for the same use case. */
  lemma SignerExactly(
    rv: Resolver, trustMap: CredentialTrustMap, now: Time, name: string, chain: seq<Bytes>, key: Key)
    ensures var issuance := trustMap.Issuance(name);
      StatusSigner(rv, trustMap, now, name)(chain) == Ok(key) <==>
        exists found :: && FirstYields(rv, chain, Counterparts(issuance) + issuance, now, found)
                        && Accredited(trustMap.UseCaseFor(name), found) && found.key == key
  {
    var types := Counterparts(trustMap.Issuance(name)) + trustMap.Issuance(name);
    var r := ResolveByTypes(rv, chain, types, now);
    if r.Ok? {
      SearchYields(rv, chain, types, now, r.value);
    }
    forall found | FirstYields(rv, chain, types, now, found) ensures r == Ok(found) {
      SearchYields(rv, chain, types, now, found);
    }
  }

  /** The counterparts keep the order of the types. */
  lemma {:induction false} CounterpartAt(ts: seq<AnchorType>, i: nat)
    requires i < |ts| && StatusType(ts[i]).Some?
    ensures var n := |Counterparts(ts[..i])|; n < |Counterparts(ts)| && Counterparts(ts)[n] == StatusType(ts[i]).value
    decreases |ts|
  {
    var m := |ts| - 1;
    if i < m {
      CounterpartAt(ts[..m], i);
      assert ts[..m][..i] == ts[..i];
    }
  }
}
