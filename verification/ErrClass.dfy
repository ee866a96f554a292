/** internal/pipeline/errclass.go, errmap.go and check_response_integrity.go: the typed errors of
    the libraries, wrapped to any depth, and the tables that turn them into a step and a code. */
module ErrClass {
  import opened Wrappers

  /** The error sentinels the tables name. */
  datatype Sentinel =
    | SdMalformed | MdMalformed
    | SdDigestMismatch | MdIntegrity | SdDuplicateDigest | SdClaimCollision
    | KBRequired | KBType | KBSignature | KBAudience | KBNonce | KBStale | KBSDHash | MissingCNF
    | MdDeviceAuth | MdDeviceMacUnsupported
    | CacheExpired
    | SdExpired | MdValidity | SdNotYetValid
    | ChainOutOfValidity | MdIssuerCertValidity
    | ChainUntrusted | UnknownAnchorType
    | StateMismatch | SessionConsumed | SessionNotFound
    | OtherSentinel(id: nat)

  /** A Go error: a sentinel, the wallet's own typed error, an untyped error, or errors wrapped with
      %w (Wrap), several %w (Join), or %v (Plain: the inner sentinel does not survive). */
  datatype Err =
    | Of(sentinel: Sentinel, text: string)
    | WalletError(code: string, description: string, text: string)
    | Plain(text: string)
    | Wrap(inner: Err, text: string)
    | Join(left: Err, right: Err, text: string)

  /** errors.Is */
  predicate Is(e: Err, s: Sentinel) {
    match e
    case Of(t, _) => t == s
    case WalletError(_, _, _) => false
    case Plain(_) => false
    case Wrap(inner, _) => Is(inner, s)
    case Join(l, r, _) => Is(l, s) || Is(r, s)
  }

  /** errors.As for *oid4vp.WalletError: the first one met. */
  function AsWalletError(e: Err): Option<Err> {
    match e
    case Of(_, _) => None
    case WalletError(_, _, _) => Some(e)
    case Plain(_) => None
    case Wrap(inner, _) => AsWalletError(inner)
    case Join(l, r, _) => if AsWalletError(l).Some? then AsWalletError(l) else AsWalletError(r)
  }

  /** The check names of specrefs.go. Stub names any other check a caller installs. */
  datatype CheckName =
    | ResponseIntegrity | Parse | IssuerAuthenticity | DataIntegrity | Revocation
    | DeviceBinding | UserBinding | QueryFulfilment | CombinedChecks | AssembleForward
    | StubName(title: string)

  datatype Domain = OfCredential | OfPresentation | OfSession | OfTrust | OfRevocation | OfPipeline

  datatype Reason =
    | NotFound | Expired | Revoked | Forbidden | Conflict | Invalid
    | Consumed | InvalidResponse | NonceMismatch | QueryUnfulfilled | CombinedCheck | ParseFailed
    | IssuerUntrusted | IssuerCertExpired | WalletDeclined | Integrity | BindingFailed
    | Unavailable | AnchorUnavailable | HandoffFailed | Internal

  /** err:domain:reason on a fail, a note on a skip. */
  datatype Code = NoCode | Problem(domain: Domain, reason: Reason) | Note(text: string)

  /** classifyFormatError: the step that owns a verification error, and its code. */
  function ClassifyFormatError(e: Err): (CheckName, Code) {
    if Is(e, SdMalformed) || Is(e, MdMalformed) then
      (Parse, Problem(OfCredential, ParseFailed))
    else if Is(e, SdDigestMismatch) || Is(e, MdIntegrity) || Is(e, SdDuplicateDigest) || Is(e, SdClaimCollision) then
      (DataIntegrity, Problem(OfCredential, Integrity))
    else if Is(e, KBRequired) || Is(e, KBType) || Is(e, KBSignature) || Is(e, KBAudience) || Is(e, KBNonce)
      || Is(e, KBStale) || Is(e, KBSDHash) || Is(e, MissingCNF) || Is(e, MdDeviceAuth)
      || Is(e, MdDeviceMacUnsupported) then
      (DeviceBinding, Problem(OfCredential, BindingFailed))
    else if Is(e, CacheExpired) then
      (IssuerAuthenticity, Problem(OfTrust, AnchorUnavailable))
    else if Is(e, SdExpired) || Is(e, MdValidity) || Is(e, SdNotYetValid) then
      (IssuerAuthenticity, Problem(OfCredential, Expired))
    else if Is(e, ChainOutOfValidity) || Is(e, MdIssuerCertValidity) then
      (IssuerAuthenticity, Problem(OfCredential, IssuerCertExpired))
    else
      (IssuerAuthenticity, Problem(OfCredential, IssuerUntrusted))
  }

  /** classifyOID4VP: the code of a step 1 failure. */
  function ClassifyOID4VP(e: Err): Code {
    if AsWalletError(e).Some? then Problem(OfPresentation, WalletDeclined)
    else if Is(e, StateMismatch) then Problem(OfPresentation, NonceMismatch)
    else if Is(e, SessionConsumed) then Problem(OfSession, Consumed)
    else Problem(OfPresentation, InvalidResponse)
  }

  /** CodeForError: the code of an error a check returns instead of a verdict. */
  function CodeForError(e: Err): Code {
    if Is(e, SessionNotFound) then Problem(OfSession, NotFound)
    else if Is(e, SessionConsumed) then Problem(OfSession, Consumed)
    else if Is(e, CacheExpired) then Problem(OfTrust, AnchorUnavailable)
    else Problem(OfPipeline, Internal)
  }

  /** The sentinels an error carries anywhere under its wrapping. */
  ghost function Carried(e: Err): set<Sentinel> {
    match e
    case Of(t, _) => {t}
    case WalletError(_, _, _) => {}
    case Plain(_) => {}
    case Wrap(inner, _) => Carried(inner)
    case Join(l, r, _) => Carried(l) + Carried(r)
  }

  /** e under one %w wrapping per text, the last text outermost. */
  function WrapAll(e: Err, texts: seq<string>): Err {
    if texts == [] then e else Wrap(WrapAll(e, texts[..|texts| - 1]), texts[|texts| - 1])
  }

  lemma {:induction false} IsCarried(e: Err, s: Sentinel)
    ensures Is(e, s) <==> s in Carried(e)
  {
    match e
    case Wrap(inner, _) => IsCarried(inner, s);
    case Join(l, r, _) => IsCarried(l, s); IsCarried(r, s);
    case _ =>
  }

  lemma {:induction false} WrapAllCarries(e: Err, texts: seq<string>)
    ensures Carried(WrapAll(e, texts)) == Carried(e)
    ensures AsWalletError(WrapAll(e, texts)) == AsWalletError(e)
  {
    if texts != [] {
      WrapAllCarries(e, texts[..|texts| - 1]);
    }
  }

  lemma SameSentinels(e: Err, d: Err)
    requires Carried(e) == Carried(d)
    ensures forall s {:trigger Is(e, s)} {:trigger Is(d, s)} :: Is(e, s) == Is(d, s)
  {
    forall s ensures Is(e, s) == Is(d, s) {
      IsCarried(e, s);
      IsCarried(d, s);
    }
  }

  lemma FormatByCarried(e: Err, d: Err)
    requires Carried(e) == Carried(d)
    ensures ClassifyFormatError(e) == ClassifyFormatError(d)
  {
    SameSentinels(e, d);
  }

  /** Every table reads only which sentinels an error carries, never how it is wrapped or worded. */
  lemma ClassifiedByCarried(e: Err, d: Err)
    requires Carried(e) == Carried(d)
    ensures ClassifyFormatError(e) == ClassifyFormatError(d)
    ensures CodeForError(e) == CodeForError(d)
    ensures AsWalletError(e).Some? == AsWalletError(d).Some? ==> ClassifyOID4VP(e) == ClassifyOID4VP(d)
  {
    FormatByCarried(e, d);
    SameSentinels(e, d);
  }

  /** Wrapping an error to any depth changes neither its step nor its code. */
  lemma WrappingKeepsClass(e: Err, texts: seq<string>)
    ensures ClassifyFormatError(WrapAll(e, texts)) == ClassifyFormatError(e)
    ensures ClassifyOID4VP(WrapAll(e, texts)) == ClassifyOID4VP(e)
    ensures CodeForError(WrapAll(e, texts)) == CodeForError(e)
  {
    WrapAllCarries(e, texts);
    ClassifiedByCarried(WrapAll(e, texts), e);
  }

  // ---- the tables, by the sentinels an error carries ----

  const MALFORMED: set<Sentinel> := {SdMalformed, MdMalformed}

  const TAMPERED: set<Sentinel> := {SdDigestMismatch, MdIntegrity, SdDuplicateDigest, SdClaimCollision}

  const UNBOUND: set<Sentinel> := {
    KBRequired, KBType, KBSignature, KBAudience, KBNonce, KBStale, KBSDHash, MissingCNF, MdDeviceAuth,
    MdDeviceMacUnsupported }

  const OUT_OF_DATE: set<Sentinel> := {SdExpired, MdValidity, SdNotYetValid}

  const CERT_OUT_OF_DATE: set<Sentinel> := {ChainOutOfValidity, MdIssuerCertValidity}

  ghost predicate Carries(e: Err, ss: set<Sentinel>) {
    exists s :: s in ss && s in Carried(e)
  }

  /** A verification error belongs to the first of these groups that it carries a sentinel of. */
  ghost function OwnerOf(e: Err): (CheckName, Code) {
    if Carries(e, MALFORMED) then (Parse, Problem(OfCredential, ParseFailed))
    else if Carries(e, TAMPERED) then (DataIntegrity, Problem(OfCredential, Integrity))
    else if Carries(e, UNBOUND) then (DeviceBinding, Problem(OfCredential, BindingFailed))
    else (IssuerAuthenticity,
          if CacheExpired in Carried(e) then Problem(OfTrust, AnchorUnavailable)
          else if Carries(e, OUT_OF_DATE) then Problem(OfCredential, Expired)
          else if Carries(e, CERT_OUT_OF_DATE) then Problem(OfCredential, IssuerCertExpired)
          else Problem(OfCredential, IssuerUntrusted))
  }

  lemma CarriesOne(e: Err, s: Sentinel)
    ensures Carries(e, {s}) <==> Is(e, s)
  {
    IsCarried(e, s);
  }

  lemma CarriesEither(e: Err, a: set<Sentinel>, b: set<Sentinel>)
    ensures Carries(e, a + b) <==> Carries(e, a) || Carries(e, b)
  {
  }

  lemma OneOfTwo(e: Err, a: Sentinel, b: Sentinel)
    ensures Carries(e, {a, b}) <==> Is(e, a) || Is(e, b)
  {
    CarriesOne(e, a);
    CarriesOne(e, b);
    CarriesEither(e, {a}, {b});
    assert {a, b} == {a} + {b};
  }

  lemma CarriesTampered(e: Err)
    ensures Carries(e, TAMPERED) <==>
      Is(e, SdDigestMismatch) || Is(e, MdIntegrity) || Is(e, SdDuplicateDigest) || Is(e, SdClaimCollision)
  {
    OneOfTwo(e, SdDigestMismatch, MdIntegrity);
    OneOfTwo(e, SdDuplicateDigest, SdClaimCollision);
    CarriesEither(e, {SdDigestMismatch, MdIntegrity}, {SdDuplicateDigest, SdClaimCollision});
    assert TAMPERED == {SdDigestMismatch, MdIntegrity} + {SdDuplicateDigest, SdClaimCollision};
  }

  const UNBOUND_KB: set<Sentinel> := {KBRequired, KBType, KBSignature, KBAudience}

  const UNBOUND_MORE: set<Sentinel> := {KBNonce, KBStale, KBSDHash, MissingCNF}

  const UNBOUND_MD: set<Sentinel> := {MdDeviceAuth, MdDeviceMacUnsupported}

  lemma OneOfFour(e: Err, a: Sentinel, b: Sentinel, c: Sentinel, d: Sentinel)
    ensures Carries(e, {a, b, c, d}) <==> Is(e, a) || Is(e, b) || Is(e, c) || Is(e, d)
  {
    OneOfTwo(e, a, b);
    OneOfTwo(e, c, d);
    CarriesEither(e, {a, b}, {c, d});
    assert {a, b, c, d} == {a, b} + {c, d};
  }

  lemma CarriesUnbound(e: Err)
    ensures Carries(e, UNBOUND) <==>
      || Is(e, KBRequired) || Is(e, KBType) || Is(e, KBSignature) || Is(e, KBAudience)
      || Is(e, KBNonce) || Is(e, KBStale) || Is(e, KBSDHash) || Is(e, MissingCNF)
      || Is(e, MdDeviceAuth) || Is(e, MdDeviceMacUnsupported)
  {
    OneOfFour(e, KBRequired, KBType, KBSignature, KBAudience);
    OneOfFour(e, KBNonce, KBStale, KBSDHash, MissingCNF);
    OneOfTwo(e, MdDeviceAuth, MdDeviceMacUnsupported);
    CarriesEither(e, UNBOUND_KB, UNBOUND_MORE);
    CarriesEither(e, UNBOUND_KB + UNBOUND_MORE, UNBOUND_MD);
    assert UNBOUND == UNBOUND_KB + UNBOUND_MORE + UNBOUND_MD;
  }

  lemma CarriesOutOfDate(e: Err)
    ensures Carries(e, OUT_OF_DATE) <==> Is(e, SdExpired) || Is(e, MdValidity) || Is(e, SdNotYetValid)
  {
    OneOfTwo(e, SdExpired, MdValidity);
    CarriesOne(e, SdNotYetValid);
    CarriesEither(e, {SdExpired, MdValidity}, {SdNotYetValid});
    assert OUT_OF_DATE == {SdExpired, MdValidity} + {SdNotYetValid};
  }

  lemma OwnerExactly(e: Err)
    ensures ClassifyFormatError(e) == OwnerOf(e)
  {
    OneOfTwo(e, SdMalformed, MdMalformed);
    CarriesTampered(e);
    CarriesUnbound(e);
    IsCarried(e, CacheExpired);
    CarriesOutOfDate(e);
    OneOfTwo(e, ChainOutOfValidity, MdIssuerCertValidity);
  }

  /** The code of a step 1 failure: a wallet error first, then a state mismatch, then a session used before. */
  lemma ResponseCodeExactly(e: Err)
    ensures ClassifyOID4VP(e) ==
      if AsWalletError(e).Some? then Problem(OfPresentation, WalletDeclined)
      else if StateMismatch in Carried(e) then Problem(OfPresentation, NonceMismatch)
      else if SessionConsumed in Carried(e) then Problem(OfSession, Consumed)
      else Problem(OfPresentation, InvalidResponse)
  {
    IsCarried(e, StateMismatch);
    IsCarried(e, SessionConsumed);
  }

  /** The code of an error that a check returns instead of a verdict. */
  ghost function FaultCode(e: Err): Code {
    if SessionNotFound in Carried(e) then Problem(OfSession, NotFound)
    else if SessionConsumed in Carried(e) then Problem(OfSession, Consumed)
    else if CacheExpired in Carried(e) then Problem(OfTrust, AnchorUnavailable)
    else Problem(OfPipeline, Internal)
  }

  lemma FaultCodeExactly(e: Err)
    ensures CodeForError(e) == FaultCode(e)
  {
    IsCarried(e, SessionNotFound);
    IsCarried(e, SessionConsumed);
    IsCarried(e, CacheExpired);
  }

  /** The wallet's own error is found iff one lies anywhere under the wrapping. */
  ghost predicate HasWalletError(e: Err) {
    match e
    case Of(_, _) => false
    case WalletError(_, _, _) => true
    case Plain(_) => false
    case Wrap(inner, _) => HasWalletError(inner)
    case Join(l, r, _) => HasWalletError(l) || HasWalletError(r)
  }

  /** The error w lies somewhere under the wrapping of e. */
  ghost predicate Within(w: Err, e: Err) {
    w == e
    || match e
       case Wrap(inner, _) => Within(w, inner)
       case Join(l, r, _) => Within(w, l) || Within(w, r)
       case _ => false
  }

  lemma {:induction false} WalletErrorFound(e: Err)
    ensures AsWalletError(e).Some? <==> HasWalletError(e)
    ensures AsWalletError(e).Some? ==> AsWalletError(e).value.WalletError? && Within(AsWalletError(e).value, e)
  {
    match e
    case Wrap(inner, _) => WalletErrorFound(inner);
    case Join(l, r, _) => WalletErrorFound(l); WalletErrorFound(r);
    case _ =>
  }
}
