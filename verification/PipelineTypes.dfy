/** The values the ten checks pass along: presentations, credentials, verdicts, and the libraries they call. */
module PipelineTypes {
  import opened Wrappers
  import opened ErrClass
  import opened CredentialTrust
  import opened TrustResolution

  datatype Outcome = Unset | Pass | Fail | Skipped

  datatype CheckResult = CheckResult(
    check: Option<CheckName>, outcome: Outcome, code: Code, specRef: string, detail: string, statusListURI: string)

  function Row(outcome: Outcome, code: Code, detail: string): CheckResult {
    CheckResult(None, outcome, code, "", detail, "")
  }

  const PASSED: CheckResult := Row(Pass, NoCode, "")

  /** safeDetail */
  function SafeDetail(e: Err): string {
    e.text[..Min(|e.text|, 200)]
  }

  /** SpecRefs; a name that is not in the table reads as the empty string. */
  function SpecRefOf(name: CheckName): string {
    match name
    case ResponseIntegrity => "OID4VP 8.2"
    case Parse => "ISO/IEC 18013-5 8.3 / IETF SD-JWT VC"
    case IssuerAuthenticity => "ARF 6.6.3.6"
    case DataIntegrity => "ISO/IEC 18013-5 9.1.2 / SD-JWT"
    case Revocation => "ARF 6.6.3.7"
    case DeviceBinding => "ARF 6.6.3.8"
    case UserBinding => "ARF 6.6.3.9"
    case QueryFulfilment => "OID4VP 6"
    case CombinedChecks => "ARF Topic 18"
    case AssembleForward => "ARF AS-RP-51-008/011/013"
    case StubName(_) => ""
  }

  /** internal/policy/policy.go: an absent choice is the fail-closed default. */
  datatype ClientPolicy = ClientPolicy(
    revocationFailClosedP: Option<bool>, shortLivedExemptionP: Option<bool>,
    requireDeviceBindingSDJWTP: Option<bool>)
  {
    predicate RevocationFailClosed() { revocationFailClosedP.None? || revocationFailClosedP.value }
    predicate ShortLivedExemption() { shortLivedExemptionP.None? || shortLivedExemptionP.value }
    predicate RequireDeviceBindingSDJWT() { requireDeviceBindingSDJWTP.None? || requireDeviceBindingSDJWTP.value }
  }

  /** internal/pipeline/issuervalidity.go; any string other than these two is possible in a bare value. */
  datatype IssuerValidityModel = AtSigningTime | AtCurrentTime | OtherModel(name: string)
  {
    function PathValidationTime(signed: Time, now: Time): Time {
      if this == AtSigningTime && signed != ZERO_TIME then signed else now
    }

    predicate SigningTimeUsed(signed: Time) {
      this == AtSigningTime && signed != ZERO_TIME
    }
  }

  datatype Format = SDJWT | Mdoc | OtherFormat(name: string)

  datatype Presentation = Presentation(
    queryCredID: string, format: Format, payload: Bytes,
    clientID: string, nonce: string, jwkThumbprint: Bytes, responseURI: string)

  /** A claim value: a nested map, or anything else. */
  datatype Node = Leaf(value: int) | Sub(members: map<string, Node>)

  datatype StatusRef = StatusRef(uri: string, index: int)

  datatype SDVerified = SDVerified(
    vct: string, issuedAt: Time, notBefore: Time, expiry: Time,
    status: Option<StatusRef>, decoyDigests: nat, claims: map<string, Node>)

  datatype MDVerified = MDVerified(
    docType: string, namespaces: map<string, map<string, Node>>, status: Option<StatusRef>,
    validFrom: Time, validUntil: Time)

  datatype Status =
    | StatusValid | StatusRevoked | StatusSuspended | StatusUnknown | StatusSkippedShortLived | OtherStatus(n: int)

  /** Provenance outcomes of the status checker. */
  datatype Provenance = SkippedByLifetime | SkippedFailOpen | OtherProvenance(text: string)

  function ProvenanceText(p: Provenance): string {
    match p
    case SkippedByLifetime => "skipped-short-lived"
    case SkippedFailOpen => "skipped-fail-open"
    case OtherProvenance(text) => text
  }

  /** The state of one credential (the value of a Credential object). */
  datatype CredV = CredV(
    pres: Presentation, x5c: seq<Bytes>, iat: Option<Time>,
    sd: Option<SDVerified>, md: Option<MDVerified>, issuer: Option<Resolved>,
    deferred: Option<(CheckName, Err)>,
    statusResult: Status, statusProvenance: string,
    holderBound: bool, deviceBinding: Outcome)
  {
    /** Claims */
    function Claims(): map<string, Node> {
      if sd.Some? then sd.value.claims
      else if md.Some? then map ns | ns in md.value.namespaces :: Sub(md.value.namespaces[ns])
      else map[]
    }

    function DoctypeOrVCT(): string {
      if sd.Some? then sd.value.vct else if md.Some? then md.value.docType else ""
    }
  }

  /** The credential Parse starts from; zeroStatus is the status library's zero value. */
  function NewCred(pres: Presentation, zeroStatus: Status): CredV {
    CredV(pres, [], None, None, None, None, None, zeroStatus, "", false, Unset)
  }

  // ---- erasure, on values ----

  function Zeros(n: nat): Bytes {
    seq(n, _ => 0)
  }

  function ErasePres(p: Presentation): Presentation {
    p.(payload := Zeros(|p.payload|))
  }

  /** A credential after Zero: the payload is zero, every claim map it holds is empty. */
  function EraseCred(c: CredV): CredV {
    c.(pres := ErasePres(c.pres),
       sd := if c.sd.Some? then Some(c.sd.value.(claims := map[])) else None,
       md :=
         if c.md.Some? then Some(c.md.value.(namespaces := map ns | ns in c.md.value.namespaces :: map[])) else None)
  }

  datatype QueryMeta = QueryMeta(vctValues: seq<string>, doctypeValue: string)

  datatype CredentialQuery = CredentialQuery(id: string, meta: Option<QueryMeta>, holderBindingRequired: bool)

  datatype Peeked = Peeked(x5c: seq<Bytes>, iat: Option<Time>)

  datatype SDInput = SDInput(
    presentation: Bytes, issuerKey: Key, expectedAud: string, expectedNonce: string, requireKB: bool)

  /** What the issuer callback of mdoc verification answered, call by call. */
  type Answers = seq<Result<Resolved, Err>>

  datatype Transcript =
    | DCAPIHandover(origin: string, dcNonce: string, dcThumbprint: Bytes)
    | Handover(clientID: string, nonce: string, thumbprint: Bytes, responseURI: string)

  /** signer is the callback that turns the signer chain of a status list token into a trusted key. */
  datatype StatusInput = StatusInput(
    ref: StatusRef, signer: seq<Bytes> -> Result<Key, Err>, allowFailOpen: bool, validity: int)

  datatype StatusAnswer = StatusAnswer(status: Status, provenance: Provenance, err: Option<Err>)

  datatype Candidate = Candidate(
    queryCredID: string, format: Format, doctypeOrVCT: string, claims: map<string, Node>, holderBound: bool)

  datatype MatchResult = MatchResult(satisfied: bool, unmet: seq<string>)

  /** What the wiring of one run supplies. The libraries are functions of what the code hands them:
      a run's answers depend on the credential and on this fixed context, nothing else. */
  datatype Env = Env(
    policy: ClientPolicy, query: seq<CredentialQuery>, dcapi: bool, origin: string, rawBody: Bytes,
    validity: IssuerValidityModel, trustMap: CredentialTrustMap, resolver: Resolver, now: Time, zeroStatus: Status,
    processResponse: Bytes -> Result<(seq<Presentation>, string), Err>,
    processDCAPI: (string, Bytes) -> Result<seq<Presentation>, Err>,
    peek: Bytes -> Result<Peeked, Err>,
    decodeDeviceResponse: Bytes -> Option<Err>,
    sdVerify: SDInput -> Result<SDVerified, Err>,
    // the chain and claimed signing time that mdoc verification next hands its issuer callback, given what
    // the callback answered so far, and how often it can ask about one response
    mdAsk: (Bytes, Answers) -> Option<(seq<Bytes>, Time)>,
    mdCalls: Bytes -> nat,
    mdVerify: (Bytes, Transcript, Answers) -> Result<seq<MDVerified>, Err>,
    checkStatus: StatusInput -> StatusAnswer,
    matchQuery: seq<Candidate> -> MatchResult,
    deliverFault: Option<Err>, saveFault: Option<Err>, deleteFault: Option<Err>)
}
