/** Steps 1 to 10 as functions of values: what each check does to one credential, and to the list. */
module Checks {
  import opened Wrappers
  import opened ErrClass
  import opened CredentialTrust
  import opened TrustResolution
  import opened PipelineTypes

  /** What a check does to one credential: its new state, the fail that stops the run, and whether the
      credential was skipped. */
  datatype One = One(cred: CredV, fail: Option<CheckResult>, skipped: bool)

  function Fine(c: CredV): One { One(c, None, false) }

  // ---- step 2 ----

  function FailParse(queryCredID: string, e: Err): CheckResult {
    Row(Fail, Problem(OfCredential, ParseFailed), "credential " + queryCredID + ": " + SafeDetail(e))
  }

  function ParseOne(env: Env, c: CredV): One {
    match c.pres.format
    case SDJWT => (
      match env.peek(c.pres.payload)
      case Fault(e) => One(c, Some(FailParse(c.pres.queryCredID, e)), false)
      case Ok(p) => Fine(c.(x5c := p.x5c, iat := p.iat)))
    case Mdoc => (
      match env.decodeDeviceResponse(c.pres.payload)
      case Some(e) => One(c, Some(FailParse(c.pres.queryCredID, e)), false)
      case None => Fine(c))
    case OtherFormat(name) =>
      One(c, Some(FailParse(c.pres.queryCredID, Plain("unsupported format " + name))), false)
  }

  // ---- step 3 ----

  function VctFromQuery(qs: seq<CredentialQuery>, id: string): string {
    if qs == [] then ""
    else if qs[0].id == id && qs[0].meta.Some? && |qs[0].meta.value.vctValues| > 0 then qs[0].meta.value.vctValues[0]
    else VctFromQuery(qs[1..], id)
  }

  function DoctypeFromQuery(qs: seq<CredentialQuery>, id: string): string {
    if qs == [] then ""
    else if qs[0].id == id && qs[0].meta.Some? then qs[0].meta.value.doctypeValue
    else DoctypeFromQuery(qs[1..], id)
  }

  predicate QueryRequiresBinding(qs: seq<CredentialQuery>, id: string) {
    if qs == [] then true
    else if qs[0].id == id then qs[0].holderBindingRequired
    else QueryRequiresBinding(qs[1..], id)
  }

  predicate NamesVct(q: CredentialQuery, id: string) {
    q.id == id && q.meta.Some? && |q.meta.value.vctValues| > 0
  }

  predicate NamesDoctype(q: CredentialQuery, id: string) {
    q.id == id && q.meta.Some?
  }

  /** The first entry of this id that names a type decides it; if there is none (k is past the end), there
      is no type. */
  lemma {:induction false} VctOfFirst(qs: seq<CredentialQuery>, id: string, k: nat)
    requires k <= |qs| && (k < |qs| ==> NamesVct(qs[k], id)) && forall j :: 0 <= j < k ==> !NamesVct(qs[j], id)
    ensures VctFromQuery(qs, id) == if k < |qs| then qs[k].meta.value.vctValues[0] else ""
  {
    if k > 0 {
      VctOfFirst(qs[1..], id, k - 1);
    }
  }

  lemma {:induction false} DoctypeOfFirst(qs: seq<CredentialQuery>, id: string, k: nat)
    requires k <= |qs| && (k < |qs| ==> NamesDoctype(qs[k], id)) && forall j :: 0 <= j < k ==> !NamesDoctype(qs[j], id)
    ensures DoctypeFromQuery(qs, id) == if k < |qs| then qs[k].meta.value.doctypeValue else ""
  {
    if k > 0 {
      DoctypeOfFirst(qs[1..], id, k - 1);
    }
  }

  /** The first entry of this id decides whether binding is required; without one, it is. */
  lemma {:induction false} BindingOfFirst(qs: seq<CredentialQuery>, id: string, k: nat)
    requires k <= |qs| && (k < |qs| ==> qs[k].id == id) && forall j :: 0 <= j < k ==> qs[j].id != id
    ensures QueryRequiresBinding(qs, id) == (k < |qs| ==> qs[k].holderBindingRequired)
  {
    if k > 0 {
      BindingOfFirst(qs[1..], id, k - 1);
    }
  }

  predicate BindingRequired(env: Env, c: CredV) {
    env.policy.RequireDeviceBindingSDJWT() && QueryRequiresBinding(env.query, c.pres.queryCredID)
  }

  function ExpectedKBAudience(env: Env, c: CredV): string {
    if env.origin != "" then "origin:" + env.origin else c.pres.clientID
  }

  function ClaimedIAT(c: CredV): Time {
    if c.iat.Some? then c.iat.value else ZERO_TIME
  }

  function SDInputFor(env: Env, c: CredV, key: Key): SDInput {
    SDInput(c.pres.payload, key, ExpectedKBAudience(env, c), c.pres.nonce, BindingRequired(env, c))
  }

  function SDIssuer(env: Env, c: CredV): Result<Resolved, Err> {
    ResolveIssuerFor(env.resolver, env.trustMap, c.x5c, VctFromQuery(env.query, c.pres.queryCredID),
                     env.validity.PathValidationTime(ClaimedIAT(c), env.now))
  }

  const SIGNING_TIME_DIFFERS: Err :=
    Wrap(Of(SdMalformed, "sdjwt: malformed"), "signing time differs between the presented and the verified credential")

  /** verifySDJWT: the credential as it is left, and the error if any. */
  function VerifySDJWT(env: Env, c: CredV): (CredV, Option<Err>) {
    match SDIssuer(env, c)
    case Fault(e) => (c, Some(e))
    case Ok(issuer) => TakeVerified(env, c.(issuer := Some(issuer)), env.sdVerify(SDInputFor(env, c, issuer.key)))
  }

  /** What the library answered, taken over unless the signing time differs from the presented one. */
  function TakeVerified(env: Env, c: CredV, answer: Result<SDVerified, Err>): (CredV, Option<Err>) {
    match answer
    case Fault(e) => (c, Some(e))
    case Ok(vc) =>
      if env.validity.SigningTimeUsed(ClaimedIAT(c)) && vc.issuedAt != ClaimedIAT(c) then
        (c, Some(SIGNING_TIME_DIFFERS))
      else (c.(sd := Some(vc)), None)
  }

  function TranscriptFor(env: Env, c: CredV): Transcript {
    if env.origin != "" then DCAPIHandover(env.origin, c.pres.nonce, c.pres.jwkThumbprint)
    else Handover(c.pres.clientID, c.pres.nonce, c.pres.jwkThumbprint, c.pres.responseURI)
  }

  /** issuerTrust.ResolveIssuerKey: the callback that turns the chain and the claimed signing time of an mdoc
      into a trusted key. */
  function IssuerCallback(
    rv: Resolver, trustMap: CredentialTrustMap, validity: IssuerValidityModel, now: Time, name: string)
    : ((seq<Bytes>, Time)) -> Result<Resolved, Err>
  {
    (q: (seq<Bytes>, Time)) => ResolveIssuerFor(rv, trustMap, q.0, name, validity.PathValidationTime(q.1, now))
  }

  function MDResolver(env: Env, c: CredV): ((seq<Bytes>, Time)) -> Result<Resolved, Err> {
    IssuerCallback(env.resolver, env.trustMap, env.validity, env.now, DoctypeFromQuery(env.query, c.pres.queryCredID))
  }

  /** Every answer of the callback, which go-mdoc may call once for each document of a response. */
  function Callbacks(
    ask: (Bytes, Answers) -> Option<(seq<Bytes>, Time)>, resolve: ((seq<Bytes>, Time)) -> Result<Resolved, Err>,
    payload: Bytes, left: nat, answers: Answers): Answers
    decreases left
  {
    if left == 0 then answers
    else match ask(payload, answers)
      case None => answers
      case Some(q) => Callbacks(ask, resolve, payload, left - 1, answers + [resolve(q)])
  }

  function MDAnswers(env: Env, c: CredV): Answers {
    Callbacks(env.mdAsk, MDResolver(env, c), c.pres.payload, env.mdCalls(c.pres.payload), [])
  }

  /** The issuer the callback recorded last. */
  function LastResolved(answers: Answers, before: Option<Resolved>): Option<Resolved> {
    if answers == [] then before
    else match answers[|answers| - 1]
      case Ok(r) => Some(r)
      case Fault(_) => LastResolved(answers[..|answers| - 1], before)
  }

  const NOT_ONE_DOCUMENT: Err := Wrap(Of(MdMalformed, "mdoc: malformed"), "expected 1 document")

  /** verifyMdoc */
  function VerifyMdoc(env: Env, c: CredV): (CredV, Option<Err>) {
    var answers := MDAnswers(env, c);
    var c1 := c.(issuer := LastResolved(answers, c.issuer));
    match env.mdVerify(c.pres.payload, TranscriptFor(env, c), answers)
    case Fault(e) => (c1, Some(e))
    case Ok(docs) => if |docs| != 1 then (c1, Some(NOT_ONE_DOCUMENT)) else (c1.(md := Some(docs[0])), None)
  }

  function VerifyFormat(env: Env, c: CredV): (CredV, Option<Err>) {
    match c.pres.format
    case SDJWT => VerifySDJWT(env, c)
    case Mdoc => VerifyMdoc(env, c)
    case OtherFormat(_) => (c, None)
  }

  /** A verification error fails here, or is deferred to the step that owns it. */
  function Attribute(c: CredV, e: Err): One {
    var (step, code) := ClassifyFormatError(e);
    if step == IssuerAuthenticity || step == Parse then One(c, Some(Row(Fail, code, SafeDetail(e))), false)
    else Fine(c.(deferred := Some((step, e))))
  }

  function AuthOne(env: Env, c: CredV): One {
    var (c1, err) := VerifyFormat(env, c);
    if err.None? then Fine(c1) else Attribute(c1, err.value)
  }

  // ---- step 4 ----

  predicate DeferredTo(c: CredV, step: CheckName) {
    c.deferred.Some? && c.deferred.value.0 == step
  }

  function IntegrityOne(c: CredV): One {
    if DeferredTo(c, DataIntegrity) then
      One(c, Some(Row(Fail, Problem(OfCredential, Integrity),
                      "credential " + c.pres.queryCredID + ": " + SafeDetail(c.deferred.value.1))), false)
    else Fine(c)
  }

  // ---- step 5 ----

  function StatusRefOf(c: CredV): Option<StatusRef> {
    if c.sd.Some? && c.sd.value.status.Some? then c.sd.value.status
    else if c.md.Some? then c.md.value.status
    else None
  }

  function ValidityWindow(c: CredV): int {
    if c.sd.Some? then c.sd.value.expiry - c.sd.value.notBefore
    else if c.md.Some? then c.md.value.validUntil - c.md.value.validFrom
    else 0
  }

  /** resolveStatusSignerFor: always judged at the current time, with the issuer's use-case scoping. */
  function ResolveStatusSigner(rv: Resolver, trustMap: CredentialTrustMap, now: Time, name: string, chain: seq<Bytes>)
    : Result<Key, Err>
  {
    match ResolveByTypes(rv, chain, Counterparts(trustMap.Issuance(name)) + trustMap.Issuance(name), now)
    case Fault(e) => Fault(e)
    case Ok(r) =>
      if !UseCaseAllowed(trustMap.UseCaseFor(name), r.issuer.useCases) then Fault(NOT_ACCREDITED) else Ok(r.key)
  }

  function StatusSigner(rv: Resolver, trustMap: CredentialTrustMap, now: Time, name: string)
    : seq<Bytes> -> Result<Key, Err>
  {
    chain => ResolveStatusSigner(rv, trustMap, now, name, chain)
  }

  /** What the status checker is asked. A validity of zero means "unknown, never skip". */
  function StatusInputFor(env: Env, c: CredV, ref: StatusRef): StatusInput {
    StatusInput(ref, StatusSigner(env.resolver, env.trustMap, env.now, c.DoctypeOrVCT()),
                !env.policy.RevocationFailClosed(),
                if env.policy.ShortLivedExemption() then ValidityWindow(c) else 0)
  }

  function StatusUnavailable(detail: string, uri: string): CheckResult {
    Row(Fail, Problem(OfRevocation, Unavailable), detail).(statusListURI := uri)
  }

  /** The policy switch, in its order. */
  function JudgeStatus(env: Env, c: CredV, ref: StatusRef, a: StatusAnswer): One {
    var c1 := c.(statusResult := a.status, statusProvenance := ProvenanceText(a.provenance));
    if a.provenance == SkippedByLifetime || a.provenance == SkippedFailOpen then One(c1, None, true)
    else if a.err.Some? then One(c1, Some(StatusUnavailable(SafeDetail(a.err.value), ref.uri)), false)
    else if a.status == StatusRevoked then
      One(c1, Some(Row(Fail, Problem(OfRevocation, Revoked), "credential " + c.pres.queryCredID + " revoked")), false)
    else if a.status == StatusSuspended then
      One(c1, Some(Row(Fail, Problem(OfRevocation, Revoked), "credential " + c.pres.queryCredID + " suspended=true")),
        false)
    else if a.status == StatusUnknown && env.policy.RevocationFailClosed() then
      One(c1, Some(StatusUnavailable("status unknown", ref.uri)), false)
    else Fine(c1)
  }

  function RevokeOne(env: Env, c: CredV): One {
    if DeferredTo(c, DeviceBinding) then One(c.(statusProvenance := "not-evaluated-binding-pending"), None, true)
    else match StatusRefOf(c)
      case None => Fine(c.(statusProvenance := "no-status-ref"))
      case Some(ref) => JudgeStatus(env, c, ref, env.checkStatus(StatusInputFor(env, c, ref)))
  }

  // ---- step 6 ----

  function BindOne(env: Env, c: CredV): One {
    if DeferredTo(c, DeviceBinding) then
      One(c.(deviceBinding := Fail),
          Some(Row(Fail, Problem(OfCredential, BindingFailed),
                   "credential " + c.pres.queryCredID + ": " + SafeDetail(c.deferred.value.1))), false)
    else match c.pres.format
      case Mdoc => Fine(c.(holderBound := true, deviceBinding := Pass))
      case SDJWT =>
        if !BindingRequired(env, c) then One(c.(deviceBinding := Skipped), None, true)
        else Fine(c.(holderBound := true, deviceBinding := Pass))
      case OtherFormat(_) => Fine(c)
  }

  // ---- step 7 ----

  function UserOne(c: CredV): One {
    if c.deviceBinding != Pass then
      One(c, Some(Row(Fail, Problem(OfCredential, BindingFailed),
                      "user binding requires device binding for credential " + c.pres.queryCredID)), false)
    else if c.statusResult == StatusRevoked || c.statusResult == StatusSuspended then
      One(c, Some(Row(Fail, Problem(OfCredential, BindingFailed),
                      "wallet solution revocation proxy failed for credential " + c.pres.queryCredID)), false)
    else Fine(c)
  }

  // Each per-credential step as a function value, named so that it is one value everywhere.
  function ParseFn(env: Env): CredV -> One { c => ParseOne(env, c) }
  function AuthFn(env: Env): CredV -> One { c => AuthOne(env, c) }
  function IntegrityFn(): CredV -> One { c => IntegrityOne(c) }
  function RevokeFn(env: Env): CredV -> One { c => RevokeOne(env, c) }
  function BindFn(env: Env): CredV -> One { c => BindOne(env, c) }
  function UserFn(): CredV -> One { c => UserOne(c) }

  /** A check's loop over the credentials: in list order, stopping at the first fail. */
  datatype Scanned = Scanned(creds: seq<CredV>, fail: Option<CheckResult>, skipped: bool)

  function Scan(f: CredV -> One, cs: seq<CredV>): Scanned {
    if cs == [] then Scanned([], None, false)
    else
      var h := f(cs[0]);
      if h.fail.Some? then Scanned([h.cred] + cs[1..], h.fail, h.skipped)
      else
        var t := Scan(f, cs[1..]);
        Scanned([h.cred] + t.creds, t.fail, h.skipped || t.skipped)
  }

  /** The verdict of such a check; note is the code of its skipped row. */
  function Verdict(s: Scanned, note: string): CheckResult {
    if s.fail.Some? then s.fail.value
    else if s.skipped then Row(Skipped, Note(note), "")
    else PASSED
  }

  // ---- steps 8 and 9 ----

  function CandidateOf(c: CredV): Candidate {
    Candidate(c.pres.queryCredID, c.pres.format, c.DoctypeOrVCT(), c.Claims(), c.holderBound)
  }

  function Candidates(cs: seq<CredV>): seq<Candidate> {
    seq(|cs|, i requires 0 <= i < |cs| => CandidateOf(cs[i]))
  }

  function Concat(parts: seq<string>): string {
    if parts == [] then "" else Concat(parts[..|parts| - 1]) + parts[|parts| - 1]
  }

  function QueryVerdict(env: Env, cs: seq<CredV>): CheckResult {
    var res := env.matchQuery(Candidates(cs));
    if !res.satisfied then Row(Fail, Problem(OfPresentation, QueryUnfulfilled), Concat(res.unmet)) else PASSED
  }

  /** The same payload answers two different query ids. */
  predicate Reused(a: CredV, b: CredV) {
    a.pres.queryCredID != b.pres.queryCredID && a.pres.payload == b.pres.payload
  }

  function ReuseFail(a: CredV, b: CredV): CheckResult {
    Row(Fail, Problem(OfPresentation, CombinedCheck),
        "identical credential presented for " + a.pres.queryCredID + " and " + b.pres.queryCredID)
  }

  const NOT_EVALUATED: CheckResult := Row(Pass, NoCode, "wscd-binding: not evaluated (no ARF mechanism)")
}
