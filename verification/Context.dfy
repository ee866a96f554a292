/** internal/pipeline/credential.go and the check_*.go files of steps 2 to 9 on the heap: the checks write
    the fields of the credentials in place, and do to each list what the functions of Checks say. */
module Context {
  import opened Wrappers
  import opened ErrClass
  import opened TrustResolution
  import opened PipelineTypes
  import opened Checks
  import opened StepOrder
  import opened PipelineRun
  import opened Held

  /** Credential. Its payload and its claims are memory: the ghost fields say what that memory reads. */
  class Credential {
    const pres: HeldPresentation
    var x5c: seq<Bytes>
    var iat: Option<Time>
    var sd: Option<HeldSD>
    var md: Option<HeldMD>
    var issuer: Option<Resolved>
    var deferred: Option<(CheckName, Err)>
    var statusResult: Status
    var statusProvenance: string
    var holderBound: bool
    var deviceBinding: Outcome
    ghost var payload: Bytes
    ghost var claims: map<string, Node>
    ghost var namespaces: map<string, map<string, Node>>

    ghost function View(): CredV
      reads this
    {
      CredV(pres.As(payload), x5c, iat,
            if sd.Some? then Some(sd.value.As(claims)) else None,
            if md.Some? then Some(md.value.As(namespaces)) else None,
            issuer, deferred, statusResult, statusProvenance, holderBound, deviceBinding)
    }

    /** The claim maps it holds. */
    ghost function Maps(): set<ClaimMap>
      reads this`sd, this`md
    {
      (if sd.Some? then {sd.value.claims} else {}) + (if md.Some? then md.value.namespaces.Values else {})
    }

    /** Its memory reads as its view says. */
    ghost predicate Backed()
      reads this`sd, this`md, this`payload, this`claims, this`namespaces, pres.payload.arr, Maps()
    {
      && pres.payload.Valid() && pres.payload.Contents() == payload
      && (sd.Some? ==> sd.value.claims.m == claims)
      && (md.Some? ==> md.value.Reads(namespaces))
    }

    constructor (pres: HeldPresentation, zeroStatus: Status)
      requires pres.payload.Valid()
      ensures Backed() && View() == NewCred(pres.As(pres.payload.Contents()), zeroStatus)
      ensures this.pres == pres && Maps() == {}
    {
      this.pres := pres;
      x5c, iat, sd, md, issuer, deferred := [], None, None, None, None, None;
      statusResult, statusProvenance, holderBound, deviceBinding := zeroStatus, "", false, Unset;
      payload, claims, namespaces := pres.payload.Contents(), map[], map[];
    }

    /** The switch of Parse. */
    method ParseStructure(env: Env) returns (fail: Option<CheckResult>)
      requires Backed()
      modifies this`x5c, this`iat
      ensures One(View(), fail, false) == ParseOne(env, old(View()))
    {
      fail := None;
      match pres.format
      case SDJWT =>
        match env.peek(pres.payload.Contents()) {
          case Fault(e) => fail := Some(FailParse(pres.queryCredID, e));
          case Ok(peeked) => x5c, iat := peeked.x5c, peeked.iat;
        }
      case Mdoc =>
        match env.decodeDeviceResponse(pres.payload.Contents()) {
          case Some(e) => fail := Some(FailParse(pres.queryCredID, e));
          case None =>
        }
      case OtherFormat(name) =>
        fail := Some(FailParse(pres.queryCredID, Plain("unsupported format " + name)));
    }

    predicate MustBind(env: Env) {
      env.policy.RequireDeviceBindingSDJWT() && QueryRequiresBinding(env.query, pres.queryCredID)
    }

    /** DoctypeOrVCT */
    function TypeName(): string
      reads this`sd, this`md
    {
      if sd.Some? then sd.value.vct else if md.Some? then md.value.docType else ""
    }

    /** Claims: the SD-JWT's own map, or a fresh map of the mdoc's namespaces. */
    method Claims() returns (out: ClaimMap)
      requires Backed()
      ensures out.m == View().Claims()
      ensures if sd.Some? then out == sd.value.claims else fresh(out)
    {
      if sd.Some? {
        return sd.value.claims;
      }
      if md.None? {
        out := new ClaimMap(map[]);
        return;
      }
      var copied: map<string, Node> := map[];
      var todo := md.value.namespaces.Keys;
      while todo != {}
        invariant todo <= md.value.namespaces.Keys && copied.Keys == md.value.namespaces.Keys - todo
        invariant forall ns :: ns in copied ==> copied[ns] == Sub(namespaces[ns])
        decreases |todo|
      {
        var ns :| ns in todo;
        copied := copied[ns := Sub(md.value.namespaces[ns].m)];
        todo := todo - {ns};
      }
      out := new ClaimMap(copied);
    }

    /** The issuer key resolution at the head of verifySDJWT. */
    method ResolveSDIssuer(env: Env) returns (resolved: Result<Resolved, Err>)
      ensures resolved == SDIssuer(env, View())
    {
      var at := env.validity.PathValidationTime(if iat.Some? then iat.value else ZERO_TIME, env.now);
      resolved := ResolveIssuerFor(env.resolver, env.trustMap, x5c, VctFromQuery(env.query, pres.queryCredID), at);
    }

    /** The one call of the SD-JWT library. */
    method AskSDJWT(env: Env, key: Key) returns (vc: Result<SDVerified, Err>)
      requires Backed()
      ensures vc == env.sdVerify(SDInputFor(env, View(), key))
    {
      var audience := if env.origin != "" then "origin:" + env.origin else pres.clientID;
      vc := env.sdVerify(SDInput(pres.payload.Contents(), key, audience, pres.nonce, MustBind(env)));
    }

    method TakeSD(vc: SDVerified)
      requires Backed()
      modifies this`sd, this`claims
      ensures Backed() && fresh(Maps() - old(Maps())) && View() == old(View()).(sd := Some(vc))
    {
      var held := HoldSD(vc);
      sd, claims := Some(held), vc.claims;
    }

    method VerifySDJWT(env: Env) returns (err: Option<Err>)
      requires Backed()
      modifies this`issuer, this`sd, this`claims
      ensures Backed() && fresh(Maps() - old(Maps()))
      ensures (View(), err) == Checks.VerifySDJWT(env, old(View()))
    {
      ghost var was := View();
      var resolved := ResolveSDIssuer(env);
      if resolved.Fault? {
        return Some(resolved.error);
      }
      issuer := Some(resolved.value);
      var vc := AskSDJWT(env, resolved.value.key);
      assert View() == was.(issuer := Some(resolved.value));
      assert SDInputFor(env, View(), resolved.value.key) == SDInputFor(env, was, resolved.value.key);
      err := TakeAnswer(env, vc);
    }

    /** The end of verifySDJWT. */
    method TakeAnswer(env: Env, answer: Result<SDVerified, Err>) returns (err: Option<Err>)
      requires Backed()
      modifies this`sd, this`claims
      ensures Backed() && fresh(Maps() - old(Maps()))
      ensures (View(), err) == TakeVerified(env, old(View()), answer)
    {
      if answer.Fault? {
        return Some(answer.error);
      }
      var claimedIAT := if iat.Some? then iat.value else ZERO_TIME;
      if env.validity.SigningTimeUsed(claimedIAT) && answer.value.issuedAt != claimedIAT {
        return Some(SIGNING_TIME_DIFFERS);
      }
      TakeSD(answer.value);
      err := None;
    }

    /** issuerTrust.ResolveIssuerKey, as often as the library calls it. */
    method AnswerCallbacks(env: Env) returns (answers: Answers)
      requires Backed()
      modifies this`issuer
      ensures answers == MDAnswers(env, old(View())) && issuer == LastResolved(answers, old(issuer))
    {
      var bytes := pres.payload.Contents();
      var name := DoctypeFromQuery(env.query, pres.queryCredID);
      ghost var resolve := IssuerCallback(env.resolver, env.trustMap, env.validity, env.now, name);
      ghost var all := MDAnswers(env, View());
      answers := [];
      var left := env.mdCalls(bytes);
      while left > 0 && env.mdAsk(bytes, answers).Some?
        invariant issuer == LastResolved(answers, old(issuer))
        invariant Callbacks(env.mdAsk, resolve, bytes, left, answers) == all
        decreases left
      {
        var (chain, signed) := env.mdAsk(bytes, answers).value;
        var at := env.validity.PathValidationTime(signed, env.now);
        var one := ResolveIssuerFor(env.resolver, env.trustMap, chain, name, at);
        assert one == resolve((chain, signed));
        if one.Ok? {
          issuer := Some(one.value);
        }
        ghost var before := answers;
        answers := answers + [one];
        assert answers[..|answers| - 1] == before;
        left := left - 1;
      }
    }

    method TakeMD(doc: MDVerified)
      requires Backed()
      modifies this`md, this`namespaces
      ensures Backed() && fresh(Maps() - old(Maps())) && View() == old(View()).(md := Some(doc))
    {
      var held := HoldMD(doc);
      md, namespaces := Some(held), doc.namespaces;
    }

    method VerifyMdoc(env: Env) returns (err: Option<Err>)
      requires Backed()
      modifies this`issuer, this`md, this`namespaces
      ensures Backed() && fresh(Maps() - old(Maps()))
      ensures (View(), err) == Checks.VerifyMdoc(env, old(View()))
    {
      var transcript := if env.origin != "" then DCAPIHandover(env.origin, pres.nonce, pres.jwkThumbprint)
                        else Handover(pres.clientID, pres.nonce, pres.jwkThumbprint, pres.responseURI);
      var answers := AnswerCallbacks(env);
      var docs := env.mdVerify(pres.payload.Contents(), transcript, answers);
      if docs.Fault? {
        return Some(docs.error);
      }
      if |docs.value| != 1 {
        return Some(NOT_ONE_DOCUMENT);
      }
      TakeMD(docs.value[0]);
      err := None;
    }

    /** The switch on the format. */
    method Verify(env: Env) returns (verr: Option<Err>)
      requires Backed()
      modifies this`issuer, this`sd, this`claims, this`md, this`namespaces
      ensures Backed() && fresh(Maps() - old(Maps()))
      ensures (View(), verr) == VerifyFormat(env, old(View()))
    {
      verr := None;
      match pres.format {
        case SDJWT => verr := VerifySDJWT(env);
        case Mdoc => verr := VerifyMdoc(env);
        case OtherFormat(_) =>
      }
    }

    /** One turn of step 3's loop. */
    method Authenticate(env: Env) returns (fail: Option<CheckResult>)
      requires Backed()
      modifies this`issuer, this`sd, this`claims, this`md, this`namespaces, this`deferred
      ensures Backed() && fresh(Maps() - old(Maps()))
      ensures One(View(), fail, false) == AuthOne(env, old(View()))
    {
      var verr := Verify(env);
      if verr.None? {
        return None;
      }
      var (step, code) := ClassifyFormatError(verr.value);
      if step == IssuerAuthenticity || step == Parse {
        return Some(Row(Fail, code, SafeDetail(verr.value)));
      }
      deferred := Some((step, verr.value));
      fail := None;
    }

    /** statusRefOf */
    method StatusRefNow() returns (ref: Option<StatusRef>)
      ensures ref == StatusRefOf(View())
    {
      ref := if sd.Some? && sd.value.status.Some? then sd.value.status
             else if md.Some? then md.value.status else None;
    }

    /** The call of the status checker, with validityWindow and the signer callback. */
    method AskStatus(env: Env, ref: StatusRef) returns (a: StatusAnswer)
      ensures a == env.checkStatus(StatusInputFor(env, View(), ref))
    {
      var window := if sd.Some? then sd.value.expiry - sd.value.notBefore
                    else if md.Some? then md.value.validUntil - md.value.validFrom else 0;
      assert window == ValidityWindow(View()) && TypeName() == View().DoctypeOrVCT();
      a := env.checkStatus(StatusInput(
        ref, StatusSigner(env.resolver, env.trustMap, env.now, TypeName()),
        !env.policy.RevocationFailClosed(), if env.policy.ShortLivedExemption() then window else 0));
    }

    /** One turn of step 5's loop. */
    method CheckStatus(env: Env) returns (fail: Option<CheckResult>, skipped: bool)
      modifies this`statusResult, this`statusProvenance
      ensures One(View(), fail, skipped) == RevokeOne(env, old(View()))
    {
      if deferred.Some? && deferred.value.0 == DeviceBinding {
        statusProvenance := "not-evaluated-binding-pending";
        return None, true;
      }
      var ref := StatusRefNow();
      if ref.None? {
        statusProvenance := "no-status-ref";
        return None, false;
      }
      var a := AskStatus(env, ref.value);
      statusResult, statusProvenance := a.status, ProvenanceText(a.provenance);
      if a.provenance == SkippedByLifetime {
        return None, true;
      } else if a.provenance == SkippedFailOpen {
        return None, true;
      } else if a.err.Some? {
        return Some(StatusUnavailable(SafeDetail(a.err.value), ref.value.uri)), false;
      } else if a.status == StatusRevoked || a.status == StatusSuspended {
        var detail := "credential " + pres.queryCredID + " revoked";
        if a.status == StatusSuspended {
          detail := "credential " + pres.queryCredID + " suspended=true";
        }
        return Some(Row(Fail, Problem(OfRevocation, Revoked), detail)), false;
      } else if a.status == StatusUnknown && env.policy.RevocationFailClosed() {
        return Some(StatusUnavailable("status unknown", ref.value.uri)), false;
      }
      return None, false;
    }

    /** One turn of step 6's loop. */
    method BindDevice(env: Env) returns (fail: Option<CheckResult>, skipped: bool)
      modifies this`holderBound, this`deviceBinding
      ensures One(View(), fail, skipped) == BindOne(env, old(View()))
    {
      if deferred.Some? && deferred.value.0 == DeviceBinding {
        deviceBinding := Fail;
        return Some(Row(Fail, Problem(OfCredential, BindingFailed),
                        "credential " + pres.queryCredID + ": " + SafeDetail(deferred.value.1))), false;
      }
      match pres.format
      case Mdoc =>
        holderBound, deviceBinding := true, Pass;
        return None, false;
      case SDJWT =>
        if !MustBind(env) {
          deviceBinding := Skipped;
          return None, true;
        }
        holderBound, deviceBinding := true, Pass;
        return None, false;
      case OtherFormat(_) =>
        return None, false;
    }

    /** One turn of step 7's loop. */
    method CheckUser() returns (fail: Option<CheckResult>)
      ensures One(View(), fail, false) == UserOne(View())
    {
      if deviceBinding != Pass {
        return Some(Row(Fail, Problem(OfCredential, BindingFailed),
                        "user binding requires device binding for credential " + pres.queryCredID));
      }
      if statusResult == StatusRevoked || statusResult == StatusSuspended {
        return Some(Row(Fail, Problem(OfCredential, BindingFailed),
                        "wallet solution revocation proxy failed for credential " + pres.queryCredID));
      }
      fail := None;
    }
  }

  ghost predicate Distinct(cs: seq<Credential>) {
    forall i, j :: 0 <= i < j < |cs| ==> cs[i] != cs[j]
  }

  /** The memory of these credentials lies in these arrays and maps, and reads as their views say. */
  ghost predicate AllBacked(cs: seq<Credential>, buffers: set<array<byte>>, maps: set<ClaimMap>)
    reads cs`sd, cs`md, cs`payload, cs`claims, cs`namespaces, buffers, maps
  {
    forall c :: c in cs ==> c.pres.payload.arr in buffers && c.Maps() <= maps && c.Backed()
  }

  ghost function Views(cs: seq<Credential>): seq<CredV>
    reads cs
  {
    seq(|cs|, i requires 0 <= i < |cs| reads cs => cs[i].View())
  }

  /** A loop has taken the first i credentials through f, and left the rest as they were. */
  ghost predicate Walked(f: CredV -> One, was: seq<CredV>, now: seq<CredV>, skipped: bool, i: nat) {
    && i <= |was| == |now|
    && (forall k :: 0 <= k < i ==> f(was[k]).fail.None? && now[k] == f(was[k]).cred)
    && (forall k :: i <= k < |was| ==> now[k] == was[k])
    && (skipped <==> exists k :: 0 <= k < i && f(was[k]).skipped)
  }

  lemma WalkOn(f: CredV -> One, was: seq<CredV>, now: seq<CredV>, next: seq<CredV>, skipped: bool, also: bool, i: nat)
    requires i < |was| && Walked(f, was, now, skipped, i)
    requires next == now[i := f(now[i]).cred] && f(now[i]).fail.None? && also == f(now[i]).skipped
    ensures Walked(f, was, next, skipped || also, i + 1)
  {
    assert also ==> f(was[i]).skipped;
  }

  /** A loop that stops at i is the scan that stops there. */
  lemma StoppedAt(
    f: CredV -> One, was: seq<CredV>, now: seq<CredV>, next: seq<CredV>, skipped: bool, i: nat, note: string)
    requires i < |was| && Walked(f, was, now, skipped, i)
    requires next == now[i := f(now[i]).cred] && f(now[i]).fail.Some?
    ensures next == Scan(f, was).creds && Verdict(Scan(f, was), note) == f(now[i]).fail.value
  {
    ScanStops(f, was, i);
  }

  /** A loop over all the credentials is the scan that stops nowhere. */
  lemma WentThrough(f: CredV -> One, was: seq<CredV>, now: seq<CredV>, skipped: bool, note: string)
    requires Walked(f, was, now, skipped, |was|)
    ensures now == Scan(f, was).creds
    ensures Verdict(Scan(f, was), note) == if skipped then Row(Skipped, Note(note), "") else PASSED
  {
    ScanCompletes(f, was);
  }

  /** Changing one credential of a list changes one view. */
  lemma OneChanged(cs: seq<Credential>, i: nat, now: seq<CredV>)
    requires i < |cs| == |now| && forall k :: 0 <= k < |cs| && k != i ==> cs[k].View() == now[k]
    ensures Views(cs) == now[i := cs[i].View()]
  {
  }

  /** One turn of step 3's loop, as the list sees it. */
  method AuthenticateOne(
    env: Env, cs: seq<Credential>, i: nat, ghost buffers: set<array<byte>>, ghost maps: set<ClaimMap>)
    returns (fail: Option<CheckResult>, ghost wider: set<ClaimMap>)
    requires i < |cs| && Distinct(cs) && AllBacked(cs, buffers, maps)
    modifies cs`issuer, cs`sd, cs`claims, cs`md, cs`namespaces, cs`deferred
    ensures maps <= wider && fresh(wider - maps) && AllBacked(cs, buffers, wider)
    ensures var was := old(Views(cs)); var one := AuthOne(env, was[i]);
      Views(cs) == was[i := one.cred] && one == One(one.cred, fail, false)
  {
    ghost var now := Views(cs);
    assert cs[i].Backed();
    fail := cs[i].Authenticate(env);
    wider := maps + cs[i].Maps();
    OneChanged(cs, i, now);
    forall c | c in cs ensures c.pres.payload.arr in buffers && c.Maps() <= wider && c.Backed() {
    }
  }

  /** Step 3. */
  method RunIssuerAuthenticity(
    env: Env, cs: seq<Credential>, ghost buffers: set<array<byte>>, ghost maps: set<ClaimMap>)
    returns (res: CheckResult, ghost wider: set<ClaimMap>)
    requires Distinct(cs) && AllBacked(cs, buffers, maps)
    modifies cs
    ensures maps <= wider && fresh(wider - maps) && AllBacked(cs, buffers, wider)
    ensures Views(cs) == Scan(AuthFn(env), old(Views(cs))).creds
    ensures res == Verdict(Scan(AuthFn(env), old(Views(cs))), "")
  {
    ghost var was := Views(cs);
    wider := maps;
    for i := 0 to |cs|
      invariant Walked(AuthFn(env), was, Views(cs), false, i)
      invariant maps <= wider && fresh(wider - maps) && AllBacked(cs, buffers, wider)
    {
      ghost var now := Views(cs);
      var fail;
      fail, wider := AuthenticateOne(env, cs, i, buffers, wider);
      assert AuthFn(env)(now[i]) == AuthOne(env, now[i]);
      if fail.Some? {
        StoppedAt(AuthFn(env), was, now, Views(cs), false, i, "");
        return fail.value, wider;
      }
      WalkOn(AuthFn(env), was, now, Views(cs), false, false, i);
    }
    WentThrough(AuthFn(env), was, Views(cs), false, "");
    res := PASSED;
  }

  /** Step 4. */
  method RunDataIntegrity(cs: seq<Credential>) returns (res: CheckResult)
    ensures Views(cs) == Scan(IntegrityFn(), Views(cs)).creds
    ensures res == Verdict(Scan(IntegrityFn(), Views(cs)), "")
  {
    ghost var was := Views(cs);
    for i := 0 to |cs|
      invariant Walked(IntegrityFn(), was, was, false, i)
    {
      var cred := cs[i];
      assert IntegrityFn()(was[i]) == IntegrityOne(cred.View());
      assert was[i := was[i]] == was;
      if cred.deferred.Some? && cred.deferred.value.0 == DataIntegrity {
        StoppedAt(IntegrityFn(), was, was, was, false, i, "");
        return Row(Fail, Problem(OfCredential, Integrity),
                   "credential " + cred.pres.queryCredID + ": " + SafeDetail(cred.deferred.value.1));
      }
      WalkOn(IntegrityFn(), was, was, was, false, false, i);
    }
    WentThrough(IntegrityFn(), was, was, false, "");
    res := PASSED;
  }

  /** Step 5, without its two policy branches. */
  method RunRevocation(env: Env, cs: seq<Credential>) returns (res: CheckResult)
    requires Distinct(cs)
    modifies cs`statusResult, cs`statusProvenance
    ensures Views(cs) == Scan(RevokeFn(env), old(Views(cs))).creds
    ensures res == Verdict(Scan(RevokeFn(env), old(Views(cs))), "revocation-partially-skipped")
  {
    ghost var was := Views(cs);
    var anySkipped := false;
    for i := 0 to |cs|
      invariant Walked(RevokeFn(env), was, Views(cs), anySkipped, i)
    {
      ghost var now := Views(cs);
      var fail, skipped := cs[i].CheckStatus(env);
      OneChanged(cs, i, now);
      assert RevokeFn(env)(now[i]) == One(cs[i].View(), fail, skipped);
      if fail.Some? {
        StoppedAt(RevokeFn(env), was, now, Views(cs), anySkipped, i, "revocation-partially-skipped");
        return fail.value;
      }
      WalkOn(RevokeFn(env), was, now, Views(cs), anySkipped, skipped, i);
      anySkipped := anySkipped || skipped;
    }
    WentThrough(RevokeFn(env), was, Views(cs), anySkipped, "revocation-partially-skipped");
    if anySkipped {
      return Row(Skipped, Note("revocation-partially-skipped"), "");
    }
    res := PASSED;
  }

  /** Step 6, without its policy branch. */
  method RunDeviceBinding(env: Env, cs: seq<Credential>) returns (res: CheckResult)
    requires Distinct(cs)
    modifies cs`holderBound, cs`deviceBinding
    ensures Views(cs) == Scan(BindFn(env), old(Views(cs))).creds
    ensures res == Verdict(Scan(BindFn(env), old(Views(cs))), "device-binding-policy-skipped")
  {
    ghost var was := Views(cs);
    var anySkipped := false;
    for i := 0 to |cs|
      invariant Walked(BindFn(env), was, Views(cs), anySkipped, i)
    {
      ghost var now := Views(cs);
      var fail, skipped := cs[i].BindDevice(env);
      OneChanged(cs, i, now);
      assert BindFn(env)(now[i]) == One(cs[i].View(), fail, skipped);
      if fail.Some? {
        StoppedAt(BindFn(env), was, now, Views(cs), anySkipped, i, "device-binding-policy-skipped");
        return fail.value;
      }
      WalkOn(BindFn(env), was, now, Views(cs), anySkipped, skipped, i);
      anySkipped := anySkipped || skipped;
    }
    WentThrough(BindFn(env), was, Views(cs), anySkipped, "device-binding-policy-skipped");
    if anySkipped {
      return Row(Skipped, Note("device-binding-policy-skipped"), "");
    }
    res := PASSED;
  }

  /** Step 7. */
  method RunUserBinding(cs: seq<Credential>) returns (res: CheckResult)
    ensures Views(cs) == Scan(UserFn(), Views(cs)).creds
    ensures res == Verdict(Scan(UserFn(), Views(cs)), "")
  {
    ghost var was := Views(cs);
    for i := 0 to |cs|
      invariant Walked(UserFn(), was, was, false, i)
    {
      var fail := cs[i].CheckUser();
      assert UserFn()(was[i]) == One(was[i], fail, false);
      assert was[i := was[i]] == was;
      if fail.Some? {
        StoppedAt(UserFn(), was, was, was, false, i, "");
        return fail.value;
      }
      WalkOn(UserFn(), was, was, was, false, false, i);
    }
    WentThrough(UserFn(), was, was, false, "");
    res := PASSED;
  }

  /** One turn of step 2's loop. */
  method ParsePresentation(env: Env, p: HeldPresentation, ghost view: Presentation)
    returns (cred: Credential, fail: Option<CheckResult>)
    requires p.payload.Valid() && view == p.As(p.payload.Contents())
    ensures fresh(cred) && cred.Backed() && cred.Maps() == {} && cred.pres == p
    ensures One(cred.View(), fail, false) == ParseOne(env, NewCred(view, env.zeroStatus))
  {
    cred := new Credential(p, env.zeroStatus);
    fail := cred.ParseStructure(env);
  }

  lemma BackedAppend(cs: seq<Credential>, c: Credential, buffers: set<array<byte>>, maps: set<ClaimMap>)
    requires Distinct(cs) && AllBacked(cs, buffers, maps) && c !in cs
    requires c.Backed() && c.pres.payload.arr in buffers && c.Maps() <= maps
    ensures Distinct(cs + [c]) && AllBacked(cs + [c], buffers, maps) && Views(cs + [c]) == Views(cs) + [c.View()]
  {
  }

  lemma ParseNext(env: Env, pres: seq<Presentation>, i: nat, done: seq<CredV>)
    requires i < |pres|
    ensures var one := ParseOne(env, NewCred(pres[i], env.zeroStatus));
      ParseAll(env, pres[i..], done)
        == if one.fail.Some? then (done, one.fail) else ParseAll(env, pres[i + 1..], done + [one.cred])
  {
    assert pres[i..][1..] == pres[i + 1..];
  }

  /** Step 2: credentials are built one by one and appended; the first that does not parse stops it. */
  method RunParse(
    env: Env, pres: seq<HeldPresentation>, before: seq<Credential>, ghost views: seq<Presentation>,
    ghost buffers: set<array<byte>>, ghost maps: set<ClaimMap>)
    returns (cs: seq<Credential>, res: CheckResult)
    requires Distinct(before) && AllBacked(before, buffers, maps) && PresBacked(pres, views, buffers)
    ensures Distinct(cs) && AllBacked(cs, buffers, maps)
    ensures before <= cs && forall k :: |before| <= k < |cs| ==> fresh(cs[k])
    ensures var (creds, fail) := ParseAll(env, views, Views(before));
      && Views(cs) == creds
      && res == if fail.Some? then fail.value else if |creds| == 0 then EMPTY_TOKEN else PASSED
  {
    cs := before;
    for i := 0 to |pres|
      invariant Distinct(cs) && AllBacked(cs, buffers, maps)
      invariant before <= cs && forall k :: |before| <= k < |cs| ==> fresh(cs[k])
      invariant ParseAll(env, views, Views(before)) == ParseAll(env, views[i..], Views(cs))
    {
      ParseNext(env, views, i, Views(cs));
      var cred, fail := ParsePresentation(env, pres[i], views[i]);
      if fail.Some? {
        return cs, fail.value;
      }
      BackedAppend(cs, cred, buffers, maps);
      cs := cs + [cred];
    }
    if |cs| == 0 {
      return cs, EMPTY_TOKEN;
    }
    res := PASSED;
  }

  /** What the matcher is told of one credential. */
  method MakeCandidate(cred: Credential) returns (cand: Candidate)
    requires cred.Backed()
    ensures cand == CandidateOf(cred.View())
  {
    var claims := cred.Claims();
    cand := Candidate(cred.pres.queryCredID, cred.pres.format, cred.TypeName(), claims.m, cred.holderBound);
  }

  /** Step 8. */
  method RunQueryFulfilment(env: Env, cs: seq<Credential>, ghost buffers: set<array<byte>>, ghost maps: set<ClaimMap>)
    returns (res: CheckResult)
    requires AllBacked(cs, buffers, maps)
    ensures res == QueryVerdict(env, Views(cs))
  {
    var cands := [];
    for i := 0 to |cs|
      invariant AllBacked(cs, buffers, maps) && cands == Candidates(Views(cs)[..i])
    {
      var one := MakeCandidate(cs[i]);
      cands := cands + [one];
      assert Views(cs)[..i + 1] == Views(cs)[..i] + [cs[i].View()];
    }
    assert Views(cs)[..|cs|] == Views(cs);
    var m := env.matchQuery(cands);
    if !m.satisfied {
      var detail := "";
      for i := 0 to |m.unmet|
        invariant detail == Concat(m.unmet[..i])
      {
        assert m.unmet[..i + 1][..i] == m.unmet[..i];
        detail := detail + m.unmet[i];
      }
      assert m.unmet[..|m.unmet|] == m.unmet;
      return Row(Fail, Problem(OfPresentation, QueryUnfulfilled), detail);
    }
    res := PASSED;
  }

  /** One turn of step 9's inner loop. */
  method ComparePayloads(a: Credential, b: Credential, ghost va: CredV, ghost vb: CredV)
    returns (fail: Option<CheckResult>)
    requires a.Backed() && b.Backed() && va == a.View() && vb == b.View()
    ensures fail == if Reused(va, vb) then Some(ReuseFail(va, vb)) else None
  {
    if a.pres.queryCredID != b.pres.queryCredID && a.pres.payload.Contents() == b.pres.payload.Contents() {
      return Some(Row(Fail, Problem(OfPresentation, CombinedCheck),
                      "identical credential presented for " + a.pres.queryCredID + " and " + b.pres.queryCredID));
    }
    fail := None;
  }

  /** Comparing credential i with those before hit decides nothing; comparing it with hit, if there is one, does. */
  lemma {:induction false} ReuseSkips(vs: seq<CredV>, i: nat, j: nat, hit: nat)
    requires i < j <= hit <= |vs| && forall k :: j <= k < hit ==> !Reused(vs[i], vs[k])
    requires hit < |vs| ==> Reused(vs[i], vs[hit])
    ensures ReuseFrom(vs, i, j)
      == if hit < |vs| then Some(ReuseFail(vs[i], vs[hit])) else ReuseFrom(vs, i + 1, i + 2)
    decreases hit - j
  {
    if j < hit {
      ReuseSkips(vs, i, j + 1, hit);
    }
  }

  /** Step 9's inner loop: the first later credential that reuses the payload of credential i. */
  method CompareWithLater(
    cs: seq<Credential>, i: nat, ghost vs: seq<CredV>, ghost buffers: set<array<byte>>, ghost maps: set<ClaimMap>)
    returns (fail: Option<CheckResult>, ghost hit: nat)
    requires i < |cs| && AllBacked(cs, buffers, maps) && vs == Views(cs)
    ensures i < hit <= |vs| && forall k :: i < k < hit ==> !Reused(vs[i], vs[k])
    ensures hit < |vs| ==> Reused(vs[i], vs[hit]) && fail == Some(ReuseFail(vs[i], vs[hit]))
    ensures hit == |vs| ==> fail == None
  {
    hit := i + 1;
    for j := i + 1 to |cs|
      invariant hit == j && forall k :: i < k < j ==> !Reused(vs[i], vs[k])
    {
      assert cs[i].Backed() && cs[j].Backed();
      fail := ComparePayloads(cs[i], cs[j], vs[i], vs[j]);
      if fail.Some? {
        return;
      }
      hit := j + 1;
    }
    fail := None;
  }

  /** Step 9. */
  method RunCombinedChecks(cs: seq<Credential>, ghost buffers: set<array<byte>>, ghost maps: set<ClaimMap>)
    returns (res: CheckResult)
    requires AllBacked(cs, buffers, maps)
    ensures var reuse := ReuseFrom(Views(cs), 0, 1); res == if reuse.Some? then reuse.value else NOT_EVALUATED
  {
    ghost var vs := Views(cs);
    for i := 0 to |cs|
      invariant ReuseFrom(vs, 0, 1) == ReuseFrom(vs, i, i + 1)
    {
      var fail, hit := CompareWithLater(cs, i, vs, buffers, maps);
      ReuseSkips(vs, i, i + 1, hit);
      if fail.Some? {
        return fail.value;
      }
    }
    res := NOT_EVALUATED;
  }
}
