/** internal/pipeline/errclass.go, second half: which anchor types may vouch for a credential type. */
module CredentialTrust {
  import opened Wrappers
  import opened ErrClass

  datatype AnchorType =
    | PIDProvider | QEAAProvider | PubEAAProvider | EAAProvider
    | WalletProvider | AccessCA | WRPRCIssuer
    | PIDProviderStatus | QEAAProviderStatus | PubEAAProviderStatus | EAAProviderStatus
    | OtherType(name: string)

  /** trust.StatusType: the status-signer counterpart of a provider type. */
  function StatusType(t: AnchorType): Option<AnchorType> {
    match t
    case PIDProvider => Some(PIDProviderStatus)
    case QEAAProvider => Some(QEAAProviderStatus)
    case PubEAAProvider => Some(PubEAAProviderStatus)
    case EAAProvider => Some(EAAProviderStatus)
    case _ => None
  }

  datatype CredentialClass = CredentialClass(types: seq<string>, issuance: seq<AnchorType>, useCase: string)

  datatype CredentialTrustMap = CredentialTrustMap(classes: seq<CredentialClass>, fallback: seq<AnchorType>)
  {
    function Issuance(name: string): seq<AnchorType>
      decreases |classes|
    {
      if classes == [] then fallback
      else if name in classes[0].types then classes[0].issuance
      else this.(classes := classes[1..]).Issuance(name)
    }

    function UseCaseFor(name: string): string
      decreases |classes|
    {
      if classes == [] then ""
      else if name in classes[0].types then classes[0].useCase
      else this.(classes := classes[1..]).UseCaseFor(name)
    }

    /** Class i is the first to list the type. */
    ghost predicate FirstMatch(name: string, i: nat) {
      && i < |classes|
      && name in classes[i].types
      && forall j :: 0 <= j < i ==> name !in classes[j].types
    }

    /** Issuance and UseCaseFor are separate scans that read one and the same class: the first match. */
    lemma {:induction false} ReadsFirstMatch(name: string, i: nat)
      requires FirstMatch(name, i)
      ensures Issuance(name) == classes[i].issuance
      ensures UseCaseFor(name) == classes[i].useCase
      decreases i
    {
      if i > 0 {
        assert name !in classes[0].types;
        var rest := this.(classes := classes[1..]);
        forall j | 0 <= j < i - 1 ensures name !in rest.classes[j].types {
          assert rest.classes[j] == classes[j + 1];
        }
        rest.ReadsFirstMatch(name, i - 1);
      }
    }

    /** With no match, the type is unscoped and the fallback vouches for it. */
    lemma {:induction false} ReadsFallback(name: string)
      requires Unlisted(this, name)
      ensures Issuance(name) == fallback && UseCaseFor(name) == ""
      decreases |classes|
    {
      if classes != [] {
        this.(classes := classes[1..]).ReadsFallback(name);
      }
    }

    /** Every type is answered by one of the two lemmas above. */
    lemma {:induction false} MatchedOrNot(name: string) returns (m: Option<nat>)
      ensures m.Some? ==> FirstMatch(name, m.value)
      ensures m.None? ==> Unlisted(this, name)
      decreases |classes|
    {
      if classes == [] {
        m := None;
      } else if name in classes[0].types {
        m := Some(0);
      } else {
        var rest := this.(classes := classes[1..]);
        var r := rest.MatchedOrNot(name);
        m := if r.Some? then Some(r.value + 1) else None;
        forall j | 0 <= j < |classes| && (r.None? || j < r.value + 1) ensures name !in classes[j].types {
          if j > 0 {
            assert classes[j] == rest.classes[j - 1];
          }
        }
      }
    }
  }

  /** The status counterparts of a type list, in order. */
  function Counterparts(ts: seq<AnchorType>): seq<AnchorType> {
    if ts == [] then []
    else Counterparts(ts[..|ts| - 1]) + match StatusType(ts[|ts| - 1]) case Some(s) => [s] case None => []
  }

  /** CredentialTrustMap.Status */
  method Status(m: CredentialTrustMap, name: string) returns (out: seq<AnchorType>)
    ensures out == Counterparts(m.Issuance(name)) + m.Issuance(name)
  {
    var issuance := m.Issuance(name);
    out := [];
    for i := 0 to |issuance|
      invariant out == Counterparts(issuance[..i])
    {
      assert issuance[..i + 1][..i] == issuance[..i];
      match StatusType(issuance[i])
      case Some(s) => out := out + [s];
      case None =>
    }
    assert issuance[..|issuance|] == issuance;
    out := out + issuance;
  }

  /** Which status types are offered: exactly the counterparts of issuance types, so a status signer is
      never accepted under a type whose provider could not have issued the credential. */
  lemma {:induction false} CounterpartsExact(ts: seq<AnchorType>, s: AnchorType)
    ensures s in Counterparts(ts) <==> exists t :: t in ts && StatusType(t) == Some(s)
  {
    if ts != [] {
      var n := |ts| - 1;
      CounterpartsExact(ts[..n], s);
      assert ts == ts[..n] + [ts[n]];
    }
  }

  /** No class of the map lists the type. */
  ghost predicate Unlisted(m: CredentialTrustMap, name: string) {
    forall j :: 0 <= j < |m.classes| ==> name !in m.classes[j].types
  }

  const DEFAULT_TRUST: CredentialTrustMap := CredentialTrustMap(
    [CredentialClass(["eu.europa.ec.eudi.pid.1", "urn:eudi:pid:1"], [PIDProvider], "")],
    [QEAAProvider, PubEAAProvider, EAAProvider])

  /** ParseCredentialTrust, with the JSON decoder as a parameter. The result is stated by what the
      merged map answers: the first configured class that lists the type, else the default class, else
      the configured fallback if there is one, else the default fallback. */
  method ParseCredentialTrust(raw: Bytes, decode: Bytes -> Result<CredentialTrustMap, Err>)
    returns (r: Result<CredentialTrustMap, Err>)
    ensures raw == [] ==> r == Ok(DEFAULT_TRUST)
    ensures raw != [] ==> (r.Fault? <==> decode(raw).Fault?) && (r.Fault? ==> r.error == decode(raw).error)
    ensures raw != [] && r.Ok? ==> forall name, i: nat | decode(raw).value.FirstMatch(name, i) ::
      && r.value.FirstMatch(name, i)
      && r.value.Issuance(name) == decode(raw).value.classes[i].issuance
      && r.value.UseCaseFor(name) == decode(raw).value.classes[i].useCase
    ensures raw != [] && r.Ok? ==> forall name | Unlisted(decode(raw).value, name) ::
      && r.value.UseCaseFor(name) == ""
      && r.value.Issuance(name) == (
           if name in DEFAULT_TRUST.classes[0].types then [PIDProvider]
           else if decode(raw).value.fallback != [] then decode(raw).value.fallback
           else DEFAULT_TRUST.fallback)
  {
    var def := DEFAULT_TRUST;
    if |raw| == 0 {
      return Ok(def);
    }
    var decoded := decode(raw);
    if decoded.Fault? {
      return Fault(decoded.error);
    }
    var cfg := decoded.value;
    var m := CredentialTrustMap(cfg.classes + def.classes, def.fallback);
    if |cfg.fallback| > 0 {
      m := m.(fallback := cfg.fallback);
    }
    forall name, i: nat | cfg.FirstMatch(name, i)
      ensures m.FirstMatch(name, i)
      ensures m.Issuance(name) == cfg.classes[i].issuance && m.UseCaseFor(name) == cfg.classes[i].useCase
    {
      assert m.FirstMatch(name, i);
      m.ReadsFirstMatch(name, i);
    }
    forall name | Unlisted(cfg, name)
      ensures m.UseCaseFor(name) == ""
      ensures m.Issuance(name) == if name in def.classes[0].types then [PIDProvider] else m.fallback
    {
      MergedBeyondConfig(cfg, m, name);
    }
    r := Ok(m);
  }

  lemma MergedBeyondConfig(cfg: CredentialTrustMap, m: CredentialTrustMap, name: string)
    requires m.classes == cfg.classes + DEFAULT_TRUST.classes
    requires Unlisted(cfg, name)
    ensures m.UseCaseFor(name) == ""
    ensures m.Issuance(name) == if name in DEFAULT_TRUST.classes[0].types then [PIDProvider] else m.fallback
  {
    var n := |cfg.classes|;
    if name in DEFAULT_TRUST.classes[0].types {
      assert m.FirstMatch(name, n);
      m.ReadsFirstMatch(name, n);
    } else {
      m.ReadsFallback(name);
    }
  }
}
