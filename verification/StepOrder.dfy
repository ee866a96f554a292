/** The pipeline is step-major: each check walks all credentials before the next check starts, and one
    library call in step 3 defers failures to steps 4 and 6. Here: the run fails where the earliest-failing
    credential on its own would fail. The argument is for any list of per-credential steps. */
module StepOrder {
  import opened Wrappers
  import opened ErrClass
  import opened PipelineTypes
  import opened Checks

  /** Where a run fails: the index of the step, and its verdict. */
  datatype Stop = Stop(step: nat, fail: CheckResult)

  /** Step-major: step k over every credential, then step k + 1. */
  function Run(fs: seq<CredV -> One>, k: nat, cs: seq<CredV>): Option<Stop>
    requires k <= |fs|
    decreases |fs| - k
  {
    if k == |fs| then None
    else
      var s := Scan(fs[k], cs);
      if s.fail.Some? then Some(Stop(k, s.fail.value)) else Run(fs, k + 1, s.creds)
  }

  /** Credential-major: one credential on its own through all the steps. */
  function Alone(fs: seq<CredV -> One>, k: nat, c: CredV): Option<Stop>
    requires k <= |fs|
    decreases |fs| - k
  {
    if k == |fs| then None
    else
      var one := fs[k](c);
      if one.fail.Some? then Some(Stop(k, one.fail.value)) else Alone(fs, k + 1, one.cred)
  }

  // ---- Scan ----

  /** A scan without a fail updates every credential by the step and skips iff one was skipped. */
  lemma {:induction false} ScanCompletes(f: CredV -> One, cs: seq<CredV>)
    requires forall k :: 0 <= k < |cs| ==> f(cs[k]).fail.None?
    ensures var s := Scan(f, cs);
      && s.fail.None? && |s.creds| == |cs|
      && (forall k :: 0 <= k < |cs| ==> s.creds[k] == f(cs[k]).cred)
      && (s.skipped <==> exists k :: 0 <= k < |cs| && f(cs[k]).skipped)
  {
    if cs != [] {
      var rest := cs[1..];
      forall k | 0 <= k < |rest| ensures f(rest[k]).fail.None? { assert rest[k] == cs[k + 1]; }
      ScanCompletes(f, rest);
      assert forall k :: 0 < k < |cs| ==> cs[k] == rest[k - 1];
      if exists k :: 0 <= k < |rest| && f(rest[k]).skipped {
        var k :| 0 <= k < |rest| && f(rest[k]).skipped;
        assert f(cs[k + 1]).skipped;
      }
    }
  }

  /** A scan that fails stops at the first failing credential and leaves the rest alone. */
  lemma {:induction false} ScanStops(f: CredV -> One, cs: seq<CredV>, i: nat)
    requires i < |cs| && f(cs[i]).fail.Some?
    requires forall k :: 0 <= k < i ==> f(cs[k]).fail.None?
    ensures var s := Scan(f, cs);
      && s.fail == f(cs[i]).fail && |s.creds| == |cs|
      && (forall k :: 0 <= k <= i ==> s.creds[k] == f(cs[k]).cred)
      && (forall k :: i < k < |cs| ==> s.creds[k] == cs[k])
    decreases i
  {
    if i > 0 {
      var rest := cs[1..];
      forall k | 0 <= k < i - 1 ensures f(rest[k]).fail.None? { assert rest[k] == cs[k + 1]; }
      ScanStops(f, rest, i - 1);
      assert forall k :: 0 < k < |cs| ==> cs[k] == rest[k - 1];
    }
  }

  /** The first credential a step fails on, if any. */
  lemma {:induction false} FirstFail(f: CredV -> One, cs: seq<CredV>) returns (i: nat)
    ensures i <= |cs| && (i < |cs| ==> f(cs[i]).fail.Some?)
    ensures forall k :: 0 <= k < i ==> f(cs[k]).fail.None?
  {
    if cs == [] || f(cs[0]).fail.Some? {
      i := 0;
    } else {
      i := FirstFail(f, cs[1..]);
      i := i + 1;
      forall k | 0 <= k < i ensures f(cs[k]).fail.None? {
        if k > 0 { assert cs[k] == cs[1..][k - 1]; }
      }
    }
  }

  // ---- The theorem ----

  /** a fails at a step before b does (None is never). */
  predicate Before(a: Option<Stop>, b: Option<Stop>) {
    a.Some? && (b.None? || a.value.step < b.value.step)
  }

  /** Credential i attains the minimum of the steps at which the credentials fail alone, and no earlier
      credential does. */
  ghost predicate EarliestFails(fs: seq<CredV -> One>, k: nat, cs: seq<CredV>, i: nat)
    requires k <= |fs|
  {
    && i < |cs| && Alone(fs, k, cs[i]).Some?
    && (forall j :: 0 <= j < |cs| ==> !Before(Alone(fs, k, cs[j]), Alone(fs, k, cs[i])))
    && (forall j :: 0 <= j < i ==> Before(Alone(fs, k, cs[i]), Alone(fs, k, cs[j])))
  }

  lemma AloneFailsLater(fs: seq<CredV -> One>, k: nat, c: CredV)
    requires k < |fs| && fs[k](c).fail.None?
    ensures Alone(fs, k, c) == Alone(fs, k + 1, fs[k](c).cred)
    ensures Alone(fs, k, c).Some? ==> Alone(fs, k, c).value.step > k
  {
    AloneStepBound(fs, k + 1, fs[k](c).cred);
  }

  lemma {:induction false} AloneStepBound(fs: seq<CredV -> One>, k: nat, c: CredV)
    requires k <= |fs|
    ensures Alone(fs, k, c).Some? ==> k <= Alone(fs, k, c).value.step < |fs|
    decreases |fs| - k
  {
    if k < |fs| && fs[k](c).fail.None? {
      AloneStepBound(fs, k + 1, fs[k](c).cred);
    }
  }

  /** Step-major equals credential-major: the run fails iff some credential fails alone; it then fails at
      the least of those steps, with the verdict of the first credential in list order that attains it. */
  lemma {:induction false} StepMajorIsCredentialMajor(fs: seq<CredV -> One>, k: nat, cs: seq<CredV>)
    requires k <= |fs|
    ensures Run(fs, k, cs).None? <==> forall j :: 0 <= j < |cs| ==> Alone(fs, k, cs[j]).None?
    ensures Run(fs, k, cs).Some? ==>
      exists i: nat :: EarliestFails(fs, k, cs, i) && Run(fs, k, cs) == Alone(fs, k, cs[i])
    decreases |fs| - k
  {
    if k < |fs| {
      var i := FirstFail(fs[k], cs);
      if i < |cs| {
        ScanStops(fs[k], cs, i);
        StopsHere(fs, k, cs, i);
      } else {
        ScanCompletes(fs[k], cs);
        var next := Scan(fs[k], cs).creds;
        StepMajorIsCredentialMajor(fs, k + 1, next);
        forall j | 0 <= j < |cs| ensures Alone(fs, k, cs[j]) == Alone(fs, k + 1, next[j]) {
          AloneFailsLater(fs, k, cs[j]);
        }
        if Run(fs, k + 1, next).Some? {
          var w: nat :| EarliestFails(fs, k + 1, next, w) && Run(fs, k + 1, next) == Alone(fs, k + 1, next[w]);
          assert EarliestFails(fs, k, cs, w);
        }
      }
    }
  }

  lemma StopsHere(fs: seq<CredV -> One>, k: nat, cs: seq<CredV>, i: nat)
    requires k < |fs| && i < |cs| && fs[k](cs[i]).fail.Some?
    requires forall j :: 0 <= j < i ==> fs[k](cs[j]).fail.None?
    ensures EarliestFails(fs, k, cs, i)
    ensures Alone(fs, k, cs[i]) == Some(Stop(k, fs[k](cs[i]).fail.value))
  {
    forall j | 0 <= j < |cs| ensures !Before(Alone(fs, k, cs[j]), Alone(fs, k, cs[i])) {
      AloneStepBound(fs, k, cs[j]);
    }
    forall j | 0 <= j < i ensures Before(Alone(fs, k, cs[i]), Alone(fs, k, cs[j])) {
      AloneFailsLater(fs, k, cs[j]);
    }
  }

  // ---- Steps 2 to 7 of the pipeline ----

  /** The per-credential steps in pipeline order: 2 parse, 3 issuer, 4 integrity, 5 revocation, 6 device
      binding, 7 user binding. */
  function Steps(env: Env): seq<CredV -> One> {
    [ParseFn(env), AuthFn(env), IntegrityFn(), RevokeFn(env), BindFn(env), UserFn()]
  }

  /** A presentation on its own ends as a credential that failed nothing. */
  function Fresh(env: Env, pres: seq<Presentation>): seq<CredV> {
    seq(|pres|, i requires 0 <= i < |pres| => NewCred(pres[i], env.zeroStatus))
  }

  /** The list after the first k steps. */
  function CredsAfter(fs: seq<CredV -> One>, k: nat, cs: seq<CredV>): seq<CredV>
    requires k <= |fs|
  {
    if k == 0 then cs else Scan(fs[k - 1], CredsAfter(fs, k - 1, cs)).creds
  }

  /** The credential after the first k steps. */
  function After(fs: seq<CredV -> One>, k: nat, c: CredV): CredV
    requires k <= |fs|
  {
    if k == 0 then c else fs[k - 1](After(fs, k - 1, c)).cred
  }

  /** Step k finds nothing to fail on. */
  predicate Passes(fs: seq<CredV -> One>, k: nat, cs: seq<CredV>)
    requires k < |fs|
  {
    Scan(fs[k], CredsAfter(fs, k, cs)).fail.None?
  }

  /** A run that reaches step k is decided from there. */
  lemma {:induction false} RunReaches(fs: seq<CredV -> One>, k: nat, cs: seq<CredV>)
    requires k <= |fs| && forall j :: 0 <= j < k ==> Passes(fs, j, cs)
    ensures Run(fs, 0, cs) == Run(fs, k, CredsAfter(fs, k, cs))
  {
    if k > 0 {
      RunReaches(fs, k - 1, cs);
      assert Passes(fs, k - 1, cs);
    }
  }

  /** While the steps pass, the list changes credential by credential. */
  lemma {:induction false} ListAfter(fs: seq<CredV -> One>, k: nat, cs: seq<CredV>)
    requires k <= |fs| && forall j :: 0 <= j < k ==> Passes(fs, j, cs)
    ensures |CredsAfter(fs, k, cs)| == |cs|
    ensures forall i :: 0 <= i < |cs| ==> CredsAfter(fs, k, cs)[i] == After(fs, k, cs[i])
    ensures forall i, j :: 0 <= i < |cs| && 0 <= j < k ==> fs[j](After(fs, j, cs[i])).fail.None?
  {
    if k > 0 {
      ListAfter(fs, k - 1, cs);
      var before := CredsAfter(fs, k - 1, cs);
      assert Passes(fs, k - 1, cs);
      var i := FirstFail(fs[k - 1], before);
      if i < |before| {
        ScanStops(fs[k - 1], before, i);
      }
      ScanCompletes(fs[k - 1], before);
    }
  }

  /** A singleton list is a credential alone. */
  lemma {:induction false} SingletonIsAlone(fs: seq<CredV -> One>, k: nat, c: CredV)
    requires k <= |fs|
    ensures Run(fs, k, [c]) == Alone(fs, k, c)
    decreases |fs| - k
  {
    if k < |fs| {
      var one := fs[k](c);
      assert [c][1..] == [];
      if one.fail.None? {
        assert Scan(fs[k], [c]).creds == [one.cred];
        SingletonIsAlone(fs, k + 1, one.cred);
      }
    }
  }
}
