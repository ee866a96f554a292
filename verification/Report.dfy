/** internal/pipeline/report.go on the heap: Go slices share their backing arrays, maps are references, and
    Build copies neither. */
module Report {
  import opened Wrappers
  import opened ErrClass
  import opened PipelineTypes
  import opened PipelineRun
  import FlattenNames

  /** A Go slice: the first len cells of a backing array whose length is the capacity. */
  datatype Slice<T> = Slice(arr: array<T>, len: nat)
  {
    predicate Valid() {
      len <= arr.Length
    }

    function Contents(): seq<T>
      requires Valid()
      reads arr
    {
      arr[..len]
    }
  }

  /** append: in place while there is spare capacity, else into a new array with whatever spare capacity
      the runtime chooses. */
  method Append<T(0)>(s: Slice<T>, x: T) returns (r: Slice<T>)
    requires s.Valid()
    modifies s.arr
    ensures r.Valid() && r.Contents() == old(s.Contents()) + [x]
    ensures if s.len < s.arr.Length then r.arr == s.arr else fresh(r.arr)
    ensures forall k :: 0 <= k < s.arr.Length && k != s.len ==> s.arr[k] == old(s.arr[k])
  {
    if s.len < s.arr.Length {
      s.arr[s.len] := x;
      r := Slice(s.arr, s.len + 1);
      assert r.Contents()[..s.len] == old(s.Contents());
    } else {
      var spare: nat :| true;
      var grown := new T[s.len + 1 + spare];
      forall k | 0 <= k < s.len {
        grown[k] := s.arr[k];
      }
      grown[s.len] := x;
      r := Slice(grown, s.len + 1);
      assert r.Contents()[..s.len] == old(s.Contents());
    }
  }

  /** A Go map[string]bool. */
  class PolicyMap {
    var m: map<string, bool>

    constructor ()
      ensures m == map[]
    {
      m := map[];
    }
  }

  /** The Report struct: copying it copies slice headers and the map reference, not what they refer to. */
  datatype Report = Report(
    sessionID: string, verified: bool, failCode: Code,
    checks: Slice<CheckResult>, credentials: Slice<Summary>, policy: PolicyMap)
  {
    predicate Valid() {
      checks.Valid() && credentials.Valid()
    }

    /** What a reader of the report sees now. */
    function Contents(): ReportV
      requires Valid()
      reads checks.arr, credentials.arr, policy
    {
      ReportV(sessionID, verified, failCode, checks.Contents(), credentials.Contents(), policy.m)
    }
  }

  class Builder {
    var r: Report

    ghost predicate Valid()
      reads this
    {
      r.Valid()
    }

    ghost function Repr(): set<object>
      reads this
    {
      {this, r.checks.arr, r.credentials.arr, r.policy}
    }

    function Contents(): ReportV
      requires r.Valid()
      reads this, r.checks.arr, r.credentials.arr, r.policy
    {
      r.Contents()
    }

    /** NewBuilder: failed by default. */
    constructor (sessionID: string)
      ensures Valid() && fresh(Repr()) && Contents() == NewReport(sessionID)
    {
      var checks := new CheckResult[0];
      var credentials := new Summary[0];
      var policy := new PolicyMap();
      r := Report(sessionID, false, NoCode, Slice(checks, 0), Slice(credentials, 0), policy);
    }

    /** Only cells past the old length are written, so a report built before keeps its rows. */
    method Add(res: CheckResult)
      requires Valid()
      modifies this, r.checks.arr
      ensures Valid()
      ensures r.checks.arr == old(r.checks.arr) || fresh(r.checks.arr)
      ensures forall k :: 0 <= k < old(r.checks.len) ==> old(r.checks.arr)[k] == old(r.checks.arr[k])
      ensures r == old(r).(checks := r.checks)
      ensures Contents() == old(Contents()).(checks := old(Contents()).checks + [Cap(res)])
    {
      var capped := res;
      if |res.detail| > 200 {
        capped := res.(detail := res.detail[..200]);
      }
      assert capped == Cap(res);
      var grown := Append(r.checks, capped);
      r := r.(checks := grown);
    }

    /** Claims enter as a map and are reduced to names before they are stored. */
    method AddCredential(sum: Summary, claims: map<string, Node>)
      requires Valid()
      modifies this, r.credentials.arr
      ensures Valid()
      ensures r.credentials.arr == old(r.credentials.arr) || fresh(r.credentials.arr)
      ensures r == old(r).(credentials := r.credentials)
      ensures Contents() == old(Contents()).(credentials :=
        old(Contents()).credentials + [sum.(claimNames := FlattenNames.Names(claims, ""))])
    {
      var names := FlattenNames.FlattenNames(Sub(claims), "");
      var grown := Append(r.credentials, sum.(claimNames := names));
      r := r.(credentials := grown);
    }

    method SetPolicyBranch(name: string, active: bool)
      requires Valid()
      modifies r.policy
      ensures Valid()
      ensures Contents() == old(Contents()).(policy := old(Contents()).policy[name := active])
    {
      r.policy.m := r.policy.m[name := active];
    }

    method Failed(code: Code)
      requires Valid()
      modifies this
      ensures r == old(r).(verified := false, failCode := code)
    {
      r := r.(verified := false, failCode := code);
    }

    method Verified()
      requires Valid()
      modifies this
      ensures r == old(r).(verified := true, failCode := NoCode)
    {
      r := r.(verified := true, failCode := NoCode);
    }

    /** A shallow copy: the slices and the map are shared with the builder. */
    method Build() returns (rep: Report)
      requires Valid()
      ensures rep == r
    {
      rep := r;
    }
  }
}
