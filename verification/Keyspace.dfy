/** internal/keyspace and the key formats of valkeystore, sessions and handoff: one flat string-keyed store
    holds records of several kinds. */
module Keyspace {

  /** White space as Unicode has it. */
  predicate IsSpace(c: char) {
    var n := c as int;
    || 9 <= n <= 13 || n == 0x20 || n == 0x85 || n == 0xA0 || n == 0x1680 || 0x2000 <= n <= 0x200A
    || n == 0x2028 || n == 0x2029 || n == 0x202F || n == 0x205F || n == 0x3000
  }

  function TrimLeft(s: string): string {
    if s != [] && IsSpace(s[0]) then TrimLeft(s[1..]) else s
  }

  function TrimRight(s: string): string {
    if s != [] && IsSpace(s[|s| - 1]) then TrimRight(s[..|s| - 1]) else s
  }

  function TrimColons(s: string): string {
    if s != [] && s[|s| - 1] == ':' then TrimColons(s[..|s| - 1]) else s
  }

  /** New: trim white space, trim trailing colons, append exactly one. */
  function New(p: string): string {
    var t := TrimColons(TrimRight(TrimLeft(p)));
    if t == "" then "" else t + ":"
  }

  lemma {:induction false} TrimColonsEnd(s: string)
    ensures var t := TrimColons(s); t <= s && (t != "" ==> t[|t| - 1] != ':')
  {
    if s != [] && s[|s| - 1] == ':' {
      TrimColonsEnd(s[..|s| - 1]);
    }
  }

  /** A normalised prefix is empty, or ends in exactly one colon. */
  lemma PrefixForm(p: string)
    ensures var n := New(p); n == "" || (|n| >= 2 && n[|n| - 1] == ':' && n[|n| - 2] != ':')
  {
    TrimColonsEnd(TrimRight(TrimLeft(p)));
  }

  lemma {:induction false} TrimLeftStart(s: string)
    ensures var t := TrimLeft(s); t != "" ==> !IsSpace(t[0])
  {
    if s != [] && IsSpace(s[0]) {
      TrimLeftStart(s[1..]);
    }
  }

  lemma {:induction false} TrimRightPrefix(s: string)
    ensures TrimRight(s) <= s
  {
    if s != [] && IsSpace(s[|s| - 1]) {
      TrimRightPrefix(s[..|s| - 1]);
    }
  }

  lemma {:induction false} TrimLeftCuts(s: string) returns (i: nat)
    ensures i <= |s| && TrimLeft(s) == s[i..] && (forall x :: 0 <= x < i ==> IsSpace(s[x]))
    ensures i < |s| ==> !IsSpace(s[i])
  {
    i := 0;
    if s != [] && IsSpace(s[0]) {
      i := TrimLeftCuts(s[1..]);
      assert forall x :: 0 < x < i + 1 ==> s[x] == s[1..][x - 1];
      i := i + 1;
    }
  }

  lemma {:induction false} TrimRightCuts(s: string) returns (j: nat)
    ensures j <= |s| && TrimRight(s) == s[..j] && (forall x :: j <= x < |s| ==> IsSpace(s[x]))
    ensures j > 0 ==> !IsSpace(s[j - 1])
  {
    j := |s|;
    if s != [] && IsSpace(s[|s| - 1]) {
      j := TrimRightCuts(s[..|s| - 1]);
      assert s[..|s| - 1][..j] == s[..j];
    }
  }

  lemma {:induction false} TrimColonsCuts(s: string) returns (k: nat)
    ensures k <= |s| && TrimColons(s) == s[..k] && (forall x :: k <= x < |s| ==> s[x] == ':')
    ensures k > 0 ==> s[k - 1] != ':'
  {
    k := |s|;
    if s != [] && s[|s| - 1] == ':' {
      k := TrimColonsCuts(s[..|s| - 1]);
      assert s[..|s| - 1][..k] == s[..k];
    }
  }

  /** A prefix is normalised to what lies between its outer white space, without the colons at its end, and one
      colon; or to nothing if nothing is left. */
  lemma NewExactly(p: string) returns (i: nat, k: nat, j: nat)
    ensures i <= k <= j <= |p|
    ensures (forall x :: 0 <= x < i || j <= x < |p| ==> IsSpace(p[x])) && (forall x :: k <= x < j ==> p[x] == ':')
    ensures (i < j ==> !IsSpace(p[i]) && !IsSpace(p[j - 1])) && (i < k ==> p[k - 1] != ':')
    ensures New(p) == if i < k then p[i..k] + ":" else ""
  {
    i := TrimLeftCuts(p);
    j := TrimRightCuts(p[i..]);
    k := TrimColonsCuts(p[i..][..j]);
    assert p[i..][..j][..k] == p[i..i + k];
    forall x | i + j <= x < |p| ensures IsSpace(p[x]) { assert p[x] == p[i..][x - i]; }
    forall x | i + k <= x < i + j ensures p[x] == ':' { assert p[x] == p[i..][..j][x - i]; }
    assert j > 0 ==> p[i..][j - 1] == p[i + j - 1];
    assert k > 0 ==> p[i..][..j][k - 1] == p[i + k - 1];
    k, j := i + k, i + j;
  }

  /** Normalising twice is normalising once. */
  lemma NewIdempotent(p: string)
    ensures New(New(p)) == New(p)
  {
    var l := TrimLeft(p);
    var r := TrimRight(l);
    var t := TrimColons(r);
    if t != "" {
      TrimLeftStart(p);
      TrimRightPrefix(l);
      TrimColonsEnd(r);
      var n := t + ":";
      assert n[0] == t[0] == r[0] == l[0];
      assert TrimLeft(n) == n;
      assert n[|n| - 1] == ':' && !IsSpace(':');
      assert TrimRight(n) == n;
      assert n[..|n| - 1] == t;
      assert TrimColons(n) == TrimColons(t) == t;
    }
  }

  // ---- record keys ----

  /** The records of the flat store, by kind and id. */
  datatype Rec =
    | SessionRec(id: string) | ServedRec(id: string) | ConsumedRec(id: string)
    | RespCodeRec(code: string) | TokenRec(token: string) | PayloadRec(id: string) | QueueRec

  /** The key text of a record, without the deployment prefix. */
  function Text(r: Rec): string {
    match r
    case SessionRec(id) => "vc:session:" + id
    case ServedRec(id) => "vc:session:" + id + ":served"
    case ConsumedRec(id) => "vc:session:" + id + ":consumed"
    case RespCodeRec(code) => "vc:respcode:" + code
    case TokenRec(token) => "vc:respondtoken:" + token
    case PayloadRec(id) => "vc:handoff:payload:" + id
    case QueueRec => "vc:handoff:queue"
  }

  /** Prefix.Key */
  function Key(prefix: string, r: Rec): string {
    prefix + Text(r)
  }

  /** The family of a record, which the first characters of its key tell apart. */
  function Family(r: Rec): string {
    match r
    case RespCodeRec(_) => "vc:respcode:"
    case TokenRec(_) => "vc:respondtoken:"
    case PayloadRec(_) => "vc:handoff:payload:"
    case QueueRec => "vc:handoff:queue"
    case _ => "vc:session:"
  }

  /** What follows the family. */
  function Rest(r: Rec): string {
    match r
    case SessionRec(id) => id
    case ServedRec(id) => id + ":served"
    case ConsumedRec(id) => id + ":consumed"
    case RespCodeRec(code) => code
    case TokenRec(token) => token
    case PayloadRec(id) => id
    case QueueRec => ""
  }

  lemma TextSplits(r: Rec)
    ensures Text(r) == Family(r) + Rest(r)
  {
    match r
    case ServedRec(id) => assert "vc:session:" + id + ":served" == "vc:session:" + (id + ":served");
    case ConsumedRec(id) => assert "vc:session:" + id + ":consumed" == "vc:session:" + (id + ":consumed");
    case QueueRec => assert "vc:handoff:queue" + "" == "vc:handoff:queue";
    case _ =>
  }

  /** The characters that tell the families apart. */
  lemma Marks(r: Rec)
    ensures var t := Text(r);
      && |t| >= 11
      && t[3] == (match r
                  case RespCodeRec(_) => 'r' case TokenRec(_) => 'r'
                  case PayloadRec(_) => 'h' case QueueRec => 'h'
                  case _ => 's')
      && (r.RespCodeRec? ==> t[7] == 'c') && (r.TokenRec? ==> t[7] == 'o')
      && (r.PayloadRec? ==> |t| > 11 && t[11] == 'p') && (r.QueueRec? ==> |t| > 11 && t[11] == 'q')
  {
    TextSplits(r);
    var f := Family(r);
    assert forall k :: 0 <= k < |f| ==> Text(r)[k] == f[k];
  }

  /** Keys of different families differ at a fixed position. */
  lemma FamiliesDiffer(a: Rec, b: Rec)
    requires Family(a) != Family(b)
    ensures Text(a) != Text(b)
  {
    Marks(a);
    Marks(b);
  }

  lemma SameRest(a: Rec, b: Rec)
    requires Family(a) == Family(b)
    ensures Text(a) == Text(b) <==> Rest(a) == Rest(b)
  {
    TextSplits(a);
    TextSplits(b);
    if Text(a) == Text(b) {
      assert Text(a)[|Family(a)|..] == Rest(a);
      assert Text(b)[|Family(b)|..] == Rest(b);
    }
  }

  /** One session id reads as the marker of another. */
  predicate Shadows(a: Rec, b: Rec) {
    a.SessionRec? && ((b.ServedRec? && a.id == b.id + ":served") || (b.ConsumedRec? && a.id == b.id + ":consumed"))
  }

  /** Exactly which records share a key: for any ids whatever, only a session record and the marker its id
      spells out. */
  lemma KeysCollide(prefix: string, a: Rec, b: Rec)
    ensures Key(prefix, a) == Key(prefix, b) <==> a == b || Shadows(a, b) || Shadows(b, a)
  {
    assert Key(prefix, a) == Key(prefix, b) ==> Text(a) == Text(b) by {
      if Key(prefix, a) == Key(prefix, b) {
        assert Key(prefix, a)[|prefix|..] == Text(a) && Key(prefix, b)[|prefix|..] == Text(b);
      }
    }
    if Family(a) != Family(b) {
      FamiliesDiffer(a, b);
    } else {
      SameRest(a, b);
      RestsCollide(a, b);
    }
  }

  lemma RestsCollide(a: Rec, b: Rec)
    requires Family(a) == Family(b)
    ensures Rest(a) == Rest(b) <==> a == b || Shadows(a, b) || Shadows(b, a)
  {
    if a.ServedRec? && b.ConsumedRec? {
      MarkersDiffer(a.id, b.id);
    } else if a.ConsumedRec? && b.ServedRec? {
      MarkersDiffer(b.id, a.id);
    } else if Rest(a) == Rest(b) {
      if a.ServedRec? && b.ServedRec? {
        assert Rest(a)[..|Rest(a)| - 7] == a.id && Rest(b)[..|Rest(b)| - 7] == b.id;
      } else if a.ConsumedRec? && b.ConsumedRec? {
        assert Rest(a)[..|Rest(a)| - 9] == a.id && Rest(b)[..|Rest(b)| - 9] == b.id;
      }
    }
  }

  /** A served marker never reads as a consumed marker. */
  lemma MarkersDiffer(a: string, b: string)
    ensures a + ":served" != b + ":consumed"
  {
    var x, y := a + ":served", b + ":consumed";
    assert x[|x| - 3] == 'v' && y[|y| - 3] == 'm';
  }

  /** An id or token the service mints: no colon in it. */
  predicate Plain(r: Rec) {
    match r
    case SessionRec(id) => ':' !in id
    case _ => true
  }

  /** Records of minted ids never share a key. */
  lemma KeysDistinct(prefix: string, a: Rec, b: Rec)
    requires Plain(a) && Plain(b) && a != b
    ensures Key(prefix, a) != Key(prefix, b)
  {
    KeysCollide(prefix, a, b);
    NeverShadows(a, b);
    NeverShadows(b, a);
  }

  lemma NeverShadows(a: Rec, b: Rec)
    requires Plain(a)
    ensures !Shadows(a, b)
  {
    if b.ServedRec? {
      ColonInside(b.id, ":served");
    } else if b.ConsumedRec? {
      ColonInside(b.id, ":consumed");
    }
  }

  lemma ColonInside(id: string, suffix: string)
    requires suffix != "" && suffix[0] == ':'
    ensures ':' in id + suffix
  {
    assert (id + suffix)[|id|] == ':';
  }

  predicate EndsIn(s: string, suffix: string) {
    |s| >= |suffix| && s[|s| - |suffix|..] == suffix
  }

  /** The marker that a session id spells out, if it does. */
  function Spelled(id: string): set<Rec> {
    if EndsIn(id, ":served") then {ServedRec(id[..|id| - 7])}
    else if EndsIn(id, ":consumed") then {ConsumedRec(id[..|id| - 9])}
    else {}
  }

  lemma SpelledExactly(id: string, m: Rec)
    ensures m in Spelled(id) <==> Shadows(SessionRec(id), m)
  {
    if EndsIn(id, ":served") {
      assert id == id[..|id| - 7] + ":served";
    }
    if EndsIn(id, ":consumed") {
      assert id == id[..|id| - 9] + ":consumed";
    }
    if m.ServedRec? && id == m.id + ":served" {
      assert id[|id| - 7..] == ":served" && id[..|id| - 7] == m.id;
    }
    if m.ConsumedRec? && id == m.id + ":consumed" {
      assert id[|id| - 9..] == ":consumed" && id[..|id| - 9] == m.id;
    }
    Endings(id);
  }

  /** The two endings differ, and each has a colon in it. */
  lemma Endings(id: string)
    ensures EndsIn(id, ":served") ==> |id| >= 7 && id[|id| - 3] == 'v' && ':' in id
    ensures EndsIn(id, ":consumed") ==> |id| >= 9 && id[|id| - 3] == 'm' && ':' in id
  {
    if EndsIn(id, ":served") {
      var t := id[|id| - 7..];
      assert t[4] == id[|id| - 3] && t[0] == id[|id| - 7];
    }
    if EndsIn(id, ":consumed") {
      var t := id[|id| - 9..];
      assert t[6] == id[|id| - 3] && t[0] == id[|id| - 9];
    }
  }

  lemma MintedSpellsNothing(id: string)
    requires ':' !in id
    ensures Spelled(id) == {}
  {
    Endings(id);
  }

  /** The records, of minted ids, that the key of this record reaches. */
  function Reached(r: Rec): set<Rec> {
    {r} + if r.SessionRec? then Spelled(r.id) else {}
  }

  lemma ReachedExactly(prefix: string, r: Rec, o: Rec)
    requires Plain(o)
    ensures o in Reached(r) <==> Key(prefix, o) == Key(prefix, r)
  {
    KeysCollide(prefix, o, r);
    NeverShadows(o, r);
    if r.SessionRec? {
      SpelledExactly(r.id, o);
    }
  }
}
