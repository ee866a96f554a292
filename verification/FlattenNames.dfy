/** internal/pipeline/report.go, flattenNames: a nested claim map reduced to its sorted dotted leaf names. */
module FlattenNames {
  import opened PipelineTypes

  // ---- the order of sort.Strings ----

  predicate Leq(a: string, b: string) {
    a == [] || (b != [] && (a[0] < b[0] || (a[0] == b[0] && Leq(a[1..], b[1..]))))
  }

  lemma {:induction false} LeqTotal(a: string, b: string)
    ensures Leq(a, b) || Leq(b, a)
    ensures Leq(a, b) && Leq(b, a) ==> a == b
  {
    if a != [] && b != [] && a[0] == b[0] {
      LeqTotal(a[1..], b[1..]);
      assert a == [a[0]] + a[1..] && b == [b[0]] + b[1..];
    }
  }

  lemma SharedStart(a: string, b: string, k: nat)
    requires k < |a| && k < |b| && a[..k] == b[..k]
    ensures k > 0 ==> a[0] == b[0]
  {
    if k > 0 {
      assert a[..k][0] == a[0] && b[..k][0] == b[0];
    }
  }

  /** The order is that of the first character in which the names differ; a name goes before its extensions. */
  lemma {:induction false} LeqExactly(a: string, b: string)
    ensures Leq(a, b) <==> a <= b || exists k :: 0 <= k < |a| && k < |b| && a[..k] == b[..k] && a[k] < b[k]
  {
    if a != [] && b != [] && a[0] == b[0] {
      LeqExactly(a[1..], b[1..]);
      if k :| 0 <= k < |a| && k < |b| && a[..k] == b[..k] && a[k] < b[k] {
        assert k > 0;
        assert a[1..][..k - 1] == a[..k][1..] && b[1..][..k - 1] == b[..k][1..] && a[1..][k - 1] < b[1..][k - 1];
      }
      if k :| 0 <= k < |a[1..]| && k < |b[1..]| && a[1..][..k] == b[1..][..k] && a[1..][k] < b[1..][k] {
        assert a[..k + 1] == [a[0]] + a[1..][..k] && b[..k + 1] == [b[0]] + b[1..][..k] && a[k + 1] < b[k + 1];
      }
    } else if a != [] && b != [] {
      if a[0] < b[0] {
        assert a[..0] == b[..0];
      }
      if k :| 0 <= k < |a| && k < |b| && a[..k] == b[..k] && a[k] < b[k] {
        SharedStart(a, b, k);
      }
    }
  }

  lemma {:induction false} LeqTransitive(a: string, b: string, c: string)
    requires Leq(a, b) && Leq(b, c)
    ensures Leq(a, c)
  {
    if a != [] && a[0] == b[0] && b[0] == c[0] {
      LeqTransitive(a[1..], b[1..], c[1..]);
    }
  }

  ghost predicate Sorted(s: seq<string>) {
    forall i, j :: 0 <= i < j < |s| ==> Leq(s[i], s[j])
  }

  function Insert(x: string, s: seq<string>): seq<string> {
    if s == [] || Leq(x, s[0]) then [x] + s else [s[0]] + Insert(x, s[1..])
  }

  lemma {:induction false} InsertSorts(x: string, s: seq<string>)
    requires Sorted(s)
    ensures Sorted(Insert(x, s)) && multiset(Insert(x, s)) == multiset{x} + multiset(s)
  {
    if s == [] {
    } else if Leq(x, s[0]) {
      forall j | 0 < j < |s| + 1 ensures Leq(x, ([x] + s)[j]) {
        if j > 1 { LeqTransitive(x, s[0], s[j - 1]); }
      }
    } else {
      InsertSorts(x, s[1..]);
      LeqTotal(x, s[0]);
      assert s == [s[0]] + s[1..];
      var t := Insert(x, s[1..]);
      forall j | 0 <= j < |t| ensures Leq(s[0], t[j]) {
        assert t[j] in multiset(t);
        if t[j] != x {
          assert t[j] in multiset(s[1..]);
          var k :| 0 <= k < |s[1..]| && s[1..][k] == t[j];
          assert s[k + 1] == t[j];
        }
      }
    }
  }

  lemma HeadsAgree(a: seq<string>, b: seq<string>)
    requires Sorted(a) && Sorted(b) && multiset(a) == multiset(b) && a != [] && b != []
    ensures a[0] == b[0]
  {
    assert a[0] in multiset(a) && b[0] in multiset(b);
    HeadIsLeast(a, b[0]);
    HeadIsLeast(b, a[0]);
    LeqTotal(a[0], b[0]);
  }

  lemma TailBag(a: seq<string>)
    requires a != []
    ensures multiset(a[1..]) == multiset(a) - multiset{a[0]}
  {
    assert a == [a[0]] + a[1..];
  }

  /** A sorted sequence is determined by its multiset of elements. */
  lemma {:induction false} SortedUnique(a: seq<string>, b: seq<string>)
    requires Sorted(a) && Sorted(b) && multiset(a) == multiset(b)
    ensures a == b
  {
    assert |a| == |multiset(a)| && |b| == |multiset(b)|;
    if a != [] {
      HeadsAgree(a, b);
      TailBag(a);
      TailBag(b);
      SortedUnique(a[1..], b[1..]);
      assert a == [a[0]] + a[1..] && b == [b[0]] + b[1..];
    }
  }

  lemma HeadIsLeast(a: seq<string>, x: string)
    requires Sorted(a) && x in a
    ensures Leq(a[0], x)
  {
    LeqTotal(x, x);
  }

  /** sort.Strings */
  method SortStrings(s: seq<string>) returns (t: seq<string>)
    ensures Sorted(t) && multiset(t) == multiset(s)
  {
    t := [];
    for i := 0 to |s|
      invariant Sorted(t) && multiset(t) == multiset(s[..i])
    {
      InsertSorts(s[i], t);
      t := Insert(s[i], t);
      assert s[..i + 1] == s[..i] + [s[i]];
    }
    assert s[..|s|] == s;
  }

  /** The sorted sequence of a multiset. */
  ghost function SortedOf(b: multiset<string>): (s: seq<string>)
    ensures Sorted(s) && multiset(s) == b
    decreases |b|
  {
    if b == multiset{} then []
    else
      var x :| x in b;
      var t := SortedOf(b - multiset{x});
      InsertSorts(x, t);
      assert b == multiset{x} + (b - multiset{x});
      Insert(x, t)
  }

  // ---- the names of a claim tree ----

  function Dot(prefix: string, k: string): string {
    if prefix != "" then prefix + "." + k else k
  }

  /** The names one entry contributes. */
  ghost function Entry(v: Node, name: string): multiset<string>
    decreases v, if v.Sub? then |v.members.Keys| + 1 else 0
  {
    if v.Sub? then Bag(v, v.members.Keys, name) else multiset{name}
  }

  /** All names under the given keys, with multiplicity; the order in which keys are taken is arbitrary. */
  ghost function Bag(n: Node, keys: set<string>, prefix: string): multiset<string>
    requires n.Sub? && keys <= n.members.Keys
    decreases n, |keys|
  {
    if keys == {} then multiset{}
    else
      var k :| k in keys;
      Entry(n.members[k], Dot(prefix, k)) + Bag(n, keys - {k}, prefix)
  }

  /** Any key may be taken first. */
  lemma {:induction false} BagTake(n: Node, keys: set<string>, prefix: string, k: string)
    requires n.Sub? && keys <= n.members.Keys && k in keys
    ensures Bag(n, keys, prefix) == Entry(n.members[k], Dot(prefix, k)) + Bag(n, keys - {k}, prefix)
    decreases |keys|
  {
    var k0 :| k0 in keys && Bag(n, keys, prefix) == Entry(n.members[k0], Dot(prefix, k0)) + Bag(n, keys - {k0}, prefix);
    if k != k0 {
      BagTake(n, keys - {k0}, prefix, k);
      BagTake(n, keys - {k}, prefix, k0);
      assert keys - {k0} - {k} == keys - {k} - {k0};
    }
  }

  /** The one result: the sorted dotted leaf names. */
  ghost function Names(claims: map<string, Node>, prefix: string): seq<string> {
    SortedOf(Bag(Sub(claims), claims.Keys, prefix))
  }

  /** flattenNames on a nested map. The loop takes the keys in any order; the result is the same. */
  method FlattenNames(n: Node, prefix: string) returns (out: seq<string>)
    requires n.Sub?
    ensures out == Names(n.members, prefix)
    decreases n
  {
    out := [];
    var todo := n.members.Keys;
    while todo != {}
      invariant todo <= n.members.Keys
      invariant multiset(out) + Bag(n, todo, prefix) == Bag(n, n.members.Keys, prefix)
      decreases |todo|
    {
      var k :| k in todo;
      BagTake(n, todo, prefix, k);
      var v := n.members[k];
      var name := k;
      if prefix != "" {
        name := prefix + "." + k;
      }
      if v.Sub? {
        var sub := FlattenNames(v, name);
        out := out + sub;
      } else {
        out := out + [name];
      }
      todo := todo - {k};
    }
    out := SortStrings(out);
    assert n == Sub(n.members);
    SortedUnique(out, Names(n.members, prefix));
  }

  // ---- what the names say, and what they leave out ----

  /** A path of keys that ends in a claim that is not a map. */
  ghost predicate LeafPath(n: Node, path: seq<string>)
    decreases |path|
  {
    if path == [] then n.Leaf?
    else n.Sub? && path[0] in n.members && LeafPath(n.members[path[0]], path[1..])
  }

  function Dotted(prefix: string, path: seq<string>): string
    decreases |path|
  {
    if path == [] then prefix
    else Dotted(if prefix == "" then path[0] else prefix + "." + path[0], path[1..])
  }

  /** Path leads from n through one of the keys to a leaf named x. */
  ghost predicate Reaches(n: Node, keys: set<string>, prefix: string, path: seq<string>, x: string) {
    path != [] && path[0] in keys && LeafPath(n, path) && Dotted(prefix, path) == x
  }

  /** What is left of a path after its first key. */
  lemma PathThrough(n: Node, keys: set<string>, prefix: string, path: seq<string>, x: string)
    requires n.Sub? && keys <= n.members.Keys && Reaches(n, keys, prefix, path, x)
    ensures var v, name := n.members[path[0]], Dot(prefix, path[0]);
      if v.Sub? then Reaches(v, v.members.Keys, name, path[1..], x) else name == x
  {
    var v, name := n.members[path[0]], Dot(prefix, path[0]);
    assert LeafPath(v, path[1..]);
    assert Dotted(prefix, path) == Dotted(name, path[1..]);
  }

  /** The names are exactly the dotted paths that end in a leaf: no leaf is lost, no inner map is named. */
  lemma {:induction false} NamesAreLeafPaths(n: Node, keys: set<string>, prefix: string, x: string)
    requires n.Sub? && keys <= n.members.Keys
    ensures x in Bag(n, keys, prefix) <==> exists path :: Reaches(n, keys, prefix, path, x)
    decreases n, |keys|
  {
    if keys != {} {
      var k :| k in keys;
      BagTake(n, keys, prefix, k);
      NamesAreLeafPaths(n, keys - {k}, prefix, x);
      var v := n.members[k];
      if x in Entry(v, Dot(prefix, k)) {
        if v.Sub? {
          NamesAreLeafPaths(v, v.members.Keys, Dot(prefix, k), x);
          var path :| Reaches(v, v.members.Keys, Dot(prefix, k), path, x);
          assert ([k] + path)[1..] == path;
          assert Reaches(n, keys, prefix, [k] + path, x);
        } else {
          assert [k][1..] == [];
          assert Dotted(prefix, [k]) == Dotted(Dot(prefix, k), []);
          assert Reaches(n, keys, prefix, [k], x);
        }
      } else if x in Bag(n, keys - {k}, prefix) {
        var path :| Reaches(n, keys - {k}, prefix, path, x);
        assert Reaches(n, keys, prefix, path, x);
      }
      forall path | Reaches(n, keys, prefix, path, x) ensures x in Bag(n, keys, prefix) {
        if path[0] == k {
          PathThrough(n, keys, prefix, path, x);
          if v.Sub? {
            NamesAreLeafPaths(v, v.members.Keys, Dot(prefix, k), x);
          }
        } else {
          assert Reaches(n, keys - {k}, prefix, path, x);
        }
      }
    }
  }

  /** Two claims of equal key structure, whatever their values. */
  ghost predicate SameShape(a: Node, b: Node)
    decreases a
  {
    match a
    case Leaf(_) => b.Leaf?
    case Sub(am) => b.Sub? && am.Keys == b.members.Keys && forall k :: k in am ==> SameShape(am[k], b.members[k])
  }

  /** Equal key structure, equal names. */
  lemma {:induction false} ShapeDecidesNames(a: Node, b: Node, keys: set<string>, prefix: string)
    requires a.Sub? && SameShape(a, b) && keys <= a.members.Keys
    ensures Bag(a, keys, prefix) == Bag(b, keys, prefix)
    decreases a, |keys|
  {
    if keys != {} {
      var k :| k in keys;
      BagTake(a, keys, prefix, k);
      BagTake(b, keys, prefix, k);
      ShapeDecidesNames(a, b, keys - {k}, prefix);
      if a.members[k].Sub? {
        ShapeDecidesNames(a.members[k], b.members[k], a.members[k].members.Keys, Dot(prefix, k));
      }
    }
  }

  /** A report says nothing about claim values: two claim maps of equal key structure give one name list. */
  lemma ReportIsValueFree(a: map<string, Node>, b: map<string, Node>, prefix: string)
    requires SameShape(Sub(a), Sub(b))
    ensures Names(a, prefix) == Names(b, prefix)
  {
    ShapeDecidesNames(Sub(a), Sub(b), a.Keys, prefix);
  }
}
