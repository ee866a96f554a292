/** internal/testwallet/statuslist.go: an in-memory authority of status lists, one bit per index, packed from
    the least significant bit of each byte (section 4.1 of draft-ietf-oauth-status-list). */
module StatusList {

  datatype ListRef = ListRef(uri: string, index: int)

  const DEFAULT_URI: string := "https://status.test/1"

  /** The bit at this position of a byte, alone. */
  function Mask(k: nat): bv8
    requires k < 8
  {
    if k == 0 then 1 else if k == 1 then 2 else if k == 2 then 4 else if k == 3 then 8
    else if k == 4 then 16 else if k == 5 then 32 else if k == 6 then 64 else 128
  }

  predicate BitOf(b: bv8, k: nat)
    requires k < 8
  {
    b & Mask(k) != 0
  }

  /** Whether index i of a packed list is set; an index past its end is not. */
  predicate Bit(list: seq<bv8>, i: nat) {
    i / 8 < |list| && BitOf(list[i / 8], i % 8)
  }

  lemma ShiftIsMask(k: nat)
    requires k < 8
    ensures (1 as bv8) << k == Mask(k)
  {
    assert (1 as bv8) << 0 == 1 && (1 as bv8) << 1 == 2 && (1 as bv8) << 2 == 4 && (1 as bv8) << 3 == 8;
    assert (1 as bv8) << 4 == 16 && (1 as bv8) << 5 == 32 && (1 as bv8) << 6 == 64 && (1 as bv8) << 7 == 128;
  }

  /** Setting one bit of a byte sets that bit and no other. */
  lemma OrSetsOne(b: bv8, k: nat, j: nat)
    requires k < 8 && j < 8
    ensures BitOf(b | Mask(k), j) <==> j == k || BitOf(b, j)
  {
    if j == k {
      assert (b | Mask(k)) & Mask(k) == Mask(k);
    } else {
      assert Mask(k) & Mask(j) == 0;
      assert (b | Mask(k)) & Mask(j) == (b & Mask(j)) | (Mask(k) & Mask(j));
    }
  }

  /** What Revoke makes of a list; an index past its end is ignored. */
  function Revoked(list: seq<bv8>, i: nat): seq<bv8> {
    if i / 8 < |list| then list[i / 8 := list[i / 8] | Mask(i % 8)] else list
  }

  /** Revoking sets exactly the bit of that index, if the list has one. */
  lemma RevokedSetsOne(list: seq<bv8>, i: nat, j: nat)
    ensures |Revoked(list, i)| == |list|
    ensures Bit(Revoked(list, i), j) <==> Bit(list, j) || (j == i && i / 8 < |list|)
  {
    if i / 8 < |list| && j / 8 == i / 8 {
      OrSetsOne(list[i / 8], i % 8, j % 8);
      assert j % 8 == i % 8 <==> j == i;
    }
  }

  /** A bit of this list is set iff its index was revoked and lies within the list. */
  ghost predicate Matches(uri: string, list: seq<bv8>, revoked: set<ListRef>) {
    forall i: nat :: Bit(list, i) <==> ListRef(uri, i) in revoked && i / 8 < |list|
  }

  lemma RevokedMatches(uri: string, list: seq<bv8>, revoked: set<ListRef>, ref: ListRef)
    requires Matches(uri, list, revoked) && ref.index >= 0
    ensures Matches(uri, if uri == ref.uri then Revoked(list, ref.index) else list, revoked + {ref})
  {
    var after := if uri == ref.uri then Revoked(list, ref.index) else list;
    forall i: nat ensures Bit(after, i) <==> ListRef(uri, i) in revoked + {ref} && i / 8 < |list| {
      assert Bit(list, i) <==> ListRef(uri, i) in revoked && i / 8 < |list|;
      RevokedSetsOne(list, ref.index, i);
    }
  }

  method OneAt(k: nat) returns (m: bv8)
    requires k < 8
    ensures m == Mask(k)
  {
    ShiftIsMask(k);
    m := (1 as bv8) << k;
  }

  method SetBit(list: array<bv8>, i: nat)
    requires i / 8 < list.Length
    modifies list
    ensures list[..] == Revoked(old(list[..]), i)
  {
    var one := OneAt(i % 8);
    list[i / 8] := list[i / 8] | one;
  }

  class StatusLists {
    var lists: map<string, array<bv8>>
    var nextIdx: map<string, int>
    ghost var revoked: set<ListRef>
    ghost var issued: set<ListRef>

    ghost function Arrays(): set<array<bv8>>
      reads this
    {
      lists.Values
    }

    /** In every list, a bit is set iff its index was revoked and lies within the list; what was issued
        lies below the counter. */
    ghost predicate Valid()
      reads this, Arrays()
    {
      && DEFAULT_URI in lists
      && (forall u, v :: u in lists && v in lists && u != v ==> lists[u] != lists[v])
      && (forall u :: u in lists ==> Matches(u, lists[u][..], revoked))
      && (forall r :: r in issued ==> r.uri == DEFAULT_URI && 0 <= r.index < Next())
      && 0 <= Next()
    }

    function Next(): int
      reads this
    {
      if DEFAULT_URI in nextIdx then nextIdx[DEFAULT_URI] else 0
    }

    constructor ()
      ensures Valid() && revoked == {} && issued == {} && fresh(Arrays())
    {
      var bits := new bv8[1024](_ => 0);
      lists, nextIdx, revoked, issued := map[DEFAULT_URI := bits], map[], {}, {};
      new;
      forall i: nat ensures !Bit(bits[..], i) {
        if i / 8 < 1024 {
          assert bits[..][i / 8] == 0;
        }
      }
    }

    /** A reference never handed out before; no list changes. */
    method NewRef() returns (r: ListRef)
      requires Valid()
      modifies this
      ensures Valid() && lists == old(lists) && revoked == old(revoked)
      ensures r.uri == DEFAULT_URI && 0 <= r.index && r !in old(issued) && issued == old(issued) + {r}
    {
      var idx := Next();
      nextIdx := nextIdx[DEFAULT_URI := idx + 1];
      r := ListRef(DEFAULT_URI, idx);
      issued := issued + {r};
    }

    /** The bit of that reference is set, and no other bit of any list changes; a reference to an unknown
        list or past its end changes nothing. A negative index panics in the original. */
    method Revoke(ref: ListRef)
      requires Valid() && ref.index >= 0
      modifies this`revoked, Arrays()
      ensures Valid() && revoked == old(revoked) + {ref}
      ensures forall u :: u in lists ==>
        lists[u][..] == if u == ref.uri then Revoked(old(lists[u][..]), ref.index) else old(lists[u][..])
    {
      if ref.uri in lists && ref.index / 8 < lists[ref.uri].Length {
        SetBit(lists[ref.uri], ref.index);
      }
      revoked := revoked + {ref};
      forall u | u in lists ensures Matches(u, lists[u][..], revoked) {
        RevokedMatches(u, old(lists[u][..]), old(revoked), ref);
      }
    }
  }
}
