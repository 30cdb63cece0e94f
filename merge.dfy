/** `mergeUniqueUsers` of the friends page: `json1` followed by the elements
    of `json2` whose `id` is neither in `json1` nor already appended. The
    element type and the `id` field are left abstract: `id` is a key
    function. */
module FriendMerge {
  import opened Keyed

  /** The merged list. */
  function Merged<T, K(==)>(json1: seq<T>, json2: seq<T>, id: T -> K): seq<T>
  {
    json1 + Fresh(KeySet(json1, id), json2, id)
  }

  /** Copies `json1`, seeds `idsSet` with its ids, then pushes every element
      of `json2` whose id is not yet in `idsSet` (AllFriends.tsx:71-83). */
  method MergeUniqueUsers<T, K(==)>(json1: seq<T>, json2: seq<T>, id: T -> K) returns (merged: seq<T>)
    ensures merged == Merged(json1, json2, id)
    ensures merged[..|json1|] == json1
  {
    merged := json1;
    var idsSet := KeySet(json1, id);
    ghost var seen := idsSet;
    assert json2[..0] == [];
    for i := 0 to |json2|
      invariant merged == json1 + Fresh(seen, json2[..i], id)
      invariant idsSet == seen + KeySet(json2[..i], id)
    {
      var user := json2[i];
      assert json2[..i + 1][..i] == json2[..i];
      KeySetAppend(json2[..i], [user], id);
      KeySetSingleton(user, id);
      assert json2[..i + 1] == json2[..i] + [user];
      if id(user) !in idsSet {
        merged := merged + [user];
      }
      idsSet := idsSet + {id(user)};
    }
    assert json2[..|json2|] == json2;
  }

  /** The element at position k of `json2` is appended exactly when its id is
      neither in `json1` nor the id of an earlier element of `json2`. */
  lemma AppendedIff<T, K>(json1: seq<T>, json2: seq<T>, id: T -> K, k: nat)
    requires k < |json2|
    ensures var seen := KeySet(json1, id);
      Fresh(seen, json2[..k + 1], id) == Fresh(seen, json2[..k], id) + [json2[k]]
      <==> id(json2[k]) !in seen && id(json2[k]) !in KeySet(json2[..k], id)
  {
    var seen := KeySet(json1, id);
    assert json2[..k + 1][..k] == json2[..k];
    if id(json2[k]) in seen || id(json2[k]) in KeySet(json2[..k], id) {
      assert |Fresh(seen, json2[..k + 1], id)| == |Fresh(seen, json2[..k], id)|;
    }
  }

  /** `json1` is never shortened and at most all of `json2` is added. */
  lemma MergedLength<T, K>(json1: seq<T>, json2: seq<T>, id: T -> K)
    ensures |json1| <= |Merged(json1, json2, id)| <= |json1| + |json2|
  {
    FreshFacts(KeySet(json1, id), json2, id);
  }

  /** Every id of either input occurs in the result, and no other. */
  lemma MergedIds<T, K>(json1: seq<T>, json2: seq<T>, id: T -> K)
    ensures KeySet(Merged(json1, json2, id), id) == KeySet(json1, id) + KeySet(json2, id)
  {
    FreshFacts(KeySet(json1, id), json2, id);
    KeySetAppend(json1, Fresh(KeySet(json1, id), json2, id), id);
  }

  /** If `json1` has pairwise-distinct ids, so has the result. */
  lemma MergedDistinct<T, K>(json1: seq<T>, json2: seq<T>, id: T -> K)
    requires DistinctKeys(json1, id)
    ensures DistinctKeys(Merged(json1, json2, id), id)
  {
    var added := Fresh(KeySet(json1, id), json2, id);
    var m := Merged(json1, json2, id);
    FreshFacts(KeySet(json1, id), json2, id);
    forall i, j | 0 <= i < j < |m| ensures id(m[i]) != id(m[j]) {
      if j < |json1| {
        assert m[i] == json1[i] && m[j] == json1[j];
      } else if i < |json1| {
        InKeySet(json1, id, i);
        assert m[i] == json1[i] && m[j] == added[j - |json1|];
      } else {
        assert m[i] == added[i - |json1|] && m[j] == added[j - |json1|];
      }
    }
  }
}
