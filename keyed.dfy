/** First-occurrence deduplication by a key, the pattern behind every
    `Set`/`Map`-guarded push in the engine: keep an element when its key is
    neither in a given seen-set nor the key of an earlier element. */
module Keyed {

  /** The keys of the elements of `xs`. */
  function KeySet<T, K(==)>(xs: seq<T>, key: T -> K): set<K>
  {
    set i | 0 <= i < |xs| :: key(xs[i])
  }

  /** The identity, as a key: `DistinctKeys(ks, Itself)` says the elements
      of `ks` themselves are pairwise distinct. */
  function Itself<K>(k: K): K { k }

  /** The keys of `xs` are pairwise distinct. */
  predicate DistinctKeys<T, K(==)>(xs: seq<T>, key: T -> K)
  {
    forall i, j :: 0 <= i < j < |xs| ==> key(xs[i]) != key(xs[j])
  }

  /** The elements of `xs`, in order, whose key is not in `seen` and not the
      key of an earlier element of `xs`. */
  function Fresh<T, K(==)>(seen: set<K>, xs: seq<T>, key: T -> K): seq<T>
  {
    if xs == [] then []
    else
      var init, x := xs[..|xs| - 1], xs[|xs| - 1];
      Fresh(seen, init, key) + (if key(x) in seen || key(x) in KeySet(init, key) then [] else [x])
  }

  lemma InKeySet<T, K>(xs: seq<T>, key: T -> K, i: int)
    requires 0 <= i < |xs|
    ensures key(xs[i]) in KeySet(xs, key)
  {
  }

  lemma KeySetSingleton<T, K>(x: T, key: T -> K)
    ensures KeySet([x], key) == {key(x)}
  {
    assert [x][0] == x;
  }

  lemma KeySetAppend<T, K>(a: seq<T>, b: seq<T>, key: T -> K)
    ensures KeySet(a + b, key) == KeySet(a, key) + KeySet(b, key)
  {
    var ab := a + b;
    forall k | k in KeySet(ab, key) ensures k in KeySet(a, key) + KeySet(b, key) {
      var i :| 0 <= i < |ab| && key(ab[i]) == k;
      if i >= |a| { assert ab[i] == b[i - |a|]; }
    }
    forall k | k in KeySet(a, key) + KeySet(b, key) ensures k in KeySet(ab, key) {
      if k in KeySet(a, key) {
        var i :| 0 <= i < |a| && key(a[i]) == k;
        assert ab[i] == a[i];
      } else {
        var i :| 0 <= i < |b| && key(b[i]) == k;
        assert ab[|a| + i] == b[i];
      }
    }
  }

  /** Pushing one element: it is kept exactly when its key is new, and its
      key joins the seen keys. */
  lemma FreshSnoc<T, K>(xs: seq<T>, x: T, key: T -> K)
    ensures Fresh({}, xs + [x], key) == Fresh({}, xs, key) + (if key(x) in KeySet(xs, key) then [] else [x])
    ensures KeySet(xs + [x], key) == KeySet(xs, key) + {key(x)}
  {
    assert (xs + [x])[..|xs|] == xs;
    KeySetAppend(xs, [x], key);
    KeySetSingleton(x, key);
  }

  /** Pushes each element of `xs` whose key is not yet in `seen0`, adding
      its key: the `Set`/`Map`-guarded `forEach` of the source. */
  method PushUnseen<T, K(==)>(xs: seq<T>, key: T -> K, out0: seq<T>, seen0: set<K>, ghost before: seq<T>)
    returns (out: seq<T>, seen: set<K>)
    requires out0 == Fresh({}, before, key) && seen0 == KeySet(before, key)
    ensures out == Fresh({}, before + xs, key) && seen == KeySet(before + xs, key)
  {
    out, seen := out0, seen0;
    assert before + xs[..0] == before;
    for j := 0 to |xs|
      invariant out == Fresh({}, before + xs[..j], key)
      invariant seen == KeySet(before + xs[..j], key)
    {
      var x := xs[j];
      assert before + xs[..j + 1] == (before + xs[..j]) + [x];
      FreshSnoc(before + xs[..j], x, key);
      if key(x) !in seen {
        out := out + [x];
      }
      seen := seen + {key(x)};
    }
    assert xs[..|xs|] == xs;
  }

  /** Keys of the kept elements: exactly the keys of `xs` not already seen,
      each once; every kept element comes from `xs`. */
  lemma {:induction false} FreshFacts<T, K>(seen: set<K>, xs: seq<T>, key: T -> K)
    ensures KeySet(Fresh(seen, xs, key), key) == KeySet(xs, key) - seen
    ensures DistinctKeys(Fresh(seen, xs, key), key)
    ensures forall x :: x in Fresh(seen, xs, key) ==> x in xs
    ensures |Fresh(seen, xs, key)| <= |xs|
    ensures forall i :: 0 <= i < |Fresh(seen, xs, key)| ==>
      key(Fresh(seen, xs, key)[i]) in KeySet(xs, key) && key(Fresh(seen, xs, key)[i]) !in seen
  {
    if xs != [] {
      var init, x := xs[..|xs| - 1], xs[|xs| - 1];
      assert xs == init + [x];
      FreshFacts(seen, init, key);
      KeySetAppend(init, [x], key);
      assert KeySet([x], key) == {key(x)};
      var f := Fresh(seen, init, key);
      if !(key(x) in seen || key(x) in KeySet(init, key)) {
        KeySetAppend(f, [x], key);
        assert KeySet([x], key) == {key(x)};
        assert key(x) !in KeySet(f, key);
        assert Fresh(seen, xs, key) == f + [x];
        assert KeySet(f + [x], key) == KeySet(init, key) - seen + {key(x)};
        forall i, j | 0 <= i < j < |f + [x]| ensures key((f + [x])[i]) != key((f + [x])[j]) {
          if j == |f| { assert key(f[i]) in KeySet(f, key); }
        }
      } else {
        assert Fresh(seen, xs, key) == f;
        assert KeySet(xs, key) == KeySet(init, key) + {key(x)};
      }
    }
  }

  /** Processing `a` then `b` is processing `a + b`: the result for a prefix is
      a prefix of the result (discovery order), and an element of `b` is kept
      iff its key was not seen and not in `a`. */
  lemma {:induction false} FreshAppend<T, K>(seen: set<K>, a: seq<T>, b: seq<T>, key: T -> K)
    ensures Fresh(seen, a + b, key) == Fresh(seen, a, key) + Fresh(seen + KeySet(a, key), b, key)
  {
    if b == [] {
      assert a + b == a;
    } else {
      var init, y := b[..|b| - 1], b[|b| - 1];
      assert b == init + [y];
      assert (a + b)[..|a + b| - 1] == a + init;
      FreshAppend(seen, a, init, key);
      KeySetAppend(a, init, key);
    }
  }

  /** With no key seen beforehand, deduplication is the identity on a list
      whose keys are already distinct. */
  lemma {:induction false} FreshOfDistinct<T, K>(seen: set<K>, xs: seq<T>, key: T -> K)
    requires DistinctKeys(xs, key)
    requires KeySet(xs, key) !! seen
    ensures Fresh(seen, xs, key) == xs
  {
    if xs != [] {
      var init, x := xs[..|xs| - 1], xs[|xs| - 1];
      assert xs == init + [x];
      KeySetAppend(init, [x], key);
      KeySetSingleton(x, key);
      assert DistinctKeys(init, key) by {
        forall i, j | 0 <= i < j < |init| ensures key(init[i]) != key(init[j]) {
          assert init[i] == xs[i] && init[j] == xs[j];
        }
      }
      FreshOfDistinct(seen, init, key);
      forall i | 0 <= i < |init| ensures key(init[i]) != key(x) {
        assert init[i] == xs[i];
      }
      assert key(x) !in KeySet(init, key);
    }
  }
}
