/** Keeping the first element of each key, in order; elements without a key are always kept. */
module Distinct {
  import opened Wrappers

  predicate Repeats<T, K(==)>(earlier: seq<T>, key: T -> Option<K>, x: T) {
    key(x).Some? && exists i :: 0 <= i < |earlier| && key(earlier[i]) == key(x)
  }

  function KeepFirst<T, K(==)>(xs: seq<T>, key: T -> Option<K>): seq<T> {
    if xs == [] then []
    else
      var earlier, x := xs[..|xs| - 1], xs[|xs| - 1];
      if Repeats(earlier, key, x) then KeepFirst(earlier, key) else KeepFirst(earlier, key) + [x]
  }

  predicate HaveDistinctKeys<T, K(==)>(xs: seq<T>, key: T -> Option<K>) {
    forall m, n :: 0 <= m < n < |xs| && key(xs[n]).Some? ==> key(xs[m]) != key(xs[n])
  }

  // The positions at, in order, spell kept, and are exactly those whose key does not occur earlier.
  ghost predicate Selects<T, K>(at: seq<nat>, xs: seq<T>, key: T -> Option<K>, kept: seq<T>) {
    && |at| == |kept|
    && (forall m, n :: 0 <= m < n < |at| ==> at[m] < at[n])
    && (forall n :: 0 <= n < |at| ==> at[n] < |xs| && kept[n] == xs[at[n]])
    && (forall i :: 0 <= i < |xs| ==> (i in at <==> !Repeats(xs[..i], key, xs[i])))
  }

  lemma SelectsMore<T, K>(at: seq<nat>, xs: seq<T>, key: T -> Option<K>, kept: seq<T>, x: T)
    requires Selects(at, xs, key, kept)
    ensures Repeats(xs, key, x) ==> Selects(at, xs + [x], key, kept)
    ensures !Repeats(xs, key, x) ==> Selects(at + [|xs|], xs + [x], key, kept + [x])
  {
    assert forall i :: 0 <= i <= |xs| ==> (xs + [x])[..i] == xs[..i];
    assert xs[..|xs|] == xs;
  }

  lemma {:induction false} KeptExactly<T, K>(xs: seq<T>, key: T -> Option<K>) returns (at: seq<nat>)
    ensures Selects(at, xs, key, KeepFirst(xs, key))
  {
    if xs == [] {
      at := [];
    } else {
      var earlier, x := xs[..|xs| - 1], xs[|xs| - 1];
      at := KeptExactly(earlier, key);
      SelectsMore(at, earlier, key, KeepFirst(earlier, key), x);
      assert xs == earlier + [x];
      if !Repeats(earlier, key, x) {
        at := at + [|earlier|];
      }
    }
  }

  // No key is lost.
  lemma {:induction false} KeysSurvive<T, K>(xs: seq<T>, key: T -> Option<K>, k: K)
    ensures (exists x :: x in xs && key(x) == Some(k)) <==> (exists x :: x in KeepFirst(xs, key) && key(x) == Some(k))
  {
    if xs != [] {
      var earlier, x := xs[..|xs| - 1], xs[|xs| - 1];
      assert xs == earlier + [x];
      KeysSurvive(earlier, key, k);
      if key(x) == Some(k) {
        if Repeats(earlier, key, x) {
          var i :| 0 <= i < |earlier| && key(earlier[i]) == key(x);
          assert earlier[i] in earlier;
        } else {
          assert x in KeepFirst(xs, key);
        }
      }
    }
  }

  // Kept elements have pairwise different keys.
  lemma {:induction false} KeptAreDistinct<T, K>(xs: seq<T>, key: T -> Option<K>)
    ensures HaveDistinctKeys(KeepFirst(xs, key), key)
  {
    var at := KeptExactly(xs, key);
    var kept := KeepFirst(xs, key);
    forall m, n | 0 <= m < n < |kept| && key(kept[n]).Some? ensures key(kept[m]) != key(kept[n]) {
      assert at[n] in at && !Repeats(xs[..at[n]], key, xs[at[n]]);
      assert xs[..at[n]][at[m]] == kept[m];
    }
  }

  lemma {:induction false} DistinctAreKept<T, K>(xs: seq<T>, key: T -> Option<K>)
    requires HaveDistinctKeys(xs, key)
    ensures KeepFirst(xs, key) == xs
  {
    if xs != [] {
      var earlier := xs[..|xs| - 1];
      DistinctAreKept(earlier, key);
      assert xs == earlier + [xs[|xs| - 1]];
    }
  }

  lemma {:induction false} KeptIsNoLonger<T, K>(xs: seq<T>, key: T -> Option<K>)
    ensures |KeepFirst(xs, key)| <= |xs| && (|KeepFirst(xs, key)| == |xs| ==> KeepFirst(xs, key) == xs)
  {
    if xs != [] {
      var earlier := xs[..|xs| - 1];
      KeptIsNoLonger(earlier, key);
      assert xs == earlier + [xs[|xs| - 1]];
    }
  }

  // A second pass changes nothing.
  lemma KeepFirstIsIdempotent<T, K>(xs: seq<T>, key: T -> Option<K>)
    ensures KeepFirst(KeepFirst(xs, key), key) == KeepFirst(xs, key)
  {
    KeptAreDistinct(xs, key);
    DistinctAreKept(KeepFirst(xs, key), key);
  }
}
