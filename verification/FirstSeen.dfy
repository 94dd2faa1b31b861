/** Deduplication that keeps the first element of every key: what a Python dictionary
    filled with `setdefault`, or a `seen` set beside a list, leaves behind. */
module FirstSeen {

  /** The positions whose key has not occurred before, in increasing order. */
  function Firsts(keys: seq<string>): (r: seq<nat>)
    ensures forall k :: 0 <= k < |r| ==> r[k] < |keys|
  {
    if keys == [] then [] else
      var n := |keys| - 1;
      var front := Firsts(keys[..n]);
      if keys[n] in keys[..n] then front else front + [n]
  }

  lemma {:induction false} FirstsIncrease(keys: seq<string>)
    ensures forall k, l :: 0 <= k < l < |Firsts(keys)| ==> Firsts(keys)[k] < Firsts(keys)[l]
  {
    if keys != [] {
      FirstsIncrease(keys[..|keys| - 1]);
    }
  }

  ghost predicate IsFirst(keys: seq<string>, i: int) {
    0 <= i < |keys| && keys[i] !in keys[..i]
  }

  lemma {:induction false} FirstsMeaning(keys: seq<string>)
    ensures forall i :: i in Firsts(keys) <==> IsFirst(keys, i)
  {
    if keys != [] {
      var n := |keys| - 1;
      FirstsMeaning(keys[..n]);
      forall i | 0 <= i < n
        ensures IsFirst(keys, i) <==> IsFirst(keys[..n], i)
      {
        assert keys[..n][..i] == keys[..i];
      }
      assert IsFirst(keys, n) <==> keys[n] !in keys[..n];
    }
  }

  /** The elements of `xs` whose key is new where they stand, in order. */
  function Keep<T>(xs: seq<T>, keys: seq<string>): seq<T>
    requires |xs| == |keys|
  {
    if xs == [] then [] else
      var n := |xs| - 1;
      var front := Keep(xs[..n], keys[..n]);
      if keys[n] in keys[..n] then front else front + [xs[n]]
  }

  /** `Keep` takes exactly the first positions. */
  lemma {:induction false} KeepIsFirsts<T>(xs: seq<T>, keys: seq<string>)
    requires |xs| == |keys|
    ensures |Keep(xs, keys)| == |Firsts(keys)|
    ensures forall k :: 0 <= k < |Firsts(keys)| ==> Keep(xs, keys)[k] == xs[Firsts(keys)[k]]
  {
    if xs != [] {
      KeepIsFirsts(xs[..|xs| - 1], keys[..|xs| - 1]);
    }
  }

  /** One more element: kept exactly when its key is new. */
  lemma KeepSnoc<T>(xs: seq<T>, keys: seq<string>, x: T, key: string)
    requires |xs| == |keys|
    ensures Keep(xs + [x], keys + [key]) == if key in keys then Keep(xs, keys) else Keep(xs, keys) + [x]
  {
    assert (keys + [key])[..|keys|] == keys && (xs + [x])[..|xs|] == xs;
  }

  /** Deduplicating a prefix gives a prefix of deduplicating the whole. */
  lemma {:induction false} KeepPrefix<T>(xs: seq<T>, keys: seq<string>, n: nat)
    requires |xs| == |keys| && n <= |xs|
    ensures Keep(xs[..n], keys[..n]) <= Keep(xs, keys)
  {
    var m := |xs| - 1;
    if n <= m {
      KeepPrefix(xs[..m], keys[..m], n);
      assert xs[..m][..n] == xs[..n] && keys[..m][..n] == keys[..n];
    } else {
      assert xs[..n] == xs && keys[..n] == keys;
    }
  }

  /** Every key survives exactly once. */
  lemma {:induction false} KeptKeys(keys: seq<string>)
    ensures forall key :: key in keys <==> key in Keep(keys, keys)
    ensures forall k, l :: 0 <= k < l < |Keep(keys, keys)| ==> Keep(keys, keys)[k] != Keep(keys, keys)[l]
  {
    if keys != [] {
      KeptKeys(keys[..|keys| - 1]);
    }
  }

  /** Whatever is done to every element after, is the same done before. */
  lemma {:induction false} KeepMaps<T, U>(xs: seq<T>, ys: seq<U>, keys: seq<string>, f: T -> U)
    requires |xs| == |ys| == |keys|
    requires forall i :: 0 <= i < |xs| ==> ys[i] == f(xs[i])
    ensures |Keep(ys, keys)| == |Keep(xs, keys)|
    ensures forall k :: 0 <= k < |Keep(xs, keys)| ==> Keep(ys, keys)[k] == f(Keep(xs, keys)[k])
  {
    if xs != [] {
      var n := |xs| - 1;
      KeepMaps(xs[..n], ys[..n], keys[..n], f);
    }
  }

  /** Distinct keys are left alone. */
  lemma {:induction false} KeepDistinct<T>(xs: seq<T>, keys: seq<string>)
    requires |xs| == |keys|
    requires forall i, j :: 0 <= i < j < |keys| ==> keys[i] != keys[j]
    ensures Keep(xs, keys) == xs
  {
    if xs != [] {
      var n := |xs| - 1;
      KeepDistinct(xs[..n], keys[..n]);
      assert keys[n] !in keys[..n];
      assert xs[..n] + [xs[n]] == xs;
    }
  }

  /** The key at position `i` is kept at the first position that carries it. */
  lemma {:induction false} FirstOf(keys: seq<string>, i: nat) returns (k: nat)
    requires i < |keys|
    ensures k < |Firsts(keys)| && Firsts(keys)[k] <= i && keys[Firsts(keys)[k]] == keys[i]
  {
    if keys[i] in keys[..i] {
      var j :| 0 <= j < i && keys[..i][j] == keys[i];
      k := FirstOf(keys, j);
    } else {
      FirstsMeaning(keys);
      assert i in Firsts(keys);
      k :| 0 <= k < |Firsts(keys)| && Firsts(keys)[k] == i;
    }
  }

  /** A list without repetition is no longer than one that contains it. */
  lemma {:induction false} FitsIn(xs: seq<string>, ys: seq<string>)
    requires forall i, j :: 0 <= i < j < |xs| ==> xs[i] != xs[j]
    requires forall x :: x in xs ==> x in ys
    ensures |xs| <= |ys|
  {
    if xs != [] {
      var x := xs[0];
      assert x in xs;
      var k :| 0 <= k < |ys| && ys[k] == x;
      var rest := ys[..k] + ys[k + 1..];
      forall x' | x' in xs[1..]
        ensures x' in rest
      {
        assert x' in xs && x' in ys;
        var j :| 0 <= j < |ys| && ys[j] == x';
        assert j != k;
        assert j < k ==> rest[j] == x';
        assert j > k ==> rest[j - 1] == x';
      }
      FitsIn(xs[1..], rest);
    }
  }
}
