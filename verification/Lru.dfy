/** The least-recently-used cache of parsed documents, as a function of what was read. */
module Lru {

  /** All of `s` but `k`. */
  function Without<K(==)>(s: seq<K>, k: K): seq<K> {
    if s == [] then [] else (if s[0] == k then [] else [s[0]]) + Without(s[1..], k)
  }

  /** The last `n` elements, or all of them. */
  function LastN<T>(s: seq<T>, n: nat): seq<T> {
    if |s| <= n then s else s[|s| - n..]
  }

  ghost predicate Distinct<T(!new)>(s: seq<T>) {
    forall i, j :: 0 <= i < j < |s| ==> s[i] != s[j]
  }

  /** One read: its key, and what comes of it if the cache has no answer this time: whether
      it gets past the guards to Drive, and whether a document comes back. */
  datatype Use<K> = Use(key: K, admitted: bool, loads: bool)

  /** The keys after one read, oldest first: a hit moves to the end; a miss that loads is
      appended and the oldest are dropped; a miss that fails changes nothing. */
  function Touch<K(==)>(keys: seq<K>, u: Use<K>, size: nat): seq<K> {
    if u.key in keys then Without(keys, u.key) + [u.key]
    else if u.admitted && u.loads then LastN(keys + [u.key], size)
    else keys
  }

  /** The keys after a history of reads, starting empty. */
  function Run<K(==)>(history: seq<Use<K>>, size: nat): seq<K> {
    if history == [] then [] else
      Touch(Run(history[..|history| - 1], size), history[|history| - 1], size)
  }

  /** How many of the reads went to Drive: those the cache did not answer, unless they were
      turned away first. */
  function Downloads<K(==)>(history: seq<Use<K>>, size: nat): nat {
    if history == [] then 0 else
      var front, u := history[..|history| - 1], history[|history| - 1];
      Downloads(front, size) + if u.key !in Run(front, size) && u.admitted then 1 else 0
  }

  /** The keys of the reads that were answered, by the cache or by Drive. */
  function Answered<K(==)>(history: seq<Use<K>>, size: nat): seq<K> {
    if history == [] then [] else
      var front, u := history[..|history| - 1], history[|history| - 1];
      Answered(front, size)
      + if u.key in Run(front, size) || (u.admitted && u.loads) then [u.key] else []
  }

  /** The keys, each once, in the order of their last use. */
  function ByLastUse<K(==)>(keys: seq<K>): seq<K> {
    if keys == [] then [] else
      var front, k := ByLastUse(keys[..|keys| - 1]), keys[|keys| - 1];
      Without(front, k) + [k]
  }

  /** The last position at which `k` was read. */
  ghost predicate LastUsedAt<K>(history: seq<K>, k: K, i: nat) {
    i < |history| && history[i] == k && k !in history[i + 1..]
  }

  lemma {:induction false} WithoutMeaning<K>(s: seq<K>, k: K)
    ensures forall x :: x in Without(s, k) <==> x in s && x != k
    ensures k !in s ==> Without(s, k) == s
    ensures |Without(s, k)| <= |s|
  {
    if s != [] {
      WithoutMeaning(s[1..], k);
      assert s == [s[0]] + s[1..];
    }
  }

  lemma {:induction false} WithoutConcat<K>(s: seq<K>, t: seq<K>, k: K)
    ensures Without(s + t, k) == Without(s, k) + Without(t, k)
  {
    if s == [] {
      assert s + t == t;
    } else {
      WithoutConcat(s[1..], t, k);
      assert s + t == [s[0]] + (s[1..] + t);
      assert (s + t)[1..] == s[1..] + t;
      var head := if s[0] == k then [] else [s[0]];
      assert head + (Without(s[1..], k) + Without(t, k)) == (head + Without(s[1..], k)) + Without(t, k);
    }
  }

  lemma {:induction false} WithoutDistinct<K(!new)>(s: seq<K>, k: K)
    requires Distinct(s)
    ensures Distinct(Without(s, k))
    ensures k in s ==> |Without(s, k)| == |s| - 1
  {
    if s != [] {
      WithoutDistinct(s[1..], k);
      WithoutMeaning(s[1..], k);
      var rest := Without(s[1..], k);
      assert forall i :: 0 <= i < |rest| ==> rest[i] in s[1..];
    }
  }

  lemma LastNOfConcat<T>(s: seq<T>, t: seq<T>, n: nat)
    requires |t| >= n || s == []
    ensures LastN(s + t, n) == LastN(t, n)
  {
    if s == [] {
      assert s + t == t;
    } else {
      assert (s + t)[|s + t| - n..] == t[|t| - n..];
    }
  }

  /** A hit: cutting to the last `n` and touching commute. */
  lemma TouchHit<K(!new)>(recent: seq<K>, k: K, n: nat)
    requires Distinct(recent) && k in LastN(recent, n)
    ensures LastN(Without(recent, k) + [k], n) == Without(LastN(recent, n), k) + [k]
  {
    var cut := LastN(recent, n);
    var older := recent[..|recent| - |cut|];
    assert recent == older + cut;
    DistinctParts(recent, older, cut, k);
    WithoutDistinct(cut, k);
    WithoutParts(older, cut, k, n);
  }

  lemma WithoutParts<K(!new)>(older: seq<K>, cut: seq<K>, k: K, n: nat)
    requires k !in older && |Without(cut, k)| == |cut| - 1
    requires |cut| == n || (|cut| <= n && older == [])
    ensures LastN(Without(older + cut, k) + [k], n) == Without(cut, k) + [k]
  {
    WithoutConcat(older, cut, k);
    WithoutMeaning(older, k);
    var tail := Without(cut, k) + [k];
    assert older + Without(cut, k) + [k] == older + tail;
    LastNOfConcat(older, tail, n);
  }

  lemma DistinctParts<K(!new)>(whole: seq<K>, front: seq<K>, back: seq<K>, k: K)
    requires Distinct(whole) && whole == front + back && k in back
    ensures k !in front && Distinct(back)
  {
    var j :| 0 <= j < |back| && back[j] == k;
    assert whole[|front| + j] == k;
    assert forall i :: 0 <= i < |front| ==> whole[i] == front[i];
    assert forall i :: 0 <= i < |back| ==> whole[|front| + i] == back[i];
  }

  /** A miss: the same. */
  lemma TouchMiss<K(!new)>(recent: seq<K>, k: K, n: nat)
    requires k !in LastN(recent, n)
    ensures LastN(Without(recent, k) + [k], n) == LastN(LastN(recent, n) + [k], n)
  {
    var cut := LastN(recent, n);
    var older := recent[..|recent| - |cut|];
    assert recent == older + cut;
    AppendParts(older, cut, k, n);
  }

  lemma AppendParts<K>(older: seq<K>, cut: seq<K>, k: K, n: nat)
    requires k !in cut && (|cut| == n || older == [])
    ensures LastN(Without(older + cut, k) + [k], n) == LastN(cut + [k], n)
  {
    WithoutConcat(older, cut, k);
    WithoutMeaning(cut, k);
    var front := Without(older, k);
    assert front + cut + [k] == front + (cut + [k]);
    LastNOfConcat(front, cut + [k], n);
  }

  lemma {:induction false} ByLastUseDistinct<K(!new)>(keys: seq<K>)
    ensures Distinct(ByLastUse(keys))
    ensures forall x :: x in ByLastUse(keys) <==> x in keys
  {
    if keys != [] {
      var n := |keys| - 1;
      ByLastUseDistinct(keys[..n]);
      var front, k := ByLastUse(keys[..n]), keys[n];
      WithoutDistinct(front, k);
      WithoutMeaning(front, k);
      assert keys == keys[..n] + [k];
    }
  }

  /** The order of `ByLastUse` is the order of last uses. */
  lemma {:induction false} ByLastUseIsOrdered<K(!new)>(keys: seq<K>, i: nat, j: nat, a: nat, b: nat)
    requires i < j < |ByLastUse(keys)|
    requires LastUsedAt(keys, ByLastUse(keys)[i], a)
    requires LastUsedAt(keys, ByLastUse(keys)[j], b)
    ensures a < b
  {
    var n := |keys| - 1;
    var front, k := ByLastUse(keys[..n]), keys[n];
    ByLastUseDistinct(keys);
    ByLastUseDistinct(keys[..n]);
    var r := ByLastUse(keys);
    var x, y := r[i], r[j];
    WithoutMeaning(front, k);
    assert x in r && y in r && x in Without(front, k);
    if y != k {
      LastUseInFront(keys, x, a);
      LastUseInFront(keys, y, b);
      var i', j' := FrontPositions(front, k, i, j);
      assert front[i'] == x && front[j'] == y;
      ByLastUseIsOrdered(keys[..n], i', j', a, b);
    }
  }

  lemma LastUseInFront<K>(history: seq<K>, x: K, a: nat)
    requires LastUsedAt(history, x, a) && x != history[|history| - 1]
    ensures a < |history| - 1 && LastUsedAt(history[..|history| - 1], x, a)
  {
    var n := |history| - 1;
    assert history[..n][a + 1..] == history[a + 1..][..n - a - 1];
  }

  /** Leaving one key out keeps the others in order. */
  lemma {:induction false} FrontPositions<K>(s: seq<K>, k: K, i: nat, j: nat) returns (i': nat, j': nat)
    ensures i < j < |Without(s, k)| ==> i' < j' < |s| && s[i'] == Without(s, k)[i] && s[j'] == Without(s, k)[j]
  {
    i', j' := 0, 0;
    if s != [] && i < j < |Without(s, k)| {
      var rest := Without(s[1..], k);
      if s[0] == k {
        i', j' := FrontPositions(s[1..], k, i, j);
        i', j' := i' + 1, j' + 1;
      } else if i == 0 {
        var p := PositionOf(s[1..], k, j - 1);
        j' := p + 1;
      } else {
        i', j' := FrontPositions(s[1..], k, i - 1, j - 1);
        i', j' := i' + 1, j' + 1;
      }
    }
  }

  lemma {:induction false} PositionOf<K>(s: seq<K>, k: K, j: nat) returns (p: nat)
    requires j < |Without(s, k)|
    ensures p < |s| && s[p] == Without(s, k)[j]
  {
    if s[0] == k {
      p := PositionOf(s[1..], k, j);
      p := p + 1;
    } else if j == 0 {
      p := 0;
    } else {
      p := PositionOf(s[1..], k, j - 1);
      p := p + 1;
    }
  }

  /** The cache holds exactly the keys most recently answered, `size` of them at most, least
      recently used first. */
  lemma {:induction false} CacheIsMostRecent<K(!new)>(history: seq<Use<K>>, size: nat)
    ensures Run(history, size) == LastN(ByLastUse(Answered(history, size)), size)
  {
    if history != [] {
      var front, u := history[..|history| - 1], history[|history| - 1];
      CacheIsMostRecent(front, size);
      var answered := Answered(front, size);
      var recent := ByLastUse(answered);
      ByLastUseDistinct(answered);
      OneMoreUse(answered, u.key);
      if u.key in LastN(recent, size) {
        TouchHit(recent, u.key, size);
      } else if u.admitted && u.loads {
        TouchMiss(recent, u.key, size);
      } else {
        assert Answered(history, size) == answered;
      }
    }
  }

  lemma OneMoreUse<K>(keys: seq<K>, k: K)
    ensures ByLastUse(keys + [k]) == Without(ByLastUse(keys), k) + [k]
  {
    assert (keys + [k])[..|keys|] == keys;
  }

  lemma CacheIsDistinct<K(!new)>(history: seq<Use<K>>, size: nat)
    ensures Distinct(Run(history, size)) && |Run(history, size)| <= size
  {
    CacheIsMostRecent(history, size);
    ByLastUseDistinct(Answered(history, size));
  }

  // ---- A larger cache.

  /** The elements of `s` that are in `keep`. */
  function Only<K(==)>(s: seq<K>, keep: set<K>): seq<K> {
    if s == [] then [] else (if s[0] in keep then [s[0]] else []) + Only(s[1..], keep)
  }

  function KeySet<K(==)>(s: seq<K>): set<K> {
    set x | x in s
  }

  /** The small cache is what is left of the large one when only its keys are kept: the same
      keys in the same order. The large one holds more only while the small one is full. */
  ghost predicate Nested<K(!new)>(inner: seq<K>, outer: seq<K>, small: nat) {
    && Distinct(inner) && Distinct(outer) && |inner| <= small
    && Only(outer, KeySet(inner)) == inner
    && (outer == inner || |inner| == small)
  }

  lemma {:induction false} OnlyMeaning<K>(s: seq<K>, keep: set<K>)
    ensures forall x :: x in Only(s, keep) <==> x in s && x in keep
  {
    if s != [] {
      OnlyMeaning(s[1..], keep);
      assert s == [s[0]] + s[1..];
    }
  }

  lemma {:induction false} OnlyConcat<K>(s: seq<K>, t: seq<K>, keep: set<K>)
    ensures Only(s + t, keep) == Only(s, keep) + Only(t, keep)
  {
    if s == [] {
      assert s + t == t;
    } else {
      OnlyConcat(s[1..], t, keep);
      assert (s + t)[1..] == s[1..] + t;
      var head := if s[0] in keep then [s[0]] else [];
      assert head + (Only(s[1..], keep) + Only(t, keep)) == (head + Only(s[1..], keep)) + Only(t, keep);
    }
  }

  lemma {:induction false} OnlyWithout<K>(s: seq<K>, k: K, keep: set<K>)
    ensures Only(Without(s, k), keep) == Without(Only(s, keep), k)
  {
    if s != [] {
      OnlyWithout(s[1..], k, keep);
      var head, rest := (if s[0] == k then [] else [s[0]]), Without(s[1..], k);
      OnlyConcat(head, rest, keep);
      var kept := if s[0] in keep then [s[0]] else [];
      WithoutConcat(kept, Only(s[1..], keep), k);
      assert [s[0]][1..] == [];
    }
  }

  lemma {:induction false} OnlyAgrees<K>(s: seq<K>, keep: set<K>, keep': set<K>)
    requires forall x :: x in s ==> (x in keep <==> x in keep')
    ensures Only(s, keep) == Only(s, keep')
  {
    if s != [] {
      OnlyAgrees(s[1..], keep, keep');
    }
  }

  lemma {:induction false} OnlyAll<K>(s: seq<K>, keep: set<K>)
    requires forall x :: x in s ==> x in keep
    ensures Only(s, keep) == s
  {
    if s != [] {
      OnlyAll(s[1..], keep);
    }
  }

  lemma {:induction false} OnlyNone<K>(s: seq<K>, keep: set<K>)
    requires forall x :: x in s ==> x !in keep
    ensures Only(s, keep) == []
  {
    if s != [] {
      OnlyNone(s[1..], keep);
    }
  }

  /** Keeping one key less is leaving that key out. */
  lemma {:induction false} OnlyLess<K>(s: seq<K>, keep: set<K>, h: K)
    ensures Only(s, keep - {h}) == Without(Only(s, keep), h)
  {
    if s != [] {
      OnlyLess(s[1..], keep, h);
      var kept := if s[0] in keep then [s[0]] else [];
      WithoutConcat(kept, Only(s[1..], keep), h);
      assert [s[0]][1..] == [];
    }
  }

  lemma WithoutHead<K(!new)>(s: seq<K>)
    requires Distinct(s) && s != []
    ensures Without(s, s[0]) == s[1..]
  {
    forall x | x in s[1..]
      ensures x != s[0]
    {
      var i :| 0 <= i < |s| - 1 && s[i + 1] == x;
    }
    WithoutMeaning(s[1..], s[0]);
  }

  /** Both caches answer. */
  lemma BothHit<K(!new)>(inner: seq<K>, outer: seq<K>, small: nat, k: K)
    requires Nested(inner, outer, small) && k in inner
    ensures Nested(Without(inner, k) + [k], Without(outer, k) + [k], small)
  {
    var keep := KeySet(inner);
    WithoutDistinct(inner, k);
    WithoutDistinct(outer, k);
    WithoutMeaning(inner, k);
    WithoutMeaning(outer, k);
    OnlyWithout(outer, k, keep);
    OnlyConcat(Without(outer, k), [k], keep);
    assert [k][1..] == [];
    assert KeySet(Without(inner, k) + [k]) == keep;
  }

  /** Only the large cache answers, and the small one gets nothing from Drive. */
  lemma OuterHit<K(!new)>(inner: seq<K>, outer: seq<K>, small: nat, k: K)
    requires Nested(inner, outer, small) && k !in inner && k in outer
    ensures Nested(inner, Without(outer, k) + [k], small)
  {
    var keep := KeySet(inner);
    WithoutDistinct(outer, k);
    WithoutMeaning(outer, k);
    WithoutMeaning(inner, k);
    OnlyWithout(outer, k, keep);
    OnlyConcat(Without(outer, k), [k], keep);
    assert [k][1..] == [];
    assert outer != inner;
  }

  /** The small cache, full, takes in a key that stands last in the large one. */
  lemma InnerLoads<K(!new)>(inner: seq<K>, outer: seq<K>, small: nat, k: K)
    requires Nested(inner, outer, small) && k !in inner && k !in outer && |inner| == small
    ensures Nested(LastN(inner + [k], small), outer + [k], small)
  {
    var inner' := LastN(inner + [k], small);
    var keep' := KeySet(inner');
    if small == 0 {
      OnlyNone(outer + [k], keep');
    } else {
      var h := inner[0];
      assert inner' == inner[1..] + [k];
      WithoutHead(inner);
      WithoutMeaning(inner, h);
      OnlyLess(outer, KeySet(inner), h);
      assert forall x :: x in inner' <==> x in inner[1..] || x == k;
      OnlyAgrees(outer, keep', KeySet(inner) - {h});
      OnlyConcat(outer, [k], keep');
      assert [k][1..] == [];
    }
  }

  /** The large cache, too, drops its oldest key: never one that the small one keeps. */
  lemma OuterDrops<K(!new)>(inner: seq<K>, outer: seq<K>, small: nat)
    requires Nested(inner, outer, small) && |inner| == small && outer != []
    requires outer[0] !in inner
    ensures Nested(inner, outer[1..], small)
  {
  }

  lemma HeadIsHead<K(!new)>(inner: seq<K>, outer: seq<K>, small: nat)
    requires Nested(inner, outer, small) && outer != [] && outer[0] in inner
    ensures inner[0] == outer[0]
  {
  }

  lemma BothLoad<K(!new)>(inner: seq<K>, outer: seq<K>, small: nat, large: nat, k: K)
    requires Nested(inner, outer, small) && small <= large && |outer| <= large && k !in outer
    ensures Nested(LastN(inner + [k], small), LastN(outer + [k], large), small)
  {
    OnlyMeaning(outer, KeySet(inner));
    if |inner| < small {
      OnlyAll(outer + [k], KeySet(outer + [k]));
    } else {
      InnerLoads(inner, outer, small, k);
      var inner' := LastN(inner + [k], small);
      if |outer| == large {
        if outer != [] {
          assert (outer + [k])[0] == outer[0];
          if small > 0 && outer[0] in inner {
            HeadIsHead(inner, outer, small);
          }
          assert inner' == if small == 0 then [] else inner[1..] + [k];
          OuterDrops(inner', outer + [k], small);
        }
      }
    }
  }

  /** Inclusion, whatever loads and whatever fails: a larger cache holds a smaller one's keys,
      in the same order. */
  lemma {:induction false} LargerCacheIncludes<K(!new)>(history: seq<Use<K>>, small: nat, large: nat)
    requires small <= large
    ensures Nested(Run(history, small), Run(history, large), small)
    ensures forall k :: k in Run(history, small) ==> k in Run(history, large)
  {
    if history != [] {
      var front, u := history[..|history| - 1], history[|history| - 1];
      LargerCacheIncludes(front, small, large);
      CacheIsDistinct(front, large);
      OneMoreRead(Run(front, small), Run(front, large), small, large, u);
    }
    OnlyMeaning(Run(history, large), KeySet(Run(history, small)));
  }

  lemma OneMoreRead<K(!new)>(inner: seq<K>, outer: seq<K>, small: nat, large: nat, u: Use<K>)
    requires Nested(inner, outer, small) && small <= large && |outer| <= large
    ensures Nested(Touch(inner, u, small), Touch(outer, u, large), small)
  {
    OnlyMeaning(outer, KeySet(inner));
    if u.key in inner {
      BothHit(inner, outer, small, u.key);
    } else if u.key in outer {
      OuterHit(inner, outer, small, u.key);
      if u.admitted && u.loads {
        OuterHitInnerLoads(inner, outer, small, u.key);
      }
    } else if u.admitted && u.loads {
      BothLoad(inner, outer, small, large, u.key);
    }
  }

  lemma OuterHitInnerLoads<K(!new)>(inner: seq<K>, outer: seq<K>, small: nat, k: K)
    requires Nested(inner, outer, small) && k !in inner && k in outer
    ensures Nested(LastN(inner + [k], small), Without(outer, k) + [k], small)
  {
    var rest := Without(outer, k);
    WithoutDistinct(outer, k);
    WithoutMeaning(outer, k);
    WithoutMeaning(inner, k);
    OnlyWithout(outer, k, KeySet(inner));
    assert |inner| == small;
    InnerLoads(inner, rest, small, k);
  }

  /** So over the same reads it never goes to Drive more often. */
  lemma {:induction false} LargerCacheDownloadsLess<K(!new)>(history: seq<Use<K>>, small: nat, large: nat)
    requires small <= large
    ensures Downloads(history, large) <= Downloads(history, small)
  {
    if history != [] {
      var front := history[..|history| - 1];
      LargerCacheDownloadsLess(front, small, large);
      LargerCacheIncludes(front, small, large);
    }
  }
}
