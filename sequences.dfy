/** Sequence operations shared by several parts of the scanner: keeping the
    first element of each key (the `seen`-map de-duplication loops), keeping
    the elements that satisfy a test, taking a prefix of bounded length, and
    the subsequence relation their results stand in. */
module Sequences {

  /** The keys of the elements of `xs`. */
  function Keys<T(==), K>(xs: seq<T>, key: T -> K): set<K> {
    set x | x in xs :: key(x)
  }

  /** Walks `xs` from the front and keeps each element whose key has not been
      seen yet, the keys in `seen` counting as seen from the start. */
  function DedupFrom<T(==), K(==)>(xs: seq<T>, key: T -> K, seen: set<K>): (r: seq<T>)
    ensures |r| <= |xs|
    decreases |xs|
  {
    if |xs| == 0 then []
    else if key(xs[0]) in seen then DedupFrom(xs[1..], key, seen)
    else [xs[0]] + DedupFrom(xs[1..], key, seen + {key(xs[0])})
  }

  /** Keeps the first element of `xs` for each key, in input order. */
  function DedupBy<T(==), K(==)>(xs: seq<T>, key: T -> K): seq<T> {
    DedupFrom(xs, key, {})
  }

  /** `a` is `b` with some elements left out (order kept). */
  predicate IsSubsequence<T(==)>(a: seq<T>, b: seq<T>)
    decreases |b|
  {
    |a| == 0 || (|b| > 0 && if a[0] == b[0] then IsSubsequence(a[1..], b[1..]) else IsSubsequence(a, b[1..]))
  }

  lemma {:induction false} SubsequenceReflexive<T>(a: seq<T>)
    ensures IsSubsequence(a, a)
    decreases |a|
  {
    if |a| > 0 {
      SubsequenceReflexive(a[1..]);
    }
  }

  /** A subsequence is never longer than the sequence it is taken from. */
  lemma {:induction false} SubsequenceLength<T>(a: seq<T>, b: seq<T>)
    requires IsSubsequence(a, b)
    ensures |a| <= |b|
    decreases |b|
  {
    if |a| > 0 {
      if a[0] == b[0] {
        SubsequenceLength(a[1..], b[1..]);
      } else {
        SubsequenceLength(a, b[1..]);
      }
    }
  }

  /** Every element of a subsequence comes from the sequence. */
  lemma {:induction false} SubsequenceElements<T>(a: seq<T>, b: seq<T>)
    requires IsSubsequence(a, b)
    ensures forall x :: x in a ==> x in b
    decreases |b|
  {
    if |a| > 0 {
      if a[0] == b[0] {
        SubsequenceElements(a[1..], b[1..]);
        assert a == [a[0]] + a[1..];
      } else {
        SubsequenceElements(a, b[1..]);
      }
    }
  }

  /** The de-duplicated sequence is a subsequence of the input. */
  lemma {:induction false} DedupFromSubsequence<T, K>(xs: seq<T>, key: T -> K, seen: set<K>)
    ensures IsSubsequence(DedupFrom(xs, key, seen), xs)
    decreases |xs|
  {
    if |xs| > 0 {
      var r := DedupFrom(xs, key, seen);
      assert xs == [xs[0]] + xs[1..];
      if key(xs[0]) in seen {
        DedupFromSubsequence(xs[1..], key, seen);
        SubsequencePrepend(r, xs[1..], xs[0]);
      } else {
        DedupFromSubsequence(xs[1..], key, seen + {key(xs[0])});
        assert r[1..] == DedupFrom(xs[1..], key, seen + {key(xs[0])});
      }
    }
  }

  /** A subsequence of `b` is one of `b` with anything put in front. */
  lemma {:induction false} SubsequencePrepend<T>(a: seq<T>, b: seq<T>, x: T)
    requires IsSubsequence(a, b)
    ensures IsSubsequence(a, [x] + b)
    decreases |b|, 1
  {
    assert ([x] + b)[1..] == b;
    if |a| > 0 && a[0] == x {
      SubsequenceTail(a, b);
    }
  }

  /** Dropping the first element of a subsequence leaves a subsequence. */
  lemma {:induction false} SubsequenceTail<T>(a: seq<T>, b: seq<T>)
    requires |a| > 0 && IsSubsequence(a, b)
    ensures IsSubsequence(a[1..], b)
    decreases |b|, 0
  {
    if a[0] == b[0] {
      SubsequencePrepend(a[1..], b[1..], b[0]);
    } else {
      SubsequenceTail(a, b[1..]);
      SubsequencePrepend(a[1..], b[1..], b[0]);
    }
    assert [b[0]] + b[1..] == b;
  }

  /** No two elements of `r` share a key. */
  ghost predicate DistinctKeys<T, K>(r: seq<T>, key: T -> K) {
    forall i, j :: 0 <= i < j < |r| ==> key(r[i]) != key(r[j])
  }

  /** No two kept elements share a key, and no kept key was already seen. */
  lemma {:induction false} DedupFromDistinct<T, K>(xs: seq<T>, key: T -> K, seen: set<K>)
    ensures forall x :: x in DedupFrom(xs, key, seen) ==> key(x) !in seen
    ensures DistinctKeys(DedupFrom(xs, key, seen), key)
    decreases |xs|
  {
    if |xs| > 0 {
      var r := DedupFrom(xs, key, seen);
      if key(xs[0]) in seen {
        DedupFromDistinct(xs[1..], key, seen);
      } else {
        var rest := DedupFrom(xs[1..], key, seen + {key(xs[0])});
        DedupFromDistinct(xs[1..], key, seen + {key(xs[0])});
        assert r == [xs[0]] + rest;
        forall i, j | 0 <= i < j < |r|
          ensures key(r[i]) != key(r[j])
        {
          assert r[j] == rest[j - 1] && r[j] in rest;
          if i > 0 {
            assert r[i] == rest[i - 1];
          }
        }
      }
    }
  }

  /** The kept elements carry exactly the keys of the input that were not seen. */
  lemma {:induction false} DedupFromKeys<T, K>(xs: seq<T>, key: T -> K, seen: set<K>)
    ensures Keys(DedupFrom(xs, key, seen), key) == Keys(xs, key) - seen
    decreases |xs|
  {
    if |xs| > 0 {
      var k0 := key(xs[0]);
      assert xs == [xs[0]] + xs[1..];
      assert Keys(xs, key) == {k0} + Keys(xs[1..], key);
      if k0 in seen {
        DedupFromKeys(xs[1..], key, seen);
      } else {
        DedupFromKeys(xs[1..], key, seen + {k0});
        var r := DedupFrom(xs, key, seen);
        assert r == [xs[0]] + DedupFrom(xs[1..], key, seen + {k0});
        assert Keys(r, key) == {k0} + Keys(DedupFrom(xs[1..], key, seen + {k0}), key);
      }
    }
  }

  /** Every kept element is the first element of the input with its key:
      nothing before it (nor in `seen`) has that key. */
  lemma {:induction false} DedupFromFirst<T, K>(xs: seq<T>, key: T -> K, seen: set<K>, i: nat)
    requires i < |DedupFrom(xs, key, seen)|
    ensures var r := DedupFrom(xs, key, seen);
      exists j :: 0 <= j < |xs| && xs[j] == r[i] && key(r[i]) !in seen && key(r[i]) !in Keys(xs[..j], key)
    decreases |xs|
  {
    var r := DedupFrom(xs, key, seen);
    var k0 := key(xs[0]);
    if k0 in seen {
      DedupFromFirst(xs[1..], key, seen, i);
      var j :| 0 <= j < |xs[1..]| && xs[1..][j] == r[i] && key(r[i]) !in seen && key(r[i]) !in Keys(xs[1..][..j], key);
      assert xs[..j + 1] == [xs[0]] + xs[1..][..j];
      assert Keys(xs[..j + 1], key) == {k0} + Keys(xs[1..][..j], key);
      assert xs[j + 1] == r[i];
    } else if i == 0 {
      assert xs[0] == r[0] && Keys(xs[..0], key) == {};
    } else {
      var seen' := seen + {k0};
      DedupFromFirst(xs[1..], key, seen', i - 1);
      var j :| 0 <= j < |xs[1..]| && xs[1..][j] == r[i] && key(r[i]) !in seen' && key(r[i]) !in Keys(xs[1..][..j], key);
      assert xs[..j + 1] == [xs[0]] + xs[1..][..j];
      assert Keys(xs[..j + 1], key) == {k0} + Keys(xs[1..][..j], key);
      assert xs[j + 1] == r[i];
    }
  }

  /** DedupBy with all its promises: a subsequence of the input, no two elements
      with one key, every key of the input present, each element the first of
      its key. */
  lemma DedupBySpec<T, K>(xs: seq<T>, key: T -> K)
    ensures var r := DedupBy(xs, key);
      IsSubsequence(r, xs)
      && |r| <= |xs|
      && DistinctKeys(r, key)
      && Keys(r, key) == Keys(xs, key)
      && (forall i :: 0 <= i < |r| ==>
            exists j :: 0 <= j < |xs| && xs[j] == r[i] && key(r[i]) !in Keys(xs[..j], key))
  {
    DedupFromSubsequence(xs, key, {});
    DedupFromDistinct(xs, key, {});
    DedupFromKeys(xs, key, {});
    var r := DedupBy(xs, key);
    forall i | 0 <= i < |r|
      ensures exists j :: 0 <= j < |xs| && xs[j] == r[i] && key(r[i]) !in Keys(xs[..j], key)
    {
      DedupFromFirst(xs, key, {}, i);
    }
  }

  /** The elements of `s` that pass `p`, in order. */
  function Filter<T>(s: seq<T>, p: T -> bool): (r: seq<T>)
    ensures |r| <= |s|
    ensures forall i :: 0 <= i < |r| ==> p(r[i])
  {
    if |s| == 0 then [] else (if p(s[0]) then [s[0]] else []) + Filter(s[1..], p)
  }

  lemma {:induction false} FilterSubsequence<T>(s: seq<T>, p: T -> bool)
    ensures IsSubsequence(Filter(s, p), s)
    decreases |s|
  {
    if |s| > 0 {
      FilterSubsequence(s[1..], p);
      if p(s[0]) {
        assert Filter(s, p)[1..] == Filter(s[1..], p);
      } else {
        assert s == [s[0]] + s[1..];
        assert Filter(s, p) == Filter(s[1..], p);
        SubsequencePrepend(Filter(s[1..], p), s[1..], s[0]);
      }
    }
  }

  /** One step of the filter: the head first, then the rest. */
  lemma FilterCons<T>(x: T, s: seq<T>, p: T -> bool)
    ensures Filter([x] + s, p) == (if p(x) then [x] else []) + Filter(s, p)
  {
    assert ([x] + s)[1..] == s;
  }

  /** One step of the de-duplication walk. */
  lemma DedupCons<T, K>(x: T, s: seq<T>, key: T -> K, seen: set<K>)
    ensures DedupFrom([x] + s, key, seen)
      == if key(x) in seen then DedupFrom(s, key, seen) else [x] + DedupFrom(s, key, seen + {key(x)})
  {
    assert ([x] + s)[1..] == s;
  }

  lemma {:induction false} FilterAppend<T>(a: seq<T>, b: seq<T>, p: T -> bool)
    ensures Filter(a + b, p) == Filter(a, p) + Filter(b, p)
    decreases |a|
  {
    if |a| > 0 {
      FilterAppend(a[1..], b, p);
      assert (a + b)[0] == a[0];
      assert (a + b)[1..] == a[1..] + b;
      var h := if p(a[0]) then [a[0]] else [];
      assert Filter(a + b, p) == h + Filter(a[1..] + b, p);
      assert Filter(a, p) == h + Filter(a[1..], p);
    } else {
      assert a + b == b;
    }
  }

  /** Filtering one more element of a prefix. */
  lemma FilterPrefixStep<T>(s: seq<T>, i: nat, p: T -> bool)
    requires i < |s|
    ensures Filter(s[..i + 1], p) == Filter(s[..i], p) + (if p(s[i]) then [s[i]] else [])
  {
    FilterAppend(s[..i], [s[i]], p);
    assert s[..i + 1] == s[..i] + [s[i]];
    assert [s[i]][1..] == [];
  }

  /** Once the filtered prefix holds `n` elements, taking `n` of the whole
      filter gives that prefix. */
  lemma FilterTakeReached<T>(s: seq<T>, i: nat, p: T -> bool, n: nat)
    requires i <= |s| && |Filter(s[..i], p)| == n
    ensures Take(Filter(s, p), n) == Filter(s[..i], p)
  {
    FilterAppend(s[..i], s[i..], p);
    assert s[..i] + s[i..] == s;
    TakeFull(Filter(s[..i], p), Filter(s[i..], p), n);
  }

  /** The first `n` elements of `s`, or all of them when there are fewer. */
  function Take<T>(s: seq<T>, n: nat): (r: seq<T>)
    ensures |r| == if |s| <= n then |s| else n
    ensures r == s[..|r|]
  {
    if |s| <= n then s else s[..n]
  }

  /** Once `n` elements have been taken, what follows does not matter. */
  lemma TakeFull<T>(a: seq<T>, b: seq<T>, n: nat)
    requires n <= |a|
    ensures Take(a + b, n) == Take(a, n)
  {
    assert (a + b)[..n] == a[..n];
  }

  /** A prefix of a subsequence-closed kind: a prefix is a subsequence. */
  lemma {:induction false} PrefixSubsequence<T>(s: seq<T>, n: nat)
    requires n <= |s|
    ensures IsSubsequence(s[..n], s)
    decreases |s|
  {
    if n > 0 {
      PrefixSubsequence(s[1..], n - 1);
      assert s[..n][1..] == s[1..][..n - 1];
    }
  }

  /** Being a subsequence is transitive. */
  lemma {:induction false} SubsequenceTransitive<T>(a: seq<T>, b: seq<T>, c: seq<T>)
    requires IsSubsequence(a, b) && IsSubsequence(b, c)
    ensures IsSubsequence(a, c)
    decreases |c|
  {
    if |a| > 0 {
      if b[0] == c[0] {
        if a[0] == b[0] {
          SubsequenceTransitive(a[1..], b[1..], c[1..]);
        } else {
          SubsequenceTransitive(a, b[1..], c[1..]);
        }
      } else {
        SubsequenceTransitive(a, b, c[1..]);
        if a[0] == c[0] {
          SubsequenceTail(a, c[1..]);
        }
      }
    }
  }
}
