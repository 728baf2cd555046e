/**
 * Sequence facts shared by the grouping and search code: the order-preserving
 * filter that `Array.prototype.filter` and the bucket-building reductions compute,
 * the subsequence relation, and how the sizes of per-key buckets add up.
 */
module Seqs {

  /** The elements of `s` that satisfy `p`, in their original order. */
  function Filter<T(==,!new)>(s: seq<T>, p: T -> bool): (r: seq<T>)
    ensures |r| <= |s|
    ensures forall x {:trigger x in r} :: x in r <==> x in s && p(x)
  {
    if s == [] then []
    else
      var rest := Filter(s[1..], p);
      assert s == [s[0]] + s[1..];
      (if p(s[0]) then [s[0]] else []) + rest
  }

  /** Each element that passes keeps its multiplicity; every other element has none. */
  lemma {:induction false} FilterMultiplicity<T(!new)>(s: seq<T>, p: T -> bool)
    ensures forall x {:trigger multiset(Filter(s, p))[x]} ::
      multiset(Filter(s, p))[x] == if p(x) then multiset(s)[x] else 0
  {
    if s != [] {
      FilterMultiplicity(s[1..], p);
      assert s == [s[0]] + s[1..];
      assert Filter(s, p) == (if p(s[0]) then [s[0]] else []) + Filter(s[1..], p);
    }
  }

  /** `a` is `b` with some of its elements dropped. */
  ghost predicate Subsequence<T>(a: seq<T>, b: seq<T>)
    decreases |b|
  {
    if b == [] then a == []
    else (a != [] && a[0] == b[0] && Subsequence(a[1..], b[1..])) || Subsequence(a, b[1..])
  }

  /** No element occurs twice. */
  predicate Distinct<T(==)>(s: seq<T>) {
    forall i, j :: 0 <= i < j < |s| ==> s[i] != s[j]
  }

  /** `s` is strictly increasing under `rank`. */
  ghost predicate StrictlyIncreasing<T>(s: seq<T>, rank: T -> int) {
    forall i, j :: 0 <= i < j < |s| ==> rank(s[i]) < rank(s[j])
  }

  /** Filtering a sequence extended by one element filters that element on its own. */
  lemma {:induction false} FilterSnoc<T(!new)>(s: seq<T>, x: T, p: T -> bool)
    ensures Filter(s + [x], p) == Filter(s, p) + (if p(x) then [x] else [])
  {
    if s == [] {
      assert [] + [x] == [x];
    } else {
      var sx := s + [x];
      assert sx[0] == s[0];
      assert sx[1..] == s[1..] + [x];
      var head := if p(s[0]) then [s[0]] else [];
      assert Filter(sx, p) == head + Filter(s[1..] + [x], p);
      FilterSnoc(s[1..], x, p);
      assert Filter(s, p) == head + Filter(s[1..], p);
    }
  }

  /** Filtering keeps the relative order of the kept elements. */
  lemma {:induction false} FilterIsSubsequence<T(!new)>(s: seq<T>, p: T -> bool)
    ensures Subsequence(Filter(s, p), s)
  {
    if s != [] {
      FilterIsSubsequence(s[1..], p);
      var r := Filter(s, p);
      if p(s[0]) {
        assert r[0] == s[0] && r[1..] == Filter(s[1..], p);
      } else {
        assert r == Filter(s[1..], p);
      }
    }
  }

  /** When every element passes, the filter returns its input unchanged. */
  lemma {:induction false} FilterAllPass<T(!new)>(s: seq<T>, p: T -> bool)
    requires forall x :: x in s ==> p(x)
    ensures Filter(s, p) == s
  {
    if s != [] {
      assert s[0] in s;
      forall x | x in s[1..] ensures p(x) {
        assert x in s;
      }
      FilterAllPass(s[1..], p);
      assert s == [s[0]] + s[1..];
    }
  }

  /** When no element passes, the filter is empty. */
  lemma {:induction false} FilterNonePass<T(!new)>(s: seq<T>, p: T -> bool)
    requires forall x :: x in s ==> !p(x)
    ensures Filter(s, p) == []
  {
    if s != [] {
      assert s[0] in s;
      forall x | x in s[1..] ensures !p(x) {
        assert x in s;
      }
      FilterNonePass(s[1..], p);
    }
  }

  /** Two predicates that agree on every element give the same filter. */
  lemma {:induction false} FilterCongruent<T(!new)>(s: seq<T>, p: T -> bool, q: T -> bool)
    requires forall x :: x in s ==> p(x) == q(x)
    ensures Filter(s, p) == Filter(s, q)
  {
    if s != [] {
      assert s[0] in s;
      forall x | x in s[1..] ensures p(x) == q(x) {
        assert x in s;
      }
      FilterCongruent(s[1..], p, q);
    }
  }

  /** Every element of a subsequence is an element of the sequence. */
  lemma {:induction false} SubsequenceMembers<T(!new)>(a: seq<T>, b: seq<T>)
    requires Subsequence(a, b)
    ensures forall x :: x in a ==> x in b
    decreases |b|
  {
    if b != [] {
      if a != [] && a[0] == b[0] && Subsequence(a[1..], b[1..]) {
        SubsequenceMembers(a[1..], b[1..]);
        assert a == [a[0]] + a[1..];
        assert b == [b[0]] + b[1..];
      } else {
        SubsequenceMembers(a, b[1..]);
        assert b == [b[0]] + b[1..];
      }
    }
  }

  /** A subsequence of a subsequence is a subsequence. */
  lemma {:induction false} SubsequenceTransitive<T(!new)>(a: seq<T>, b: seq<T>, c: seq<T>)
    requires Subsequence(a, b) && Subsequence(b, c)
    ensures Subsequence(a, c)
    decreases |c|
  {
    if c != [] {
      if b != [] && b[0] == c[0] && Subsequence(b[1..], c[1..]) {
        if a != [] && a[0] == b[0] && Subsequence(a[1..], b[1..]) {
          SubsequenceTransitive(a[1..], b[1..], c[1..]);
        } else {
          SubsequenceTransitive(a, b[1..], c[1..]);
        }
      } else {
        SubsequenceTransitive(a, b, c[1..]);
      }
    }
  }

  /** A subsequence of a strictly increasing sequence is strictly increasing. */
  lemma {:induction false} SubsequenceKeepsOrder<T(!new)>(a: seq<T>, b: seq<T>, rank: T -> int)
    requires Subsequence(a, b)
    requires StrictlyIncreasing(b, rank)
    ensures StrictlyIncreasing(a, rank)
    decreases |b|
  {
    if b != [] {
      assert StrictlyIncreasing(b[1..], rank) by {
        forall i, j | 0 <= i < j < |b[1..]| ensures rank(b[1..][i]) < rank(b[1..][j]) {
          assert b[1..][i] == b[i + 1] && b[1..][j] == b[j + 1];
        }
      }
      if a != [] && a[0] == b[0] && Subsequence(a[1..], b[1..]) {
        SubsequenceKeepsOrder(a[1..], b[1..], rank);
        SubsequenceMembers(a[1..], b[1..]);
        forall i, j | 0 <= i < j < |a| ensures rank(a[i]) < rank(a[j]) {
          if i == 0 {
            assert a[j] == a[1..][j - 1];
            assert a[j] in b[1..];
            var m :| 0 <= m < |b[1..]| && b[1..][m] == a[j];
            assert b[m + 1] == a[j];
          } else {
            assert a[i] == a[1..][i - 1] && a[j] == a[1..][j - 1];
          }
        }
      } else {
        SubsequenceKeepsOrder(a, b[1..], rank);
      }
    }
  }

  /** Two sequences ordered by the same ranking with the same members are equal. */
  lemma {:induction false} StrictlyIncreasingUnique<T(!new)>(a: seq<T>, b: seq<T>, rank: T -> int)
    requires StrictlyIncreasing(a, rank) && StrictlyIncreasing(b, rank)
    requires forall x :: x in a <==> x in b
    ensures a == b
    decreases |a|
  {
    if a != [] {
      assert a[0] in b;
    }
    if b != [] {
      assert b[0] in a;
    }
    if a != [] && b != [] {
      var j :| 0 <= j < |b| && b[j] == a[0];
      var i :| 0 <= i < |a| && a[i] == b[0];
      assert a[0] == b[0];
      forall x ensures x in a[1..] <==> x in b[1..] {
        assert a == [a[0]] + a[1..] && b == [b[0]] + b[1..];
        if x in a[1..] {
          var m :| 0 <= m < |a[1..]| && a[1..][m] == x;
          assert x == a[m + 1] && rank(a[0]) < rank(x);
          assert x in b && x != b[0];
        }
        if x in b[1..] {
          var m :| 0 <= m < |b[1..]| && b[1..][m] == x;
          assert x == b[m + 1] && rank(b[0]) < rank(x);
          assert x in a && x != a[0];
        }
      }
      assert StrictlyIncreasing(a[1..], rank) by {
        forall p, q | 0 <= p < q < |a[1..]| ensures rank(a[1..][p]) < rank(a[1..][q]) {
          assert a[1..][p] == a[p + 1] && a[1..][q] == a[q + 1];
        }
      }
      assert StrictlyIncreasing(b[1..], rank) by {
        forall p, q | 0 <= p < q < |b[1..]| ensures rank(b[1..][p]) < rank(b[1..][q]) {
          assert b[1..][p] == b[p + 1] && b[1..][q] == b[q + 1];
        }
      }
      StrictlyIncreasingUnique(a[1..], b[1..], rank);
      assert a == [a[0]] + a[1..] && b == [b[0]] + b[1..];
    }
  }

  /** The predicate "the key of `x` is `k`", as one value that every caller shares. */
  function KeyIs<T, K(==)>(key: T -> K, k: K): T -> bool {
    x => key(x) == k
  }

  /** Total size of the per-key buckets of `s` over the keys listed in `keys`. */
  function PartSizes<T(==,!new), K(==)>(s: seq<T>, key: T -> K, keys: seq<K>): nat {
    if keys == [] then 0 else |Filter(s, KeyIs(key, keys[0]))| + PartSizes(s, key, keys[1..])
  }

  /** Total size of the buckets of a map over the keys listed in `keys`; a missing key counts 0. */
  function MapBucketSizes<K, T>(m: map<K, seq<T>>, keys: seq<K>): nat {
    if keys == [] then 0
    else (if keys[0] in m then |m[keys[0]]| else 0) + MapBucketSizes(m, keys[1..])
  }

  /** A key listed once in a duplicate-free sequence has multiplicity one. */
  lemma {:induction false} DistinctOnce<K>(keys: seq<K>, k: K)
    requires Distinct(keys)
    requires k in keys
    ensures multiset(keys)[k] == 1
  {
    assert keys == [keys[0]] + keys[1..];
    if keys[0] == k {
      assert forall j :: 0 <= j < |keys[1..]| ==> keys[1..][j] == keys[j + 1] != keys[0];
      assert k !in keys[1..];
    } else {
      DistinctOnce(keys[1..], k);
    }
  }

  /** Buckets of the empty sequence are all empty. */
  lemma {:induction false} PartSizesEmpty<T(!new), K>(key: T -> K, keys: seq<K>)
    ensures PartSizes([], key, keys) == 0
  {
    if keys != [] {
      PartSizesEmpty(key, keys[1..]);
    }
  }

  /** Prepending `x` grows the total by the number of times `x`'s key is listed. */
  lemma {:induction false} PartSizesCons<T(!new), K>(x: T, s: seq<T>, key: T -> K, keys: seq<K>)
    ensures PartSizes([x] + s, key, keys) == PartSizes(s, key, keys) + multiset(keys)[key(x)]
  {
    if keys != [] {
      assert ([x] + s)[0] == x && ([x] + s)[1..] == s;
      PartSizesCons(x, s, key, keys[1..]);
      assert keys == [keys[0]] + keys[1..];
    }
  }

  /**
   * Bucketing by key partitions the input: when the listed keys are distinct and
   * cover every element's key, the bucket sizes add up to the input length.
   */
  lemma {:induction false} PartitionSizes<T(!new), K>(s: seq<T>, key: T -> K, keys: seq<K>)
    requires Distinct(keys)
    requires forall x :: x in s ==> key(x) in keys
    ensures PartSizes(s, key, keys) == |s|
  {
    if s == [] {
      PartSizesEmpty(key, keys);
    } else {
      assert s == [s[0]] + s[1..];
      assert s[0] in s;
      forall x | x in s[1..] ensures key(x) in keys {
        assert x in s;
      }
      PartitionSizes(s[1..], key, keys);
      PartSizesCons(s[0], s[1..], key, keys);
      DistinctOnce(keys, key(s[0]));
    }
  }

  /** A map whose bucket for each listed key is that key's filter has the same total. */
  lemma {:induction false} MapBucketSizesMatchParts<T(!new), K>(
    m: map<K, seq<T>>, s: seq<T>, key: T -> K, keys: seq<K>)
    requires forall k :: k in keys ==> (if k in m then m[k] else []) == Filter(s, KeyIs(key, k))
    ensures MapBucketSizes(m, keys) == PartSizes(s, key, keys)
  {
    if keys != [] {
      assert keys[0] in keys;
      MapBucketSizesMatchParts(m, s, key, keys[1..]);
    }
  }
}
