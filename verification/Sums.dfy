/** Sums over sequences and over the values of a map. */
module Sums {

  function SumSeq(s: seq<int>): int {
    if s == [] then 0 else s[0] + SumSeq(s[1..])
  }

  lemma {:induction false} SumSeqAppend(s: seq<int>, x: int)
    ensures SumSeq(s + [x]) == SumSeq(s) + x
  {
    if s != [] {
      assert (s + [x])[1..] == s[1..] + [x];
      SumSeqAppend(s[1..], x);
    }
  }

  lemma {:induction false} SumSeqDrop(s: seq<int>, i: nat)
    requires i < |s|
    ensures SumSeq(s[..i] + s[i + 1..]) == SumSeq(s) - s[i]
  {
    if i == 0 {
      assert s[..0] + s[1..] == s[1..];
    } else {
      assert (s[..i] + s[i + 1..])[1..] == s[1..][..i - 1] + s[1..][i..];
      SumSeqDrop(s[1..], i - 1);
    }
  }

  lemma {:induction false} SumSeqNotPositive(s: seq<int>)
    requires forall i :: 0 <= i < |s| ==> s[i] <= 0
    ensures SumSeq(s) <= 0
  {
    if s != [] {
      SumSeqNotPositive(s[1..]);
    }
  }

  ghost function SumMap<K>(m: map<K, int>): int
    decreases |m|
  {
    if m == map[] then 0
    else
      var k :| k in m;
      m[k] + SumMap(m - {k})
  }

  function Get<K>(m: map<K, int>, k: K): int {
    if k in m then m[k] else 0
  }

  /** Any key may be taken out first. */
  lemma {:induction false} SumMapTake<K>(m: map<K, int>, k: K)
    requires k in m
    ensures SumMap(m) == m[k] + SumMap(m - {k})
    decreases |m|
  {
    var c :| c in m && SumMap(m) == m[c] + SumMap(m - {c});
    if c != k {
      SumMapTake(m - {c}, k);
      SumMapTake(m - {k}, c);
      assert m - {c} - {k} == m - {k} - {c};
    }
  }

  lemma SumMapPut<K>(m: map<K, int>, k: K, v: int)
    ensures SumMap(m[k := v]) == SumMap(m) - Get(m, k) + v
  {
    SumMapTake(m[k := v], k);
    assert m[k := v] - {k} == m - {k};
    if k in m {
      SumMapTake(m, k);
    } else {
      assert m - {k} == m;
    }
  }

  lemma SumMapDrop<K>(m: map<K, int>, k: K)
    ensures SumMap(m - {k}) == SumMap(m) - Get(m, k)
  {
    if k in m {
      SumMapTake(m, k);
    } else {
      assert m - {k} == m;
    }
  }

  lemma {:induction false} SumMapNonNegative<K>(m: map<K, int>)
    requires forall k :: k in m ==> m[k] >= 0
    ensures SumMap(m) >= 0
    ensures forall k :: k in m ==> m[k] <= SumMap(m)
    decreases |m|
  {
    if m != map[] {
      var c :| c in m && SumMap(m) == m[c] + SumMap(m - {c});
      SumMapNonNegative(m - {c});
      forall k | k in m ensures m[k] <= SumMap(m) {
        if k != c {
          assert k in m - {c};
        }
      }
    }
  }

  /** A sum is monotone in the values; a key that is missing counts as 0. */
  lemma {:induction false} SumMapLeq<K>(a: map<K, int>, b: map<K, int>)
    requires forall k :: k in a ==> a[k] <= Get(b, k)
    requires forall k :: k in b ==> b[k] >= 0
    ensures SumMap(a) <= SumMap(b)
    decreases |a|
  {
    if a == map[] {
      SumMapNonNegative(b);
    } else {
      var c :| c in a;
      SumMapTake(a, c);
      SumMapDrop(b, c);
      SumMapLeq(a - {c}, b - {c});
    }
  }
}
