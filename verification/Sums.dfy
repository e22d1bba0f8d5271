/** Totals of maps and sequences of amounts. */
module Sums {

  ghost function Pick<K>(m: map<K, int>): K
    requires m != map[]
  {
    var k :| k in m;
    k
  }

  ghost function Sum<K>(m: map<K, int>): int
    decreases |m|
  {
    if m == map[] then 0
    else
      var k := Pick(m);
      m[k] + Sum(m - {k})
  }

  /** Any key may be counted first. */
  lemma {:induction false} SumSplit<K>(m: map<K, int>, k: K)
    requires k in m
    ensures Sum(m) == m[k] + Sum(m - {k})
    decreases |m|
  {
    var p := Pick(m);
    if p != k {
      SumSplit(m - {p}, k);
      SumSplit(m - {k}, p);
      assert m - {p} - {k} == m - {k} - {p};
    }
  }

  function ValueAt<K(==)>(m: map<K, int>, k: K): int {
    if k in m then m[k] else 0
  }

  /** Overwriting an entry moves the total by the difference. */
  lemma {:induction false} SumUpdate<K>(m: map<K, int>, k: K, v: int)
    ensures Sum(m[k := v]) == Sum(m) - ValueAt(m, k) + v
  {
    SumSplit(m[k := v], k);
    if k in m {
      SumSplit(m, k);
      assert m[k := v] - {k} == m - {k};
    } else {
      assert m[k := v] - {k} == m;
    }
  }

  lemma {:induction false} SumRemove<K>(m: map<K, int>, k: K)
    ensures Sum(m - {k}) == Sum(m) - ValueAt(m, k)
  {
    if k in m {
      SumSplit(m, k);
    } else {
      assert m - {k} == m;
    }
  }

  predicate NonNegative<K>(m: map<K, int>) {
    forall k <- m :: m[k] >= 0
  }

  /** No entry exceeds the total. */
  lemma {:induction false} EntryWithinSum<K>(m: map<K, int>, k: K)
    requires NonNegative(m)
    ensures 0 <= ValueAt(m, k) <= Sum(m)
    decreases |m|
  {
    if m != map[] {
      var p := Pick(m);
      EntryWithinSum(m - {p}, k);
    }
  }

  function SeqSum(s: seq<int>): int {
    if s == [] then 0 else SeqSum(s[..|s| - 1]) + s[|s| - 1]
  }

  lemma {:induction false} SeqSumPrefix(s: seq<int>, n: int)
    requires 0 <= n < |s|
    ensures SeqSum(s[..n + 1]) == SeqSum(s[..n]) + s[n]
  {
    assert s[..n + 1][..n] == s[..n];
  }

  function Plus(s: seq<int>, t: seq<int>): seq<int>
    requires |s| == |t|
  {
    seq(|s|, i requires 0 <= i < |s| => s[i] + t[i])
  }

  function Minus(s: seq<int>, t: seq<int>): seq<int>
    requires |s| == |t|
  {
    seq(|s|, i requires 0 <= i < |s| => s[i] - t[i])
  }

  lemma {:induction false} SeqSumPlus(s: seq<int>, t: seq<int>)
    requires |s| == |t|
    ensures SeqSum(Plus(s, t)) == SeqSum(s) + SeqSum(t)
    ensures SeqSum(Minus(s, t)) == SeqSum(s) - SeqSum(t)
  {
    if s != [] {
      var n := |s| - 1;
      SeqSumPlus(s[..n], t[..n]);
      assert Plus(s, t)[..n] == Plus(s[..n], t[..n]);
      assert Minus(s, t)[..n] == Minus(s[..n], t[..n]);
    }
  }

  predicate Distinct<K(==)>(s: seq<K>) {
    forall i, j | 0 <= i < j < |s| :: s[i] != s[j]
  }

  /** The amounts recorded for a list of keys, in list order. */
  function Amounts<K(==)>(keys: seq<K>, m: map<K, int>): seq<int> {
    seq(|keys|, i requires 0 <= i < |keys| => ValueAt(m, keys[i]))
  }

  /** A duplicate-free list that covers a map has the map's total. */
  lemma {:induction false} AmountsTotal<K>(keys: seq<K>, m: map<K, int>)
    requires Distinct(keys) && forall k <- m :: k in keys
    ensures SeqSum(Amounts(keys, m)) == Sum(m)
    decreases |keys|
  {
    if keys == [] {
      assert m == map[];
    } else {
      var n := |keys| - 1;
      var last := keys[n];
      AmountsTotal(keys[..n], m - {last});
      SumRemove(m, last);
      assert Amounts(keys, m)[..n] == Amounts(keys[..n], m - {last});
    }
  }

  /** `m` with the first `n` listed keys reduced by their cuts. */
  function Deduct<K(==)>(m: map<K, int>, keys: seq<K>, cuts: seq<int>, n: nat): map<K, int>
    requires n <= |keys| && n <= |cuts|
  {
    if n == 0 then m
    else
      var rest := Deduct(m, keys, cuts, n - 1);
      rest[keys[n - 1] := ValueAt(rest, keys[n - 1]) - cuts[n - 1]]
  }

  lemma {:induction false} DeductKeys<K>(m: map<K, int>, keys: seq<K>, cuts: seq<int>, n: nat)
    requires n <= |keys| == |cuts| && forall k <- keys :: k in m
    ensures Deduct(m, keys, cuts, n).Keys == m.Keys
  {
    if n > 0 {
      DeductKeys(m, keys, cuts, n - 1);
    }
  }

  /** Deductions reach every listed key once and no other. */
  lemma {:induction false} DeductEntries<K>(m: map<K, int>, keys: seq<K>, cuts: seq<int>, n: nat)
    requires Distinct(keys) && |keys| == |cuts| && n <= |keys|
    requires forall k <- keys :: k in m
    ensures Deduct(m, keys, cuts, n).Keys == m.Keys
    ensures forall i | 0 <= i < |keys| :: Deduct(m, keys, cuts, n)[keys[i]] == m[keys[i]] - if i < n then cuts[i] else 0
    ensures forall k <- m | k !in keys :: Deduct(m, keys, cuts, n)[k] == m[k]
  {
    if n > 0 {
      DeductEntries(m, keys, cuts, n - 1);
    }
  }

  /** Deductions take exactly their total. */
  lemma {:induction false} DeductTotal<K>(m: map<K, int>, keys: seq<K>, cuts: seq<int>, n: nat)
    requires Distinct(keys) && |keys| == |cuts| && n <= |keys|
    requires forall k <- keys :: k in m
    ensures Sum(Deduct(m, keys, cuts, n)) == Sum(m) - SeqSum(cuts[..n])
  {
    if n > 0 {
      DeductTotal(m, keys, cuts, n - 1);
      SeqSumPrefix(cuts, n - 1);
      var rest := Deduct(m, keys, cuts, n - 1);
      SumUpdate(rest, keys[n - 1], ValueAt(rest, keys[n - 1]) - cuts[n - 1]);
    }
  }
}
