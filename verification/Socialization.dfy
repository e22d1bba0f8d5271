/** Spreading a loss over depositor balances: proportional shares, then the rounding residual. */
module Socialization {
  import opened Arith
  import opened Sums

  function Share(w: Width, balance: int, total: int, loss: int): int {
    if total <= 0 || loss <= 0 then 0 else Quot(Mul(w, balance, loss), total)
  }

  /** Floor-divided share of the loss for each balance, in order. */
  function Shares(w: Width, balances: seq<int>, total: int, loss: int): seq<int> {
    seq(|balances|, i requires 0 <= i < |balances| => Share(w, balances[i], total, loss))
  }

  /** An empty pool and a loss of nothing give everyone a share of zero. */
  lemma {:induction false} NothingToShare(w: Width, balances: seq<int>, total: int, loss: int)
    requires total <= 0 || loss <= 0
    ensures |Shares(w, balances, total, loss)| == |balances|
    ensures forall i | 0 <= i < |balances| :: Shares(w, balances, total, loss)[i] == 0
  {
  }

  method ProportionalShares(w: Width, balances: seq<int>, total: int, loss: int) returns (out: seq<int>)
    ensures out == Shares(w, balances, total, loss)
  {
    out := [];
    if total <= 0 || loss <= 0 {
      for i := 0 to |balances|
        invariant out == Shares(w, balances[..i], total, loss)
      {
        out := out + [0];
      }
      assert balances[..|balances|] == balances;
      return;
    }
    for i := 0 to |balances|
      invariant out == Shares(w, balances[..i], total, loss)
    {
      out := out + [Quot(Mul(w, balances[i], loss), total)];
    }
    assert balances[..|balances|] == balances;
  }

  /** Take from each account in turn up to its limit, until the budget is spent. */
  function Take(limits: seq<int>, budget: int): seq<int> {
    if limits == [] then []
    else
      var front := Take(limits[..|limits| - 1], budget);
      front + [Max(Min(limits[|limits| - 1], budget - SeqSum(front)), 0)]
  }

  lemma {:induction false} TakeLength(limits: seq<int>, budget: int)
    ensures |Take(limits, budget)| == |limits|
  {
    if limits != [] {
      TakeLength(limits[..|limits| - 1], budget);
    }
  }

  /** Taking goes from left to right: what is taken from a prefix does not depend on the rest. */
  lemma {:induction false} TakePrefix(limits: seq<int>, budget: int, n: nat)
    requires n <= |limits|
    ensures |Take(limits, budget)| == |limits|
    ensures Take(limits, budget)[..n] == Take(limits[..n], budget)
  {
    TakeLength(limits, budget);
    if n == |limits| {
      assert limits[..n] == limits;
    } else {
      TakePrefix(limits[..|limits| - 1], budget, n);
      assert limits[..|limits| - 1][..n] == limits[..n];
    }
  }

  /** Taking spends the whole budget whenever the limits can cover it. */
  lemma {:induction false} TakeTotal(limits: seq<int>, budget: int)
    requires budget >= 0 && forall i | 0 <= i < |limits| :: limits[i] >= 0
    ensures |Take(limits, budget)| == |limits|
    ensures SeqSum(Take(limits, budget)) == Min(SeqSum(limits), budget)
    ensures forall i | 0 <= i < |limits| :: 0 <= Take(limits, budget)[i] <= Min(limits[i], budget)
  {
    if limits != [] {
      var n := |limits| - 1;
      TakeTotal(limits[..n], budget);
      TakeLast(limits, budget);
      SeqSumNonNegative(limits[..n]);
      SpendNext(SeqSum(limits[..n]), limits[n], budget);
      forall i | 0 <= i < |limits|
        ensures 0 <= Take(limits, budget)[i] <= Min(limits[i], budget)
      {
        assert i < n ==> Take(limits, budget)[i] == Take(limits[..n], budget)[i] && limits[i] == limits[..n][i];
      }
    }
  }

  lemma {:induction false} TakeLast(limits: seq<int>, budget: int)
    requires limits != []
    ensures var n := |limits| - 1;
            var front := Take(limits[..n], budget);
            var next := Max(Min(limits[n], budget - SeqSum(front)), 0);
            && |front| == n
            && Take(limits, budget) == front + [next]
            && SeqSum(Take(limits, budget)) == SeqSum(front) + next
  {
    var n := |limits| - 1;
    TakeLength(limits[..n], budget);
    assert Take(limits, budget)[..n] == Take(limits[..n], budget);
  }

  lemma {:induction false} SpendNext(sum: int, limit: int, budget: int)
    requires sum >= 0 && limit >= 0 && budget >= 0
    ensures var next := Max(Min(limit, budget - Min(sum, budget)), 0);
            && Min(sum, budget) + next == Min(sum + limit, budget)
            && 0 <= next <= Min(limit, budget)
  {
  }

  lemma {:induction false} SeqSumNonNegative(s: seq<int>)
    requires forall i | 0 <= i < |s| :: s[i] >= 0
    ensures SeqSum(s) >= 0
  {
    if s != [] {
      SeqSumNonNegative(s[..|s| - 1]);
    }
  }

  /** Limits that the budget covers are taken in full. */
  lemma {:induction false} TakeAll(limits: seq<int>, budget: int)
    requires forall i | 0 <= i < |limits| :: limits[i] >= 0
    requires SeqSum(limits) <= budget
    ensures Take(limits, budget) == limits
  {
    if limits != [] {
      TakeAll(limits[..|limits| - 1], budget);
    }
  }

  function FirstLimits(shares: seq<int>, balances: seq<int>): seq<int>
    requires |shares| == |balances|
  {
    seq(|shares|, i requires 0 <= i < |shares| => Min(shares[i], balances[i]))
  }

  /** Pass 1: each balance pays its share, while the loss lasts. */
  function FirstPass(shares: seq<int>, balances: seq<int>, loss: int): (cuts: seq<int>)
    requires |shares| == |balances|
    ensures |cuts| == |balances|
  {
    TakeLength(FirstLimits(shares, balances), loss);
    Take(FirstLimits(shares, balances), loss)
  }

  /** Pass 2: what pass 1 left over, from whatever balances remain. */
  function SecondPass(balances: seq<int>, first: seq<int>, loss: int): (cuts: seq<int>)
    requires |first| == |balances|
    ensures |cuts| == |balances|
  {
    TakeLength(Minus(balances, first), loss - SeqSum(first));
    Take(Minus(balances, first), loss - SeqSum(first))
  }

  function FirstCuts(w: Width, balances: seq<int>, total: int, loss: int): (cuts: seq<int>)
    ensures |cuts| == |balances|
  {
    FirstPass(Shares(w, balances, total, loss), balances, loss)
  }

  function SecondCuts(w: Width, balances: seq<int>, total: int, loss: int): (cuts: seq<int>)
    ensures |cuts| == |balances|
  {
    SecondPass(balances, FirstCuts(w, balances, total, loss), loss)
  }

  function Cuts(w: Width, balances: seq<int>, total: int, loss: int): seq<int> {
    Plus(FirstCuts(w, balances, total, loss), SecondCuts(w, balances, total, loss))
  }

  predicate Absorbable(balances: seq<int>, total: int, loss: int) {
    && (forall i | 0 <= i < |balances| :: balances[i] >= 0)
    && SeqSum(balances) == total
    && 0 < loss <= total
  }

  // ----- Proportional shares -----

  lemma {:induction false} ShareBounds(w: Width, balance: int, total: int, loss: int)
    requires balance >= 0 && 0 < loss <= total
    ensures 0 <= Share(w, balance, total, loss) <= balance
    ensures Share(w, balance, total, loss) * total <= balance * loss
    ensures w.Unbounded? ==> balance * loss < Share(w, balance, total, loss) * total + total
  {
    assert balance * loss >= 0;
    Floor(Mul(w, balance, loss), total);
    MulLe(loss, total, balance);
    Cancel(Share(w, balance, total, loss), balance, total);
  }

  lemma {:induction false} SharesTotal(w: Width, balances: seq<int>, total: int, loss: int)
    requires 0 < loss <= total && forall i | 0 <= i < |balances| :: balances[i] >= 0
    ensures SeqSum(Shares(w, balances, total, loss)) * total <= SeqSum(balances) * loss
    ensures w.Unbounded? ==>
              SeqSum(balances) * loss <= (SeqSum(Shares(w, balances, total, loss)) + |balances|) * total - |balances|
  {
    if balances != [] {
      var n := |balances| - 1;
      var b := balances[n];
      var share := Share(w, b, total, loss);
      SharesTotal(w, balances[..n], total, loss);
      ShareBounds(w, b, total, loss);
      var front, sum := SeqSum(Shares(w, balances[..n], total, loss)), SeqSum(balances[..n]);
      assert Shares(w, balances, total, loss)[..n] == Shares(w, balances[..n], total, loss);
      SharesStep(front, share, sum, b, total, loss, n, w.Unbounded?);
    }
  }

  lemma {:induction false} SharesStep(
      front: int, share: int, sum: int, b: int, total: int, loss: int, n: int, tight: bool)
    requires front * total <= sum * loss && share * total <= b * loss
    requires tight ==> sum * loss <= (front + n) * total - n && b * loss < share * total + total
    ensures (front + share) * total <= (sum + b) * loss
    ensures tight ==> (sum + b) * loss <= (front + share + n + 1) * total - (n + 1)
  {
    assert (front + share) * total == front * total + share * total;
    assert (sum + b) * loss == sum * loss + b * loss;
    assert (front + share + n + 1) * total == (front + n) * total + share * total + total;
  }

  /** The shares never add up to more than the loss and fall short of it by less than one unit
      per depositor, so pass 1 takes every share in full. */
  lemma {:induction false} SharesCoverLoss(w: Width, balances: seq<int>, total: int, loss: int)
    requires Absorbable(balances, total, loss)
    ensures SeqSum(Shares(w, balances, total, loss)) <= loss
    ensures w.Unbounded? ==> loss < SeqSum(Shares(w, balances, total, loss)) + |balances|
    ensures FirstCuts(w, balances, total, loss) == Shares(w, balances, total, loss)
  {
    SharesTotal(w, balances, total, loss);
    SumsNearLoss(SeqSum(Shares(w, balances, total, loss)), total, loss, |balances|, w.Unbounded?);
    SharesWithinBalances(w, balances, total, loss);
    assert FirstLimits(Shares(w, balances, total, loss), balances) == Shares(w, balances, total, loss);
    TakeAll(Shares(w, balances, total, loss), loss);
  }

  lemma {:induction false} SumsNearLoss(sum: int, total: int, loss: int, n: nat, tight: bool)
    requires 0 < loss <= total && sum * total <= total * loss
    requires tight ==> total * loss <= (sum + n) * total - n && n > 0
    ensures sum <= loss
    ensures tight ==> loss < sum + n
  {
    assert total * loss == loss * total;
    Cancel(sum, loss, total);
    if tight && loss >= sum + n {
      MulLe(sum + n, loss, total);
    }
  }

  lemma {:induction false} SharesWithinBalances(w: Width, balances: seq<int>, total: int, loss: int)
    requires Absorbable(balances, total, loss)
    ensures forall i | 0 <= i < |balances| :: 0 <= Shares(w, balances, total, loss)[i] <= balances[i]
  {
    forall i | 0 <= i < |balances|
      ensures 0 <= Share(w, balances[i], total, loss) <= balances[i]
    {
      ShareBounds(w, balances[i], total, loss);
    }
  }

  // ----- Both passes -----

  /** The two passes absorb the loss exactly, without overdrawing any depositor, at either width. */
  lemma {:induction false} LossIsAbsorbed(w: Width, balances: seq<int>, total: int, loss: int)
    requires Absorbable(balances, total, loss)
    ensures SeqSum(Cuts(w, balances, total, loss)) == loss
    ensures forall i | 0 <= i < |balances| :: 0 <= Cuts(w, balances, total, loss)[i] <= balances[i]
  {
    var first := FirstCuts(w, balances, total, loss);
    FirstPassWithinBalances(w, balances, total, loss);
    SecondPassCoversRest(balances, first, loss);
    assert SecondCuts(w, balances, total, loss) == Take(Minus(balances, first), loss - SeqSum(first));
  }

  lemma {:induction false} FirstPassWithinBalances(w: Width, balances: seq<int>, total: int, loss: int)
    requires Absorbable(balances, total, loss)
    ensures var first := FirstCuts(w, balances, total, loss);
            SeqSum(first) <= loss && forall i | 0 <= i < |balances| :: 0 <= first[i] <= balances[i]
  {
    SharesCoverLoss(w, balances, total, loss);
    SharesWithinBalances(w, balances, total, loss);
  }

  lemma {:induction false} SecondPassCoversRest(balances: seq<int>, first: seq<int>, loss: int)
    requires |first| == |balances| && forall i | 0 <= i < |balances| :: 0 <= first[i] <= balances[i]
    requires SeqSum(first) <= loss <= SeqSum(balances)
    ensures var second := Take(Minus(balances, first), loss - SeqSum(first));
            && |second| == |balances|
            && SeqSum(Plus(first, second)) == loss
            && forall i | 0 <= i < |balances| ::
                 0 <= second[i] <= loss - SeqSum(first) && first[i] + second[i] <= balances[i]
  {
    SecondPassBounds(balances, first, loss - SeqSum(first));
    PassesTotal(balances, first, Take(Minus(balances, first), loss - SeqSum(first)), loss);
  }

  lemma {:induction false} PassesTotal(balances: seq<int>, first: seq<int>, second: seq<int>, loss: int)
    requires |first| == |second| == |balances| && SeqSum(first) <= loss <= SeqSum(balances)
    requires SeqSum(second) == Min(SeqSum(Minus(balances, first)), loss - SeqSum(first))
    ensures SeqSum(Plus(first, second)) == loss
  {
    SeqSumPlus(balances, first);
    SeqSumPlus(first, second);
  }

  lemma {:induction false} SecondPassBounds(balances: seq<int>, first: seq<int>, residual: int)
    requires |first| == |balances| && forall i | 0 <= i < |balances| :: 0 <= first[i] <= balances[i]
    requires residual >= 0
    ensures var second := Take(Minus(balances, first), residual);
            && |second| == |balances|
            && SeqSum(second) == Min(SeqSum(Minus(balances, first)), residual)
            && forall i | 0 <= i < |balances| :: 0 <= second[i] <= residual && first[i] + second[i] <= balances[i]
  {
    TakeTotal(Minus(balances, first), residual);
    WithinRest(balances, first, Take(Minus(balances, first), residual));
  }

  lemma {:induction false} WithinRest(balances: seq<int>, first: seq<int>, second: seq<int>)
    requires |first| == |second| == |balances|
    requires forall i | 0 <= i < |balances| :: second[i] <= Minus(balances, first)[i]
    ensures forall i | 0 <= i < |balances| :: first[i] + second[i] <= balances[i]
  {
    forall i | 0 <= i < |balances|
      ensures first[i] + second[i] <= balances[i]
    {
      assert Minus(balances, first)[i] == balances[i] - first[i];
    }
  }

  /** No balance exceeds the total. */
  lemma {:induction false} BalanceWithinTotal(balances: seq<int>, i: nat)
    requires i < |balances| && forall j | 0 <= j < |balances| :: balances[j] >= 0
    ensures balances[i] <= SeqSum(balances)
  {
    SeqSumNonNegative(balances[..|balances| - 1]);
    if i < |balances| - 1 {
      BalanceWithinTotal(balances[..|balances| - 1], i);
    }
  }
}
