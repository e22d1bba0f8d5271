/** When a write-off charges every depositor its pro-rata share: always in exact arithmetic, and in the contract as long
    as the residual that saturated shares leave reaches everyone they fall short for. */
module ProRata {
  import opened Arith
  import opened Sums
  import opened Socialization

  // ----- The cuts in closed form -----

  lemma {:induction false} TakeUpTo(limits: seq<int>, budget: int, k: nat)
    requires budget >= 0 && (forall i | 0 <= i < |limits| :: limits[i] >= 0) && k <= |limits|
    ensures |Take(limits, budget)| == |limits|
    ensures SeqSum(Take(limits, budget)[..k]) == Min(SeqSum(limits[..k]), budget)
  {
    TakePrefix(limits, budget, k);
    TakeTotal(limits[..k], budget);
  }

  lemma {:induction false} PrefixOfPlus(s: seq<int>, t: seq<int>, k: nat)
    requires |s| == |t| && k <= |s|
    ensures SeqSum(Plus(s, t)[..k]) == SeqSum(s[..k]) + SeqSum(t[..k])
    ensures SeqSum(Minus(s, t)[..k]) == SeqSum(s[..k]) - SeqSum(t[..k])
  {
    assert Plus(s, t)[..k] == Plus(s[..k], t[..k]) && Minus(s, t)[..k] == Minus(s[..k], t[..k]);
    SeqSumPlus(s[..k], t[..k]);
  }

  /** What is left of a list's total from index `k` on. */
  function Tail(s: seq<int>, k: nat): int
    requires k <= |s|
  {
    SeqSum(s) - SeqSum(s[..k])
  }

  /** The first `k` depositors together lose all they hold, or the loss less the others' shares if that is less. */
  lemma {:induction false} CutsUpTo(w: Width, balances: seq<int>, total: int, loss: int, k: nat)
    requires Absorbable(balances, total, loss) && k <= |balances|
    ensures |Cuts(w, balances, total, loss)| == |balances|
    ensures SeqSum(Cuts(w, balances, total, loss)[..k])
         == Min(SeqSum(balances[..k]), loss - Tail(Shares(w, balances, total, loss), k))
  {
    SharesCoverLoss(w, balances, total, loss);
    SharesWithinBalances(w, balances, total, loss);
    PassesUpTo(balances, Shares(w, balances, total, loss), loss, k);
  }

  lemma {:induction false} PassesUpTo(balances: seq<int>, first: seq<int>, loss: int, k: nat)
    requires |first| == |balances| && forall i | 0 <= i < |balances| :: first[i] <= balances[i]
    requires SeqSum(first) <= loss && k <= |balances|
    ensures var cuts := Plus(first, SecondPass(balances, first, loss));
            |cuts| == |balances| && SeqSum(cuts[..k]) == Min(SeqSum(balances[..k]), loss - Tail(first, k))
  {
    TakeUpTo(Minus(balances, first), loss - SeqSum(first), k);
    PrefixOfPlus(balances, first, k);
    PrefixOfPlus(first, SecondPass(balances, first, loss), k);
  }

  lemma {:induction false} CutAt(w: Width, balances: seq<int>, total: int, loss: int, i: nat)
    requires Absorbable(balances, total, loss) && i < |balances|
    ensures |Cuts(w, balances, total, loss)| == |balances|
    ensures var shares := Shares(w, balances, total, loss);
            Cuts(w, balances, total, loss)[i]
            == Min(SeqSum(balances[..i]) + balances[i], loss - Tail(shares, i + 1))
               - Min(SeqSum(balances[..i]), loss - Tail(shares, i + 1) - shares[i])
  {
    CutsUpTo(w, balances, total, loss, i);
    CutsUpTo(w, balances, total, loss, i + 1);
    SeqSumPrefix(Cuts(w, balances, total, loss), i);
    SeqSumPrefix(balances, i);
    SeqSumPrefix(Shares(w, balances, total, loss), i);
  }

  // ----- Shares at the two widths -----

  /** The exact share is the floored one, and saturating it can only make it smaller. */
  lemma {:induction false} ShareIsFloor(w: Width, balance: int, total: int, loss: int)
    requires balance >= 0 && 0 < loss <= total
    ensures Share(Unbounded, balance, total, loss) == balance * loss / total
    ensures 0 <= Share(w, balance, total, loss) <= Share(Unbounded, balance, total, loss) <= balance
    ensures w.Unbounded? || balance * loss <= I128_MAX ==>
              Share(w, balance, total, loss) == Share(Unbounded, balance, total, loss)
  {
    assert balance * loss >= 0;
    ShareBounds(w, balance, total, loss);
    ShareBounds(Unbounded, balance, total, loss);
    if Mul(w, balance, loss) != balance * loss {
      SmallerQuotient(Mul(w, balance, loss), balance * loss, total);
    }
  }

  lemma {:induction false} SmallerQuotient(x: int, y: int, d: int)
    requires x <= y && d > 0
    ensures x / d <= y / d
  {
    Floor(x, d);
    FloorGe(y, d, x / d);
  }

  // ----- Pro-rata losses -----

  /** Each of n depositors loses its share rounded down, plus at most n - 1. */
  predicate IsProRata(cuts: seq<int>, balances: seq<int>, total: int, loss: int)
    requires total > 0
  {
    && |cuts| == |balances|
    && forall i | 0 <= i < |balances| ::
         balances[i] * loss / total <= cuts[i] <= balances[i] * loss / total + |balances| - 1
  }

  /** Nothing is missing from depositor `i`'s share, or else the loss, less what the later ones pay as shares, still
      covers that share after everything the earlier ones hold. */
  predicate Reached(w: Width, balances: seq<int>, total: int, loss: int, i: nat)
    requires i < |balances|
  {
    var exact := Share(Unbounded, balances[i], total, loss);
    || Share(w, balances[i], total, loss) == exact
    || SeqSum(balances[..i]) + exact <= loss - Tail(Shares(w, balances, total, loss), i + 1)
  }

  lemma {:induction false} CutReaches(held: int, balance: int, share: int, exact: int, left: int)
    requires share <= exact <= balance
    ensures exact <= Min(held + balance, left) - Min(held, left - share)
        <==> share == exact || held + exact <= left
  {
  }

  /** A depositor is charged at least its share exactly when the residual reaches it. */
  lemma {:induction false} ChargedItsShareIff(w: Width, balances: seq<int>, total: int, loss: int, i: nat)
    requires Absorbable(balances, total, loss) && i < |balances|
    ensures |Cuts(w, balances, total, loss)| == |balances|
    ensures balances[i] * loss / total <= Cuts(w, balances, total, loss)[i]
        <==> Reached(w, balances, total, loss, i)
  {
    var shares := Shares(w, balances, total, loss);
    CutAt(w, balances, total, loss, i);
    ShareIsFloor(w, balances[i], total, loss);
    CutReaches(SeqSum(balances[..i]), balances[i], shares[i], Share(Unbounded, balances[i], total, loss),
               loss - Tail(shares, i + 1));
  }

  /** One entry cannot exceed another by more than the totals allow when no entry falls short. */
  lemma {:induction false} ExcessWithinTotal(s: seq<int>, t: seq<int>, i: nat)
    requires |s| == |t| && i < |s| && forall j | 0 <= j < |s| :: t[j] <= s[j]
    ensures s[i] - t[i] <= SeqSum(s) - SeqSum(t)
  {
    SeqSumPlus(s, t);
    BalanceWithinTotal(Minus(s, t), i);
  }

  /** When everyone is charged at least its share, nobody is charged more than the rounding residual beyond it. */
  lemma {:induction false} NobodyIsOvercharged(w: Width, balances: seq<int>, total: int, loss: int)
    requires Absorbable(balances, total, loss)
    requires forall i | 0 <= i < |balances| :: Reached(w, balances, total, loss, i)
    ensures IsProRata(Cuts(w, balances, total, loss), balances, total, loss)
  {
    var exact, cuts := Shares(Unbounded, balances, total, loss), Cuts(w, balances, total, loss);
    LossIsAbsorbed(w, balances, total, loss);
    SharesCoverLoss(Unbounded, balances, total, loss);
    forall i | 0 <= i < |balances|
      ensures exact[i] == balances[i] * loss / total <= cuts[i]
    {
      ChargedItsShareIff(w, balances, total, loss, i);
      ShareIsFloor(w, balances[i], total, loss);
    }
    forall i | 0 <= i < |balances|
      ensures cuts[i] <= exact[i] + |balances| - 1
    {
      ExcessWithinTotal(cuts, exact, i);
    }
  }

  /** At either width a loss is borne pro rata if and only if the residual reaches every depositor. */
  lemma {:induction false} LossIsProRataIff(w: Width, balances: seq<int>, total: int, loss: int)
    requires Absorbable(balances, total, loss)
    ensures IsProRata(Cuts(w, balances, total, loss), balances, total, loss)
        <==> forall i | 0 <= i < |balances| :: Reached(w, balances, total, loss, i)
  {
    if forall i | 0 <= i < |balances| :: Reached(w, balances, total, loss, i) {
      NobodyIsOvercharged(w, balances, total, loss);
    }
    if IsProRata(Cuts(w, balances, total, loss), balances, total, loss) {
      forall i | 0 <= i < |balances|
        ensures Reached(w, balances, total, loss, i)
      {
        ChargedItsShareIff(w, balances, total, loss, i);
      }
    }
  }

  /** In exact arithmetic it always is. */
  lemma {:induction false} LossIsProRata(balances: seq<int>, total: int, loss: int)
    requires Absorbable(balances, total, loss)
    ensures IsProRata(Cuts(Unbounded, balances, total, loss), balances, total, loss)
  {
    forall i | 0 <= i < |balances|
      ensures Reached(Unbounded, balances, total, loss, i)
    {
    }
    LossIsProRataIff(Unbounded, balances, total, loss);
  }

  /** In the contract it is whenever no balance's product with the loss saturates. */
  lemma {:induction false} SharesDoNotSaturate(balances: seq<int>, total: int, loss: int)
    requires Absorbable(balances, total, loss)
    requires forall i | 0 <= i < |balances| :: balances[i] * loss <= I128_MAX
    ensures Cuts(I128, balances, total, loss) == Cuts(Unbounded, balances, total, loss)
    ensures IsProRata(Cuts(I128, balances, total, loss), balances, total, loss)
  {
    forall i | 0 <= i < |balances|
      ensures Share(I128, balances[i], total, loss) == Share(Unbounded, balances[i], total, loss)
    {
      ShareIsFloor(I128, balances[i], total, loss);
    }
    assert Shares(I128, balances, total, loss) == Shares(Unbounded, balances, total, loss);
    LossIsProRata(balances, total, loss);
  }

  // ----- Where saturation changes nothing at all -----

  lemma {:induction false} TailsOrdered(s: seq<int>, t: seq<int>, k: nat)
    requires |s| == |t| && k <= |s| && forall j | 0 <= j < |s| :: s[j] <= t[j]
    ensures Tail(s, k) <= Tail(t, k)
    ensures k < |s| && s[k] < t[k] ==> Tail(s, k) < Tail(t, k)
    decreases |s|
  {
    var n := |s| - 1;
    if k == |s| {
      assert s[..k] == s && t[..k] == t;
    } else {
      TailsOrdered(s[..n], t[..n], k);
      assert s[..n][..k] == s[..k] && t[..n][..k] == t[..k];
      if k == n {
        assert s[..n] == s[..k] && t[..n] == t[..k];
      }
    }
  }

  /** Prefixes of what depositors hold beyond their shares only grow. */
  lemma {:induction false} SpareGrows(balances: seq<int>, shares: seq<int>, k: nat, j: nat)
    requires |balances| == |shares| && k <= j <= |balances|
    requires forall i | 0 <= i < |balances| :: shares[i] <= balances[i]
    ensures SeqSum(balances[..k]) - SeqSum(shares[..k]) <= SeqSum(balances[..j]) - SeqSum(shares[..j])
  {
    TailsOrdered(shares[..j], balances[..j], k);
    assert shares[..j][..k] == shares[..k] && balances[..j][..k] == balances[..k];
  }

  /** Nothing is missing from depositor `k`'s share, or else the rounding residual exhausts what the earlier depositors
      hold beyond their shares, so that whatever is missing is charged to `k` itself. */
  predicate Unaffected(balances: seq<int>, total: int, loss: int, k: nat)
    requires k < |balances|
  {
    var exact := Shares(Unbounded, balances, total, loss);
    || Share(I128, balances[k], total, loss) == exact[k]
    || SeqSum(balances[..k]) - SeqSum(exact[..k]) <= loss - SeqSum(exact)
  }

  lemma {:induction false} SharesOrdered(balances: seq<int>, total: int, loss: int)
    requires Absorbable(balances, total, loss)
    ensures forall i | 0 <= i < |balances| ::
              Shares(I128, balances, total, loss)[i] <= Shares(Unbounded, balances, total, loss)[i] <= balances[i]
  {
    forall i | 0 <= i < |balances|
      ensures Share(I128, balances[i], total, loss) <= Share(Unbounded, balances[i], total, loss) <= balances[i]
    {
      ShareIsFloor(I128, balances[i], total, loss);
    }
  }

  lemma {:induction false} AgreeUpTo(balances: seq<int>, total: int, loss: int, k: nat)
    requires Absorbable(balances, total, loss) && k <= |balances|
    requires forall j | 0 <= j < |balances| :: Unaffected(balances, total, loss, j)
    ensures |Cuts(I128, balances, total, loss)| == |balances| == |Cuts(Unbounded, balances, total, loss)|
    ensures SeqSum(Cuts(I128, balances, total, loss)[..k]) == SeqSum(Cuts(Unbounded, balances, total, loss)[..k])
  {
    var clipped, exact := Shares(I128, balances, total, loss), Shares(Unbounded, balances, total, loss);
    CutsUpTo(I128, balances, total, loss, k);
    CutsUpTo(Unbounded, balances, total, loss, k);
    SharesOrdered(balances, total, loss);
    TailsOrdered(clipped, exact, k);
    if j :| k <= j < |balances| && clipped[j] != exact[j] {
      assert Unaffected(balances, total, loss, j);
      SpareGrows(balances, exact, k, j);
    } else {
      TailsEqual(clipped, exact, k);
    }
  }

  lemma {:induction false} TailsEqual(s: seq<int>, t: seq<int>, k: nat)
    requires |s| == |t| && k <= |s| && forall j | k <= j < |s| :: s[j] == t[j]
    ensures Tail(s, k) == Tail(t, k)
    decreases |s|
  {
    if k == |s| {
      assert s[..k] == s && t[..k] == t;
    } else {
      var n := |s| - 1;
      TailsEqual(s[..n], t[..n], k);
      assert s[..n][..k] == s[..k] && t[..n][..k] == t[..k];
    }
  }

  /** Saturation changes no cut at all if and only if whatever it takes off a share is charged to that same
      depositor. */
  lemma {:induction false} CutsAgreeIff(balances: seq<int>, total: int, loss: int)
    requires Absorbable(balances, total, loss)
    ensures Cuts(I128, balances, total, loss) == Cuts(Unbounded, balances, total, loss)
        <==> forall k | 0 <= k < |balances| :: Unaffected(balances, total, loss, k)
  {
    var mine, exact := Cuts(I128, balances, total, loss), Cuts(Unbounded, balances, total, loss);
    if forall k | 0 <= k < |balances| :: Unaffected(balances, total, loss, k) {
      AgreeUpTo(balances, total, loss, 0);
      forall i | 0 <= i < |balances|
        ensures mine[i] == exact[i]
      {
        AgreeUpTo(balances, total, loss, i);
        AgreeUpTo(balances, total, loss, i + 1);
        SeqSumPrefix(mine, i);
        SeqSumPrefix(exact, i);
      }
      assert mine == exact;
    }
    if mine == exact {
      forall k | 0 <= k < |balances|
        ensures Unaffected(balances, total, loss, k)
      {
        CutsUpTo(I128, balances, total, loss, k);
        CutsUpTo(Unbounded, balances, total, loss, k);
        SharesOrdered(balances, total, loss);
        TailsOrdered(Shares(I128, balances, total, loss), Shares(Unbounded, balances, total, loss), k);
      }
    }
  }

  // ----- Where it is not pro rata -----

  const LARGE := 100_000_000_000_000_000_000

  lemma {:induction false} LargeShares()
    ensures Absorbable([LARGE, LARGE], 2 * LARGE, LARGE / 5)
    ensures Share(I128, LARGE, 2 * LARGE, LARGE / 5) == 850_705_917_302_346_158
    ensures Share(Unbounded, LARGE, 2 * LARGE, LARGE / 5) == LARGE / 10
  {
    PairSum([LARGE, LARGE]);
  }

  /** Two depositors of 10^20 each and a loss of a tenth of the total: the first bears more than nineteen twentieths of
      it and the second less than one. */
  lemma {:induction false} LopsidedLoss()
    ensures var balances, loss := [LARGE, LARGE], LARGE / 5;
            var cuts := Cuts(I128, balances, 2 * LARGE, loss);
            && Absorbable(balances, 2 * LARGE, loss)
            && |cuts| == 2 && cuts[0] * 20 > 19 * loss && cuts[1] * 20 < loss
            && !IsProRata(cuts, balances, 2 * LARGE, loss)
  {
    var balances, loss := [LARGE, LARGE], LARGE / 5;
    LargeShares();
    CutAt(I128, balances, 2 * LARGE, loss, 1);
    LossIsAbsorbed(I128, balances, 2 * LARGE, loss);
    PairSums(balances, Shares(I128, balances, 2 * LARGE, loss));
    PairSum(Cuts(I128, balances, 2 * LARGE, loss));
  }

  lemma {:induction false} PairSum(s: seq<int>)
    requires |s| == 2
    ensures SeqSum(s) == s[0] + s[1] && SeqSum(s[..1]) == s[0]
  {
    assert s[..0] == [] && s[..2] == s;
    SeqSumPrefix(s, 0);
    SeqSumPrefix(s, 1);
  }

  lemma {:induction false} PairSums(s: seq<int>, t: seq<int>)
    requires |s| == |t| == 2
    ensures SeqSum(s[..1]) == s[0] && Tail(t, 2) == 0
  {
    PairSum(s);
    assert t[..2] == t;
  }
}
