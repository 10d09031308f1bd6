/**
 * Multi-denomination coin amounts (`sdk.Coins`) as the pay keeper uses them.
 *
 * `sdk.Coins` is a list of (denomination, amount) pairs sorted by
 * denomination; here it is a map from denomination to amount, where a
 * denomination that is absent holds zero. The arithmetic keeps the
 * canonical form the library keeps: no entry with amount zero.
 */
module Coins {

  type Denom = string

  /** A multi-denomination amount; absent denominations hold zero. */
  type Coins = map<Denom, int>

  /** `Coins.AmountOf`: the amount held in one denomination. */
  function AmountOf(c: Coins, d: Denom): int
  {
    if d in c then c[d] else 0
  }

  /** No entry with amount zero. */
  ghost predicate Canonical(c: Coins)
  {
    forall d :: d in c ==> c[d] != 0
  }

  /** No denomination holds a negative amount. */
  ghost predicate NonNegative(c: Coins)
  {
    forall d :: 0 <= AmountOf(c, d)
  }

  /** Two canonical amounts that agree in every denomination are the same value. */
  lemma Extensionality(a: Coins, b: Coins)
    requires Canonical(a) && Canonical(b)
    requires forall d :: AmountOf(a, d) == AmountOf(b, d)
    ensures a == b
  {
    assert forall d :: d in a <==> d in b by {
      forall d ensures d in a <==> d in b {
        assert AmountOf(a, d) == AmountOf(b, d);
      }
    }
    assert forall d :: d in a ==> a[d] == b[d] by {
      forall d | d in a ensures a[d] == b[d] {
        assert AmountOf(a, d) == AmountOf(b, d);
      }
    }
  }

  /** `Coins.Plus`: denomination-wise sum, zero entries dropped. */
  function Plus(a: Coins, b: Coins): (r: Coins)
    ensures Canonical(r)
    ensures forall d :: AmountOf(r, d) == AmountOf(a, d) + AmountOf(b, d)
  {
    map d | d in a.Keys + b.Keys && AmountOf(a, d) + AmountOf(b, d) != 0 :: AmountOf(a, d) + AmountOf(b, d)
  }

  /** `Coins.Minus`: denomination-wise difference, zero entries dropped. */
  function Minus(a: Coins, b: Coins): (r: Coins)
    ensures Canonical(r)
    ensures forall d :: AmountOf(r, d) == AmountOf(a, d) - AmountOf(b, d)
  {
    map d | d in a.Keys + b.Keys && AmountOf(a, d) - AmountOf(b, d) != 0 :: AmountOf(a, d) - AmountOf(b, d)
  }

  /** `Coins.IsAnyNegative`: some denomination holds less than zero. */
  predicate IsAnyNegative(c: Coins)
  {
    exists d | d in c :: c[d] < 0
  }

  lemma IsAnyNegativeMeaning(c: Coins)
    ensures IsAnyNegative(c) <==> exists d :: AmountOf(c, d) < 0
    ensures !IsAnyNegative(c) <==> NonNegative(c)
  {
    if exists d :: AmountOf(c, d) < 0 {
      var d :| AmountOf(c, d) < 0;
      assert d in c;
    }
    if IsAnyNegative(c) {
      var d :| d in c && c[d] < 0;
      assert AmountOf(c, d) < 0;
    }
  }

  /**
   * `Coins.SafeMinus`: the difference, and whether it has a negative
   * denomination, that is whether b exceeds a somewhere.
   */
  function SafeMinus(a: Coins, b: Coins): (r: (Coins, bool))
    ensures forall d :: AmountOf(r.0, d) == AmountOf(a, d) - AmountOf(b, d)
    ensures r.1 <==> exists d :: AmountOf(a, d) < AmountOf(b, d)
  {
    var diff := Minus(a, b);
    IsAnyNegativeMeaning(diff);
    (diff, IsAnyNegative(diff))
  }

  /**
   * `Coins.IsAllGTE`: every denomination listed in b is held in a at an
   * amount at least as large.
   */
  predicate IsAllGTE(a: Coins, b: Coins)
  {
    forall d | d in b :: b[d] <= AmountOf(a, d)
  }

  /** For a non-negative holding, IsAllGTE is the denomination-wise order. */
  lemma IsAllGTEMeaning(a: Coins, b: Coins)
    ensures NonNegative(a) ==> (IsAllGTE(a, b) <==> forall d :: AmountOf(b, d) <= AmountOf(a, d))
  {
    if NonNegative(a) && IsAllGTE(a, b) {
      forall d ensures AmountOf(b, d) <= AmountOf(a, d) {
        assert 0 <= AmountOf(a, d);
      }
    }
  }

  /** Denominations are lower-case. */
  predicate LowerCaseDenom(d: Denom)
  {
    forall i | 0 <= i < |d| :: !('A' <= d[i] <= 'Z')
  }

  /**
   * `Coins.IsValid`: every listed amount is strictly positive and every
   * denomination is lower-case. The empty amount is valid.
   */
  predicate IsValid(c: Coins)
  {
    forall d | d in c :: 0 < c[d] && LowerCaseDenom(d)
  }

  /** A valid amount is canonical and nowhere negative. */
  lemma ValidIsPositive(c: Coins)
    requires IsValid(c)
    ensures Canonical(c) && NonNegative(c)
    ensures forall d :: d in c ==> 0 < AmountOf(c, d)
  {
  }

  /**
   * What a holding with `lock` units locked by a vesting schedule may
   * spend in one denomination: all of it when nothing is locked, nothing
   * when the lock covers it, the unlocked rest otherwise.
   */
  function SpendableAmount(balance: int, lock: int): (r: int)
    ensures 0 <= balance ==> 0 <= r <= balance
    ensures lock <= 0 ==> r == balance
  {
    if lock <= 0 then balance
    else if balance <= lock then 0
    else balance - lock
  }

  /**
   * `Account.SpendableCoins` at the current block time, given the amount
   * the account's vesting schedule still locks.
   */
  function Spendable(balance: Coins, locked: Coins): (r: Coins)
    ensures Canonical(r)
    ensures forall d :: AmountOf(r, d) == SpendableAmount(AmountOf(balance, d), AmountOf(locked, d))
  {
    map d | d in balance && SpendableAmount(balance[d], AmountOf(locked, d)) != 0
      :: SpendableAmount(balance[d], AmountOf(locked, d))
  }

  /** Spendable coins never exceed the balance, denomination by denomination. */
  lemma SpendableWithinBalance(balance: Coins, locked: Coins)
    requires NonNegative(balance)
    ensures NonNegative(Spendable(balance, locked))
    ensures forall d :: AmountOf(Spendable(balance, locked), d) <= AmountOf(balance, d)
  {
    var s := Spendable(balance, locked);
    forall d ensures 0 <= AmountOf(s, d) <= AmountOf(balance, d) {
      assert 0 <= AmountOf(balance, d);
    }
  }

  /** For an account with nothing locked (non-vesting), spendable coins are the balance. */
  lemma UnlockedSpendableIsBalance(balance: Coins)
    requires Canonical(balance)
    ensures Spendable(balance, map[]) == balance
  {
    Extensionality(Spendable(balance, map[]), balance);
  }
}
