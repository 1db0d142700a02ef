/**
 * Maximum trading profit with a cooldown of `D` days after every sale and a
 * fee charged once per sale (M2_week2/test_maxProfit.py).
 *
 * `Hold` and `Cool` are the two rows of the dynamic program as pure
 * functions of the inputs; `MaxProfit` is the loop that fills the two
 * arrays, proved to store exactly those values.
 */
module Trading {
  import opened IntMath

  /** The exception the source can raise: reading `cool[i - D - 1]` past the end. */
  datatype Error = CoolIndexOutOfRange(index: int)

  datatype Result = Ok(value: int) | Err(error: Error)

  /**
   * hold[i]: the best profit at the end of day `i` while owning one share.
   * A purchase on day `i` may reuse the flat profit of day `i - D - 1` only
   * when that day exists; otherwise it is a first purchase from nothing.
   * (A negative `D` reads a cell of `cool` that is still 0 in the source,
   * which is the same as a first purchase; see `MaxProfit`.)
   */
  function Hold(prices: seq<int>, D: int, fee: int, i: nat): (r: int)
    requires i < |prices|
    ensures r >= -prices[i]
    decreases i
  {
    if i == 0 then -prices[0]
    else if 0 <= D < i then Max(Hold(prices, D, fee, i - 1), Cool(prices, D, fee, i - D - 1) - prices[i])
    else Max(Hold(prices, D, fee, i - 1), -prices[i])
  }

  /** cool[i]: the best profit at the end of day `i` while owning nothing. */
  function Cool(prices: seq<int>, D: int, fee: int, i: nat): (r: int)
    requires i < |prices|
    ensures r >= 0
    decreases i
  {
    if i == 0 then 0
    else Max(Cool(prices, D, fee, i - 1), Hold(prices, D, fee, i - 1) + prices[i] - fee)
  }

  /**
   * What `maxProfit` returns when it does not raise: `max(0, cool[n-1])`, or
   * 0 for no prices. The clamp never changes the value: the flat row is
   * already non-negative.
   */
  function Profit(prices: seq<int>, D: int, fee: int): (r: int)
    ensures r >= 0
    ensures |prices| <= 1 ==> r == 0
    ensures |prices| > 0 ==> r == Cool(prices, D, fee, |prices| - 1)
  {
    if |prices| == 0 then 0 else Max(0, Cool(prices, D, fee, |prices| - 1))
  }

  /**
   * The source's loop: two arrays of length n, filled left to right.
   * For `D <= -2` and at least two prices the read `cool[i - D - 1]` runs
   * past the end of the array, which in the source raises `IndexError`; the
   * first index that does so is max(n, -D).
   */
  method MaxProfit(prices: seq<int>, D: int, fee: int) returns (r: Result)
    ensures r.Err? <==> D <= -2 && |prices| >= 2
    ensures r.Err? ==> r.error.index == Max(|prices|, -D)
    ensures r.Ok? ==> r.value == Profit(prices, D, fee)
  {
    var n := |prices|;
    if n == 0 {
      return Ok(0);
    }
    // The source fills `hold` with minus infinity; every cell is written before it is read.
    var hold := new int[n];
    var cool := new int[n](_ => 0);
    hold[0] := -prices[0];
    for i := 1 to n
      invariant forall k {:trigger hold[k]} :: 0 <= k < i ==> hold[k] == Hold(prices, D, fee, k)
      invariant forall k {:trigger cool[k]} :: 0 <= k < i ==> cool[k] == Cool(prices, D, fee, k)
      invariant forall k :: i <= k < n ==> cool[k] == 0
      invariant D <= -2 && i > 1 ==> i - D - 2 < n
      invariant D <= -2 && i > 1 ==> -D < n
    {
      var h;
      if i > D {
        if i - D - 1 >= n {
          return Err(CoolIndexOutOfRange(i - D - 1));
        }
        h := Max(hold[i - 1], cool[i - D - 1] - prices[i]);
      } else {
        h := Max(hold[i - 1], -prices[i]);
      }
      var c := Max(cool[i - 1], hold[i - 1] + prices[i] - fee);
      assert h == Hold(prices, D, fee, i);
      assert c == Cool(prices, D, fee, i);
      hold[i] := h;
      cool[i] := c;
    }
    assert cool[n - 1] == Cool(prices, D, fee, n - 1);
    return Ok(Max(0, cool[n - 1]));
  }

  /** Both rows are non-decreasing over the whole range, not just between neighbours. */
  lemma {:induction false} MonotoneUpTo(prices: seq<int>, D: int, fee: int, j: nat, k: nat)
    requires j <= k < |prices|
    ensures Hold(prices, D, fee, j) <= Hold(prices, D, fee, k)
    ensures Cool(prices, D, fee, j) <= Cool(prices, D, fee, k)
    decreases k - j
  {
    if j < k {
      MonotoneUpTo(prices, D, fee, j + 1, k);
    }
  }

  /** A single round trip, buying on day i and selling on day j, is a lower bound on the answer. */
  lemma RoundTripLowerBound(prices: seq<int>, D: int, fee: int, i: nat, j: nat)
    requires i < j < |prices|
    ensures Profit(prices, D, fee) >= prices[j] - prices[i] - fee
  {
    MonotoneUpTo(prices, D, fee, i, j - 1);
    MonotoneUpTo(prices, D, fee, j, |prices| - 1);
  }

  /** With the prices and cooldown fixed, a higher fee lowers both rows pointwise. */
  lemma {:induction false} FeeMonotoneAt(prices: seq<int>, D: int, fee1: int, fee2: int, i: nat)
    requires fee1 <= fee2
    requires i < |prices|
    ensures Hold(prices, D, fee2, i) <= Hold(prices, D, fee1, i)
    ensures Cool(prices, D, fee2, i) <= Cool(prices, D, fee1, i)
    decreases i
  {
    if i > 0 {
      FeeMonotoneAt(prices, D, fee1, fee2, i - 1);
      if 0 <= D < i {
        FeeMonotoneAt(prices, D, fee1, fee2, i - D - 1);
      }
    }
  }

  /** Raising the fee never raises the profit. */
  lemma FeeMonotone(prices: seq<int>, D: int, fee1: int, fee2: int)
    requires fee1 <= fee2
    ensures Profit(prices, D, fee2) <= Profit(prices, D, fee1)
  {
    if |prices| > 0 {
      FeeMonotoneAt(prices, D, fee1, fee2, |prices| - 1);
    }
  }

  /** A negative cooldown gives the same rows as a cooldown longer than the price list. */
  lemma {:induction false} NegativeCooldownAt(prices: seq<int>, D: int, fee: int, i: nat)
    requires D < 0
    requires i < |prices|
    ensures Hold(prices, D, fee, i) == Hold(prices, |prices|, fee, i)
    ensures Cool(prices, D, fee, i) == Cool(prices, |prices|, fee, i)
    decreases i
  {
    if i > 0 {
      NegativeCooldownAt(prices, D, fee, i - 1);
    }
  }

  /** So a cooldown of -1, the one negative value that does not raise, never re-enters after a sale. */
  lemma NegativeCooldown(prices: seq<int>, D: int, fee: int)
    requires D < 0
    ensures Profit(prices, D, fee) == Profit(prices, |prices|, fee)
  {
    if |prices| > 0 {
      NegativeCooldownAt(prices, D, fee, |prices| - 1);
    }
  }
}
