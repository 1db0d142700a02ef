/**
 * The price lists of the test block of M2_week2/test_maxProfit.py, with the
 * values the dynamic program gives for them.
 */
module TradingExamples {
  import opened Trading
  import opened TradingPlans

  /**
   * Buy at 1, sell at 2, wait one day, buy at 0, sell at 2. Selling at 3
   * instead, as the test's comment has it, needs a purchase on the day right
   * after the sale; that plan earns 4 and only a cooldown of 0 allows it.
   */
  lemma BasicCooldown()
    ensures Profit([1, 2, 3, 0, 2], 1, 0) == 3
    ensures WellSpaced([Trade(0, 1), Trade(3, 4)], 1)
    ensures PlanProfit([1, 2, 3, 0, 2], 0, [Trade(0, 1), Trade(3, 4)]) == 3
    ensures !WellSpaced([Trade(0, 2), Trade(3, 4)], 1)
    ensures PlanProfit([1, 2, 3, 0, 2], 0, [Trade(0, 2), Trade(3, 4)]) == 4
  {
    var p := [1, 2, 3, 0, 2];
    assert Cool(p, 1, 0, 1) == 1;
    assert Hold(p, 1, 0, 2) == -1;
    assert Cool(p, 1, 0, 2) == 2;
    assert Hold(p, 1, 0, 3) == 1;
    assert Cool(p, 1, 0, 3) == 2;
    var good := [Trade(0, 1), Trade(3, 4)];
    assert good[..1] == [Trade(0, 1)];
    var commented := [Trade(0, 2), Trade(3, 4)];
    assert commented[1 - 1].sell + 1 + 1 > commented[1].buy;
    assert commented[..1] == [Trade(0, 2)];
  }

  /**
   * With a one-day cooldown and a fee of 2 the best is 6; the 8 that the
   * test's comment expects needs a purchase on the day right after a sale,
   * which only a cooldown of 0 allows.
   */
  lemma WithFee()
    ensures Profit([1, 3, 2, 8, 4, 9], 1, 2) == 6
    ensures !WellSpaced([Trade(0, 3), Trade(4, 5)], 1)
    ensures WellSpaced([Trade(0, 3), Trade(4, 5)], 0)
    ensures PlanProfit([1, 3, 2, 8, 4, 9], 2, [Trade(0, 3), Trade(4, 5)]) == 8
    ensures Profit([1, 3, 2, 8, 4, 9], 0, 2) == 8
  {
    var p := [1, 3, 2, 8, 4, 9];
    assert Cool(p, 1, 2, 3) == 5;
    assert Hold(p, 1, 2, 4) == -1;
    assert Cool(p, 0, 2, 3) == 5;
    assert Hold(p, 0, 2, 4) == 1;
    var plan := [Trade(0, 3), Trade(4, 5)];
    assert plan[1 - 1].sell + 1 + 1 > plan[1].buy;
    assert plan[..1] == [Trade(0, 3)];
  }

  /** One purchase at 1 and one sale at 5. */
  lemma LongerCooldown()
    ensures Profit([1, 2, 3, 4, 5], 2, 0) == 4
  {
  }

  /** Falling prices: never trade. */
  lemma FallingPrices()
    ensures Profit([5, 4, 3, 2, 1], 1, 0) == 0
  {
  }

  /** A single price: no sale is possible. */
  lemma SinglePrice()
    ensures Profit([1], 1, 0) == 0
  {
  }

  /** A fee above every price difference: never trade. */
  lemma HighFee()
    ensures Profit([1, 2, 3, 4, 5], 1, 10) == 0
  {
  }
}
