/**
 * An independent account of what `Trading.Profit` computes: the best total
 * profit over all trading plans that respect the cooldown.
 *
 * A plan is a list of round trips, each a purchase day strictly before its
 * sale day; after a sale on day `s` the next purchase may happen on day
 * `s + D + 1` at the earliest, and every sale costs `fee`.
 */
module TradingPlans {
  import opened Trading

  datatype Trade = Trade(buy: nat, sell: nat)

  /** Every sale (and so every purchase) happens before day `n`. */
  predicate EndsBefore(plan: seq<Trade>, n: nat)
  {
    forall k :: 0 <= k < |plan| ==> plan[k].sell < n
  }

  /** Each round trip buys before it sells, and at least `D` whole days lie between a sale and the next purchase. */
  predicate WellSpaced(plan: seq<Trade>, D: nat)
  {
    && (forall k :: 0 <= k < |plan| ==> plan[k].buy < plan[k].sell)
    && (forall k :: 0 < k < |plan| ==> plan[k - 1].sell + D + 1 <= plan[k].buy)
  }

  /** A plan that is allowed to open a new position on day `b`. */
  predicate MayBuyOn(plan: seq<Trade>, D: nat, b: nat)
  {
    |plan| == 0 || plan[|plan| - 1].sell + D + 1 <= b
  }

  /** The net profit of a plan: the sum over its round trips of sale price, minus purchase price, minus fee. */
  function PlanProfit(prices: seq<int>, fee: int, plan: seq<Trade>): int
    requires EndsBefore(plan, |prices|)
    requires forall k :: 0 <= k < |plan| ==> plan[k].buy < plan[k].sell
  {
    if |plan| == 0 then 0
    else
      var t := plan[|plan| - 1];
      PlanProfit(prices, fee, plan[..|plan| - 1]) + prices[t.sell] - prices[t.buy] - fee
  }

  /** Dropping the last round trip of a good plan leaves a good plan that may buy on that round trip's day. */
  lemma Prefix(plan: seq<Trade>, D: nat, n: nat)
    requires |plan| > 0
    requires WellSpaced(plan, D) && EndsBefore(plan, n)
    ensures WellSpaced(plan[..|plan| - 1], D)
    ensures EndsBefore(plan[..|plan| - 1], plan[|plan| - 1].buy)
    ensures MayBuyOn(plan[..|plan| - 1], D, plan[|plan| - 1].buy)
  {
    var init := plan[..|plan| - 1];
    var b := plan[|plan| - 1].buy;
    forall k | 0 <= k < |init|
      ensures init[k].sell < b
    {
      EarlierSellsFirst(plan, D, k, |plan| - 1);
    }
  }

  /** Round trips follow each other: an earlier sale is before any later purchase. */
  lemma {:induction false} EarlierSellsFirst(plan: seq<Trade>, D: nat, j: nat, k: nat)
    requires j < k < |plan|
    requires WellSpaced(plan, D)
    ensures plan[j].sell < plan[k].buy
    decreases k - j
  {
    if j + 1 < k {
      EarlierSellsFirst(plan, D, j + 1, k);
    }
  }

  /** Upper bound, flat side: no plan finished by day `i` beats cool[i]. */
  lemma {:induction false} FlatBound(prices: seq<int>, D: nat, fee: int, plan: seq<Trade>, i: nat)
    requires i < |prices|
    requires WellSpaced(plan, D) && EndsBefore(plan, i + 1)
    ensures PlanProfit(prices, fee, plan) <= Cool(prices, D, fee, i)
    decreases |plan|, 0
  {
    if |plan| > 0 {
      var init := plan[..|plan| - 1];
      var t := plan[|plan| - 1];
      Prefix(plan, D, i + 1);
      OpenBound(prices, D, fee, init, t.buy, t.sell - 1);
      MonotoneUpTo(prices, D, fee, t.sell, i);
    }
  }

  /** Upper bound, holding side: a plan plus a purchase on day `b <= i` does not beat hold[i]. */
  lemma {:induction false} OpenBound(prices: seq<int>, D: nat, fee: int, plan: seq<Trade>, b: nat, i: nat)
    requires b <= i < |prices|
    requires WellSpaced(plan, D) && EndsBefore(plan, b) && MayBuyOn(plan, D, b)
    ensures PlanProfit(prices, fee, plan) - prices[b] <= Hold(prices, D, fee, i)
    decreases |plan|, 1
  {
    MonotoneUpTo(prices, D, fee, b, i);
    if |plan| > 0 {
      var last := plan[|plan| - 1].sell;
      forall k | 0 <= k < |plan|
        ensures plan[k].sell <= last
      {
        if k < |plan| - 1 {
          EarlierSellsFirst(plan, D, k, |plan| - 1);
        }
      }
      FlatBound(prices, D, fee, plan, b - D - 1);
    }
  }

  /** An optimal plan finished by day `i`: the choices the flat row makes, read backwards. */
  ghost function BestFlat(prices: seq<int>, D: nat, fee: int, i: nat): seq<Trade>
    requires i < |prices|
    decreases i, 1
  {
    if i == 0 then []
    else if Cool(prices, D, fee, i - 1) >= Hold(prices, D, fee, i - 1) + prices[i] - fee then
      BestFlat(prices, D, fee, i - 1)
    else
      var (plan, b) := BestOpen(prices, D, fee, i - 1);
      plan + [Trade(b, i)]
  }

  /** An optimal plan plus an open position bought on day `b <= i`: the choices of the holding row. */
  ghost function BestOpen(prices: seq<int>, D: nat, fee: int, i: nat): (seq<Trade>, nat)
    requires i < |prices|
    decreases i, 0
  {
    if i == 0 then ([], 0)
    else if D < i && Hold(prices, D, fee, i - 1) < Cool(prices, D, fee, i - D - 1) - prices[i] then
      (BestFlat(prices, D, fee, i - D - 1), i)
    else if D >= i && Hold(prices, D, fee, i - 1) < -prices[i] then
      ([], i)
    else
      BestOpen(prices, D, fee, i - 1)
  }

  /** A good plan finished by day `i` whose profit is exactly cool[i]. */
  ghost predicate AttainsCool(prices: seq<int>, D: nat, fee: int, i: nat, plan: seq<Trade>)
    requires i < |prices|
  {
    && WellSpaced(plan, D)
    && EndsBefore(plan, i + 1)
    && EndsBefore(plan, |prices|)
    && PlanProfit(prices, fee, plan) == Cool(prices, D, fee, i)
  }

  /** Closing a position bought on day `b` with a sale on day `s` keeps a plan good. */
  lemma Extend(plan: seq<Trade>, D: nat, b: nat, s: nat)
    requires WellSpaced(plan, D) && EndsBefore(plan, b) && MayBuyOn(plan, D, b)
    requires b < s
    ensures WellSpaced(plan + [Trade(b, s)], D)
    ensures EndsBefore(plan + [Trade(b, s)], s + 1)
    ensures (plan + [Trade(b, s)])[..|plan|] == plan
  {
    var full := plan + [Trade(b, s)];
    assert full[..|plan|] == plan;
    forall k | 0 < k < |full|
      ensures full[k - 1].sell + D + 1 <= full[k].buy
    {
      if k < |plan| {
        assert full[k - 1] == plan[k - 1] && full[k] == plan[k];
      }
    }
  }

  /** The profit of a plan grows by the gain of the round trip appended to it. */
  lemma ExtendProfit(prices: seq<int>, fee: int, plan: seq<Trade>, b: nat, s: nat)
    requires WellSpaced(plan, 0) && EndsBefore(plan, |prices|)
    requires b < s < |prices|
    ensures EndsBefore(plan + [Trade(b, s)], |prices|)
    ensures PlanProfit(prices, fee, plan + [Trade(b, s)]) == PlanProfit(prices, fee, plan) + prices[s] - prices[b] - fee
  {
    var full := plan + [Trade(b, s)];
    assert full[..|full| - 1] == plan;
  }

  /** BestFlat attains cool[i]. */
  lemma {:induction false} BestFlatAttains(prices: seq<int>, D: nat, fee: int, i: nat)
    requires i < |prices|
    ensures AttainsCool(prices, D, fee, i, BestFlat(prices, D, fee, i))
    decreases i, 2
  {
    if i == 0 {
      assert BestFlat(prices, D, fee, i) == [];
    } else if Cool(prices, D, fee, i - 1) >= Hold(prices, D, fee, i - 1) + prices[i] - fee {
      BestFlatAttains(prices, D, fee, i - 1);
      assert BestFlat(prices, D, fee, i) == BestFlat(prices, D, fee, i - 1);
      assert Cool(prices, D, fee, i) == Cool(prices, D, fee, i - 1);
    } else {
      SaleAttains(prices, D, fee, i);
    }
  }

  /** The case where cool[i] comes from a sale on day `i`: BestOpen of day i-1, closed on day i. */
  lemma {:induction false} SaleAttains(prices: seq<int>, D: nat, fee: int, i: nat)
    requires 0 < i < |prices|
    requires Cool(prices, D, fee, i - 1) < Hold(prices, D, fee, i - 1) + prices[i] - fee
    ensures AttainsCool(prices, D, fee, i, BestFlat(prices, D, fee, i))
    decreases i, 1
  {
    var open := BestOpen(prices, D, fee, i - 1);
    var plan, b := open.0, open.1;
    BestOpenAttains(prices, D, fee, i - 1);
    assert AttainsHold(prices, D, fee, i - 1, plan, b);
    var full := plan + [Trade(b, i)];
    assert BestFlat(prices, D, fee, i) == full;
    Extend(plan, D, b, i);
    assert WellSpaced(plan, 0);
    ExtendProfit(prices, fee, plan, b, i);
    assert Cool(prices, D, fee, i) == Hold(prices, D, fee, i - 1) + prices[i] - fee;
  }

  /** A good plan that may buy on day `b <= i`, whose profit minus prices[b] is exactly hold[i]. */
  ghost predicate AttainsHold(prices: seq<int>, D: nat, fee: int, i: nat, plan: seq<Trade>, b: nat)
    requires i < |prices|
  {
    && b <= i
    && WellSpaced(plan, D)
    && EndsBefore(plan, b)
    && MayBuyOn(plan, D, b)
    && EndsBefore(plan, |prices|)
    && PlanProfit(prices, fee, plan) - prices[b] == Hold(prices, D, fee, i)
  }

  /** BestOpen attains hold[i]. */
  lemma {:induction false} BestOpenAttains(prices: seq<int>, D: nat, fee: int, i: nat)
    requires i < |prices|
    ensures AttainsHold(prices, D, fee, i, BestOpen(prices, D, fee, i).0, BestOpen(prices, D, fee, i).1)
    decreases i, 0
  {
    if i == 0 {
    } else if D < i && Hold(prices, D, fee, i - 1) < Cool(prices, D, fee, i - D - 1) - prices[i] {
      BestFlatAttains(prices, D, fee, i - D - 1);
      var plan := BestFlat(prices, D, fee, i - D - 1);
      assert BestOpen(prices, D, fee, i) == (plan, i);
      assert Hold(prices, D, fee, i) == Cool(prices, D, fee, i - D - 1) - prices[i];
      if |plan| > 0 {
        assert plan[|plan| - 1].sell < i - D;
      }
    } else if D >= i && Hold(prices, D, fee, i - 1) < -prices[i] {
      assert BestOpen(prices, D, fee, i) == ([], i);
    } else {
      BestOpenAttains(prices, D, fee, i - 1);
      assert BestOpen(prices, D, fee, i) == BestOpen(prices, D, fee, i - 1);
    }
  }

  /** No plan that respects the cooldown earns more than `Profit`. */
  lemma PlanProfitBounded(prices: seq<int>, D: nat, fee: int, plan: seq<Trade>)
    requires WellSpaced(plan, D) && EndsBefore(plan, |prices|)
    ensures PlanProfit(prices, fee, plan) <= Profit(prices, D, fee)
  {
    if |prices| > 0 {
      FlatBound(prices, D, fee, plan, |prices| - 1);
    }
  }

  /** Some plan that respects the cooldown earns exactly `Profit`. */
  lemma ProfitAttained(prices: seq<int>, D: nat, fee: int)
    ensures exists plan :: WellSpaced(plan, D) && EndsBefore(plan, |prices|) &&
              PlanProfit(prices, fee, plan) == Profit(prices, D, fee)
  {
    if |prices| == 0 {
      assert WellSpaced([], D) && EndsBefore([], 0) && PlanProfit(prices, fee, []) == 0;
    } else {
      BestFlatAttains(prices, D, fee, |prices| - 1);
      assert AttainsCool(prices, D, fee, |prices| - 1, BestFlat(prices, D, fee, |prices| - 1));
    }
  }

  /**
   * The dynamic program is exact: no plan that respects the cooldown earns
   * more than `Profit`, and some plan earns exactly `Profit`.
   */
  lemma ProfitIsOptimal(prices: seq<int>, D: nat, fee: int)
    ensures forall plan :: WellSpaced(plan, D) && EndsBefore(plan, |prices|) ==>
              PlanProfit(prices, fee, plan) <= Profit(prices, D, fee)
    ensures exists plan :: WellSpaced(plan, D) && EndsBefore(plan, |prices|) &&
              PlanProfit(prices, fee, plan) == Profit(prices, D, fee)
  {
    forall plan | WellSpaced(plan, D) && EndsBefore(plan, |prices|)
      ensures PlanProfit(prices, fee, plan) <= Profit(prices, D, fee)
    {
      PlanProfitBounded(prices, D, fee, plan);
    }
    ProfitAttained(prices, D, fee);
  }

  /** A longer cooldown never raises the profit: every plan it allows, a shorter one allows too. */
  lemma CooldownMonotone(prices: seq<int>, D1: nat, D2: nat, fee: int)
    requires D1 <= D2
    ensures Profit(prices, D2, fee) <= Profit(prices, D1, fee)
  {
    ProfitIsOptimal(prices, D2, fee);
    ProfitIsOptimal(prices, D1, fee);
    var plan :| WellSpaced(plan, D2) && EndsBefore(plan, |prices|) &&
                PlanProfit(prices, fee, plan) == Profit(prices, D2, fee);
    assert WellSpaced(plan, D1);
  }
}
