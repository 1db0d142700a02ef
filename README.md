# Two integer algorithms, modelled and proved in Dafny

This project models two small algorithms from the repository.

**Trading with a cooldown and a fee** (`maxProfit` in `M2_week2/test_maxProfit.py`).
A trader sees one price per day. The trader may hold at most one share. Every
sale costs `fee`. After a sale on day `s`, the next purchase may happen on day
`s + D + 1` at the earliest. The source fills two lists of length `n` in one
forward loop:

- `hold[i]` is the best profit at the end of day `i` while owning a share;
- `cool[i]` is the best profit at the end of day `i` while owning nothing.

It returns `max(0, cool[n-1])`, or 0 for an empty price list.

- Module `Trading` (`trading.dfy`) gives the two rows as pure functions `Hold` and `Cool`.
- `Trading.MaxProfit` is the loop itself. It allocates two arrays and fills them cell by cell. Its loop invariants tie every written cell to `Hold` or `Cool`.
- Module `TradingPlans` (`trading_plans.dfy`) is an independent definition of the answer. A *plan* is a list of round trips `(buy, sell)`. The module proves that the dynamic program is exact: no plan that respects the cooldown earns more than `Profit`, and some such plan earns exactly `Profit`.
- Module `TradingExamples` holds the expected values of the test block.

The source does not validate `D`, and the model follows the code. For `D = -1`, the read
`cool[i-D-1]` is `cool[i]`, which is still 0. So every purchase is a first
purchase, exactly as with a cooldown longer than the list (`NegativeCooldown`).
For `D <= -2` with at least two prices, the read runs past the end of the list
and Python raises `IndexError`. `MaxProfit` returns `Err` in exactly those cases.

The test block's first case (`[1,2,3,0,2]`, `D=1`, `fee=0`) expects 3, which is
correct, but its explanation (buy at 1, sell at 3, buy at 0, sell at 2) is also a
`D = 0` plan: it buys on the day right after a sale and earns 4. The best plan
for `D = 1` sells at 2 instead. `TradingExamples.BasicCooldown` proves both.

The test block's second case (`[1,3,2,8,4,9]`, `D=1`, `fee=2`) says it expects 8.
The recurrence gives 6, and the optimality theorem shows that 6 is the true best.
The comment's plan buys on day 4, right after a sale on day 3, and `D = 1`
forbids that. With `D = 0` that plan is allowed and earns 8. `TradingExamples.WithFee`
proves all of this, so the code is right and the comment is wrong.

**Container with most water** (`maxArea` in `M2_week3/maxArea.py`, LeetCode 11).
Two pointers start at the ends and move inwards. Each step records
`min(h[left], h[right]) * (right - left)` and then moves the shorter side.

- Module `Container` (`container.dfy`) has the loop as `MaxArea`. `BestArea` is a reference definition by exhaustive search over all pairs.
- The loop invariant says that every pair already skipped is no better than the running maximum. This holds for any integer heights: a negative shorter side only gives negative areas, and the running maximum starts at 0.
- For non-negative heights and at least two lines, some pair attains the result. With negative heights the result can be a 0 that no pair attains.
- Module `ContainerExamples` holds the four examples of `main`.

`IntMath` holds `Max` and `Min`, which stand for Python's built-ins.

## Model

| member | source | states |
|---|---|---|
| `Trading.Hold` | M2_week2/test_maxProfit.py:11-19 | hold[i] is never below -prices[i]: a first purchase on day i is always an option. This needs cool to be non-negative on the branch that reuses cool[i-D-1]. |
| `Trading.Cool` | M2_week2/test_maxProfit.py:9-22 | cool[i] is never negative, from the seed cool[0] = 0 and the recurrence. |
| `Trading.Profit` | M2_week2/test_maxProfit.py:2-24 | The result is non-negative. It is 0 for an empty or one-element price list. For a non-empty list it equals cool[n-1], so the final clamp never changes it. |
| `Trading.MaxProfit` | M2_week2/test_maxProfit.py:1-24 | The loop raises the index error exactly when D <= -2 and there are at least two prices, at index max(n, -D). Otherwise it returns Profit, with every array cell equal to the recurrence's value (loop invariants). |
| `Trading.MonotoneUpTo` | M2_week2/test_maxProfit.py:16-22 | Both rows are non-decreasing over the whole range: j <= k implies hold[j] <= hold[k] and cool[j] <= cool[k]. |
| `Trading.RoundTripLowerBound` | M2_week2/test_maxProfit.py:11-24 | For any days i < j, the result is at least prices[j] - prices[i] - fee. |
| `Trading.FeeMonotoneAt` | M2_week2/test_maxProfit.py:13-22 | With prices and D fixed, a higher fee gives pointwise lower or equal hold and cool. |
| `Trading.FeeMonotone` | M2_week2/test_maxProfit.py:13-24 | Raising the fee never raises the result. |
| `Trading.NegativeCooldownAt` | M2_week2/test_maxProfit.py:15-19 | With a negative D, both rows equal those for a cooldown as long as the price list. |
| `Trading.NegativeCooldown` | M2_week2/test_maxProfit.py:15-24 | With a negative D, `Profit` equals `Profit` for a cooldown as long as the price list (the source's result for D = -1; for D <= -2, see MaxProfit). |
| `TradingPlans.FlatBound` | M2_week2/test_maxProfit.py:13-22 | No plan that respects the cooldown and finishes by day i earns more than cool[i]. |
| `TradingPlans.OpenBound` | M2_week2/test_maxProfit.py:13-19 | Such a plan, plus a purchase on an allowed day b <= i, never beats hold[i]. |
| `TradingPlans.BestFlatAttains` | M2_week2/test_maxProfit.py:21-22 | The plan read back from the flat row's choices respects the cooldown, finishes by day i and earns exactly cool[i]. |
| `TradingPlans.SaleAttains` | M2_week2/test_maxProfit.py:22 | When cool[i] comes from a sale on day i, the best open plan of day i-1, closed on day i, earns exactly cool[i]. |
| `TradingPlans.BestOpenAttains` | M2_week2/test_maxProfit.py:14-19 | The plan read back from the holding row's choices may buy on its day b <= i, and its profit minus prices[b] is exactly hold[i]. |
| `TradingPlans.PlanProfitBounded` | M2_week2/test_maxProfit.py:13-24 | No plan that respects the cooldown earns more than the result. |
| `TradingPlans.ProfitAttained` | M2_week2/test_maxProfit.py:13-24 | Some plan that respects the cooldown earns exactly the result. |
| `TradingPlans.ProfitIsOptimal` | M2_week2/test_maxProfit.py:13-24 | The result is the maximum profit over all plans that respect the cooldown (both directions). |
| `TradingPlans.CooldownMonotone` | M2_week2/test_maxProfit.py:15-16 | For 0 <= D1 <= D2, the result for D2 is at most the result for D1. |
| `TradingExamples.BasicCooldown` | M2_week2/test_maxProfit.py:30-35 | [1,2,3,0,2] with D=1 and fee=0 gives 3. The commented plan breaks D=1 and earns 4; buying at 1, selling at 2, then buying at 0 and selling at 2 respects D=1 and earns 3. |
| `TradingExamples.WithFee` | M2_week2/test_maxProfit.py:39-44 | [1,3,2,8,4,9] with D=1 and fee=2 gives 6, not the commented 8. The commented plan breaks D=1 but is allowed for D=0, where it earns 8, which is the best. |
| `TradingExamples.LongerCooldown` | M2_week2/test_maxProfit.py:48-53 | [1,2,3,4,5] with D=2 and fee=0 gives 4. |
| `TradingExamples.FallingPrices` | M2_week2/test_maxProfit.py:57-62 | [5,4,3,2,1] with D=1 and fee=0 gives 0. |
| `TradingExamples.SinglePrice` | M2_week2/test_maxProfit.py:66-71 | [1] with D=1 and fee=0 gives 0. |
| `TradingExamples.HighFee` | M2_week2/test_maxProfit.py:75-80 | [1,2,3,4,5] with D=1 and fee=10 gives 0. |
| `Container.MaxArea` | M2_week3/maxArea.py:9-35 | The result is non-negative, and 0 for fewer than two lines. No pair of lines holds more than the result. The result is 0 or the area of some pair. For non-negative heights with at least two lines, some pair attains it. It equals BestArea. The loop keeps the pointers in range, shrinks right - left by one per step, and keeps the invariant that every skipped pair is no better. |
| `Container.BestAreaIsMaximum` | M2_week3/maxArea.py:9-14 | The reference BestArea is non-negative and at least every pair's area. It is either 0 or the area of some pair. |
| `Container.ShorterLeftBound` | M2_week3/maxArea.py:29-31 | When the left line is no taller than the right, every pair (left, j) with j <= right holds no more than max(0, current area). So moving left inwards loses nothing. |
| `Container.ShorterRightBound` | M2_week3/maxArea.py:29-33 | When the right line is no taller than the left, every pair (i, right) with i >= left holds no more than max(0, current area). So moving right inwards loses nothing. |
| `ContainerExamples.NineLines` | M2_week3/maxArea.py:46-51 | [1,8,6,2,5,4,8,3,7] gives 49. |
| `ContainerExamples.TwoLines` | M2_week3/maxArea.py:55-59 | [1,1] gives 1. |
| `ContainerExamples.OuterLinesEqual` | M2_week3/maxArea.py:63-68 | [4,3,2,1,4] gives 16. |
| `ContainerExamples.ThreeLines` | M2_week3/maxArea.py:72-77 | [1,2,1] gives 2. |

## Left out

- The geometry scripts under `QTA_week2/.history/` are not part of this model. They do floating-point trigonometry, numerical sampling and plotting, and contain no discrete logic.
- `.history/M2_week1/arithmetic_subarrays_solution_20251128233039.py` is not part of this model. It is a separate exercise outside the two algorithms.
- The printing in both test blocks is left out. Their expected values are kept as the example lemmas.
- Prices, the fee and heights are unbounded integers. Python would also accept floats for them, and floating-point rounding and infinities are not modelled.
- The `-float('inf')` fill of `hold` is not modelled. Each cell is written before it is read; `MaxProfit` proves every read cell holds its recurrence value.
- `Trading.MaxProfit`: the `IndexError` is modelled as an `Err` value carrying the offending index. Python's exception message and traceback are not modelled.
- The code does not validate its inputs and has no overflow handling; a negative fee or negative prices are accepted as they are, and so they are in the model.
- `TradingPlans.ProfitIsOptimal` is stated for non-negative cooldowns only. For a negative `D`, `Trading.NegativeCooldown` reduces the result to the case of a cooldown as long as the price list, where the theorem applies.
- "`height` is only read" holds by construction: the heights and prices are value sequences, which the methods cannot change.
