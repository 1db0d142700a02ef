/**
 * Container with most water (M2_week3/maxArea.py): given the heights of
 * vertical lines at positions 0, 1, ..., n-1, the most water two of them can
 * hold together with the x-axis, found with two pointers that move inwards.
 */
module Container {
  import opened IntMath

  /** The water held between lines `i` and `j`: the shorter line times the distance. */
  function Area(height: seq<int>, i: nat, j: nat): int
    requires i < j < |height|
  {
    Min(height[i], height[j]) * (j - i)
  }

  predicate NonNegative(height: seq<int>)
  {
    forall k :: 0 <= k < |height| ==> height[k] >= 0
  }

  /** Reference definition, by exhaustive search: the largest of 0 and Area(i, j) for i < k. */
  function BestWith(height: seq<int>, j: nat, k: nat): int
    requires k <= j < |height|
  {
    if k == 0 then 0 else Max(BestWith(height, j, k - 1), Area(height, k - 1, j))
  }

  /** The largest of 0 and every Area(i, j) with i < j < m. */
  function BestBelow(height: seq<int>, m: nat): int
    requires m <= |height|
  {
    if m == 0 then 0 else Max(BestBelow(height, m - 1), BestWith(height, m - 1, m - 1))
  }

  /** The largest of 0 and the areas of all pairs of lines. */
  function BestArea(height: seq<int>): int
  {
    BestBelow(height, |height|)
  }

  lemma {:induction false} BestWithIsMaximum(height: seq<int>, j: nat, k: nat)
    requires k <= j < |height|
    ensures BestWith(height, j, k) >= 0
    ensures forall i :: 0 <= i < k ==> Area(height, i, j) <= BestWith(height, j, k)
    ensures BestWith(height, j, k) == 0 || exists i :: 0 <= i < k && Area(height, i, j) == BestWith(height, j, k)
  {
    if k > 0 {
      BestWithIsMaximum(height, j, k - 1);
    }
  }

  lemma {:induction false} BestBelowIsMaximum(height: seq<int>, m: nat)
    requires m <= |height|
    ensures BestBelow(height, m) >= 0
    ensures forall i, j :: 0 <= i < j < m ==> Area(height, i, j) <= BestBelow(height, m)
    ensures BestBelow(height, m) == 0 || exists i, j :: 0 <= i < j < m && Area(height, i, j) == BestBelow(height, m)
  {
    if m > 0 {
      BestBelowIsMaximum(height, m - 1);
      BestWithIsMaximum(height, m - 1, m - 1);
    }
  }

  /** BestArea is the largest pair area, or 0 when no pair has a positive area. */
  lemma BestAreaIsMaximum(height: seq<int>)
    ensures BestArea(height) >= 0
    ensures forall i, j :: 0 <= i < j < |height| ==> Area(height, i, j) <= BestArea(height)
    ensures BestArea(height) == 0 || exists i, j :: 0 <= i < j < |height| && Area(height, i, j) == BestArea(height)
  {
    BestBelowIsMaximum(height, |height|);
  }

  /**
   * Moving the shorter left line inwards loses nothing: every pair it skips
   * is no better than the current pair, or has a negative area.
   */
  lemma ShorterLeftBound(height: seq<int>, left: nat, right: nat, j: nat)
    requires left < j <= right < |height|
    requires height[left] <= height[right]
    ensures Area(height, left, j) <= Max(0, Area(height, left, right))
  {
    var h := height[left];
    assert Min(height[left], height[j]) * (j - left) <= h * (j - left);
    if h >= 0 {
      assert h * (j - left) <= h * (right - left);
    } else {
      assert h * (j - left) < 0;
    }
  }

  /** Likewise for a right line no taller than the left one. */
  lemma ShorterRightBound(height: seq<int>, left: nat, right: nat, i: nat)
    requires left <= i < right < |height|
    requires height[right] <= height[left]
    ensures Area(height, i, right) <= Max(0, Area(height, left, right))
  {
    var h := height[right];
    assert Min(height[i], height[right]) * (right - i) <= h * (right - i);
    if h >= 0 {
      assert h * (right - i) <= h * (right - left);
    } else {
      assert h * (right - i) < 0;
    }
  }

  /**
   * The two-pointer loop of the source. The result is the largest of 0 and
   * every pair's area; when the heights are non-negative and there are at
   * least two lines, some pair holds exactly that much.
   */
  method MaxArea(height: seq<int>) returns (maxArea: int)
    ensures maxArea >= 0
    ensures |height| < 2 ==> maxArea == 0
    ensures maxArea == 0 || exists i, j :: 0 <= i < j < |height| && Area(height, i, j) == maxArea
    ensures forall i, j :: 0 <= i < j < |height| ==> Area(height, i, j) <= maxArea
    ensures NonNegative(height) && |height| >= 2 ==>
              exists i, j :: 0 <= i < j < |height| && Area(height, i, j) == maxArea
    ensures maxArea == BestArea(height)
  {
    var left, right := 0, |height| - 1;
    maxArea := 0;
    ghost var bestLeft, bestRight := 0, 0;
    ghost var steps := 0;
    while left < right
      invariant 0 <= left <= right + 1 <= |height|
      invariant right - left == |height| - 1 - steps
      invariant maxArea >= 0
      invariant maxArea == 0 || (0 <= bestLeft < bestRight < |height| && Area(height, bestLeft, bestRight) == maxArea)
      invariant forall i, j :: 0 <= i < j < |height| && (i < left || right < j) ==> Area(height, i, j) <= maxArea
      decreases right - left
    {
      var currentHeight := Min(height[left], height[right]);
      var currentWidth := right - left;
      var currentArea := currentHeight * currentWidth;
      if currentArea > maxArea {
        bestLeft, bestRight := left, right;
      }
      maxArea := Max(maxArea, currentArea);
      if height[left] < height[right] {
        forall j | left < j <= right
          ensures Area(height, left, j) <= maxArea
        {
          ShorterLeftBound(height, left, right, j);
        }
        left := left + 1;
      } else {
        forall i | left <= i < right
          ensures Area(height, i, right) <= maxArea
        {
          ShorterRightBound(height, left, right, i);
        }
        right := right - 1;
      }
      steps := steps + 1;
    }
    if NonNegative(height) && |height| >= 2 && maxArea == 0 {
      assert Area(height, 0, 1) == maxArea;
    }
    BestAreaIsMaximum(height);
  }
}
