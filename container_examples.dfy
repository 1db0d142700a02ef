/**
 * The four height lists of `main` in M2_week3/maxArea.py, with the largest
 * area each one holds.
 */
module ContainerExamples {
  import opened Container

  /** Lines 1 and 8: min(8, 7) * 7. */
  lemma NineLines()
    ensures BestArea([1, 8, 6, 2, 5, 4, 8, 3, 7]) == 49
  {
    var h := [1, 8, 6, 2, 5, 4, 8, 3, 7];
    assert h[0] == 1 && h[1] == 8 && h[2] == 6 && h[3] == 2 && h[4] == 5;
    assert h[5] == 4 && h[6] == 8 && h[7] == 3 && h[8] == 7;
    assert BestWith(h, 1, 1) == 1;
    assert BestWith(h, 2, 2) == 6;
    assert BestWith(h, 3, 3) == 4;
    assert BestWith(h, 4, 4) == 15;
    assert BestWith(h, 5, 5) == 16;
    assert BestWith(h, 6, 6) == 40;
    assert BestWith(h, 7, 7) == 18;
    assert BestWith(h, 8, 8) == 49;
    assert BestBelow(h, 3) == 6;
    assert BestBelow(h, 5) == 15;
    assert BestBelow(h, 6) == 16;
    assert BestBelow(h, 8) == 40;
  }

  /** The only pair: min(1, 1) * 1. */
  lemma TwoLines()
    ensures BestArea([1, 1]) == 1
  {
    var h := [1, 1];
    assert BestWith(h, 1, 1) == 1;
    assert BestBelow(h, 1) == 0;
  }

  /** The two outer lines: min(4, 4) * 4. */
  lemma OuterLinesEqual()
    ensures BestArea([4, 3, 2, 1, 4]) == 16
  {
    var h := [4, 3, 2, 1, 4];
    assert BestWith(h, 1, 1) == 3;
    assert BestWith(h, 2, 2) == 4;
    assert BestWith(h, 3, 3) == 3;
    assert BestWith(h, 4, 4) == 16;
    assert BestBelow(h, 4) == 4;
  }

  /** The two outer lines: min(1, 1) * 2. */
  lemma ThreeLines()
    ensures BestArea([1, 2, 1]) == 2
  {
    var h := [1, 2, 1];
    assert BestWith(h, 1, 1) == 1;
    assert BestWith(h, 2, 2) == 2;
    assert BestBelow(h, 2) == 1;
  }
}
