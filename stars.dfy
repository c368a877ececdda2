/**
 * The end-of-game star rating of the graphical front end: three stars for at most one and a
 * half moves per pair, two for at most two and a half, one otherwise. The float thresholds
 * `pairs * 1.5` and `pairs * 2.5` are compared exactly by doubling both sides.
 */
module Stars {

  /** `(rows * cols) // 2`: Python's floor division. */
  function Pairs(rows: int, cols: int): (p: int)
    ensures 2 * p <= rows * cols < 2 * p + 2
  {
    (rows * cols) / 2
  }

  /** `_calculate_stars` for a board of `rows` by `cols` finished in `moves` moves. */
  function CalculateStars(rows: int, cols: int, moves: int): (s: int)
    ensures 1 <= s <= 3
    ensures s == 3 <==> 2 * moves <= 3 * Pairs(rows, cols)
    ensures s == 2 <==> 3 * Pairs(rows, cols) < 2 * moves <= 5 * Pairs(rows, cols)
    ensures s == 1 <==> 3 * Pairs(rows, cols) < 2 * moves && 5 * Pairs(rows, cols) < 2 * moves
    ensures Pairs(rows, cols) >= 0 ==> (s == 1 <==> 5 * Pairs(rows, cols) < 2 * moves)
  {
    var pairs := Pairs(rows, cols);
    if 2 * moves <= 3 * pairs then 3
    else if 2 * moves <= 5 * pairs then 2
    else 1
  }

  /** More moves never earn more stars. */
  lemma StarsMonotone(rows: int, cols: int, m1: int, m2: int)
    requires m1 <= m2
    ensures CalculateStars(rows, cols, m2) <= CalculateStars(rows, cols, m1)
  {
  }

  /** A perfect game, one move per pair, earns three stars. */
  lemma PerfectGameThreeStars(rows: int, cols: int)
    requires rows >= 0 && cols >= 0
    ensures CalculateStars(rows, cols, Pairs(rows, cols)) == 3
  {
    assert rows * cols >= 0;
  }

  /** On a 4x4 board (8 pairs): 12 moves still earn three stars, 13 earn two, 21 earn one. */
  lemma FourByFourThresholds()
    ensures CalculateStars(4, 4, 12) == 3 && CalculateStars(4, 4, 13) == 2
    ensures CalculateStars(4, 4, 20) == 2 && CalculateStars(4, 4, 21) == 1
  {
  }
}
