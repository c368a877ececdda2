/**
 * Test-only layer. The shown `GameService` keeps no score; the scoring tests and the game
 * manager's callers expect one. This module states the rule those tests check, on top of the
 * outcomes of `Engine.Pick`: a match adds `100 * combo * multiplier` after raising the combo,
 * a mismatch resets the combo and takes 20 points, with no floor at zero.
 * Multipliers are kept in half-units (1.0, 1.5, 2.0 become 2, 3, 4), so all arithmetic is exact.
 */
module Scoring {
  import opened Wrappers
  import opened Cards
  import opened Engine

  /** The difficulty multiplier the game manager picks for a board size, in half-units. */
  function MultiplierHalves(rows: int, cols: int): (h: nat)
    ensures 2 <= h <= 4
    ensures h == 2 <==> rows == 4 && cols == 4
    ensures h == 3 <==> cols == 4 && rows != 4
  {
    if rows == 4 && cols == 4 then 2 else if cols == 4 then 3 else 4
  }

  datatype Score = Score(points: int, combo: nat)

  /** The score after one `pick_card` outcome. */
  function Scored(s: Score, o: Outcome, halves: nat): (t: Score)
    ensures o == Match ==> t.combo == s.combo + 1 && 2 * (t.points - s.points) == 100 * t.combo * halves
    ensures o == NoMatch ==> t.combo == 0 && t.points == s.points - 20
    ensures o == Invalid || o == FirstPick ==> t == s
  {
    match o
    case Match => Score(s.points + 50 * (s.combo + 1) * halves, s.combo + 1)
    case NoMatch => Score(s.points - 20, 0)
    case _ => s
  }

  /** The score after a sequence of outcomes, in order. */
  function ScoredRun(s: Score, os: seq<Outcome>, halves: nat): Score
    decreases |os|
  {
    if os == [] then s else ScoredRun(Scored(s, os[0], halves), os[1..], halves)
  }

  function Matches(os: seq<Outcome>): (n: nat)
    ensures n <= |os|
  {
    if os == [] then 0 else Matches(os[1..]) + (if os[0] == Match then 1 else 0)
  }

  function Misses(os: seq<Outcome>): (n: nat)
    ensures n <= |os|
  {
    if os == [] then 0 else Misses(os[1..]) + (if os[0] == NoMatch then 1 else 0)
  }

  /**
   * Points are lost only by mismatches, 20 at a time; without a mismatch the combo grows by
   * one per match and the points never drop.
   */
  lemma {:induction false} ScoreBounds(s: Score, os: seq<Outcome>, halves: nat)
    ensures ScoredRun(s, os, halves).points >= s.points - 20 * Misses(os)
    ensures ScoredRun(s, os, halves).combo <= s.combo + Matches(os)
    ensures Misses(os) == 0 ==>
      ScoredRun(s, os, halves).combo == s.combo + Matches(os) && ScoredRun(s, os, halves).points >= s.points
    decreases |os|
  {
    if os != [] {
      ScoreBounds(Scored(s, os[0], halves), os[1..], halves);
    }
  }

  /** There is no floor: a first mismatch from zero leaves a negative score. */
  lemma NoFloorAtZero()
    ensures Scored(Score(0, 0), NoMatch, 2).points == -20
  {
  }

  /** The 2x2 fixture of the scoring tests: A A on the first row, B B on the second. */
  function Fixture(): (g: Game)
    ensures Ready(g) && AllCardInv(g) && PendingShown(g)
  {
    var a := NewState(Face("A", Some("A")));
    var b := NewState(Face("B", Some("B")));
    Start(2, 2, [[a, a], [b, b]])
  }

  /** `test_basic_match_score`: picking (0,0) then (0,1) matches and scores 150 at multiplier 1.5. */
  lemma BasicMatchScore()
    ensures var (g, os) := Run(Fixture(), [(0, 0), (0, 1)]);
      os == [FirstPick, Match] && ScoredRun(Score(0, 0), os, 3) == Score(150, 1)
  {
    var (g1, o1) := Pick(Fixture(), (0, 0));
    assert o1 == FirstPick;
    var (g2, o2) := Pick(g1, (0, 1));
    assert o2 == Match;
    assert Run(Fixture(), [(0, 0), (0, 1)]).1 == [o1, o2] by {
      assert [(0, 0), (0, 1)][1..] == [(0, 1)];
    }
    var os := [FirstPick, Match];
    assert os[1..] == [Match];
    assert ScoredRun(Score(0, 0), os, 3) == ScoredRun(Score(0, 0), [Match], 3) == ScoredRun(Score(150, 1), [], 3);
  }

  /** `test_combo_streak_increases_score`: a second match in a row scores 300 more, 450 in all. */
  lemma ComboStreakScore()
    ensures var (g, os) := Run(Fixture(), [(0, 0), (0, 1), (1, 0), (1, 1)]);
      os == [FirstPick, Match, FirstPick, Match] && ScoredRun(Score(0, 0), os, 3) == Score(450, 2)
  {
    var (g1, o1) := Pick(Fixture(), (0, 0));
    var (g2, o2) := Pick(g1, (0, 1));
    var (g3, o3) := Pick(g2, (1, 0));
    assert o3 == FirstPick;
    var (g4, o4) := Pick(g3, (1, 1));
    assert o4 == Match;
    var ps := [(0, 0), (0, 1), (1, 0), (1, 1)];
    assert ps[1..] == [(0, 1), (1, 0), (1, 1)] && ps[1..][1..] == [(1, 0), (1, 1)] && ps[1..][1..][1..] == [(1, 1)];
    assert Run(Fixture(), ps).1 == [o1, o2, o3, o4];
    var os := [FirstPick, Match, FirstPick, Match];
    assert os[1..] == [Match, FirstPick, Match] && os[1..][1..] == [FirstPick, Match] && os[1..][1..][1..] == [Match];
    assert ScoredRun(Score(0, 0), os, 3) == ScoredRun(Score(150, 1), [FirstPick, Match], 3)
      == ScoredRun(Score(150, 1), [Match], 3) == ScoredRun(Score(450, 2), [], 3);
  }

  /** `test_mismatch_resets_combo_and_penalizes`: from 100 points and combo 5, A against B gives 80 and combo 0. */
  lemma MismatchScore()
    ensures var (g, os) := Run(Fixture(), [(0, 0), (1, 0)]);
      os == [FirstPick, NoMatch] && ScoredRun(Score(100, 5), os, 3) == Score(80, 0)
  {
    var (g1, o1) := Pick(Fixture(), (0, 0));
    assert o1 == FirstPick;
    var (g2, o2) := Pick(g1, (1, 0));
    assert o2 == NoMatch;
    assert Run(Fixture(), [(0, 0), (1, 0)]).1 == [o1, o2] by {
      assert [(0, 0), (1, 0)][1..] == [(1, 0)];
    }
    var os := [FirstPick, NoMatch];
    assert os[1..] == [NoMatch];
    assert ScoredRun(Score(100, 5), os, 3) == ScoredRun(Score(100, 5), [NoMatch], 3) == ScoredRun(Score(80, 0), [], 3);
  }
}
