/**
 * The turn rules of `GameService` on values: a snapshot of the board, the move counter and
 * the pending first pick. `GameService` (game_service.dfy) is proved to follow these
 * functions step for step, and the lemmas below state what the rules promise.
 */
module Engine {
  import opened Wrappers
  import opened Seqs
  import opened Cards

  /** The strings `pick_card` returns. */
  datatype Outcome = Invalid | FirstPick | Match | NoMatch

  type Pos = (int, int)

  /** `first` is `first_selected_pos`. */
  datatype Game = Game(rows: int, cols: int, grid: seq<seq<CardState>>, moves: int, first: Option<Pos>)

  /** The grid has the shape the board's loops give it. */
  predicate Shaped(g: Game)
  {
    |g.grid| == RangeLen(g.rows) && forall r :: 0 <= r < |g.grid| ==> |g.grid[r]| == RangeLen(g.cols)
  }

  /** The bounds test of `get_card`. */
  predicate InBounds(g: Game, p: Pos)
  {
    0 <= p.0 < g.rows && 0 <= p.1 < g.cols
  }

  /** The state machine is well defined: the grid is shaped and a pending pick is on the board. */
  predicate Ready(g: Game)
  {
    Shaped(g) && (g.first.Some? ==> InBounds(g, g.first.value))
  }

  function At(g: Game, p: Pos): CardState
    requires Shaped(g) && InBounds(g, p)
  {
    g.grid[p.0][p.1]
  }

  /** One cell replaced, everything else kept. */
  function SetCell(grid: seq<seq<CardState>>, p: Pos, s: CardState): (r: seq<seq<CardState>>)
    requires 0 <= p.0 < |grid| && 0 <= p.1 < |grid[p.0]|
    ensures |r| == |grid| && forall i :: 0 <= i < |r| ==> |r[i]| == |grid[i]|
    ensures forall i, j :: 0 <= i < |r| && 0 <= j < |r[i]| ==> r[i][j] == if (i, j) == p then s else grid[i][j]
  {
    grid[p.0 := grid[p.0][p.1 := s]]
  }

  /** A new `GameService`: no moves, nothing pending. */
  function Start(rows: int, cols: int, grid: seq<seq<CardState>>): (g: Game)
    ensures g.moves == 0 && g.first.None? && g.grid == grid
  {
    Game(rows, cols, grid, 0, None)
  }

  /** `card.reveal()` on the picked card. */
  function Flip(g: Game, p: Pos): (h: Game)
    requires Shaped(g) && InBounds(g, p)
    ensures Shaped(h) && h.rows == g.rows && h.cols == g.cols && h.moves == g.moves && h.first == g.first
    ensures forall q :: InBounds(g, q) ==> At(h, q) == if q == p then Revealed(At(g, p)) else At(g, q)
  {
    g.(grid := SetCell(g.grid, p, Revealed(At(g, p))))
  }

  /** `mark_as_matched()` on the card at `q`, then on the card at `p`. */
  function MarkBoth(grid: seq<seq<CardState>>, q: Pos, p: Pos): (r: seq<seq<CardState>>)
    requires 0 <= q.0 < |grid| && 0 <= q.1 < |grid[q.0]| && 0 <= p.0 < |grid| && 0 <= p.1 < |grid[p.0]|
    ensures |r| == |grid| && forall i :: 0 <= i < |r| ==> |r[i]| == |grid[i]|
  {
    var once := SetCell(grid, q, Matched(grid[q.0][q.1]));
    SetCell(once, p, Matched(once[p.0][p.1]))
  }

  /** What `pick_card` does after revealing the card at `p`: open the turn, or close it. */
  function Settle(g: Game, p: Pos): (res: (Game, Outcome))
    requires Ready(g) && InBounds(g, p)
    ensures Ready(res.0) && res.0.rows == g.rows && res.0.cols == g.cols
    ensures res.1 == FirstPick <==> g.first.None?
    ensures res.0.moves == if g.first.None? then g.moves else g.moves + 1
    ensures g.first.Some? ==> res.0.first.None?
    ensures g.first.Some? ==> (res.1 == Match <==> At(g, g.first.value).face.value == At(g, p).face.value)
    ensures g.first.Some? && res.1 != Match ==> res.1 == NoMatch
  {
    if g.first.None? then (g.(first := Some(p)), FirstPick)
    else
      var q := g.first.value;
      var g2 := g.(moves := g.moves + 1, first := None);
      if At(g2, q).face.value == At(g2, p).face.value then (g2.(grid := MarkBoth(g2.grid, q, p)), Match)
      else
        (g2, NoMatch)
  }

  /** The closing branch of `Settle`, as one equation. */
  lemma SettleSecond(g: Game, p: Pos)
    requires Ready(g) && InBounds(g, p) && g.first.Some?
    ensures var q, g2 := g.first.value, g.(moves := g.moves + 1, first := None);
      Settle(g, p) == if At(g, q).face.value == At(g, p).face.value then (g2.(grid := MarkBoth(g.grid, q, p)), Match) else (g2, NoMatch)
  {
  }

  /** `pick_card(row, col)`: the new game and the returned outcome. */
  function Pick(g: Game, p: Pos): (res: (Game, Outcome))
    requires Ready(g)
    ensures Ready(res.0) && res.0.rows == g.rows && res.0.cols == g.cols
  {
    if !InBounds(g, p) || At(g, p).revealed || At(g, p).matched then (g, Invalid)
    else Settle(Flip(g, p), p)
  }

  /** `card.hide()` on the card at `p`, when `get_card` finds one. */
  function HideAt(g: Game, p: Pos): (h: Game)
    requires Shaped(g)
    ensures Shaped(h) && h.rows == g.rows && h.cols == g.cols && h.moves == g.moves && h.first == g.first
    ensures forall q :: InBounds(g, q) ==> At(h, q) == if q == p then Hidden(At(g, p)) else At(g, q)
  {
    if InBounds(g, p) then g.(grid := SetCell(g.grid, p, Hidden(At(g, p)))) else g
  }

  /** `hide_cards(pos1, pos2)`. */
  function Hide(g: Game, p1: Pos, p2: Pos): (h: Game)
    requires Shaped(g)
    ensures Shaped(h) && h.rows == g.rows && h.cols == g.cols && h.moves == g.moves && h.first == g.first
  {
    HideAt(HideAt(g, p1), p2)
  }

  /** Every card keeps "matched implies revealed". */
  predicate AllCardInv(g: Game)
  {
    forall r, c :: 0 <= r < |g.grid| && 0 <= c < |g.grid[r]| ==> CardInv(g.grid[r][c])
  }

  /** The pending first card is face-up and unmatched, as `pick_card` leaves it. */
  predicate PendingShown(g: Game)
    requires Ready(g)
  {
    g.first.Some? ==> At(g, g.first.value).revealed && !At(g, g.first.value).matched
  }

  /** `g'` has the same board, with no card unmatched and no face changed. */
  predicate Progress(g: Game, g': Game)
  {
    g'.rows == g.rows && g'.cols == g.cols && |g'.grid| == |g.grid|
    && (forall r :: 0 <= r < |g.grid| ==> |g'.grid[r]| == |g.grid[r]|)
    && (forall r, c :: 0 <= r < |g.grid| && 0 <= c < |g.grid[r]| ==>
          g'.grid[r][c].face == g.grid[r][c].face && (g.grid[r][c].matched ==> g'.grid[r][c] == g.grid[r][c]))
  }

  /** Two grids of the same shape with the same cells are equal. */
  lemma GridExt(a: seq<seq<CardState>>, b: seq<seq<CardState>>)
    requires |a| == |b| && forall i :: 0 <= i < |a| ==> |a[i]| == |b[i]|
    requires forall i, j :: 0 <= i < |a| && 0 <= j < |a[i]| ==> a[i][j] == b[i][j]
    ensures a == b
  {
    forall i | 0 <= i < |a|
      ensures a[i] == b[i]
    {
    }
  }

  lemma ProgressTrans(g: Game, h: Game, k: Game)
    requires Progress(g, h) && Progress(h, k)
    ensures Progress(g, k)
  {
  }

  /** INVALID exactly for an off-board, face-up or matched position, and then nothing changes. */
  lemma PickInvalid(g: Game, p: Pos)
    requires Ready(g)
    ensures Pick(g, p).1 == Invalid <==> !InBounds(g, p) || At(g, p).revealed || At(g, p).matched
    ensures Pick(g, p).1 == Invalid ==> Pick(g, p).0 == g
  {
  }

  /** A valid pick with nothing pending reveals that card, records it, and counts no move. */
  lemma PickFirst(g: Game, p: Pos)
    requires Ready(g) && g.first.None? && InBounds(g, p) && !At(g, p).revealed && !At(g, p).matched
    ensures Pick(g, p).1 == FirstPick
    ensures Pick(g, p).0 == g.(grid := SetCell(g.grid, p, At(g, p).(revealed := true)), first := Some(p))
  {
  }

  /**
   * A valid second pick counts one move and clears the pending pick; it is MATCH exactly when
   * the two identities are equal, and then both cards are matched; otherwise both stay face-up
   * and unmatched.
   */
  lemma PickSecond(g: Game, p: Pos)
    requires Ready(g) && PendingShown(g) && g.first.Some?
    requires InBounds(g, p) && !At(g, p).revealed && !At(g, p).matched
    ensures var (h, o) := Pick(g, p); var q := g.first.value;
      && q != p
      && h.moves == g.moves + 1 && h.first.None?
      && (o == Match || o == NoMatch)
      && (o == Match <==> At(g, q).face.value == At(g, p).face.value)
      && (o == Match ==> h.grid == SetCell(SetCell(g.grid, q, Matched(At(g, q))), p, Matched(At(g, p))))
      && (o == NoMatch ==> h.grid == SetCell(g.grid, p, At(g, p).(revealed := true)))
      && (o == NoMatch ==> At(h, q).revealed && !At(h, q).matched && At(h, p).revealed && !At(h, p).matched)
  {
    var q := g.first.value;
    var g1 := Flip(g, p);
    assert At(g1, q) == At(g, q);
    if At(g1, q).face.value == At(g1, p).face.value {
      var h := Pick(g, p).0;
      GridExt(h.grid, SetCell(SetCell(g.grid, q, Matched(At(g, q))), p, Matched(At(g, p))));
    }
  }

  /** Using `pick_card` alone the pending card is rejected as the second pick: no card pairs with itself. */
  lemma NoSelfPair(g: Game, p: Pos)
    requires Ready(g) && PendingShown(g) && g.first == Some(p)
    ensures Pick(g, p).1 == Invalid && Pick(g, p).0 == g
  {
  }

  /** `pick_card` keeps every card invariant, keeps the pending card shown, and never unmatches or changes a face. */
  lemma PickPreserves(g: Game, p: Pos)
    requires Ready(g) && AllCardInv(g) && PendingShown(g)
    ensures AllCardInv(Pick(g, p).0) && PendingShown(Pick(g, p).0) && Progress(g, Pick(g, p).0)
  {
  }

  /** `hide_cards` turns face-down exactly the unmatched cards at the two positions, and nothing else. */
  lemma HideEffect(g: Game, p1: Pos, p2: Pos)
    requires Shaped(g)
    ensures forall r, c :: 0 <= r < |g.grid| && 0 <= c < |g.grid[r]| ==>
      Hide(g, p1, p2).grid[r][c] == if (r, c) == p1 || (r, c) == p2 then Hidden(g.grid[r][c]) else g.grid[r][c]
  {
    forall r, c | 0 <= r < |g.grid| && 0 <= c < |g.grid[r]|
      ensures Hide(g, p1, p2).grid[r][c] == if (r, c) == p1 || (r, c) == p2 then Hidden(g.grid[r][c]) else g.grid[r][c]
    {
      TransitionsIdempotent(g.grid[r][c]);
    }
  }

  /** `hide_cards` keeps every card invariant and never unmatches or changes a face. */
  lemma HidePreserves(g: Game, p1: Pos, p2: Pos)
    requires Ready(g) && AllCardInv(g)
    ensures Ready(Hide(g, p1, p2)) && AllCardInv(Hide(g, p1, p2)) && Progress(g, Hide(g, p1, p2))
  {
    HideEffect(g, p1, p2);
  }

  /**
   * Hiding the pending card and picking it again pairs the card with itself: the outcome is
   * MATCH, a move is counted, and that one card is matched while every other cell is unchanged.
   */
  lemma HideThenRepickPairsCardWithItself(g: Game, p: Pos)
    requires Ready(g) && PendingShown(g) && g.first == Some(p)
    ensures var (h, o) := Pick(Hide(g, p, p), p);
      && o == Match && h.moves == g.moves + 1 && h.first.None?
      && At(h, p) == Matched(At(g, p))
      && forall r, c :: 0 <= r < |g.grid| && 0 <= c < |g.grid[r]| && (r, c) != p ==> h.grid[r][c] == g.grid[r][c]
  {
    HideEffect(g, p, p);
  }

  /** `pick_card` applied to each position in turn: the final game and the outcomes. */
  function Run(g: Game, ps: seq<Pos>): (res: (Game, seq<Outcome>))
    requires Ready(g)
    ensures Ready(res.0) && |res.1| == |ps|
    decreases |ps|
  {
    if ps == [] then (g, [])
    else
      var (h, o) := Pick(g, ps[0]);
      var (k, os) := Run(h, ps[1..]);
      (k, [o] + os)
  }

  /** How many outcomes close a turn (MATCH or NO_MATCH). */
  function Resolved(os: seq<Outcome>): (n: nat)
    ensures n <= |os|
  {
    if os == [] then 0 else Resolved(os[1..]) + (if os[0] == Match || os[0] == NoMatch then 1 else 0)
  }

  /** How many outcomes open a turn (FIRST_PICK). */
  function Opened(os: seq<Outcome>): (n: nat)
    ensures n + Resolved(os) <= |os|
  {
    if os == [] then 0 else Opened(os[1..]) + (if os[0] == FirstPick then 1 else 0)
  }

  function Pending(g: Game): nat
  {
    if g.first.Some? then 1 else 0
  }

  /**
   * Over any sequence of picks the invariants hold, no card is unmatched, `moves` counts the
   * resolved turns, and every opened turn is resolved exactly once or is still pending.
   */
  lemma {:induction false} RunPreserves(g: Game, ps: seq<Pos>)
    requires Ready(g) && AllCardInv(g) && PendingShown(g)
    ensures var (h, os) := Run(g, ps);
      && AllCardInv(h) && PendingShown(h) && Progress(g, h)
      && h.moves == g.moves + Resolved(os)
      && Opened(os) + Pending(g) == Resolved(os) + Pending(h)
    decreases |ps|
  {
    if ps != [] {
      var (h, o) := Pick(g, ps[0]);
      PickPreserves(g, ps[0]);
      PickInvalid(g, ps[0]);
      RunPreserves(h, ps[1..]);
      ProgressTrans(g, h, Run(h, ps[1..]).0);
    }
  }

  /** What a front end does to a game: `pick_card`, or `hide_cards` after a mismatch. */
  datatype Action = PickCell(p: Pos) | HideCells(p1: Pos, p2: Pos)

  function Apply(g: Game, a: Action): (h: Game)
    requires Ready(g)
    ensures Ready(h) && h.rows == g.rows && h.cols == g.cols
  {
    match a
    case PickCell(p) => Pick(g, p).0
    case HideCells(p1, p2) => Hide(g, p1, p2)
  }

  /** The game after a sequence of actions, in order. */
  function Play(g: Game, acts: seq<Action>): (h: Game)
    requires Ready(g)
    ensures Ready(h) && h.rows == g.rows && h.cols == g.cols
    decreases |acts|
  {
    if acts == [] then g else Play(Apply(g, acts[0]), acts[1..])
  }

  /** `pick_card` keeps every card invariant and the board's progress even when the pending card was hidden. */
  lemma PickKeepsCards(g: Game, p: Pos)
    requires Ready(g) && AllCardInv(g)
    ensures AllCardInv(Pick(g, p).0) && Progress(g, Pick(g, p).0) && Pick(g, p).0.moves >= g.moves
  {
  }

  /**
   * Over any interleaving of picks and hides every card keeps "matched implies revealed", no
   * card is unmatched, no face changes and `moves` never decreases.
   */
  lemma {:induction false} PlayPreserves(g: Game, acts: seq<Action>)
    requires Ready(g) && AllCardInv(g)
    ensures AllCardInv(Play(g, acts)) && Progress(g, Play(g, acts)) && Play(g, acts).moves >= g.moves
    decreases |acts|
  {
    if acts != [] {
      var h := Apply(g, acts[0]);
      if acts[0].PickCell? {
        PickKeepsCards(g, acts[0].p);
      } else {
        HidePreserves(g, acts[0].p1, acts[0].p2);
      }
      PlayPreserves(h, acts[1..]);
      ProgressTrans(g, h, Play(h, acts[1..]));
    }
  }
}
