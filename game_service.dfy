/**
 * `GameService`: the turn state machine over a board's card objects. Each method is proved to
 * do to the board's snapshot, the move counter and the pending pick exactly what the matching
 * function of `Engine` does to a `Game` value.
 */
module Service {
  import opened Wrappers
  import opened Cards
  import opened Boards
  import Engine

  /** `card.reveal()` on the card in cell `(r, c)`: the snapshot changes in that cell only. */
  method RevealCell(b: Board, r: int, c: int)
    requires b.Valid() && 0 <= r < |b.grid| && 0 <= c < |b.grid[r]|
    modifies b.grid[r][c]
    ensures b.View() == Engine.SetCell(old(b.View()), (r, c), Revealed(old(b.View())[r][c]))
  {
    ghost var v := b.View();
    b.grid[r][c].Reveal();
    Engine.GridExt(b.View(), Engine.SetCell(v, (r, c), Revealed(v[r][c])));
  }

  /** `card.hide()` on the card in cell `(r, c)`. */
  method HideCell(b: Board, r: int, c: int)
    requires b.Valid() && 0 <= r < |b.grid| && 0 <= c < |b.grid[r]|
    modifies b.grid[r][c]
    ensures b.View() == Engine.SetCell(old(b.View()), (r, c), Hidden(old(b.View())[r][c]))
  {
    ghost var v := b.View();
    b.grid[r][c].Hide();
    Engine.GridExt(b.View(), Engine.SetCell(v, (r, c), Hidden(v[r][c])));
  }

  /** `card.mark_as_matched()` on the card in cell `(r, c)`. */
  method MatchCell(b: Board, r: int, c: int)
    requires b.Valid() && 0 <= r < |b.grid| && 0 <= c < |b.grid[r]|
    modifies b.grid[r][c]
    ensures b.View() == Engine.SetCell(old(b.View()), (r, c), Matched(old(b.View())[r][c]))
  {
    ghost var v := b.View();
    b.grid[r][c].MarkAsMatched();
    Engine.GridExt(b.View(), Engine.SetCell(v, (r, c), Matched(v[r][c])));
  }

  /** `mark_as_matched()` on the cards in cells `(r1, c1)` and `(r2, c2)`, in that order. */
  method MatchCells(b: Board, r1: int, c1: int, r2: int, c2: int)
    requires b.Valid() && 0 <= r1 < |b.grid| && 0 <= c1 < |b.grid[r1]| && 0 <= r2 < |b.grid| && 0 <= c2 < |b.grid[r2]|
    modifies b.grid[r1][c1], b.grid[r2][c2]
    ensures b.View() == Engine.MarkBoth(old(b.View()), (r1, c1), (r2, c2))
  {
    MatchCell(b, r1, c1);
    MatchCell(b, r2, c2);
  }

  class GameService {
    const board: Board
    var moves: int
    var firstSelected: Option<Engine.Pos>

    /** The service as a value: the board's snapshot, `moves` and `first_selected_pos`. */
    function State(): Engine.Game
      reads this, board, board.Cards()
    {
      Engine.Game(board.rows, board.cols, board.View(), moves, firstSelected)
    }

    ghost predicate Valid()
      reads this, board, board.Cards()
    {
      board.Valid() && Engine.Ready(State())
    }

    /** `GameService(board)`: no moves yet and no pending pick. */
    constructor (board: Board)
      ensures this.board == board
      ensures State() == Engine.Start(board.rows, board.cols, board.View())
      ensures board.Valid() ==> Valid()
    {
      this.board := board;
      moves := 0;
      firstSelected := None;
    }

    /** `pick_card(row, col)`, step for step as `Engine.Pick`. */
    method PickCard(row: int, col: int) returns (o: Engine.Outcome)
      requires Valid()
      modifies this, board.Cards()
      ensures Valid()
      ensures (State(), o) == Engine.Pick(old(State()), (row, col))
    {
      board.ShapedLookup(row, col);
      var looked := board.GetCard(row, col).value;
      if looked.None? || looked.value.isRevealed || looked.value.isMatched {
        return Engine.Invalid;
      }
      ghost var g := State();
      RevealCell(board, row, col);
      assert State() == Engine.Flip(g, (row, col));
      o := Settle(row, col);
    }

    /** The rest of `pick_card` once the picked card is face-up, step for step as `Engine.Settle`. */
    method Settle(row: int, col: int) returns (o: Engine.Outcome)
      requires Valid() && Engine.InBounds(State(), (row, col))
      modifies this, board.Cards()
      ensures (State(), o) == Engine.Settle(old(State()), (row, col))
      ensures Valid()
    {
      if firstSelected.None? {
        firstSelected := Some((row, col));
        return Engine.FirstPick;
      }
      o := CloseTurn(row, col);
    }

    /** The second pick of a turn: count the move, clear the pending pick, match equal identities. */
    method CloseTurn(row: int, col: int) returns (o: Engine.Outcome)
      requires Valid() && Engine.InBounds(State(), (row, col)) && firstSelected.Some?
      modifies this, board.Cards()
      ensures (State(), o) == Engine.Settle(old(State()), (row, col))
      ensures Valid()
    {
      ghost var g := State();
      Engine.SettleSecond(g, (row, col));
      moves := moves + 1;
      var r1, c1 := firstSelected.value.0, firstSelected.value.1;
      board.ShapedLookup(r1, c1);
      board.ShapedLookup(row, col);
      var firstCard := board.GetCard(r1, c1).value.value;
      var card := board.GetCard(row, col).value.value;
      firstSelected := None;
      assert firstCard.State() == Engine.At(g, (r1, c1)) && card.State() == Engine.At(g, (row, col));
      if firstCard.value == card.value {
        MatchCells(board, r1, c1, row, col);
        return Engine.Match;
      }
      return Engine.NoMatch;
    }

    /** `hide_cards(pos1, pos2)`, step for step as `Engine.Hide`. */
    method HideCards(pos1: Engine.Pos, pos2: Engine.Pos)
      requires Valid()
      modifies board.Cards()
      ensures Valid()
      ensures State() == Engine.Hide(old(State()), pos1, pos2)
    {
      board.ShapedLookup(pos1.0, pos1.1);
      board.ShapedLookup(pos2.0, pos2.1);
      var c1 := board.GetCard(pos1.0, pos1.1).value;
      var c2 := board.GetCard(pos2.0, pos2.1).value;
      ghost var g0 := State();
      if c1.Some? {
        HideCell(board, pos1.0, pos1.1);
      }
      assert State() == Engine.HideAt(g0, pos1);
      ghost var g1 := State();
      if c2.Some? {
        HideCell(board, pos2.0, pos2.1);
      }
      assert State() == Engine.HideAt(g1, pos2) == Engine.Hide(g0, pos1, pos2);
    }
  }
}
