/**
 * The board: a `rows x cols` grid of cards filled from a list of faces. The list is
 * shuffled and then consumed with `pop()` from its end, row by row, so read row-major
 * the grid is the shuffled list backwards.
 */
module Boards {
  import opened Wrappers
  import opened Seqs
  import opened Randomness
  import opened Cards

  /** The ValueError raised when the card count cannot be split into pairs, and the IndexError of a lookup into a short grid. */
  datatype BoardError = OddCardCount | IndexOutOfRange

  /** `a * b` as repeated addition, which keeps the loop bookkeeping linear. */
  function Times(a: nat, b: nat): nat
  {
    if a == 0 then 0 else Times(a - 1, b) + b
  }

  lemma {:induction false} TimesIsMul(a: nat, b: nat)
    ensures Times(a, b) == a * b
  {
    if a > 0 {
      TimesIsMul(a - 1, b);
    }
  }

  lemma {:induction false} TimesMono(a: nat, c: nat, b: nat)
    requires a <= c
    ensures Times(a, b) <= Times(c, b)
    decreases c - a
  {
    if a < c {
      TimesMono(a + 1, c, b);
    }
  }

  /** How many cells the nested `for r in range(rows)` / `for c in range(cols)` loops visit. */
  function Cells(rows: int, cols: int): nat
  {
    Times(RangeLen(rows), RangeLen(cols))
  }

  /** The largest letter count for which every `chr(65 + i)` is below the surrogate range. */
  const MaxLetters: nat := 0xD800 - 65

  /** `[chr(65 + i) for i in range(n)]`, as faces without display text. */
  function Letters(n: nat): (r: seq<Face>)
    requires n <= MaxLetters
    ensures |r| == n
    ensures forall i :: 0 <= i < n ==> r[i] == Face([(65 + i) as char], None)
  {
    seq(n, i requires 0 <= i < n => Face([(65 + i) as char], None))
  }

  /** `[chr(65 + i) for i in range(n)] * 2`: the default fill list. */
  function LetterPairs(n: nat): (r: seq<Face>)
    requires n <= MaxLetters
    ensures |r| == 2 * n
  {
    Letters(n) + Letters(n)
  }

  /** Each of the first n letters occurs exactly twice in the default fill list, and nothing else occurs. */
  lemma {:induction false} LetterPairsCount(n: nat, f: Face)
    requires n <= MaxLetters
    ensures multiset(LetterPairs(n))[f] == if f in Letters(n) then 2 else 0
    ensures f in Letters(n) <==> f.display.None? && |f.value| == 1 && 65 <= f.value[0] as int < 65 + n
  {
    var l := Letters(n);
    if f.display.None? && |f.value| == 1 && 65 <= f.value[0] as int < 65 + n {
      assert f == l[f.value[0] as int - 65];
    }
    forall i, j | 0 <= i < j < n ensures l[i] != l[j] {
      assert l[i].value[0] != l[j].value[0];
    }
    DistinctCount(l, f);
  }

  /** The faces of one row. */
  function RowFaces(row: seq<Card>): (r: seq<Face>)
    ensures |r| == |row| && forall i :: 0 <= i < |row| ==> r[i] == Face(row[i].value, row[i].display)
  {
    seq(|row|, i requires 0 <= i < |row| => Face(row[i].value, row[i].display))
  }

  /** The faces of a grid, row-major. */
  function GridFaces(g: seq<seq<Card>>): (r: seq<Face>)
  {
    if g == [] then [] else GridFaces(g[..|g| - 1]) + RowFaces(g[|g| - 1])
  }

  /** The states of one row. */
  function RowView(row: seq<Card>): (v: seq<CardState>)
    reads set i | 0 <= i < |row| :: row[i]
    ensures |v| == |row| && forall i :: 0 <= i < |row| ==> v[i] == row[i].State()
  {
    seq(|row|, i requires 0 <= i < |row| reads set j | 0 <= j < |row| :: row[j] => row[i].State())
  }

  /** No card object sits in two cells. */
  ghost predicate DistinctGrid(g: seq<seq<Card>>)
  {
    forall r, c, r', c' ::
      0 <= r < |g| && 0 <= c < |g[r]| && 0 <= r' < |g| && 0 <= c' < |g[r']| && (r, c) != (r', c')
      ==> g[r][c] != g[r'][c']
  }

  lemma {:induction false} DistinctGridAppend(g: seq<seq<Card>>, row: seq<Card>)
    requires DistinctGrid(g)
    requires forall j, k :: 0 <= j < k < |row| ==> row[j] != row[k]
    requires forall r, c, j :: 0 <= r < |g| && 0 <= c < |g[r]| && 0 <= j < |row| ==> g[r][c] != row[j]
    ensures DistinctGrid(g + [row])
  {
    var h := g + [row];
    forall r, c, r', c' | 0 <= r < |h| && 0 <= c < |h[r]| && 0 <= r' < |h| && 0 <= c' < |h[r']| && (r, c) != (r', c')
      ensures h[r][c] != h[r'][c']
    {
      if r == |g| && r' == |g| {
        if c < c' { assert row[c] != row[c']; } else { assert row[c'] != row[c]; }
      }
    }
  }

  /** A row of card states is fully matched. */
  function RowMatched(row: seq<CardState>): (b: bool)
    ensures b <==> forall c :: 0 <= c < |row| ==> row[c].matched
  {
    if row == [] then true else RowMatched(row[..|row| - 1]) && row[|row| - 1].matched
  }

  /** `all(card.is_matched for row in grid for card in row)` over a snapshot. */
  function AllMatchedView(v: seq<seq<CardState>>): (b: bool)
    ensures b <==> forall r, c :: 0 <= r < |v| && 0 <= c < |v[r]| ==> v[r][c].matched
  {
    if v == [] then true else AllMatchedView(v[..|v| - 1]) && RowMatched(v[|v| - 1])
  }

  /** With both sides positive Python's `//` and `range` agree with the loops: every letter pair is placed. */
  lemma {:induction false} EvenProductFillsAll(rows: int, cols: int)
    requires (rows * cols) % 2 == 0
    ensures Cells(rows, cols) <= 2 * RangeLen((rows * cols) / 2)
    ensures rows > 0 && cols > 0 ==> Cells(rows, cols) == 2 * RangeLen((rows * cols) / 2)
  {
    TimesIsMul(RangeLen(rows), RangeLen(cols));
    if rows < 0 || cols < 0 || rows == 0 || cols == 0 {
      assert RangeLen(rows) == 0 || RangeLen(cols) == 0;
    } else {
      assert rows * cols > 0;
    }
  }

  class Board {
    const rows: int
    const cols: int
    var grid: seq<seq<Card>>

    /** The grid has RangeLen(rows) rows of RangeLen(cols) cards. */
    ghost predicate Shaped()
      reads this
    {
      |grid| == RangeLen(rows) && forall r :: 0 <= r < |grid| ==> |grid[r]| == RangeLen(cols)
    }

    ghost function Cards(): set<Card>
      reads this
    {
      set r, c | 0 <= r < |grid| && 0 <= c < |grid[r]| :: grid[r][c]
    }

    /** Every cell holds its own card object. */
    ghost predicate DistinctCards()
      reads this
    {
      DistinctGrid(grid)
    }

    ghost predicate Valid()
      reads this
    {
      Shaped() && DistinctCards()
    }

    /** A snapshot of every card, row by row. */
    function View(): (v: seq<seq<CardState>>)
      reads this, Cards()
      ensures |v| == |grid|
      ensures forall r :: 0 <= r < |grid| ==> |v[r]| == |grid[r]|
      ensures forall r, c :: 0 <= r < |grid| && 0 <= c < |grid[r]| ==> v[r][c] == grid[r][c].State()
    {
      seq(|grid|, r requires 0 <= r < |grid| reads this, Cards() => RowView(grid[r]))
    }

    /** The cards' faces, row-major. */
    function Faces(): seq<Face>
      reads this
    {
      GridFaces(grid)
    }

    /** `Board(rows, cols)` filled from `values` with the shuffle draws `picks` (no parity check: see New). */
    constructor (rows: int, cols: int, values: seq<Face>, picks: seq<nat>)
      requires ValidPicks(picks, |values|)
      requires Cells(rows, cols) <= |values|
      ensures this.rows == rows && this.cols == cols
      ensures Valid()
      ensures Faces() == Reverse(Shuffled(values, picks)[|values| - Cells(rows, cols)..])
      ensures FaceDown()
      ensures forall c :: c in Cards() ==> fresh(c)
    {
      this.rows := rows;
      this.cols := cols;
      grid := [];
      new;
      InitializeBoard(values, picks);
    }

    /** `Board(rows, cols)` with a fill list for the cells: the parity check of `__init__`, then the fill. */
    static method New(rows: int, cols: int, values: seq<Face>, picks: seq<nat>) returns (r: Result<Board, BoardError>)
      requires (rows * cols) % 2 == 0 ==> ValidPicks(picks, |values|) && Cells(rows, cols) <= |values|
      ensures r.Failure? <==> (rows * cols) % 2 != 0
      ensures r.Success? ==> fresh(r.value) && r.value.rows == rows && r.value.cols == cols && r.value.Valid()
      ensures r.Success? ==> r.value.Faces() == Reverse(Shuffled(values, picks)[|values| - Cells(rows, cols)..])
      ensures r.Success? ==> r.value.FaceDown()
      ensures r.Success? ==> forall c :: c in r.value.Cards() ==> fresh(c)
    {
      if (rows * cols) % 2 != 0 {
        return Failure(OddCardCount);
      }
      var b := new Board(rows, cols, values, picks);
      return Success(b);
    }

    /** `Board(rows, cols)` exactly as board.py builds it: `rows * cols // 2` letters, each twice. */
    static method NewWithLetters(rows: int, cols: int, picks: seq<nat>) returns (r: Result<Board, BoardError>)
      requires (rows * cols) % 2 == 0 ==>
        RangeLen((rows * cols) / 2) <= MaxLetters && ValidPicks(picks, 2 * RangeLen((rows * cols) / 2))
      ensures r.Failure? <==> (rows * cols) % 2 != 0
      ensures r.Success? ==> fresh(r.value) && r.value.rows == rows && r.value.cols == cols && r.value.Valid()
      ensures r.Success? ==> r.value.FaceDown()
      ensures r.Success? ==> forall c :: c in r.value.Cards() ==> fresh(c)
      ensures r.Success? ==> var n := RangeLen((rows * cols) / 2);
        Cells(rows, cols) <= 2 * n &&
        r.value.Faces() == Reverse(Shuffled(LetterPairs(n), picks)[2 * n - Cells(rows, cols)..])
      ensures r.Success? && rows > 0 && cols > 0 ==>
        multiset(r.value.Faces()) == multiset(LetterPairs(RangeLen((rows * cols) / 2)))
    {
      if (rows * cols) % 2 != 0 {
        return Failure(OddCardCount);
      }
      var n := RangeLen((rows * cols) / 2);
      EvenProductFillsAll(rows, cols);
      var values := LetterPairs(n);
      var b := new Board(rows, cols, values, picks);
      if rows > 0 && cols > 0 {
        calc {
          multiset(b.Faces());
          { ReverseMultiset(Shuffled(values, picks)[2 * n - Cells(rows, cols)..]); }
          multiset(Shuffled(values, picks)[2 * n - Cells(rows, cols)..]);
          { assert Shuffled(values, picks)[2 * n - Cells(rows, cols)..] == Shuffled(values, picks); }
          multiset(Shuffled(values, picks));
          { ShuffledMultiset(values, picks); }
          multiset(values);
        }
      }
      return Success(b);
    }

    /** No card is revealed or matched. */
    ghost predicate FaceDown()
      reads this, Cards()
    {
      forall r, c :: 0 <= r < |grid| && 0 <= c < |grid[r]| ==> !grid[r][c].isRevealed && !grid[r][c].isMatched
    }

    /**
     * `get_card`: None when `(row, col)` is outside the board's dimensions, else `grid[row][col]`.
     * The bounds are `rows` and `cols`, not the grid's size, so after `reset` an in-bounds lookup raises.
     */
    function GetCard(row: int, col: int): (r: Result<Option<Card>, BoardError>)
      reads this
      ensures r == Success(None) <==> !(0 <= row < rows && 0 <= col < cols)
      ensures r.Failure? <==> 0 <= row < rows && 0 <= col < cols && !(row < |grid| && col < |grid[row]|)
      ensures r.Success? && r.value.Some? ==> r.value.value == grid[row][col] && r.value.value in Cards()
    {
      if 0 <= row < rows && 0 <= col < cols then
        if row < |grid| && col < |grid[row]| then Success(Some(grid[row][col])) else Failure(IndexOutOfRange)
      else Success(None)
    }

    /** On a shaped board `get_card` never raises, and it finds a card exactly at the in-bounds positions. */
    lemma ShapedLookup(row: int, col: int)
      requires Shaped()
      ensures GetCard(row, col).Success?
      ensures GetCard(row, col).value.Some? <==> 0 <= row < rows && 0 <= col < cols
    {
    }

    /** `all_matched`: every card of the grid is matched. */
    function AllMatched(): (b: bool)
      reads this, Cards()
      ensures b <==> forall r, c :: 0 <= r < |grid| && 0 <= c < |grid[r]| ==> grid[r][c].isMatched
    {
      AllMatchedView(View())
    }

    /** `reset`: shuffles the caller's list in place and empties the grid; the new values are never placed. */
    method Reset(newValues: array<Face>, picks: seq<nat>)
      requires ValidPicks(picks, newValues.Length)
      modifies this, newValues
      ensures grid == []
      ensures newValues[..] == Shuffled(old(newValues[..]), picks)
      ensures multiset(newValues[..]) == multiset(old(newValues[..]))
    {
      ShuffleInPlace(newValues, picks);
      ShuffledMultiset(old(newValues[..]), picks);
      grid := [];
    }

    /** `_initialize_board`: shuffle the list, then `pop()` one value per cell, row by row. */
    method InitializeBoard(values: seq<Face>, picks: seq<nat>)
      requires grid == []
      requires ValidPicks(picks, |values|)
      requires Cells(rows, cols) <= |values|
      modifies this
      ensures Valid()
      ensures Faces() == Reverse(Shuffled(values, picks)[|values| - Cells(rows, cols)..])
      ensures FaceDown()
      ensures forall c :: c in Cards() ==> fresh(c)
    {
      var shuffled := Shuffled(values, picks);
      grid := FillGrid(shuffled, rows, cols);
    }

    /** The nested loops of `_initialize_board`: one row of `pop()`ed cards per `r`. */
    static method FillGrid(values: seq<Face>, rows: int, cols: int) returns (g: seq<seq<Card>>)
      requires Cells(rows, cols) <= |values|
      ensures |g| == RangeLen(rows) && forall i :: 0 <= i < |g| ==> |g[i]| == RangeLen(cols)
      ensures DistinctGrid(g)
      ensures GridFaces(g) == Reverse(values[|values| - Cells(rows, cols)..])
      ensures forall i, j :: 0 <= i < |g| && 0 <= j < |g[i]| ==> !g[i][j].isRevealed && !g[i][j].isMatched
      ensures forall i, j :: 0 <= i < |g| && 0 <= j < |g[i]| ==> fresh(g[i][j])
    {
      var vals := values;
      var width := RangeLen(cols);
      ghost var used := 0;
      g := [];
      var r := 0;
      while r < rows
        invariant 0 <= r <= RangeLen(rows) && used == Times(r, width)
        invariant FilledSoFar(g, values, vals, width) && |g| == r && |vals| + used == |values|
        invariant forall i, j :: 0 <= i < |g| && 0 <= j < |g[i]| ==> fresh(g[i][j])
      {
        TimesMono(r + 1, RangeLen(rows), width);
        ghost var before := g;
        g, vals := AddRow(g, values, vals, cols);
        assert forall i :: 0 <= i < r ==> g[i] == before[i];
        used := used + width;
        r := r + 1;
      }
      assert r == RangeLen(rows) && |vals| == |values| - Cells(rows, cols);
    }

    /** One pass of the outer loop of `_initialize_board`: a row of new cards appended to the grid. */
    static method AddRow(g: seq<seq<Card>>, values: seq<Face>, vals: seq<Face>, cols: int) returns (g': seq<seq<Card>>, rest: seq<Face>)
      requires FilledSoFar(g, values, vals, RangeLen(cols)) && RangeLen(cols) <= |vals|
      ensures FilledSoFar(g', values, rest, RangeLen(cols))
      ensures |g'| == |g| + 1 && g'[..|g|] == g && |rest| == |vals| - RangeLen(cols)
      ensures forall j :: 0 <= j < |g'[|g|]| ==> fresh(g'[|g|][j])
    {
      var rowCards;
      rowCards, rest := FillRow(vals, cols);
      FilledStep(g, rowCards, values, vals, rest, RangeLen(cols));
      g' := g + [rowCards];
      assert g'[..|g|] == g;
    }

    /** The loop invariant of `FillGrid`: the rows built so far hold, read row-major, the values popped so far. */
    static ghost predicate FilledSoFar(g: seq<seq<Card>>, values: seq<Face>, vals: seq<Face>, width: nat)
      reads set i, j | 0 <= i < |g| && 0 <= j < |g[i]| :: g[i][j]
    {
      && (forall i :: 0 <= i < |g| ==> |g[i]| == width)
      && |vals| <= |values| && vals == values[..|vals|]
      && GridFaces(g) == Reverse(values[|vals|..])
      && DistinctGrid(g)
      && (forall i, j :: 0 <= i < |g| && 0 <= j < |g[i]| ==> !g[i][j].isRevealed && !g[i][j].isMatched)
    }

    static lemma {:induction false} FilledStep(g: seq<seq<Card>>, row: seq<Card>, values: seq<Face>, vals: seq<Face>, rest: seq<Face>, width: nat)
      requires FilledSoFar(g, values, vals, width)
      requires |row| == width && width <= |vals| && rest == vals[..|vals| - width]
      requires RowFaces(row) == Reverse(vals[|rest|..])
      requires forall j :: 0 <= j < |row| ==> !row[j].isRevealed && !row[j].isMatched
      requires forall j, k :: 0 <= j < k < |row| ==> row[j] != row[k]
      requires forall i, j, k :: 0 <= i < |g| && 0 <= j < |g[i]| && 0 <= k < |row| ==> g[i][j] != row[k]
      ensures FilledSoFar(g + [row], values, rest, width)
    {
      FacesStep(g, row, values, vals, rest);
      DistinctGridAppend(g, row);
    }

    /** The inner loop of `_initialize_board`: one card per column, each from `values.pop()`. */
    static method FillRow(values: seq<Face>, cols: int) returns (row: seq<Card>, rest: seq<Face>)
      requires RangeLen(cols) <= |values|
      ensures |row| == RangeLen(cols) && rest == values[..|values| - RangeLen(cols)]
      ensures RowFaces(row) == Reverse(values[|rest|..])
      ensures forall j :: 0 <= j < |row| ==> fresh(row[j]) && !row[j].isRevealed && !row[j].isMatched
      ensures forall j, k :: 0 <= j < k < |row| ==> row[j] != row[k]
    {
      row, rest := [], values;
      var c := 0;
      while c < cols
        invariant 0 <= c <= RangeLen(cols)
        invariant |row| == c && |rest| + c == |values| && rest == values[..|rest|]
        invariant RowFaces(row) == Reverse(values[|rest|..])
        invariant forall j :: 0 <= j < c ==> fresh(row[j]) && !row[j].isRevealed && !row[j].isMatched
        invariant forall j, k :: 0 <= j < k < c ==> row[j] != row[k]
      {
        var k := |rest| - 1;
        var value := rest[k];
        assert values[k..] == [value] + values[k + 1..];
        rest := rest[..k];
        var card := new Card(value.value, value.display);
        assert RowFaces(row + [card]) == RowFaces(row) + [value];
        row := row + [card];
        c := c + 1;
      }
    }

    static lemma {:induction false} FacesStep(done: seq<seq<Card>>, row: seq<Card>, s: seq<Face>, vals: seq<Face>, rest: seq<Face>)
      requires |vals| <= |s| && vals == s[..|vals|] && |rest| <= |vals| && rest == vals[..|rest|]
      requires GridFaces(done) == Reverse(s[|vals|..])
      requires RowFaces(row) == Reverse(vals[|rest|..])
      ensures GridFaces(done + [row]) == Reverse(s[|rest|..])
    {
      ReverseSplit(s, |rest|, |vals|);
      assert s[|rest|..|vals|] == vals[|rest|..];
      assert (done + [row])[..|done|] == done;
    }

    /** Popping a whole row off the end of the list extends the row-major reversal by that row. */
    static lemma {:induction false} ReverseSplit<T>(s: seq<T>, i: nat, j: nat)
      requires i <= j <= |s|
      ensures Reverse(s[i..]) == Reverse(s[j..]) + Reverse(s[i..j])
      decreases j - i
    {
      if i < j {
        ReverseSplit(s, i + 1, j);
        assert s[i..] == [s[i]] + s[i + 1..];
        assert s[i..j] == [s[i]] + s[i + 1..j];
      } else {
        assert s[i..j] == [];
      }
    }
  }

  /** A fresh board with at least one cell is not already won. */
  lemma FreshBoardNotWon(b: Board)
    requires b.Shaped() && b.FaceDown() && b.rows > 0 && b.cols > 0
    ensures !b.AllMatched()
  {
    assert !b.grid[0][0].isMatched;
  }

  /** After `reset` the grid is empty, so `all_matched` holds vacuously and no position is a card. */
  lemma ResetBoardIsWon(b: Board)
    requires b.grid == []
    ensures b.AllMatched()
    ensures forall r, c :: 0 <= r < b.rows && 0 <= c < b.cols ==> b.GetCard(r, c) == Failure(IndexOutOfRange)
  {
  }
}
