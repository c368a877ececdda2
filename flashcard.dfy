/**
 * `FlashcardManager`: the queue of educational popups shown after a match. A flashcard is an
 * opaque record of its fact, position, start tick and duration; its fading animation is not
 * modelled, only whether it is still alive. Clock readings (`pygame.time.get_ticks()`) are inputs.
 */
module Flashcards {
  import opened Seqs

  type Pos = (int, int)

  /** The display time `Flashcard` gets by default, in milliseconds. */
  const DefaultDuration: int := 5000

  class Flashcard {
    const data: map<string, string>
    const position: Pos
    const start: int
    const duration: int

    /** `Flashcard(fact_data, position)` created at tick `now`. */
    constructor (data: map<string, string>, position: Pos, now: int, duration: int)
      ensures this.data == data && this.position == position
      ensures this.start == now && this.duration == duration
    {
      this.data := data;
      this.position := position;
      this.start := now;
      this.duration := duration;
    }

    /**
     * The result of `update()` at tick `now`: still alive while the elapsed time is below the
     * duration (for the positive durations the manager uses, `elapsed / duration < 1.0`).
     */
    predicate Alive(now: int): (b: bool)
      ensures duration > 0 ==> (b <==> (now - start) as real / duration as real < 1.0)
    {
      now - start < duration
    }
  }

  /** The flashcards alive at their clock readings, in order (`clock[i]` is read for `fs[i]`). */
  function Survivors(fs: seq<Flashcard>, clock: seq<int>): (r: seq<Flashcard>)
    requires |clock| == |fs|
    ensures |r| <= |fs|
    ensures forall f :: f in r ==> f in fs
  {
    if fs == [] then []
    else
      var rest := Survivors(fs[..|fs| - 1], clock[..|fs| - 1]);
      if fs[|fs| - 1].Alive(clock[|fs| - 1]) then rest + [fs[|fs| - 1]] else rest
  }

  /** Python's `list.remove(x)`: drops the first element equal to `x`. */
  function RemoveFirst(s: seq<Flashcard>, x: Flashcard): (r: seq<Flashcard>)
    requires x in s
    ensures |r| == |s| - 1
  {
    if s[0] == x then s[1..] else [s[0]] + RemoveFirst(s[1..], x)
  }

  lemma {:induction false} RemoveFirstAt(a: seq<Flashcard>, x: Flashcard, b: seq<Flashcard>)
    requires x !in a
    ensures RemoveFirst(a + [x] + b, x) == a + b
  {
    if a != [] {
      assert (a + [x] + b)[1..] == a[1..] + [x] + b;
      RemoveFirstAt(a[1..], x, b);
    }
  }

  lemma {:induction false} SurvivorsIn(fs: seq<Flashcard>, clock: seq<int>, x: Flashcard)
    requires |clock| == |fs| && x in Survivors(fs, clock)
    ensures x in fs
  {
  }

  class FlashcardManager {
    var flashcards: seq<Flashcard>
    const maxSimultaneous: int := 2

    /** Distinct objects, all of the default duration, at most `max_simultaneous` of them. */
    ghost predicate Valid()
      reads this
    {
      maxSimultaneous == 2 && Distinct(flashcards) && |flashcards| <= maxSimultaneous
      && forall i :: 0 <= i < |flashcards| ==> flashcards[i].duration == DefaultDuration
    }

    /** `FlashcardManager()`: no flashcards, at most two at a time. */
    constructor ()
      ensures Valid() && flashcards == [] && maxSimultaneous == 2
    {
      flashcards := [];
    }

    /**
     * `add_flashcard(fact_data, position)` at tick `now`. Drops the oldest when full, then
     * appends a new flashcard, moved 100 pixels down when another is still shown.
     */
    method AddFlashcard(factData: map<string, string>, position: Pos, now: int) returns (added: Flashcard)
      requires Valid()
      modifies this
      ensures Valid()
      ensures fresh(added) && added.data == factData && added.start == now && added.duration == DefaultDuration
      ensures var kept := if |old(flashcards)| >= 2 then old(flashcards)[1..] else old(flashcards);
        flashcards == kept + [added]
        && added.position == (if kept != [] then (position.0, position.1 + 100) else position)
      ensures 1 <= |flashcards| <= 2
    {
      if |flashcards| >= maxSimultaneous {
        flashcards := flashcards[1..];
      }
      var adjusted := position;
      if flashcards != [] {
        adjusted := (position.0, position.1 + 100);
      }
      added := new Flashcard(factData, adjusted, now, DefaultDuration);
      flashcards := flashcards + [added];
    }

    /** `update()`, with `clock[i]` the tick the i-th flashcard reads. */
    method Update(clock: seq<int>)
      requires Valid() && |clock| == |flashcards|
      modifies this
      ensures Valid()
      ensures flashcards == Survivors(old(flashcards), clock)
    {
      var snapshot := flashcards;
      assert snapshot == Survivors(snapshot[..0], clock[..0]) + snapshot[0..];
      for i := 0 to |snapshot|
        invariant flashcards == Survivors(snapshot[..i], clock[..i]) + snapshot[i..]
      {
        UpdateStep(snapshot, clock, i);
        if !snapshot[i].Alive(clock[i]) {
          flashcards := RemoveFirst(flashcards, snapshot[i]);
        }
      }
      assert snapshot[..|snapshot|] == snapshot && clock[..|snapshot|] == clock;
      SurvivorsValid(snapshot, clock);
    }

    /** `clear()`. */
    method Clear()
      modifies this
      ensures flashcards == [] && Valid()
    {
      flashcards := [];
    }

    /** `has_active_flashcards()`. */
    function HasActiveFlashcards(): (b: bool)
      reads this
      ensures b <==> flashcards != []
    {
      |flashcards| > 0
    }
  }

  /** One round of the `update` loop: a dead flashcard is the first of its kind still in the list. */
  lemma UpdateStep(fs: seq<Flashcard>, clock: seq<int>, i: nat)
    requires |clock| == |fs| && Distinct(fs) && i < |fs|
    ensures var current := Survivors(fs[..i], clock[..i]) + fs[i..];
      var next := Survivors(fs[..i + 1], clock[..i + 1]) + fs[i + 1..];
      (fs[i].Alive(clock[i]) ==> current == next)
      && (!fs[i].Alive(clock[i]) ==> fs[i] in current && RemoveFirst(current, fs[i]) == next)
  {
    var done := Survivors(fs[..i], clock[..i]);
    assert fs[..i + 1][..i] == fs[..i] && clock[..i + 1][..i] == clock[..i];
    assert fs[..i + 1][i] == fs[i] && clock[..i + 1][i] == clock[i];
    assert Survivors(fs[..i + 1], clock[..i + 1]) == if fs[i].Alive(clock[i]) then done + [fs[i]] else done;
    assert fs[i..] == [fs[i]] + fs[i + 1..];
    if !fs[i].Alive(clock[i]) {
      assert fs[i] !in done by {
        if fs[i] in done {
          SurvivorsIn(fs[..i], clock[..i], fs[i]);
        }
      }
      RemoveFirstAt(done, fs[i], fs[i + 1..]);
      assert done + fs[i..] == done + [fs[i]] + fs[i + 1..];
    }
  }

  /** Survivors of distinct flashcards of the default duration are such flashcards too. */
  lemma {:induction false} SurvivorsValid(fs: seq<Flashcard>, clock: seq<int>)
    requires |clock| == |fs| && Distinct(fs)
    requires forall i :: 0 <= i < |fs| ==> fs[i].duration == DefaultDuration
    ensures Distinct(Survivors(fs, clock))
    ensures forall f :: f in Survivors(fs, clock) ==> f.duration == DefaultDuration
  {
    if fs != [] {
      var init := fs[..|fs| - 1];
      assert Distinct(init);
      SurvivorsValid(init, clock[..|fs| - 1]);
      assert fs[|fs| - 1] !in init;
    }
  }

  /** A flashcard survives `update` exactly when it is alive at its clock reading. */
  lemma {:induction false} SurvivorsExactly(fs: seq<Flashcard>, clock: seq<int>, i: nat)
    requires |clock| == |fs| && Distinct(fs) && i < |fs|
    ensures fs[i] in Survivors(fs, clock) <==> fs[i].Alive(clock[i])
  {
    var n := |fs| - 1;
    var init := fs[..n];
    if i < n {
      assert init[i] == fs[i];
      assert Distinct(init);
      SurvivorsExactly(init, clock[..n], i);
      assert clock[..n][i] == clock[i];
      assert fs[n] != fs[i];
    } else if fs[i] in Survivors(init, clock[..n]) {
      SurvivorsIn(init, clock[..n], fs[i]);
      assert false;
    }
  }

  /** The survivors are a subsequence: their order is the order in the list. */
  lemma {:induction false} SurvivorsInOrder(fs: seq<Flashcard>, clock: seq<int>, a: Flashcard, b: Flashcard)
    requires |clock| == |fs| && Distinct(fs)
    requires a in Survivors(fs, clock) && b in Survivors(fs, clock)
    ensures forall i, j :: 0 <= i < j < |Survivors(fs, clock)| && Survivors(fs, clock)[i] == a && Survivors(fs, clock)[j] == b ==>
      exists p, q :: 0 <= p < q < |fs| && fs[p] == a && fs[q] == b
  {
    var r := Survivors(fs, clock);
    forall i, j | 0 <= i < j < |r| && r[i] == a && r[j] == b
      ensures exists p, q :: 0 <= p < q < |fs| && fs[p] == a && fs[q] == b
    {
      var n := |fs| - 1;
      var init, rest := fs[..n], Survivors(fs[..n], clock[..n]);
      assert Distinct(init);
      if fs[n].Alive(clock[n]) && j == |rest| {
        assert b == fs[n];
        assert a in rest;
        SurvivorsIn(init, clock[..n], a);
        var p :| 0 <= p < n && init[p] == a;
        assert fs[p] == a;
      } else {
        assert rest[i] == a && rest[j] == b;
        SurvivorsInOrder(init, clock[..n], a, b);
        var p, q :| 0 <= p < q < n && init[p] == a && init[q] == b;
        assert fs[p] == a && fs[q] == b;
      }
    }
  }
}
