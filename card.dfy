/**
 * A single cell of the board: an identity (`value`, which the strategies and tests call
 * `match_id`), an optional display text (`display_content`, only given by the strategies'
 * calls) and two visibility flags guarded by the matched flag.
 */
module Cards {
  import opened Wrappers

  /** The immutable part of a card: what a strategy or the letter fill produces. */
  datatype Face = Face(value: string, display: Option<string>)

  /** A snapshot of a card: its face and its two flags. */
  datatype CardState = CardState(face: Face, revealed: bool, matched: bool)

  /** A matched card is always face-up. */
  predicate CardInv(s: CardState)
  {
    s.matched ==> s.revealed
  }

  /** The state of a freshly built card: face-down and unmatched. */
  function NewState(f: Face): (s: CardState)
    ensures s.face == f && !s.revealed && !s.matched && CardInv(s)
  {
    CardState(f, false, false)
  }

  /** The effect of `reveal`: turns the card face-up unless it is matched. */
  function Revealed(s: CardState): (t: CardState)
    ensures t.face == s.face && t.matched == s.matched
    ensures t.revealed <==> s.revealed || !s.matched
    ensures CardInv(s) ==> CardInv(t) && t.revealed
  {
    if !s.matched then s.(revealed := true) else s
  }

  /** The effect of `hide`: turns the card face-down unless it is matched. */
  function Hidden(s: CardState): (t: CardState)
    ensures t.face == s.face && t.matched == s.matched
    ensures t.revealed <==> s.revealed && s.matched
    ensures CardInv(s) ==> CardInv(t)
    ensures s.matched ==> t == s
  {
    if !s.matched then s.(revealed := false) else s
  }

  /** The effect of `mark_as_matched`: both flags on, for good. */
  function Matched(s: CardState): (t: CardState)
    ensures t.face == s.face && t.matched && t.revealed && CardInv(t)
  {
    s.(matched := true, revealed := true)
  }

  /** Each transition is idempotent, and a matched card is terminal: no transition changes it. */
  lemma TransitionsIdempotent(s: CardState)
    ensures Revealed(Revealed(s)) == Revealed(s)
    ensures Hidden(Hidden(s)) == Hidden(s)
    ensures Matched(Matched(s)) == Matched(s)
    ensures var m := Matched(s); Revealed(m) == m && Hidden(m) == m
  {
  }

  /** What `__repr__` prints: the value when face-up, "?" otherwise. */
  function Show(s: CardState): (r: string)
    ensures s.revealed ==> r == s.face.value
    ensures !s.revealed ==> r == "?"
    ensures CardInv(s) && s.matched ==> r == s.face.value
  {
    if s.revealed then s.face.value else "?"
  }

  class Card {
    const value: string
    const display: Option<string>
    var isRevealed: bool
    var isMatched: bool

    function State(): CardState
      reads this
    {
      CardState(Face(value, display), isRevealed, isMatched)
    }

    ghost predicate Valid()
      reads this
    {
      CardInv(State())
    }

    constructor (value: string, display: Option<string>)
      ensures State() == NewState(Face(value, display))
      ensures Valid()
    {
      this.value := value;
      this.display := display;
      isRevealed := false;
      isMatched := false;
    }

    method Reveal()
      modifies this
      ensures State() == Revealed(old(State()))
      ensures old(Valid()) ==> Valid()
    {
      if !isMatched {
        isRevealed := true;
      }
    }

    method Hide()
      modifies this
      ensures State() == Hidden(old(State()))
      ensures old(Valid()) ==> Valid()
    {
      if !isMatched {
        isRevealed := false;
      }
    }

    method MarkAsMatched()
      modifies this
      ensures State() == Matched(old(State()))
      ensures Valid()
    {
      isMatched := true;
      isRevealed := true;
    }

    function ToString(): (r: string)
      reads this
      ensures r == Show(State())
    {
      if isRevealed then value else "?"
    }
  }
}
