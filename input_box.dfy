/**
 * `InputBox`: the login screen's text field. Only its focus and text logic is modelled: a
 * mouse press carries whether it hit the box, a key press its key and `event.unicode`; the
 * rectangle, font and rendered surface are not modelled.
 */
module InputBoxes {
  import opened Wrappers

  /** The longest text typing can extend. */
  const MaxLength: nat := 12

  /** `color_active` and `color_inactive`. */
  datatype Color = ActiveColor | InactiveColor

  datatype Key = Return | Backspace | OtherKey

  /** The events `handle_event` reacts to; every other event type is `Other`. */
  datatype Event = MouseDown(inside: bool) | KeyDown(key: Key, unicode: string) | Other

  datatype BoxState = BoxState(active: bool, color: Color, text: string)

  function ColorFor(active: bool): Color
  {
    if active then ActiveColor else InactiveColor
  }

  /** `handle_event(event)` as a function of the box's state: the new state and the return value. */
  function Step(s: BoxState, e: Event): (r: (BoxState, Option<string>))
    ensures r.1.Some? <==> s.active && e.KeyDown? && e.key == Return
    ensures r.1.Some? ==> r.1.value == s.text && r.0 == s
    ensures !e.MouseDown? ==> r.0.active == s.active && r.0.color == s.color
    ensures e.MouseDown? ==> r.0.text == s.text && r.0.color == ColorFor(r.0.active)
  {
    match e
    case MouseDown(inside) =>
      var active := if inside then !s.active else false;
      (s.(active := active, color := ColorFor(active)), None)
    case KeyDown(key, unicode) =>
      if !s.active then (s, None)
      else if key == Return then (s, Some(s.text))
      else if key == Backspace then (s.(text := if s.text == [] then [] else s.text[..|s.text| - 1]), None)
      else if |s.text| < MaxLength then (s.(text := s.text + unicode), None)
      else (s, None)
    case Other => (s, None)
  }

  class InputBox {
    var active: bool
    var color: Color
    var text: string

    function State(): BoxState
      reads this
    {
      BoxState(active, color, text)
    }

    /** `InputBox(x, y, w, h, font, text)`: not focused, showing `text`. */
    constructor (text: string)
      ensures State() == BoxState(false, InactiveColor, text)
    {
      this.color := InactiveColor;
      this.text := text;
      this.active := false;
    }

    /** `handle_event(event)`, step for step as `Step`. */
    method HandleEvent(e: Event) returns (r: Option<string>)
      modifies this
      ensures (State(), r) == Step(old(State()), e)
    {
      if e.MouseDown? {
        if e.inside {
          active := !active;
        } else {
          active := false;
        }
        color := if active then ActiveColor else InactiveColor;
      }
      if e.KeyDown? {
        if active {
          if e.key == Return {
            return Some(text);
          } else if e.key == Backspace {
            text := if text == [] then [] else text[..|text| - 1];
          } else {
            if |text| < MaxLength {
              text := text + e.unicode;
            }
          }
        }
      }
      return None;
    }
  }

  /** A press inside the box toggles the focus, one outside removes it; the colour follows. */
  lemma MouseFocus(s: BoxState, inside: bool)
    ensures Step(s, MouseDown(inside)).0.active == (inside && !s.active)
    ensures Step(s, MouseDown(inside)).0.color == ColorFor(inside && !s.active)
    ensures Step(s, MouseDown(inside)).0.text == s.text && Step(s, MouseDown(inside)).1 == None
  {
  }

  /** Keys do nothing while the box is not focused. */
  lemma KeysIgnoredWhenInactive(s: BoxState, key: Key, unicode: string)
    requires !s.active
    ensures Step(s, KeyDown(key, unicode)) == (s, None)
  {
  }

  /** While focused: Enter returns the text unchanged, Backspace drops the last character, and
   *  any other key appends its text only while the text is shorter than 12 characters. */
  lemma FocusedKeys(s: BoxState, unicode: string)
    requires s.active
    ensures Step(s, KeyDown(Return, unicode)) == (s, Some(s.text))
    ensures var t := Step(s, KeyDown(Backspace, unicode)).0.text;
      (s.text == [] ==> t == []) && (s.text != [] ==> t + [s.text[|s.text| - 1]] == s.text)
    ensures Step(s, KeyDown(OtherKey, unicode)).0.text == if |s.text| < MaxLength then s.text + unicode else s.text
  {
  }

  /** Only Enter on a focused box returns something. */
  lemma ReturnsOnlyOnEnter(s: BoxState, e: Event)
    ensures Step(s, e).1.Some? <==> s.active && e.KeyDown? && e.key == Return
  {
  }

  /** The state after a sequence of events. */
  function Run(s: BoxState, es: seq<Event>): (r: BoxState)
    ensures (forall i :: 0 <= i < |es| ==> !es[i].MouseDown?) ==> r.active == s.active && r.color == s.color
    ensures (forall i :: 0 <= i < |es| ==> es[i].Other?) ==> r == s
    decreases |es|
  {
    if es == [] then s else Run(Step(s, es[0]).0, es[1..])
  }

  ghost predicate SingleCharacters(es: seq<Event>)
  {
    forall i :: 0 <= i < |es| && es[i].KeyDown? ==> |es[i].unicode| <= 1
  }

  /** Typing one character or none at a time never takes the text beyond 12 characters. */
  lemma {:induction false} TextStaysBounded(s: BoxState, es: seq<Event>)
    requires |s.text| <= MaxLength && SingleCharacters(es)
    ensures |Run(s, es).text| <= MaxLength
    decreases |es|
  {
    if es != [] {
      assert SingleCharacters(es[1..]) by {
        forall i | 0 <= i < |es[1..]| && es[1..][i].KeyDown?
          ensures |es[1..][i].unicode| <= 1
        {
          assert es[1..][i] == es[i + 1];
        }
      }
      TextStaysBounded(Step(s, es[0]).0, es[1..]);
    }
  }

  /** The colour always shows the focus, starting from a new box. */
  lemma {:induction false} ColorShowsFocus(s: BoxState, es: seq<Event>)
    requires s.color == ColorFor(s.active)
    ensures Run(s, es).color == ColorFor(Run(s, es).active)
    decreases |es|
  {
    if es != [] {
      ColorShowsFocus(Step(s, es[0]).0, es[1..]);
    }
  }

  /** The bound needs one character per key: a two-character `unicode` at 11 characters gives 13. */
  lemma LongUnicodeExceedsBound()
    ensures |Step(BoxState(true, ActiveColor, "abcdefghijk"), KeyDown(OtherKey, "xy")).0.text| == 13
  {
  }
}
