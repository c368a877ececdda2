/**
 * The pair-generation strategies. Each builds a list of faces two by two and then shuffles
 * it; a face stands for the `Card(match_id=..., display_content=...)` the strategy creates
 * (the board creates its card objects from faces).
 */
module Strategies {
  import opened Wrappers
  import opened Seqs
  import opened Randomness
  import opened Cards

  /** The ValueErrors the strategies raise; `random.sample` raises the last for a negative size. */
  datatype StrategyError = UnknownTheme | NotEnoughItems | NegativeSampleSize

  /** `EmojiStrategy.THEMES`. */
  const Themes: map<string, seq<string>> := map[
    "Animais" := ["\U{1F436}", "\U{1F431}", "\U{1F42D}", "\U{1F439}", "\U{1F430}", "\U{1F98A}", "\U{1F43B}", "\U{1F43C}", "\U{1F428}", "\U{1F42F}"],
    "Frutas" := ["\U{1F34E}", "\U{1F350}", "\U{1F34A}", "\U{1F34B}", "\U{1F34C}", "\U{1F349}", "\U{1F347}", "\U{1F353}", "\U{1FAD0}", "\U{1F34D}"],
    "Espa\U{E7}o" := ["\U{1F680}", "\U{2B50}", "\U{1F319}", "\U{1F30E}", "\U{2600}\U{FE0F}", "\U{2604}\U{FE0F}", "\U{1F47D}", "\U{1F4E1}", "\U{1F6F0}\U{FE0F}", "\U{1F6F8}"]
  ]

  /** `ChemistryStrategy.ELEMENTS`: (symbol, name). */
  const Elements: seq<(string, string)> := [
    ("H", "Hidrog\U{EA}nio"),
    ("He", "H\U{E9}lio"),
    ("Li", "L\U{ED}tio"),
    ("O", "Oxig\U{EA}nio"),
    ("C", "Carbono"),
    ("Au", "Ouro"),
    ("Ag", "Prata"),
    ("Fe", "Ferro"),
    ("Na", "S\U{F3}dio"),
    ("Cl", "Cloro"),
    ("K", "Pot\U{E1}ssio"),
    ("Ca", "C\U{E1}lcio"),
    ("N", "Nitrog\U{EA}nio"),
    ("Cu", "Cobre"),
    ("Pb", "Chumbo"),
    ("U", "Ur\U{E2}nio"),
    ("Sn", "Estanho"),
    ("Hg", "Merc\U{FA}rio")
  ]

  /** The identities (`match_id`s) of a list of faces. */
  function Ids(cards: seq<Face>): (r: seq<string>)
    ensures |r| == |cards| && forall i :: 0 <= i < |cards| ==> r[i] == cards[i].value
  {
    seq(|cards|, i requires 0 <= i < |cards| => cards[i].value)
  }

  lemma {:induction false} ShuffleStepsIds(s: seq<Face>, picks: seq<nat>, i: nat)
    requires ValidPicks(picks, |s|) && i < |s|
    ensures Ids(ShuffleSteps(s, picks, i)) == ShuffleSteps(Ids(s), picks, i)
    decreases i
  {
    if i > 0 {
      assert Ids(Swap(s, i, picks[i])) == Swap(Ids(s), i, picks[i]);
      ShuffleStepsIds(Swap(s, i, picks[i]), picks, i - 1);
    }
  }

  /** Shuffling keeps how often each identity occurs. */
  lemma {:induction false} ShuffledIds(s: seq<Face>, picks: seq<nat>)
    requires ValidPicks(picks, |s|)
    ensures multiset(Ids(Shuffled(s, picks))) == multiset(Ids(s))
  {
    if |s| > 0 {
      ShuffleStepsIds(s, picks, |s| - 1);
      ShuffledMultiset(Ids(s), picks);
    }
  }

  // ---------------------------------------------------------------- Emoji

  /** An `EmojiStrategy`: the item list of its theme. */
  datatype EmojiStrategy = EmojiStrategy(themeItems: seq<string>)
  {
    /** `generate_cards(num_pairs)` with the draws of `random.sample` and `random.shuffle`. */
    method GenerateCards(numPairs: int, sample: seq<nat>, picks: seq<nat>) returns (r: Result<seq<Face>, StrategyError>)
      requires 0 <= numPairs <= |themeItems| ==> IsSample(sample, |themeItems|, numPairs) && ValidPicks(picks, 2 * numPairs)
      ensures numPairs > |themeItems| <==> r == Failure(NotEnoughItems)
      ensures numPairs < 0 <==> r == Failure(NegativeSampleSize)
      ensures 0 <= numPairs <= |themeItems| ==>
        r == Success(Shuffled(EmojiPairs(Sampled(themeItems, sample)), picks))
        && multiset(r.value) == multiset(EmojiPairs(Sampled(themeItems, sample)))
    {
      if numPairs > |themeItems| {
        return Failure(NotEnoughItems);
      }
      if numPairs < 0 {
        return Failure(NegativeSampleSize);
      }
      var selected := Sampled(themeItems, sample);
      var cards := [];
      for i := 0 to |selected|
        invariant cards == EmojiPairs(selected[..i])
      {
        var item := selected[i];
        assert selected[..i + 1][..i] == selected[..i];
        cards := cards + [Face(item, Some(item))];
        cards := cards + [Face(item, Some(item))];
      }
      assert selected[..|selected|] == selected;
      ShuffledMultiset(cards, picks);
      return Success(Shuffled(cards, picks));
    }
  }

  /** `EmojiStrategy(theme)`: fails for a theme THEMES does not have. */
  function NewEmojiStrategy(theme: string): (r: Result<EmojiStrategy, StrategyError>)
    ensures r.Failure? <==> theme !in Themes
    ensures r.Failure? ==> r.error == UnknownTheme
    ensures r.Success? ==> r.value.themeItems == Themes[theme]
  {
    if theme !in Themes then Failure(UnknownTheme) else Success(EmojiStrategy(Themes[theme]))
  }

  /** The list the Emoji loop builds: each selected item twice, as identity and display alike. */
  function EmojiPairs(items: seq<string>): (r: seq<Face>)
    ensures |r| == 2 * |items|
    ensures forall k :: 0 <= k < |items| ==> r[2 * k] == r[2 * k + 1] == Face(items[k], Some(items[k]))
  {
    if items == [] then []
    else
      var last := items[|items| - 1];
      EmojiPairs(items[..|items| - 1]) + [Face(last, Some(last)), Face(last, Some(last))]
  }

  /** Each face of the Emoji list shows its own identity, and occurs twice per occurrence of its item. */
  lemma {:induction false} EmojiPairsCount(items: seq<string>, f: Face)
    ensures multiset(EmojiPairs(items))[f] == if f.display == Some(f.value) then 2 * multiset(items)[f.value] else 0
  {
    if items != [] {
      var init, last := items[..|items| - 1], items[|items| - 1];
      assert items == init + [last];
      EmojiPairsCount(init, f);
    }
  }

  /** Every theme lists distinct items. */
  lemma ThemesDistinct(theme: string)
    requires theme in Themes
    ensures Distinct(Themes[theme])
  {
  }

  /**
   * From a valid theme, the Emoji cards hold `num_pairs` distinct items, each exactly twice,
   * with the display equal to the identity, and nothing else.
   */
  lemma {:induction false} EmojiCardsAreTwinPairs(s: EmojiStrategy, sample: seq<nat>, picks: seq<nat>, cards: seq<Face>, f: Face)
    requires Distinct(s.themeItems) && IsSample(sample, |s.themeItems|, |sample|)
    requires ValidPicks(picks, 2 * |sample|) && cards == Shuffled(EmojiPairs(Sampled(s.themeItems, sample)), picks)
    ensures |cards| == 2 * |sample|
    ensures multiset(cards)[f] == if f.display == Some(f.value) && f.value in Sampled(s.themeItems, sample) then 2 else 0
  {
    var selected := Sampled(s.themeItems, sample);
    ShuffledMultiset(EmojiPairs(selected), picks);
    EmojiPairsCount(selected, f);
    SampledDistinct(s.themeItems, sample);
    DistinctCount(selected, f.value);
  }

  // ---------------------------------------------------------------- Math

  function DigitChar(d: nat): (c: char)
    requires d < 10
    ensures '0' <= c <= '9' && c as int - '0' as int == d
  {
    "0123456789"[d]
  }

  /** `str(n)` for a natural number. */
  function NatToString(n: nat): (r: string)
    ensures |r| >= 1 && forall i :: 0 <= i < |r| ==> '0' <= r[i] <= '9'
    ensures n < 10 <==> |r| == 1
  {
    if n < 10 then [DigitChar(n)] else NatToString(n / 10) + [DigitChar(n % 10)]
  }

  /** The value a string of decimal digits denotes. */
  function DigitsValue(s: string): nat
    requires forall i :: 0 <= i < |s| ==> '0' <= s[i] <= '9'
  {
    if s == [] then 0 else 10 * DigitsValue(s[..|s| - 1]) + (s[|s| - 1] as int - '0' as int)
  }

  /** `str` is injective on naturals: its digits read back as the number. */
  lemma {:induction false} NatToStringValue(n: nat)
    ensures DigitsValue(NatToString(n)) == n
  {
    if n >= 10 {
      NatToStringValue(n / 10);
      var s := NatToString(n);
      assert s == NatToString(n / 10) + [DigitChar(n % 10)];
      assert s[..|s| - 1] == NatToString(n / 10);
      assert s[|s| - 1] as int - '0' as int == n % 10;
      assert n == 10 * (n / 10) + n % 10;
    }
  }

  /** The two faces of one Math pair: `"a + b"` and the result, both with the result as identity. */
  function MathPair(a: int, b: int): (r: seq<Face>)
    requires 1 <= a <= 10 && 1 <= b <= 10
    ensures |r| == 2 && r[0].value == r[1].value == NatToString(a + b)
    ensures r[0].display == Some(NatToString(a) + " + " + NatToString(b)) && r[1].display == Some(NatToString(a + b))
  {
    var result := NatToString(a + b);
    [Face(result, Some(NatToString(a) + " + " + NatToString(b))), Face(result, Some(result))]
  }

  /** The draws of the two `random.randint(1, 10)` calls of each round. */
  predicate ValidDraws(draws: seq<(int, int)>)
  {
    forall k :: 0 <= k < |draws| ==> RandIntIn(draws[k].0, 1, 10) && RandIntIn(draws[k].1, 1, 10)
  }

  /** The list the Math loop builds for those draws. */
  function MathPairs(draws: seq<(int, int)>): (r: seq<Face>)
    requires ValidDraws(draws)
    ensures |r| == 2 * |draws|
  {
    if draws == [] then []
    else
      var last := draws[|draws| - 1];
      MathPairs(draws[..|draws| - 1]) + MathPair(last.0, last.1)
  }

  /** Round `k` contributes the two cards at positions `2k` and `2k + 1`. */
  lemma {:induction false} MathPairsAt(draws: seq<(int, int)>, k: nat)
    requires ValidDraws(draws) && k < |draws|
    ensures MathPairs(draws)[2 * k] == MathPair(draws[k].0, draws[k].1)[0]
    ensures MathPairs(draws)[2 * k + 1] == MathPair(draws[k].0, draws[k].1)[1]
  {
    var n := |draws| - 1;
    var init := draws[..n];
    assert MathPairs(draws) == MathPairs(init) + MathPair(draws[n].0, draws[n].1);
    if k < n {
      MathPairsAt(init, k);
      assert init[k] == draws[k];
    }
  }

  /** Identities distribute over concatenation. */
  lemma IdsAppend(a: seq<Face>, b: seq<Face>)
    ensures Ids(a + b) == Ids(a) + Ids(b)
  {
  }

  /**
   * `MathStrategy().generate_cards(num_pairs)` with the draws of `random.randint` and
   * `random.shuffle`. It never fails; a negative count builds nothing, as `range` does.
   */
  method MathGenerateCards(numPairs: int, draws: seq<(int, int)>, picks: seq<nat>) returns (cards: seq<Face>)
    requires |draws| == RangeLen(numPairs) && ValidDraws(draws)
    requires ValidPicks(picks, 2 * RangeLen(numPairs))
    ensures |cards| == 2 * RangeLen(numPairs)
    ensures cards == Shuffled(MathPairs(draws), picks)
    ensures multiset(cards) == multiset(MathPairs(draws))
  {
    cards := [];
    var k := 0;
    while k < numPairs
      invariant 0 <= k <= |draws| && cards == MathPairs(draws[..k])
    {
      var a := draws[k].0;
      var b := draws[k].1;
      var result := NatToString(a + b);
      var expression := NatToString(a) + " + " + NatToString(b);
      assert draws[..k + 1][..k] == draws[..k] && draws[..k + 1][k] == (a, b);
      assert MathPairs(draws[..k + 1]) == cards + MathPair(a, b);
      cards := cards + [Face(result, Some(expression))];
      cards := cards + [Face(result, Some(result))];
      k := k + 1;
    }
    assert draws[..k] == draws;
    ShuffledMultiset(cards, picks);
    cards := Shuffled(cards, picks);
  }

  /** Every Math identity is the decimal of a sum between 2 and 20. */
  lemma {:induction false} MathIdsInRange(draws: seq<(int, int)>, i: nat)
    requires ValidDraws(draws) && i < 2 * |draws|
    ensures exists n :: 2 <= n <= 20 && MathPairs(draws)[i].value == NatToString(n)
  {
    var k := i / 2;
    MathPairsAt(draws, k);
    var a, b := draws[k].0, draws[k].1;
    assert RandIntIn(a, 1, 10) && RandIntIn(b, 1, 10);
    var result := MathPair(a, b)[0].value;
    assert MathPair(a, b)[1].value == result == NatToString(a + b);
    if i % 2 == 0 {
      assert i == 2 * k;
    } else {
      assert i == 2 * k + 1;
    }
    assert MathPairs(draws)[i].value == NatToString(a + b);
  }

  /** Appending two faces of one identity keeps every identity's count even. */
  lemma {:induction false} TwinKeepsEven(a: seq<Face>, pair: seq<Face>, id: string)
    requires multiset(Ids(a))[id] % 2 == 0 && |pair| == 2 && pair[0].value == pair[1].value
    ensures multiset(Ids(a + pair))[id] % 2 == 0
  {
    IdsAppend(a, pair);
    assert Ids(pair) == [pair[0].value, pair[0].value];
    var before, added := multiset(Ids(a))[id], multiset(Ids(pair))[id];
    assert added == if id == pair[0].value then 2 else 0;
    assert multiset(Ids(a + pair))[id] == before + added;
  }

  /** Each identity occurs an even number of times in the Math list. */
  lemma {:induction false} MathIdsEven(draws: seq<(int, int)>, id: string)
    requires ValidDraws(draws)
    ensures multiset(Ids(MathPairs(draws)))[id] % 2 == 0
  {
    if draws != [] {
      var init := draws[..|draws| - 1];
      var last := draws[|draws| - 1];
      MathIdsEven(init, id);
      var pair := MathPair(last.0, last.1);
      assert MathPairs(draws) == MathPairs(init) + pair;
      TwinKeepsEven(MathPairs(init), pair, id);
    } else {
      assert Ids(MathPairs(draws)) == [];
    }
  }

  /** The shuffle keeps every Math identity's count even. */
  lemma {:induction false} MathCardsIdsEven(draws: seq<(int, int)>, picks: seq<nat>, id: string)
    requires ValidDraws(draws) && ValidPicks(picks, 2 * |draws|)
    ensures multiset(Ids(Shuffled(MathPairs(draws), picks)))[id] % 2 == 0
  {
    ShuffledIds(MathPairs(draws), picks);
    MathIdsEven(draws, id);
  }

  /** Results are not deduplicated: drawing 1 + 1 twice gives the identity "2" four times. */
  lemma MathRepeatsIdentities()
    ensures multiset(Ids(MathPairs([(1, 1), (1, 1)])))["2"] == 4
  {
    var d := [(1, 1), (1, 1)];
    var m := MathPairs(d);
    assert NatToString(2) == "2";
    assert d[0] == d[1] == (1, 1);
    MathPairsAt(d, 0);
    MathPairsAt(d, 1);
    assert m[0].value == m[1].value == m[2].value == m[3].value == "2";
    assert Ids(m) == ["2", "2", "2", "2"];
  }

  // ---------------------------------------------------------------- Chemistry

  /** The list the Chemistry loop builds: per element, the symbol card, then the name card, both with the symbol as identity. */
  function ChemistryPairs(chosen: seq<(string, string)>): (r: seq<Face>)
    ensures |r| == 2 * |chosen|
    ensures forall k :: 0 <= k < |chosen| ==>
      r[2 * k] == Face(chosen[k].0, Some(chosen[k].0)) && r[2 * k + 1] == Face(chosen[k].0, Some(chosen[k].1))
  {
    if chosen == [] then []
    else
      var last := chosen[|chosen| - 1];
      ChemistryPairs(chosen[..|chosen| - 1]) + [Face(last.0, Some(last.0)), Face(last.0, Some(last.1))]
  }

  /** The symbols of the element table. */
  function Symbols(els: seq<(string, string)>): (r: seq<string>)
    ensures |r| == |els| && forall i :: 0 <= i < |els| ==> r[i] == els[i].0
  {
    seq(|els|, i requires 0 <= i < |els| => els[i].0)
  }

  /** The element table has 18 entries and no symbol twice. */
  lemma ElementsDistinct()
    ensures |Elements| == 18 && Distinct(Symbols(Elements))
  {
  }

  /** `ChemistryStrategy().generate_cards(num_pairs)` with the draws of `random.sample` and `random.shuffle`. */
  method ChemistryGenerateCards(numPairs: int, sample: seq<nat>, picks: seq<nat>) returns (r: Result<seq<Face>, StrategyError>)
    requires 0 <= numPairs <= |Elements| ==> IsSample(sample, |Elements|, numPairs) && ValidPicks(picks, 2 * numPairs)
    ensures numPairs > |Elements| <==> r == Failure(NotEnoughItems)
    ensures numPairs < 0 <==> r == Failure(NegativeSampleSize)
    ensures 0 <= numPairs <= |Elements| ==>
      r == Success(Shuffled(ChemistryPairs(Sampled(Elements, sample)), picks))
      && multiset(r.value) == multiset(ChemistryPairs(Sampled(Elements, sample)))
  {
    if numPairs > |Elements| {
      return Failure(NotEnoughItems);
    }
    if numPairs < 0 {
      return Failure(NegativeSampleSize);
    }
    var selected := Sampled(Elements, sample);
    var cards := [];
    for i := 0 to |selected|
      invariant cards == ChemistryPairs(selected[..i])
    {
      var (symbol, name) := selected[i];
      assert selected[..i + 1][..i] == selected[..i];
      cards := cards + [Face(symbol, Some(symbol))];
      cards := cards + [Face(symbol, Some(name))];
    }
    assert selected[..|selected|] == selected;
    ShuffledMultiset(cards, picks);
    return Success(Shuffled(cards, picks));
  }

  /** In the Chemistry list each identity occurs twice per occurrence of its symbol among the chosen elements. */
  lemma {:induction false} ChemistryIdsCount(chosen: seq<(string, string)>, id: string)
    ensures multiset(Ids(ChemistryPairs(chosen)))[id] == 2 * multiset(Symbols(chosen))[id]
  {
    if chosen != [] {
      var init, last := chosen[..|chosen| - 1], chosen[|chosen| - 1];
      ChemistryIdsCount(init, id);
      assert Ids(ChemistryPairs(chosen)) == Ids(ChemistryPairs(init)) + [last.0, last.0];
      assert Symbols(chosen) == Symbols(init) + [last.0];
    }
  }

  /** The Chemistry cards hold each chosen symbol exactly twice as identity, and no other identity. */
  lemma {:induction false} ChemistryCardsPaired(sample: seq<nat>, picks: seq<nat>, id: string)
    requires IsSample(sample, |Elements|, |sample|) && ValidPicks(picks, 2 * |sample|)
    ensures var chosen := Sampled(Elements, sample);
      multiset(Ids(Shuffled(ChemistryPairs(chosen), picks)))[id] == if id in Symbols(chosen) then 2 else 0
  {
    var chosen := Sampled(Elements, sample);
    ElementsDistinct();
    ShuffledIds(ChemistryPairs(chosen), picks);
    ChemistryIdsCount(chosen, id);
    SampledDistinct(Symbols(Elements), sample);
    assert Symbols(chosen) == Sampled(Symbols(Elements), sample);
    DistinctCount(Symbols(chosen), id);
  }
}
