/**
 * `ScoreRepository`: the leaderboard kept as a list of score entries. The JSON file the
 * repository reads and writes is modelled by the field `stored` (what `_load_file` would
 * return), and the timestamp `datetime.now()` gives is an input of `SaveScore`.
 */
module Repository {
  import opened Wrappers
  import opened Seqs

  datatype Entry = Entry(name: string, score: int, theme: string, difficulty: string, date: string)

  /** The two entry keys the repository filters and counts by. */
  datatype Field = Theme | Difficulty

  function KeyOf(e: Entry, f: Field): string
  {
    match f
    case Theme => e.theme
    case Difficulty => e.difficulty
  }

  // ---------------------------------------------------------------- sorting

  /** Ordered by score, highest first. */
  ghost predicate SortedDesc(s: seq<Entry>)
  {
    forall i, j :: 0 <= i < j < |s| ==> s[i].score >= s[j].score
  }

  /** The entries of score `v`, in their order in `s`. */
  function WithScore(s: seq<Entry>, v: int): seq<Entry>
  {
    if s == [] then [] else (if s[0].score == v then [s[0]] else []) + WithScore(s[1..], v)
  }

  /** Places `e` after every entry of at least its score, as a stable sort places a later element. */
  function InsertDesc(t: seq<Entry>, e: Entry): (r: seq<Entry>)
    ensures |r| == |t| + 1
  {
    if t == [] || t[0].score < e.score then [e] + t else [t[0]] + InsertDesc(t[1..], e)
  }

  /** `list.sort(key=lambda x: x["score"], reverse=True)`: a stable sort by score, highest first. */
  function SortDesc(s: seq<Entry>): (r: seq<Entry>)
    ensures |r| == |s|
  {
    if s == [] then [] else InsertDesc(SortDesc(s[..|s| - 1]), s[|s| - 1])
  }

  lemma {:induction false} InsertMultiset(t: seq<Entry>, e: Entry)
    ensures multiset(InsertDesc(t, e)) == multiset(t) + multiset{e}
  {
    if t != [] && t[0].score >= e.score {
      InsertMultiset(t[1..], e);
      assert t == [t[0]] + t[1..];
    }
  }

  /** Inserting an entry of score at most `v` into entries of score at most `v`. */
  lemma {:induction false} InsertBounded(t: seq<Entry>, e: Entry, v: int)
    requires e.score <= v && forall i :: 0 <= i < |t| ==> t[i].score <= v
    ensures forall i :: 0 <= i < |InsertDesc(t, e)| ==> InsertDesc(t, e)[i].score <= v
  {
    if t != [] && t[0].score >= e.score {
      InsertBounded(t[1..], e, v);
    }
  }

  lemma {:induction false} InsertSorted(t: seq<Entry>, e: Entry)
    requires SortedDesc(t)
    ensures SortedDesc(InsertDesc(t, e))
  {
    if t != [] && t[0].score >= e.score {
      InsertSorted(t[1..], e);
      InsertBounded(t[1..], e, t[0].score);
    }
  }

  /** The sort orders by score, */
  lemma {:induction false} SortDescSorted(s: seq<Entry>)
    ensures SortedDesc(SortDesc(s))
  {
    if s != [] {
      SortDescSorted(s[..|s| - 1]);
      InsertSorted(SortDesc(s[..|s| - 1]), s[|s| - 1]);
    }
  }

  /** and is a permutation of its input. */
  lemma {:induction false} SortDescMultiset(s: seq<Entry>)
    ensures multiset(SortDesc(s)) == multiset(s)
  {
    if s != [] {
      var init, last := s[..|s| - 1], s[|s| - 1];
      SortDescMultiset(init);
      InsertMultiset(SortDesc(init), last);
      SnocMultiset(s);
    }
  }

  lemma SortDescCorrect(s: seq<Entry>)
    ensures SortedDesc(SortDesc(s)) && multiset(SortDesc(s)) == multiset(s)
  {
    SortDescSorted(s);
    SortDescMultiset(s);
  }

  lemma {:induction false} WithScoreAppend(a: seq<Entry>, b: seq<Entry>, v: int)
    ensures WithScore(a + b, v) == WithScore(a, v) + WithScore(b, v)
  {
    if a != [] {
      var head := if a[0].score == v then [a[0]] else [];
      assert (a + b)[0] == a[0] && (a + b)[1..] == a[1..] + b;
      WithScoreAppend(a[1..], b, v);
      calc {
        WithScore(a + b, v);
        head + WithScore(a[1..] + b, v);
        head + (WithScore(a[1..], v) + WithScore(b, v));
        (head + WithScore(a[1..], v)) + WithScore(b, v);
      }
    } else {
      assert a + b == b;
    }
  }

  lemma {:induction false} WithScoreBelow(t: seq<Entry>, v: int)
    requires forall i :: 0 <= i < |t| ==> t[i].score < v
    ensures WithScore(t, v) == []
  {
    if t != [] {
      WithScoreBelow(t[1..], v);
    }
  }

  lemma {:induction false} WithScoreInsert(t: seq<Entry>, e: Entry, v: int)
    requires SortedDesc(t)
    ensures WithScore(InsertDesc(t, e), v) == WithScore(t, v) + (if e.score == v then [e] else [])
  {
    if t == [] {
    } else if t[0].score < e.score {
      if e.score == v {
        WithScoreBelow(t, v);
      }
      assert ([e] + t)[1..] == t;
    } else {
      WithScoreInsert(t[1..], e, v);
      assert ([t[0]] + InsertDesc(t[1..], e))[1..] == InsertDesc(t[1..], e);
    }
  }

  /** The sort is stable: each score's entries keep their relative order. */
  lemma {:induction false} SortStable(s: seq<Entry>, v: int)
    ensures WithScore(SortDesc(s), v) == WithScore(s, v)
  {
    if s != [] {
      var init, last := s[..|s| - 1], s[|s| - 1];
      SortStable(init, v);
      SortDescSorted(init);
      WithScoreInsert(SortDesc(init), last, v);
      assert s == init + [last];
      WithScoreAppend(init, [last], v);
      assert [last][1..] == [];
    }
  }

  // ---------------------------------------------------------------- filters

  /** Python truthiness of a filter argument: `None` and `""` apply no filter. */
  predicate Truthy(filter: Option<string>)
  {
    filter.Some? && filter.value != ""
  }

  /** `[d for d in data if d[field] == key]`. */
  function FilterBy(s: seq<Entry>, f: Field, key: string): (r: seq<Entry>)
    ensures |r| <= |s|
    ensures forall i :: 0 <= i < |r| ==> KeyOf(r[i], f) == key
  {
    if s == [] then [] else (if KeyOf(s[0], f) == key then [s[0]] else []) + FilterBy(s[1..], f, key)
  }

  /** The filter keeps every entry with the key as often as it occurs, and no other entry. */
  lemma {:induction false} FilterByMultiset(s: seq<Entry>, f: Field, key: string)
    ensures forall e :: multiset(FilterBy(s, f, key))[e] == if KeyOf(e, f) == key then multiset(s)[e] else 0
  {
    if s != [] {
      FilterByMultiset(s[1..], f, key);
      assert s == [s[0]] + s[1..];
    }
  }

  function ApplyFilter(s: seq<Entry>, f: Field, filter: Option<string>): seq<Entry>
  {
    if Truthy(filter) then FilterBy(s, f, filter.value) else s
  }

  lemma ApplyFilterMultiset(s: seq<Entry>, f: Field, filter: Option<string>)
    ensures forall e :: multiset(ApplyFilter(s, f, filter))[e]
                       == if !Truthy(filter) || KeyOf(e, f) == filter.value then multiset(s)[e] else 0
  {
    if Truthy(filter) {
      FilterByMultiset(s, f, filter.value);
    }
  }

  /** Whether `e` passes both filters of `get_top_scores`. */
  predicate Passes(e: Entry, difficultyFilter: Option<string>, themeFilter: Option<string>)
  {
    (Truthy(difficultyFilter) ==> e.difficulty == difficultyFilter.value)
    && (Truthy(themeFilter) ==> e.theme == themeFilter.value)
  }

  /** The entries that pass both filters, in stored order. */
  function Matching(s: seq<Entry>, difficultyFilter: Option<string>, themeFilter: Option<string>): (r: seq<Entry>)
    ensures forall e :: multiset(r)[e] == if Passes(e, difficultyFilter, themeFilter) then multiset(s)[e] else 0
  {
    var byDifficulty := ApplyFilter(s, Difficulty, difficultyFilter);
    ApplyFilterMultiset(s, Difficulty, difficultyFilter);
    ApplyFilterMultiset(byDifficulty, Theme, themeFilter);
    ApplyFilter(byDifficulty, Theme, themeFilter)
  }

  /** The filter keeps stored order: filtering a concatenation concatenates the filtered parts. */
  lemma {:induction false} FilterByAppend(a: seq<Entry>, b: seq<Entry>, f: Field, key: string)
    ensures FilterBy(a + b, f, key) == FilterBy(a, f, key) + FilterBy(b, f, key)
  {
    if a == [] {
      assert a + b == b;
    } else {
      var kept := if KeyOf(a[0], f) == key then [a[0]] else [];
      assert FilterBy(a + b, f, key) == kept + FilterBy(a[1..] + b, f, key) by {
        assert (a + b)[0] == a[0] && (a + b)[1..] == a[1..] + b;
      }
      FilterByAppend(a[1..], b, f, key);
      AppendAssoc(kept, FilterBy(a[1..], f, key), FilterBy(b, f, key));
    }
  }

  lemma ApplyFilterAppend(a: seq<Entry>, b: seq<Entry>, f: Field, filter: Option<string>)
    ensures ApplyFilter(a + b, f, filter) == ApplyFilter(a, f, filter) + ApplyFilter(b, f, filter)
  {
    if Truthy(filter) {
      FilterByAppend(a, b, f, filter.value);
    }
  }

  /** Both filters together keep stored order. */
  lemma MatchingAppend(a: seq<Entry>, b: seq<Entry>, difficultyFilter: Option<string>, themeFilter: Option<string>)
    ensures Matching(a + b, difficultyFilter, themeFilter)
      == Matching(a, difficultyFilter, themeFilter) + Matching(b, difficultyFilter, themeFilter)
  {
    ApplyFilterAppend(a, b, Difficulty, difficultyFilter);
    ApplyFilterAppend(ApplyFilter(a, Difficulty, difficultyFilter), ApplyFilter(b, Difficulty, difficultyFilter), Theme, themeFilter);
  }

  /** Taking one score's entries commutes with the filter, so the filter keeps each score's order. */
  lemma {:induction false} FilterByWithScore(s: seq<Entry>, f: Field, key: string, v: int)
    ensures WithScore(FilterBy(s, f, key), v) == FilterBy(WithScore(s, v), f, key)
  {
    if s != [] {
      var h := s[0];
      var kept := if KeyOf(h, f) == key then [h] else [];
      var scored := if h.score == v then [h] else [];
      var both := if KeyOf(h, f) == key && h.score == v then [h] else [];
      FilterByWithScore(s[1..], f, key, v);
      WithScoreAppend(kept, FilterBy(s[1..], f, key), v);
      FilterByAppend(scored, WithScore(s[1..], v), f, key);
      assert [h][1..] == [];
      assert WithScore(kept, v) == both;
      assert FilterBy(scored, f, key) == both;
    }
  }

  lemma ApplyFilterWithScore(s: seq<Entry>, f: Field, filter: Option<string>, v: int)
    ensures WithScore(ApplyFilter(s, f, filter), v) == ApplyFilter(WithScore(s, v), f, filter)
  {
    if Truthy(filter) {
      FilterByWithScore(s, f, filter.value, v);
    }
  }

  /** The entries of one score that pass both filters, in the order they appear in `s`. */
  lemma MatchingWithScore(s: seq<Entry>, difficultyFilter: Option<string>, themeFilter: Option<string>, v: int)
    ensures WithScore(Matching(s, difficultyFilter, themeFilter), v)
      == Matching(WithScore(s, v), difficultyFilter, themeFilter)
  {
    ApplyFilterWithScore(s, Difficulty, difficultyFilter, v);
    ApplyFilterWithScore(ApplyFilter(s, Difficulty, difficultyFilter), Theme, themeFilter, v);
  }

  /** Every entry of the sorted matching entries is a stored entry that passes both filters. */
  lemma SortedMatchingMembers(s: seq<Entry>, difficultyFilter: Option<string>, themeFilter: Option<string>)
    ensures forall e :: e in SortDesc(Matching(s, difficultyFilter, themeFilter)) ==> e in s && Passes(e, difficultyFilter, themeFilter)
  {
    var m := Matching(s, difficultyFilter, themeFilter);
    SortDescMultiset(m);
    forall e | e in SortDesc(m)
      ensures e in s && Passes(e, difficultyFilter, themeFilter)
    {
      assert multiset(SortDesc(m))[e] > 0;
    }
  }

  /** Python's `s[:limit]`: a negative limit counts from the end. */
  function PyPrefix<T>(s: seq<T>, limit: int): (r: seq<T>)
    ensures 0 <= limit ==> |r| == if limit < |s| then limit else |s|
    ensures limit < 0 ==> |r| == if |s| + limit > 0 then |s| + limit else 0
    ensures r == s[..|r|]
  {
    if 0 <= limit then (if limit < |s| then s[..limit] else s)
    else if |s| + limit > 0 then s[..|s| + limit] else []
  }

  // ---------------------------------------------------------------- counters

  /** `[entry[field] for entry in data]`. */
  function Column(es: seq<Entry>, f: Field): (r: seq<string>)
    ensures |r| == |es| && forall i :: 0 <= i < |es| ==> r[i] == KeyOf(es[i], f)
  {
    seq(|es|, i requires 0 <= i < |es| => KeyOf(es[i], f))
  }

  /** A counting `dict`: its keys in insertion order, and the count of each. */
  datatype Counter = Counter(keys: seq<string>, count: map<string, nat>)

  /** `counter.get(k, 0)`. */
  function Get(c: Counter, k: string): nat
  {
    if k in c.count then c.count[k] else 0
  }

  /** `counter[k] = counter.get(k, 0) + 1`: a new key goes last, an old one keeps its place. */
  function Bump(c: Counter, k: string): Counter
  {
    if k in c.count then Counter(c.keys, c.count[k := c.count[k] + 1])
    else Counter(c.keys + [k], c.count[k := 1])
  }

  /** The counter the `get_statistics` loop builds from the values `xs`, in order. */
  function Tally(xs: seq<string>): (c: Counter)
    ensures forall k :: k in c.keys <==> k in c.count
  {
    if xs == [] then Counter([], map[]) else Bump(Tally(xs[..|xs| - 1]), xs[|xs| - 1])
  }

  /** The sum of the counts of `keys`. */
  function SumCounts(keys: seq<string>, count: map<string, nat>): nat
    requires forall k :: k in keys ==> k in count
  {
    if keys == [] then 0 else SumCounts(keys[..|keys| - 1], count) + count[keys[|keys| - 1]]
  }

  lemma {:induction false} SumCountsOther(keys: seq<string>, count: map<string, nat>, k: string, n: nat)
    requires (forall x :: x in keys ==> x in count) && k !in keys
    ensures SumCounts(keys, count[k := n]) == SumCounts(keys, count)
  {
    if keys != [] {
      SumCountsOther(keys[..|keys| - 1], count, k, n);
    }
  }

  lemma {:induction false} SumCountsIncrement(keys: seq<string>, count: map<string, nat>, k: string)
    requires (forall x :: x in keys ==> x in count) && Distinct(keys) && k in keys
    ensures SumCounts(keys, count[k := count[k] + 1]) == SumCounts(keys, count) + 1
  {
    var init, last := keys[..|keys| - 1], keys[|keys| - 1];
    assert Distinct(init);
    if last == k {
      assert k !in init by {
        assert forall i :: 0 <= i < |init| ==> init[i] == keys[i];
      }
      SumCountsOther(init, count, k, count[k] + 1);
    } else {
      assert k in init by {
        assert keys == init + [last];
      }
      SumCountsIncrement(init, count, k);
    }
  }

  /** The counter holds each value once, */
  lemma {:induction false} TallyDistinct(xs: seq<string>)
    ensures Distinct(Tally(xs).keys)
  {
    if xs != [] {
      TallyDistinct(xs[..|xs| - 1]);
    }
  }

  /** with its number of occurrences, */
  lemma {:induction false} TallyCount(xs: seq<string>, k: string)
    ensures k in Tally(xs).keys <==> k in xs
    ensures Get(Tally(xs), k) == multiset(xs)[k]
  {
    if xs != [] {
      var init, last := xs[..|xs| - 1], xs[|xs| - 1];
      TallyCount(init, k);
      assert xs == init + [last];
    }
  }

  /** and the counts add up to the number of values. */
  lemma {:induction false} TallySum(xs: seq<string>)
    ensures SumCounts(Tally(xs).keys, Tally(xs).count) == |xs|
  {
    if xs != [] {
      var init, last := xs[..|xs| - 1], xs[|xs| - 1];
      TallySum(init);
      TallyDistinct(init);
      var t := Tally(init);
      if last in t.count {
        SumCountsIncrement(t.keys, t.count, last);
      } else {
        SumCountsOther(t.keys, t.count, last, 1);
        assert (t.keys + [last])[..|t.keys|] == t.keys;
      }
    }
  }

  /** The keys are in order of first appearance: an earlier key occurs before any occurrence of a later one. */
  lemma {:induction false} TallyOrder(xs: seq<string>, p: nat, q: nat, j: nat)
    requires p < q < |Tally(xs).keys| && j < |xs| && xs[j] == Tally(xs).keys[q]
    ensures Tally(xs).keys[p] in xs[..j]
  {
    var init, last := xs[..|xs| - 1], xs[|xs| - 1];
    var t, r := Tally(init), Tally(xs);
    assert r == Bump(t, last);
    assert p < |t.keys| && r.keys[p] == t.keys[p];
    TallyCount(init, t.keys[p]);
    if q < |t.keys| {
      assert r.keys[q] == t.keys[q];
      if j < |init| {
        assert init[j] == xs[j];
        TallyOrder(init, p, q, j);
        assert init[..j] == xs[..j];
      } else {
        assert init == xs[..j];
      }
    } else {
      TallyCount(init, last);
      assert r.keys[q] == last && last !in init;
      assert forall i :: 0 <= i < |init| ==> init[i] == xs[i];
      assert j == |init|;
      assert init == xs[..j];
    }
  }

  /** `max(counter, key=counter.get)` over the key list: the position of the first maximal count. */
  function ArgMax(keys: seq<string>, count: map<string, nat>): (p: nat)
    requires |keys| > 0 && forall k :: k in keys ==> k in count
    ensures p < |keys|
    ensures forall q :: 0 <= q < |keys| ==> count[keys[q]] <= count[keys[p]]
    ensures forall q :: 0 <= q < p ==> count[keys[q]] < count[keys[p]]
  {
    if |keys| == 1 then 0
    else
      var init := keys[..|keys| - 1];
      var p := ArgMax(init, count);
      assert forall q :: 0 <= q < |init| ==> init[q] == keys[q];
      if count[keys[|keys| - 1]] > count[keys[p]] then |keys| - 1 else p
  }

  /** `max(d["score"] for d in data)`. */
  function MaxScore(es: seq<Entry>): (m: int)
    requires |es| > 0
    ensures exists i :: 0 <= i < |es| && es[i].score == m
    ensures forall i :: 0 <= i < |es| ==> es[i].score <= m
  {
    if |es| == 1 then es[0].score
    else
      var m := MaxScore(es[1..]);
      assert forall i :: 1 <= i < |es| ==> es[1..][i - 1] == es[i];
      if es[0].score >= m then es[0].score else m
  }

  /** The favorite: the key `max` picks from a tally. */
  function Favorite(c: Counter): (r: string)
    requires forall k :: k in c.keys ==> k in c.count
    ensures c.keys == [] ==> r == "-"
    ensures c.keys != [] ==> r in c.keys && forall k :: k in c.keys ==> c.count[k] <= c.count[r]
  {
    if c.keys == [] then "-" else c.keys[ArgMax(c.keys, c.count)]
  }

  lemma InPrefix(xs: seq<string>, j: nat, x: string)
    requires j < |xs| && (x in xs[..j] || xs[j] == x)
    ensures x in xs[..j + 1]
  {
    assert xs[..j + 1] == xs[..j] + [xs[j]];
  }

  /**
   * Of non-empty values, the favorite occurs most often, and every value occurring as often
   * has the favorite at or before each of its occurrences: ties go to the first to appear.
   */
  lemma FavoriteIsFirstMaximal(xs: seq<string>)
    requires |xs| > 0
    ensures Favorite(Tally(xs)) in xs
    ensures forall j :: 0 <= j < |xs| ==> multiset(xs)[xs[j]] <= multiset(xs)[Favorite(Tally(xs))]
    ensures forall j :: 0 <= j < |xs| && multiset(xs)[xs[j]] == multiset(xs)[Favorite(Tally(xs))] ==>
      Favorite(Tally(xs)) in xs[..j + 1]
  {
    var t := Tally(xs);
    TallyCount(xs, xs[0]);
    var p := ArgMax(t.keys, t.count);
    var fav := t.keys[p];
    TallyCount(xs, fav);
    forall j | 0 <= j < |xs|
      ensures multiset(xs)[xs[j]] <= multiset(xs)[fav]
      ensures multiset(xs)[xs[j]] == multiset(xs)[fav] ==> fav in xs[..j + 1]
    {
      var k := xs[j];
      TallyCount(xs, k);
      var q :| 0 <= q < |t.keys| && t.keys[q] == k;
      if multiset(xs)[k] == multiset(xs)[fav] {
        if q != p {
          TallyOrder(xs, p, q, j);
        }
        InPrefix(xs, j, fav);
      }
    }
  }

  /** What `get_statistics` returns for non-empty data. */
  datatype Stats = Stats(
    totalGames: nat,
    bestScore: int,
    themesCount: Counter,
    difficultyCount: Counter,
    favoriteTheme: string)

  // ---------------------------------------------------------------- repository

  class ScoreRepository {
    /** The entries in the scores file, in file order. */
    var stored: seq<Entry>

    constructor (stored: seq<Entry>)
      ensures this.stored == stored
    {
      this.stored := stored;
    }

    /** `save_score`: appends the new entry, then sorts the whole list by score, highest first. */
    method SaveScore(playerName: string, score: int, theme: string, difficulty: string, date: string)
      modifies this
      ensures stored == SortDesc(old(stored) + [Entry(playerName, score, theme, difficulty, date)])
    {
      var data := stored + [Entry(playerName, score, theme, difficulty, date)];
      stored := SortDesc(data);
    }

    /** `get_top_scores(limit, difficulty_filter, theme_filter)`. */
    function GetTopScores(limit: int, difficultyFilter: Option<string>, themeFilter: Option<string>): (r: seq<Entry>)
      reads this
      ensures SortedDesc(r)
      ensures 0 <= limit ==> |r| <= limit
      ensures forall e :: e in r ==> (e in stored
        && (Truthy(difficultyFilter) ==> e.difficulty == difficultyFilter.value)
        && (Truthy(themeFilter) ==> e.theme == themeFilter.value))
    {
      var m := Matching(stored, difficultyFilter, themeFilter);
      SortedMatchingMembers(stored, difficultyFilter, themeFilter);
      var sorted := SortDesc(m);
      SortDescSorted(m);
      var r := PyPrefix(sorted, limit);
      assert forall e :: e in r ==> e in sorted;
      r
    }

    /** `get_statistics()`: `None` stands for the empty dict returned on empty data. */
    method GetStatistics() returns (r: Option<Stats>)
      ensures r == StatisticsOf(stored)
    {
      var data := stored;
      if data == [] {
        return None;
      }
      var themes := Counter([], map[]);
      var levels := Counter([], map[]);
      for i := 0 to |data|
        invariant themes == Tally(Column(data[..i], Theme)) && levels == Tally(Column(data[..i], Difficulty))
      {
        ColumnSnoc(data, i, Theme);
        ColumnSnoc(data, i, Difficulty);
        themes := Bump(themes, data[i].theme);
        levels := Bump(levels, data[i].difficulty);
      }
      assert data[..|data|] == data;
      var favorite := "-";
      if themes.count != map[] {
        favorite := themes.keys[ArgMax(themes.keys, themes.count)];
      }
      r := Some(Stats(|data|, MaxScore(data), themes, levels, favorite));
    }
  }

  lemma ColumnSnoc(es: seq<Entry>, i: nat, f: Field)
    requires i < |es|
    ensures Column(es[..i + 1], f) == Column(es[..i], f) + [KeyOf(es[i], f)]
  {
  }

  /** What `get_statistics` computes from `data`. */
  function StatisticsOf(data: seq<Entry>): (r: Option<Stats>)
    ensures r.None? <==> data == []
    ensures r.Some? ==> r.value.totalGames == |data|
    ensures r.Some? ==> exists i :: 0 <= i < |data| && data[i].score == r.value.bestScore
    ensures r.Some? ==> forall i :: 0 <= i < |data| ==> data[i].score <= r.value.bestScore
  {
    if data == [] then None
    else
      var themes := Tally(Column(data, Theme));
      Some(Stats(|data|, MaxScore(data), themes, Tally(Column(data, Difficulty)), Favorite(themes)))
  }

  /**
   * The statistics are empty exactly for empty data; otherwise they count every game, the best
   * score is the largest, each theme and level count is its number of games, and the favorite
   * theme is a most frequent one, the first of them to appear.
   */
  lemma StatisticsCorrect(data: seq<Entry>, k: string)
    ensures StatisticsOf(data).None? <==> data == []
    ensures StatisticsOf(data).Some? ==>
      var s, themes, levels := StatisticsOf(data).value, Column(data, Theme), Column(data, Difficulty);
      s.totalGames == |data|
      && (exists i :: 0 <= i < |data| && data[i].score == s.bestScore)
      && (forall i :: 0 <= i < |data| ==> data[i].score <= s.bestScore)
      && Get(s.themesCount, k) == multiset(themes)[k] && Get(s.difficultyCount, k) == multiset(levels)[k]
      && SumCounts(s.themesCount.keys, s.themesCount.count) == |data|
      && SumCounts(s.difficultyCount.keys, s.difficultyCount.count) == |data|
      && s.favoriteTheme in themes
      && (forall j :: 0 <= j < |data| ==> multiset(themes)[themes[j]] <= multiset(themes)[s.favoriteTheme])
      && (forall j :: 0 <= j < |data| && multiset(themes)[themes[j]] == multiset(themes)[s.favoriteTheme] ==>
            s.favoriteTheme in themes[..j + 1])
  {
    if data != [] {
      var themes, levels := Column(data, Theme), Column(data, Difficulty);
      TallyCount(themes, k);
      TallyCount(levels, k);
      TallySum(themes);
      TallySum(levels);
      FavoriteIsFirstMaximal(themes);
    }
  }

  /** `save_score` adds exactly one entry, and leaves the list sorted with each score's entries in order. */
  lemma SaveScoreEffect(data: seq<Entry>, e: Entry, v: int)
    ensures |SortDesc(data + [e])| == |data| + 1
    ensures SortedDesc(SortDesc(data + [e]))
    ensures multiset(SortDesc(data + [e])) == multiset(data) + multiset{e}
    ensures WithScore(SortDesc(data + [e]), v) == WithScore(data, v) + (if e.score == v then [e] else [])
  {
    SortDescCorrect(data + [e]);
    SortStable(data + [e], v);
    WithScoreAppend(data, [e], v);
    assert [e][1..] == [];
  }

  /** In a list sorted by score, the first `n` entries score at least as much as any other. */
  lemma PrefixIsBest(sorted: seq<Entry>, n: nat)
    requires SortedDesc(sorted) && n <= |sorted|
    ensures multiset(sorted) == multiset(sorted[..n]) + multiset(sorted[n..])
    ensures forall x: Entry, y: Entry :: x in multiset(sorted[n..]) && y in sorted[..n] ==> x.score <= y.score
  {
    assert sorted == sorted[..n] + sorted[n..];
    forall x: Entry, y: Entry | x in multiset(sorted[n..]) && y in sorted[..n]
      ensures x.score <= y.score
    {
      var i :| 0 <= i < |sorted[n..]| && sorted[n..][i] == x;
      var j :| 0 <= j < n && sorted[..n][j] == y;
      assert sorted[n + i] == x && sorted[j] == y;
    }
  }

  /**
   * `get_top_scores` keeps the best entries: the returned entries are matching ones, and every
   * matching entry left out scores no more than any returned one. When fewer than `limit` are
   * returned (limit not negative), every matching entry is returned.
   */
  lemma TopScoresAreBest(repo: ScoreRepository, limit: int, difficultyFilter: Option<string>, themeFilter: Option<string>)
    ensures var r := repo.GetTopScores(limit, difficultyFilter, themeFilter);
      var m := Matching(repo.stored, difficultyFilter, themeFilter);
      multiset(r) <= multiset(m)
      && (forall x: Entry, y: Entry :: x in multiset(m) - multiset(r) && y in r ==> x.score <= y.score)
      && (0 <= limit && |r| < limit ==> multiset(r) == multiset(m))
    ensures var r := repo.GetTopScores(limit, difficultyFilter, themeFilter);
      forall v :: WithScore(r, v) <= Matching(WithScore(repo.stored, v), difficultyFilter, themeFilter)
  {
    var m := Matching(repo.stored, difficultyFilter, themeFilter);
    var sorted := SortDesc(m);
    SortDescCorrect(m);
    var r := PyPrefix(sorted, limit);
    assert repo.GetTopScores(limit, difficultyFilter, themeFilter) == r;
    PrefixIsBest(sorted, |r|);
    assert multiset(m) - multiset(r) == multiset(sorted[|r|..]);
    if 0 <= limit && |r| < limit {
      assert sorted[|r|..] == [];
    }
    forall v
      ensures WithScore(r, v) <= Matching(WithScore(repo.stored, v), difficultyFilter, themeFilter)
    {
      TopTiesComeFirst(m, |r|, v);
      MatchingWithScore(repo.stored, difficultyFilter, themeFilter, v);
    }
  }

  /** Among entries of equal score, a prefix of the sorted matching entries holds the earliest stored ones. */
  lemma TopTiesComeFirst(m: seq<Entry>, n: nat, v: int)
    requires n <= |m|
    ensures WithScore(SortDesc(m)[..n], v) <= WithScore(m, v)
  {
    var sorted := SortDesc(m);
    assert sorted == sorted[..n] + sorted[n..];
    WithScoreAppend(sorted[..n], sorted[n..], v);
    SortStable(m, v);
  }
}
