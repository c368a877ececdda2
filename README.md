# Memory game core, modelled in Dafny

This project models the engine of a pairs-matching ("memory") game and proves what the engine promises. It also models the small rule and buffer pieces around the engine.

- **Card** (`Cards`, card.dfy): a cell with an identity, an optional display text and two flags. `reveal`, `hide` and `mark_as_matched` are guarded by the matched flag.
- **Board** (`Boards`, board.dfy): the parity check of the constructor, and the fill. The fill shuffles the list, then pops one value per cell, row by row.
  - Also modelled: the bounds-checked `get_card`, `all_matched` and `reset`.
  - The fill list is a parameter. `Board.NewWithLetters` passes the doubled letter list that board.py builds; `Board.New` takes any list, such as a strategy's output.
- **Turn state machine** (`Engine`, engine.dfy; `Service`, game_service.dfy). `Engine` states `pick_card` and `hide_cards` as functions over a snapshot of the board. The class `Service.GameService` mutates real card objects, and each method is proved to follow its `Engine` function step for step.
- **Scoring** (`Scoring`, scoring.dfy) is a **test-only layer**. The shown `GameService` keeps no score; the scoring tests and the game manager expect one. Multipliers are written in half-units (1.0, 1.5, 2.0 become 2, 3, 4).
- **Pair-generation strategies** (`Strategies`, strategies.dfy): Emoji, Math and Chemistry, with their own errors.
- **Leaderboard** (`Repository`, repository.dfy): `save_score`, `get_top_scores` and `get_statistics`, over an in-memory list of entries.
- **Star rating** (`Stars`, stars.dfy): `_calculate_stars` of the graphical front end.
- **Flashcard queue** (`Flashcards`, flashcard.dfy): the two-slot `FlashcardManager`.
- **Login text field** (`InputBoxes`, input_box.dfy): the focus and text logic of `InputBox`.

The random choices are inputs:

- CPython's `random.shuffle` is a Fisher–Yates pass. Its draws are a sequence `picks` with `picks[i] <= i`, so every shuffle the generator can produce is allowed (`Randomness`).
- `random.sample` is any list of distinct pool positions.
- `random.randint(1, 10)` is any value in 1..10.
- `pygame.time.get_ticks()` readings and the `datetime.now()` timestamp are parameters, too.

Where the intended design and the code differ, the model follows the code:

- **No score floor.** The design floors the score at 0 after a mismatch. The tests assert no floor, so the test-only layer has none (`Scoring.NoFloorAtZero`).
- **Math identities can repeat.** The design makes each arithmetic identity unique. The code does not deduplicate, so one identity can occur four times (`Strategies.MathRepeatsIdentities`). Only "every identity occurs an even number of times" holds.
- **Reset does not rebuild.** The design rebuilds the board on `reset`. The code shuffles the caller's list in place and empties the grid, and `rows` and `cols` stay as they were. After that, `all_matched` is vacuously true, and `get_card` on an in-bounds position raises an IndexError (`Boards.ResetBoardIsWon`).
- **Lookups can raise.** The design says a lookup never throws. `Boards.Board.GetCard` returns `Failure(IndexOutOfRange)` whenever the grid is shorter than the bounds say.
- **Letter fill.** The design says the board asks a strategy for its cards. The shown `Board` fills itself from letters, so this is what `Board.NewWithLetters` models.
- **Card fields.** The shown `Card` has only `value`; the strategies construct it with `match_id` and `display_content`. A `Cards.Face` holds the identity (`value`) and an optional display text, and matching compares the identity.

A card is never paired with itself by `pick_card` alone (`Engine.NoSelfPair`). If the driver calls `hide_cards` on the pending card's position and picks that card again, the engine pairs the card with itself and counts a MATCH (`Engine.HideThenRepickPairsCardWithItself`).

## Model

| member | source | states |
|---|---|---|
| Cards.NewState | src/domain/card.py:18-20 | a new card keeps its face and is face-down and unmatched, so "matched implies revealed" holds |
| Cards.Revealed | src/domain/card.py:22-25 | `reveal` keeps the face and the matched flag; the card is face-up afterwards exactly when it was face-up or is unmatched; it keeps the card invariant and then leaves the card face-up |
| Cards.Hidden | src/domain/card.py:27-30 | `hide` keeps the face and the matched flag; the card is face-up afterwards exactly when it is matched and was face-up; a matched card is unchanged; the card invariant is kept |
| Cards.Matched | src/domain/card.py:32-35 | `mark_as_matched` keeps the face and sets both flags, so the invariant holds |
| Cards.TransitionsIdempotent | src/domain/card.py:22-35 | each transition is idempotent, and neither `reveal` nor `hide` changes a matched card |
| Cards.Show | src/domain/card.py:37-38 | `__repr__` is the value when face-up and "?" otherwise; a matched card (under the invariant) shows its value |
| Cards.Card.constructor | src/domain/card.py:18-20 | a new card object is face-down, unmatched and valid |
| Cards.Card.Reveal | src/domain/card.py:22-25 | the object's new state is `Revealed` of its old state, and a valid card stays valid |
| Cards.Card.Hide | src/domain/card.py:27-30 | the object's new state is `Hidden` of its old state, and a valid card stays valid |
| Cards.Card.MarkAsMatched | src/domain/card.py:32-35 | the object's new state is `Matched` of its old state, and the card is valid afterwards |
| Cards.Card.ToString | src/domain/card.py:37-38 | the object prints as `Show` of its state |
| Boards.Letters | src/domain/board.py:41 | `[chr(65 + i) for i in range(n)]`: n faces, the i-th being the one-letter string `chr(65 + i)` |
| Boards.LetterPairs | src/domain/board.py:41 | the doubled letter list has two faces per pair |
| Boards.LetterPairsCount | src/domain/board.py:41 | in the doubled letter list each of the first n letters occurs exactly twice, and no other face occurs |
| Boards.EvenProductFillsAll | src/domain/board.py:38-50 | for an even `rows * cols`, the cells the loops visit never exceed the `2 * (rows * cols // 2)` letters, and equal them when both sizes are positive |
| Boards.Board.constructor | src/domain/board.py:17-34 | the board keeps `rows` and `cols`, has `range(rows)` rows of `range(cols)` distinct card objects, all face-down and all newly created; its faces, read row-major, are the reverse of the tail the pops take from the shuffled list |
| Boards.Board.New | src/domain/board.py:17-34 | fails exactly when `rows * cols` is odd; otherwise returns a new board of new cards as the constructor describes |
| Boards.Board.NewWithLetters | src/domain/board.py:17-50 | fails exactly when `rows * cols` is odd; otherwise a new board of new cards, filled from the shuffled doubled letter list popped from the end; with positive sizes the faces are a permutation of that list |
| Boards.Board.InitializeBoard | src/domain/board.py:36-50 | a valid, face-down board of new card objects whose faces are the reverse of the last `rows * cols` shuffled values |
| Boards.Board.FillGrid | src/domain/board.py:45-50 | the nested loops give `range(rows)` rows of `range(cols)` distinct, face-down, newly created cards; read row-major, their faces are the reverse of the values popped |
| Boards.Board.AddRow | src/domain/board.py:45-50 | one pass of the outer loop appends a row of new cards, keeps the rows built so far, and pops one value per column |
| Boards.Board.FillRow | src/domain/board.py:46-50 | one row takes one new card per column from the end of the list, and leaves the list without those values |
| Boards.Board.GetCard | src/domain/board.py:52-62 | None exactly when the position is outside `rows` by `cols`; IndexError exactly when it is inside but the grid is shorter; otherwise the card `grid[row][col]` |
| Boards.Board.ShapedLookup | src/domain/board.py:52-62 | on a fully shaped grid `get_card` never raises, and it finds a card exactly at the in-bounds positions |
| Boards.Board.AllMatched | src/domain/board.py:64-67 | true exactly when every card of the grid is matched |
| Boards.FreshBoardNotWon | src/domain/board.py:64-67 | a fresh face-down board with at least one cell is not all matched |
| Boards.Board.Reset | src/domain/board.py:69-72 | the grid becomes empty, and the caller's list is shuffled in place into a permutation of itself |
| Boards.ResetBoardIsWon | src/domain/board.py:69-72 | after `reset`, `all_matched` is true and every in-bounds `get_card` raises an IndexError |
| Randomness.ShuffledMultiset | src/domain/board.py:42 | `random.shuffle` yields a permutation of its input, whatever its draws |
| Randomness.Swap | src/domain/board.py:42 | one Fisher–Yates step exchanges the two drawn positions and keeps every other element |
| Randomness.ShuffleSteps | src/domain/board.py:42 | the remaining Fisher–Yates steps keep the list's length |
| Randomness.Shuffled | src/domain/board.py:42 | the shuffle keeps the length of the list |
| Randomness.ShuffleInPlace | src/domain/board.py:71 | the in-place Fisher–Yates loop leaves the array equal to `Shuffled` of its old contents |
| Randomness.SampledDistinct | src/domain/strategies.py:45 | `random.sample` of distinct positions from a pool without repeats has no repeats |
| Randomness.Sampled | src/domain/strategies.py:45 | `random.sample` returns one pool element per drawn position, in draw order |
| Engine.Start | src/services/game_service.py:13-16 | a new service has no moves and no pending first pick, over the board as given |
| Engine.Flip | src/services/game_service.py:31 | `reveal` on the picked cell changes that cell to `Revealed` of itself and no other cell, and keeps the counter and the pending pick |
| Engine.Settle | src/services/game_service.py:33-52 | FIRST_PICK exactly when nothing was pending; otherwise one move is counted, the pending pick is cleared, and the outcome is MATCH exactly when the identities are equal and NO_MATCH otherwise |
| Engine.Pick | src/services/game_service.py:18-52 | `pick_card` keeps the board's shape and dimensions, and keeps any pending pick on the board |
| Engine.PickInvalid | src/services/game_service.py:25-29 | INVALID exactly when the position is off the board, or its card is face-up or matched; then nothing changes |
| Engine.PickFirst | src/services/game_service.py:31-36 | a valid pick with nothing pending returns FIRST_PICK, reveals exactly that card, records the position and counts no move |
| Engine.PickSecond | src/services/game_service.py:38-52 | a valid second pick is at another position; it counts one move and clears the pending pick; the outcome is MATCH exactly when the identities are equal, and then both cards are matched; otherwise both stay face-up and unmatched |
| Engine.NoSelfPair | src/services/game_service.py:28-36 | picking the pending card again is INVALID and changes nothing |
| Engine.PickPreserves | src/services/game_service.py:18-52 | `pick_card` keeps every card's invariant, keeps the pending card face-up and unmatched, never unmatches a card and never changes a face |
| Engine.HideAt | src/services/game_service.py:56-59 | hiding one position applies `Hidden` to that cell only when it is on the board, and changes no other cell, the counter or the pending pick |
| Engine.Hide | src/services/game_service.py:54-59 | `hide_cards` keeps the board's shape, the move counter and the pending pick |
| Engine.HideEffect | src/services/game_service.py:54-59 | `hide_cards` applies `hide` to exactly the cells at the two positions and leaves every other cell as it was |
| Engine.HidePreserves | src/services/game_service.py:54-59 | `hide_cards` keeps every card's invariant and never unmatches a card or changes a face |
| Engine.HideThenRepickPairsCardWithItself | src/services/game_service.py:18-59 | hiding the pending card and picking it again returns MATCH, counts a move and matches that one card, with every other cell unchanged |
| Engine.Run | src/services/game_service.py:18-52 | a sequence of picks keeps the state well defined and gives one outcome per pick |
| Engine.RunPreserves | src/services/game_service.py:18-52 | over any sequence of picks the invariants hold, no card is unmatched, `moves` grows by the number of MATCH and NO_MATCH results, and every FIRST_PICK is closed exactly once or is still pending |
| Engine.Apply | src/services/game_service.py:18-59 | one front-end action, a pick or a hide, keeps the state well defined and the board's dimensions |
| Engine.Play | src/services/game_service.py:18-59 | any sequence of picks and hides keeps the state well defined and the board's dimensions |
| Engine.PickKeepsCards | src/services/game_service.py:18-52 | `pick_card` keeps every card's invariant, never unmatches a card or changes a face, and never lowers `moves`, even when the pending card was hidden |
| Engine.PlayPreserves | src/services/game_service.py:18-59 | over any interleaving of picks and hides every card keeps its invariant, no card is unmatched, no face changes and `moves` never decreases |
| Service.RevealCell | src/services/game_service.py:31 | revealing one card changes the board's snapshot in that cell only |
| Service.HideCell | src/services/game_service.py:58-59 | hiding one card changes the board's snapshot in that cell only |
| Service.MatchCell | src/services/game_service.py:46-47 | marking one card matched changes the board's snapshot in that cell only, to `Matched` of it |
| Service.MatchCells | src/services/game_service.py:46-47 | marking the first card, then the second, changes the snapshot as `Engine.MarkBoth` says |
| Service.GameService.constructor | src/services/game_service.py:13-16 | any board is accepted; the new service's state is `Engine.Start` over it, and the service is valid whenever the board is |
| Service.GameService.PickCard | src/services/game_service.py:18-52 | the new state and the result are exactly those of `Engine.Pick` on the old state |
| Service.GameService.Settle | src/services/game_service.py:33-52 | after the reveal, the new state and the result are exactly those of `Engine.Settle` |
| Service.GameService.CloseTurn | src/services/game_service.py:38-52 | the second pick of a turn updates the state and returns the result as `Engine.Settle` does |
| Service.GameService.HideCards | src/services/game_service.py:54-59 | the new state is exactly `Engine.Hide` of the old state |
| Scoring.MultiplierHalves | src/manager.py:78-87 | the multiplier is 1.0 exactly for 4x4, 1.5 exactly for 4 columns and not 4 rows, 2.0 otherwise |
| Scoring.Scored | tests/test_scoring.py:28-69 | a MATCH raises the combo by one and adds `100 * combo * multiplier`; a NO_MATCH resets the combo and takes 20 points; other results change nothing |
| Scoring.ScoreBounds | tests/test_scoring.py:28-69 | over any run, points drop only by 20 per mismatch; without mismatches the combo grows by one per match and the points never drop |
| Scoring.NoFloorAtZero | tests/test_scoring.py:57-69 | a first mismatch from zero leaves -20: there is no floor |
| Scoring.Fixture | tests/test_scoring.py:9-25 | the 2x2 A-A / B-B test board is a valid starting state |
| Scoring.BasicMatchScore | tests/test_scoring.py:28-38 | picking (0,0) then (0,1) gives FIRST_PICK, MATCH, 150 points and combo 1 at multiplier 1.5 |
| Scoring.ComboStreakScore | tests/test_scoring.py:40-54 | matching both pairs in a row gives 450 points and combo 2 |
| Scoring.MismatchScore | tests/test_scoring.py:57-69 | from 100 points and combo 5, A against B gives NO_MATCH, 80 points and combo 0 |
| Strategies.NewEmojiStrategy | src/domain/strategies.py:34-37 | fails exactly for a theme not among the THEMES keys; otherwise holds that theme's items |
| Strategies.ThemesDistinct | src/domain/strategies.py:28-32 | each theme lists distinct items |
| Strategies.EmojiStrategy.GenerateCards | src/domain/strategies.py:39-54 | fails when `num_pairs` exceeds the theme's item count, or is negative (`random.sample`); otherwise returns the shuffle of the pair list, a permutation of it |
| Strategies.EmojiPairs | src/domain/strategies.py:48-51 | the loop puts each selected item twice, as identity and display alike, at positions `2k` and `2k+1` |
| Strategies.EmojiPairsCount | src/domain/strategies.py:48-51 | in the pair list every face shows its own identity and occurs twice per occurrence of its item |
| Strategies.EmojiCardsAreTwinPairs | src/domain/strategies.py:39-54 | the Emoji cards are `2 * num_pairs` faces: each sampled item exactly twice with display equal to identity, and nothing else |
| Strategies.ShuffledIds | src/domain/strategies.py:74 | shuffling keeps how often each identity occurs |
| Strategies.NatToStringValue | src/domain/strategies.py:66 | `str(n)` is a digit string that reads back as n |
| Strategies.NatToString | src/domain/strategies.py:66 | `str(n)` is a non-empty string of decimal digits, one digit long exactly for n below 10 |
| Strategies.MathPair | src/domain/strategies.py:64-72 | one round gives two cards with the identity `str(a + b)`: one shows `"a + b"`, the other the result |
| Strategies.MathPairs | src/domain/strategies.py:62-72 | the loop gives two cards per round |
| Strategies.MathPairsAt | src/domain/strategies.py:62-72 | round k of the loop supplies the cards at positions `2k` and `2k+1` |
| Strategies.MathGenerateCards | src/domain/strategies.py:60-75 | returns `2 * num_pairs` cards (none for a negative count), the shuffle of the list the loop builds, and a permutation of it |
| Strategies.MathIdsInRange | src/domain/strategies.py:64-66 | every Math identity is the decimal of a sum between 2 and 20 |
| Strategies.MathIdsEven | src/domain/strategies.py:61-72 | each identity occurs an even number of times in the Math list |
| Strategies.MathCardsIdsEven | src/domain/strategies.py:60-75 | after the shuffle each identity still occurs an even number of times |
| Strategies.MathRepeatsIdentities | src/domain/strategies.py:61-72 | drawing 1 + 1 twice gives the identity "2" four times: identities are not deduplicated |
| Strategies.ChemistryPairs | src/domain/strategies.py:109-112 | each chosen element gives a symbol card and a name card, both with the symbol as identity |
| Strategies.ElementsDistinct | src/domain/strategies.py:81-100 | the element table has 18 entries and no symbol twice |
| Strategies.ChemistryGenerateCards | src/domain/strategies.py:102-115 | fails when `num_pairs` exceeds 18, or is negative; otherwise returns the shuffle of the pair list, a permutation of it |
| Strategies.ChemistryIdsCount | src/domain/strategies.py:109-112 | each identity occurs twice per occurrence of its symbol among the chosen elements |
| Strategies.ChemistryCardsPaired | src/domain/strategies.py:102-115 | the Chemistry cards hold each chosen symbol exactly twice as identity, and no other identity |
| Repository.SortDescCorrect | src/infrastructure/repository.py:27 | the sort by score, highest first, is ordered and a permutation of its input |
| Repository.SortStable | src/infrastructure/repository.py:27 | the sort is stable: the entries of each score keep their order |
| Repository.SortDesc | src/infrastructure/repository.py:27 | the sort keeps the number of entries |
| Repository.FilterBy | src/infrastructure/repository.py:37-42 | a filter comprehension returns no more entries than it reads, and only entries whose field equals the key |
| Repository.FilterByMultiset | src/infrastructure/repository.py:37-42 | the filter keeps exactly the entries whose field equals the key, with their multiplicity |
| Repository.FilterByAppend | src/infrastructure/repository.py:37-42 | filtering a concatenation concatenates the filtered parts, so the kept entries stay in stored order |
| Repository.FilterByWithScore | src/infrastructure/repository.py:37-42 | taking the entries of one score commutes with the filter |
| Repository.ApplyFilterMultiset | src/infrastructure/repository.py:37-42 | a falsy filter keeps everything; a truthy one keeps exactly the entries with the key, with their multiplicity |
| Repository.ApplyFilterAppend | src/infrastructure/repository.py:37-42 | an applied filter, truthy or not, keeps stored order across a concatenation |
| Repository.ApplyFilterWithScore | src/infrastructure/repository.py:37-42 | an applied filter commutes with taking the entries of one score |

| Repository.Matching | src/infrastructure/repository.py:36-42 | the entries kept are exactly those passing both filters, where a falsy filter (None or "") passes everything |
| Repository.MatchingAppend | src/infrastructure/repository.py:36-42 | both filters together keep stored order: matching a concatenation concatenates the matching parts |
| Repository.MatchingWithScore | src/infrastructure/repository.py:36-42 | the matching entries of one score are, in order, that score's stored entries that pass both filters |
| Repository.SortedMatchingMembers | src/infrastructure/repository.py:36-45 | every entry of the sorted matching list is a stored entry that passes both filters |
| Repository.PyPrefix | src/infrastructure/repository.py:46 | `s[:limit]` is a prefix of `min(limit, len)` entries, or for a negative limit all but the last `-limit` |
| Repository.MaxScore | src/infrastructure/repository.py:56 | the best score is one of the scores and at least every score |
| Repository.Column | src/infrastructure/repository.py:61-66 | the field read from each entry, one per entry, in order |
| Repository.TallyDistinct | src/infrastructure/repository.py:61-66 | the counting loop records each value once |
| Repository.Tally | src/infrastructure/repository.py:61-66 | the counter has a count for each of its keys and for nothing else |
| Repository.TallyCount | src/infrastructure/repository.py:61-66 | a value is a key exactly when it occurs, and its count is its number of occurrences |
| Repository.TallySum | src/infrastructure/repository.py:61-66 | the counts add up to the number of entries |
| Repository.TallyOrder | src/infrastructure/repository.py:61-66 | keys are in order of first appearance |
| Repository.ArgMax | src/infrastructure/repository.py:68-71 | `max(counter, key=counter.get)` is a maximal key with no earlier key as large |
| Repository.Favorite | src/infrastructure/repository.py:68-73 | "-" when nothing was counted; otherwise a counted key whose count is the largest |
| Repository.FavoriteIsFirstMaximal | src/infrastructure/repository.py:68-73 | the favorite theme occurs, has the maximal count, and of the tied themes appears first in the data |
| Repository.ScoreRepository.constructor | src/infrastructure/repository.py:77-84 | the repository holds the entries the scores file would load |
| Repository.ScoreRepository.SaveScore | src/infrastructure/repository.py:13-28 | the stored list becomes the sorted list of the old entries plus the new one |
| Repository.SaveScoreEffect | src/infrastructure/repository.py:13-28 | `save_score` adds exactly the new entry and leaves the list ordered by score, each score's entries in their old order with the new one last |
| Repository.ScoreRepository.GetTopScores | src/infrastructure/repository.py:30-46 | the result is ordered by score, at most `limit` long for a non-negative limit, and holds only stored entries passing the truthy filters |
| Repository.PrefixIsBest | src/infrastructure/repository.py:45-46 | the first n entries of a sorted list score at least as much as any other entry |
| Repository.TopScoresAreBest | src/infrastructure/repository.py:30-46 | the returned entries are matching ones, no matching entry left out scores more than a returned one, and a result shorter than a non-negative limit holds every matching entry; the returned entries of each score are the earliest stored matching ones of that score, in stored order |
| Repository.TopTiesComeFirst | src/infrastructure/repository.py:45-46 | among entries of one score, a prefix of the sorted list holds a prefix of them in their original order |
| Repository.ScoreRepository.GetStatistics | src/infrastructure/repository.py:48-75 | the loop computes exactly `StatisticsOf` of the stored entries |
| Repository.StatisticsOf | src/infrastructure/repository.py:48-75 | no statistics exactly for empty data; otherwise the total is the number of games and the best score is one of the scores and at least every score |
| Repository.StatisticsCorrect | src/infrastructure/repository.py:48-75 | the result is empty exactly for empty data; otherwise it counts every game, has the largest score as best, counts each theme and level correctly, and its counts sum to the number of games; the favorite theme is as `FavoriteIsFirstMaximal` states |
| Stars.Pairs | src/ui/gui.py:142 | `rows * cols // 2` is the floor of half the cell count |
| Stars.CalculateStars | src/ui/gui.py:135-149 | 3 stars exactly when `moves <= 1.5 * pairs`, 2 exactly when `1.5 * pairs < moves <= 2.5 * pairs`, 1 otherwise; always 1..3 |
| Stars.StarsMonotone | src/ui/gui.py:145-149 | more moves never earn more stars |
| Stars.PerfectGameThreeStars | src/ui/gui.py:145-146 | one move per pair earns three stars |
| Stars.FourByFourThresholds | src/ui/gui.py:145-149 | on a 4x4 board 12 moves earn 3, 13 and 20 earn 2, 21 earns 1 |
| Flashcards.Flashcard.constructor | src/ui/flashcard.py:22-36 | a flashcard records its fact, position, start tick and duration |
| Flashcards.Flashcard.Alive | src/ui/flashcard.py:70-71 | for a positive duration, the flashcard stays alive exactly when `elapsed / duration`, in exact division, is below 1.0 |
| Flashcards.FlashcardManager.constructor | src/ui/flashcard.py:214-217 | the manager starts empty with room for two |
| Flashcards.FlashcardManager.AddFlashcard | src/ui/flashcard.py:219-239 | drops the oldest when two are shown, then appends the new flashcard last, 100 pixels lower exactly when another is still shown; 1 or 2 flashcards remain |
| Flashcards.RemoveFirst | src/ui/flashcard.py:245 | `list.remove` drops one element |
| Flashcards.RemoveFirstAt | src/ui/flashcard.py:245 | `list.remove(x)` on a list whose first `x` follows the prefix `a` leaves `a` followed by the rest |
| Flashcards.Survivors | src/ui/flashcard.py:241-245 | the flashcards kept by `update` are among the old ones |
| Flashcards.UpdateStep | src/ui/flashcard.py:243-245 | one round of the loop keeps a live flashcard, and removes a dead one, which is the first of its kind still in the list |
| Flashcards.FlashcardManager.Update | src/ui/flashcard.py:241-245 | the list becomes exactly the flashcards alive at their clock readings, in order, and the queue invariant is kept |
| Flashcards.SurvivorsValid | src/ui/flashcard.py:241-245 | the survivors are distinct and of the default duration |
| Flashcards.SurvivorsExactly | src/ui/flashcard.py:241-245 | a flashcard survives `update` exactly when its elapsed time is below its duration |
| Flashcards.SurvivorsInOrder | src/ui/flashcard.py:241-245 | the survivors keep their relative order |
| Flashcards.FlashcardManager.Clear | src/ui/flashcard.py:257-259 | the list becomes empty, and the queue invariant holds |
| Flashcards.FlashcardManager.HasActiveFlashcards | src/ui/flashcard.py:261-268 | true exactly when the list is non-empty |
| InputBoxes.InputBox.constructor | src/ui/components.py:25-46 | a new box is not focused, has the inactive colour and holds the given text |
| InputBoxes.Step | src/ui/components.py:48-76 | an event returns the text, changing nothing, exactly when it is Enter on a focused box; only a mouse press changes the focus or the colour; a press keeps the text and sets the colour the focus calls for |
| InputBoxes.InputBox.HandleEvent | src/ui/components.py:48-76 | the new state and the return value are exactly those of `Step` |
| InputBoxes.MouseFocus | src/ui/components.py:58-63 | a press inside toggles the focus, one outside removes it, and the colour follows; the text is kept and nothing is returned |
| InputBoxes.KeysIgnoredWhenInactive | src/ui/components.py:65-66 | keys change nothing and return nothing while the box is not focused |
| InputBoxes.FocusedKeys | src/ui/components.py:67-73 | while focused, Enter returns the text unchanged, Backspace drops the last character (none on empty text), and any other key appends its text only below 12 characters |
| InputBoxes.ReturnsOnlyOnEnter | src/ui/components.py:48-76 | an event returns something exactly when it is Enter on a focused box |
| InputBoxes.ColorShowsFocus | src/ui/components.py:58-63 | over any events, the colour is the active one exactly when the box is focused |
| InputBoxes.Run | src/ui/components.py:48-76 | events without a mouse press keep the focus and the colour; events of other kinds change nothing |
| InputBoxes.TextStaysBounded | src/ui/components.py:71-73 | with at most one character per key, text of at most 12 characters stays at most 12 |
| InputBoxes.LongUnicodeExceedsBound | src/ui/components.py:72-73 | a two-character key at 11 characters gives 13: the bound needs one character per key |

## Left out

- Rendering, fonts, geometry and colours on screen. The drawing parts of the graphical front end and the menu, settings, ranking, statistics and style screens are UI with no logic to state. `Board.__str__` (src/domain/board.py:75-81) is console output.
- `InputBox`: the hit test `rect.collidepoint` is an input boolean, and the rendered text surface (`txt_surface`) is not modelled.
- Floating-point visuals: particles, tweens, flip animations, colour interpolation, and the flashcard's alpha and scale easing.
- Word wrapping of flashcards depends on measured font widths.
- Audio (src/infrastructure/sound.py) is mixer and file I/O.
- `ScoreRepository._load_file` and `_save_file` are JSON file I/O. `stored` stands for the loaded list, and `SaveScore` reassigns it instead of writing the file.
- `datetime.now()` is a `date` parameter of `SaveScore`.
- The game manager's screen loop and event dispatch, the command-line entry point and the console front end are I/O plumbing.
- Caller bug, noted and not modelled: src/manager.py:94 builds `EmojiStrategy(theme=...)` before the `try` at :96. The menu's theme "Bandeiras" is not a THEMES key, so its ValueError escapes uncaught. `Strategies.NewEmojiStrategy` fails for it.
- The 1000 ms "hide after a mismatch" timer of the front end is a UI-loop concern. The engine only promises that NO_MATCH leaves both cards face-up.
- Elapsed game time and `get_time_formatted` have no implementation in the shown files.
- The static fact table (src/domain/facts.py) is content, with no algorithm.
- Randomness: no pseudo-random generator is modelled. The draws of `shuffle`, `sample` and `randint` are inputs, and every draw the generator could make is allowed.
- Strategies: they return `Face` values instead of `Card` objects. The board creates its card objects from faces.
- Boards.Board.NewWithLetters: requires at most 0xD800 - 65 pairs. Dafny characters exclude the surrogate range, which Python's `chr` does not.
- Service.GameService.PickCard: requires a board whose grid has its full shape. The constructor accepts any board, as the source does, but after `Board.reset` the source's `get_card` raises an IndexError inside `pick_card`; that case is modelled only at the board level (`Boards.ResetBoardIsWon`).
- Service.GameService.HideCards: requires a fully shaped board, for the same reason as `PickCard`.
- Flashcards.Flashcard.Alive: the float test `min(1.0, elapsed / duration) >= 1.0` is computed as the integer comparison `elapsed < duration`, and its contract ties it to exact real division for positive durations; floating-point rounding is not modelled. The manager always uses 5000. A zero duration (ZeroDivisionError) and negative durations are not modelled.
- Flashcards.FlashcardManager.Update: each flashcard's `update()` reads the clock separately, so the readings are one parameter per flashcard; the flashcard's own `is_active` flag is not modelled.
- Repository.SortDesc: `list.sort` (Timsort) is modelled as a stable insertion sort on a sequence, not as an in-place algorithm. A stable sort by one key has only one possible result, and `SortDescCorrect` and `SortStable` prove the model's result is that one.
- Scoring: a test-only layer over `Engine` outcomes, because the shown `GameService` has no score or combo. The fixture board is built directly as A A / B B, as the tests' mock strategy intends.
