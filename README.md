# multielo in Dafny

A model of the rating core of the `multielo` Python package, together with proofs about it:

- **`MultiElo.get_new_ratings`.** This is generalised multiplayer Elo. Each player's new rating is their old rating plus `k·(n−1)` times the gap between their actual and expected score:
  - the actual score comes from a validated score function and depends on finishing place;
  - the expected score is the player's summed pairwise win probabilities divided by `n(n−1)/2`.
- **`Player`.** A rating plus an append-only history of `(date, rating)` entries, with an as-of-date lookup.
- **`Tracker`.** A registry of players keyed by unique id, kept sorted by id. It works as follows:
  - it processes a table of matchups in date order;
  - it creates players on first appearance;
  - it rates each row with a `MultiElo` rater and records the new ratings with the row's date;
  - it reports standings and the dated history.

## Modules

| File | Module | Models |
|---|---|---|
| `wrappers.dfy` | `Wrappers` | `Option` and `Result`. A `Failure` stands for a `ValueError` raised in Python. |
| `sums.dfy` | `Sums` | Sums of real vectors and the element-wise numpy operations the update rule uses. |
| `multielo.dfy` | `MultiElo` | Pure functions over `real`. |
| `history.dfy` | `History` | The as-of-date lookup on a rating history. |
| `ids.dfy` | `PlayerIds` | The `player_id` column: Python's string order, the sorted column and the duplicate check. |
| `registry.dfy` | `Registry` | The tracker's players as a map from id to `PlayerState`, and `process_data` as functions over that map (see below). |
| `player_tracker.dfy` | `PlayerTracker` | The classes `Player` and `Tracker` (see below). |

More on the two larger modules:

- **`MultiElo`.** The logistic curve is not modelled. In its place the rater carries an arbitrary win-probability function `P`, with the divisor `d` folded in. The proofs assume only what the curve guarantees (`Logistic`): `P(x) + P(−x) = 1` and `0 < P(x) < 1`. The score function is also a parameter, and it is checked at every call exactly as `_validate_actual_scores` checks it.
- **`Registry`.** Beyond the player map and `process_data`, it holds the two reports and the lemmas about games played, date order and the rating total.
- **`PlayerTracker`.**
  - `Player` keeps `rating` and `ratingHistory` as fields updated in place.
  - `Tracker` keeps the id column as a `seq<string>` and the player column as a `map<string, Player>`.
  - Every method is proved to change the players exactly as the `Registry` function for that operation says. `Tracker.Model()` gives the players as values. `ProcessData`'s loop is proved against `Registry.Process`.

## Model

| member | source | states |
|---|---|---|
| MultiElo.ValidateActualScores | multielo/multielo.py:79-86 | Each outcome holds exactly when its checks say so: NotSummingToOne iff the sum is not close to 1; MinimumNotZero iff the sum is close but the minimum is not 0; NotDecreasing iff those pass but the vector is not strictly decreasing (then some neighbour pair does not drop); success iff all three pass. A passing vector has at least two entries, starts above 0, ends in 0 and has no negative entry. |
| MultiElo.AllClose | multielo/multielo.py:81 | `numpy.allclose(a, b)` on scalars: abs(a − b) ≤ 1e-8 + 1e-5·abs(b), the tolerance taken relative to the second argument, which the source's calls `np.allclose(1, sum(..))` make the sum. It has no contract of its own; `ValidateActualScores` and `ExpectedScores` state their outcomes in terms of it. |
| MultiElo.ActualScores | multielo/multielo.py:65-77 | Succeeds exactly when the score function's vector for n passes validation, and then returns that vector. |
| MultiElo.PairwiseMatrix | multielo/multielo.py:103-108 | Builds an n×n matrix with a zero diagonal. Under the logistic assumptions, opposite entries sum to 1. |
| MultiElo.ComplementaryTotal | multielo/multielo.py:110-113 | The entries of such a matrix add up to the number of head-to-head pairs. |
| MultiElo.PairsProduct | multielo/multielo.py:113 | The pair count equals n(n−1)/2. |
| MultiElo.ScaleFactor | multielo/multielo.py:62 | `self.k * (n - 1)`. It has no contract of its own; `ScaleFactorPositive` is used for its sign. |
| MultiElo.Adjusted | multielo/multielo.py:63 | `initial_ratings + scale_factor * (actual_scores − expected_scores)`, element by element through `Change`. It has no contract of its own; `SumAdjusted`, `AdjustedTotal`, `AdjustedOrder` and `AdjustedLoss` state its properties. |
| MultiElo.Change | multielo/multielo.py:63 | One player's term `scale_factor * (actual − expected)`. It has no contract of its own; `AdjustedOrder` and `AdjustedLoss` give its order and sign. |
| MultiElo.ExpectedScores | multielo/multielo.py:88-119 | On success, returns one score per player, at least two players, with a sum allclose to 1. |
| MultiElo.GetNewRatings | multielo/multielo.py:57-63 | On success, returns one new rating per player, at least two players, and the score vector for n passed validation. |
| MultiElo.ExpectedScoresSumToOne | multielo/multielo.py:110-118 | For two or more players the expected scores sum to exactly 1, so the final check never raises. |
| MultiElo.ExpectedScoresPositive | multielo/multielo.py:106-114 | Every expected score is strictly positive. |
| MultiElo.RowSumPositive | multielo/multielo.py:103-110 | With at least one opponent, a player's summed win probabilities are strictly positive. |
| MultiElo.ExpectedScoresReversed | multielo/multielo.py:103-114 | Reversing the ratings reverses the expected scores, and fails exactly when the original fails. |
| MultiElo.EvenOdds | multielo/multielo.py:107 | P(0) = 1/2. |
| MultiElo.ExpectedScoresEqualRatings | multielo/multielo.py:103-114 | With all ratings equal, every expected score is exactly 1/n. |
| MultiElo.GetNewRatingsSucceeds | multielo/multielo.py:59-86 | Under the logistic assumptions, the update succeeds exactly when the score vector validates and has one entry per player. |
| MultiElo.ExpectedScoreAt | multielo/multielo.py:103-114 | Player i's expected score is the sum of P(r_j − r_i) over the n − 1 opponents j ≠ i, taken directly from the ratings rather than from the matrix, over the pair count (n(n−1)/2 by `PairsProduct`). |
| MultiElo.SumAdjusted | multielo/multielo.py:63 | The adjusted vector's total is the old total plus the scale times (Σactual − Σexpected). |
| MultiElo.AdjustedTotal | multielo/multielo.py:63 | With expected scores summing to 1, the total changes by `Drift`, which is scale·(Σactual − 1). |
| MultiElo.RatingChangesSum | multielo/multielo.py:59-63 | The new-rating total is the old total plus `Drift`, which is k(n−1)·(Σscores − 1). |
| MultiElo.ZeroSum | multielo/multielo.py:59-63 | When the scores sum to exactly 1, the update is zero-sum. |
| MultiElo.TwoEqualPlayers | tests/test_elo.py:31-34 | With K = 32 and scores [1, 0], the ratings [1000, 1000] get expected scores [0.5, 0.5] and new ratings [1016, 984], exactly. |
| MultiElo.EqualRatingsMonotoneDeltas | multielo/multielo.py:59-86 | With equal ratings and K > 0, the rating change strictly decreases with finishing place, and last place loses points. |
| MultiElo.AdjustedOrder | multielo/multielo.py:63 | A larger actual score against the same expected score earns the larger change. |
| MultiElo.AdjustedLoss | multielo/multielo.py:63 | Scoring below expectation lowers the rating. |
| History.Pick | multielo/player_tracker.py:70-81 | Returns None exactly when no dated entry is on or before q; otherwise returns the index of the chosen entry. |
| History.ChosenUnique | multielo/player_tracker.py:72-77 | At most one entry is chosen: latest qualifying date, then highest rating, then first appended. |
| History.RatingAsOf | multielo/player_tracker.py:55-81 | Returns the chosen entry's rating, or the default when no entry qualifies. |
| History.AppendLatest | multielo/player_tracker.py:76-81 | An entry dated after every earlier one is the answer from its date on. |
| History.AppendAfter | multielo/player_tracker.py:76-79 | An entry dated after q does not change the answer at q. |
| History.AppendUndated | multielo/player_tracker.py:76-79 | An entry without a date, as a matchup without a date appends, never changes the answer. |
| History.MonthlyUpdatesEarly | tests/test_player_tracker.py:38-44 | A player created at 900 on 2020-01-01 reads the default on 2019-12-31 and 900 on 2020-01-15. |
| History.MonthlyUpdatesLate | tests/test_player_tracker.py:45-46 | After monthly updates, 2020-02-15 reads 1100 and 2020-03-15 reads 1200. |
| History.SuppliedHistory | tests/test_player_tracker.py:25-29 | A supplied history [(1, 1000), (2, 1100)] reads 1000 at date 1 and 1100 at date 2. |
| History.SameDateHigherRatingWins | multielo/player_tracker.py:72-74 | Of two entries on the same date, the higher rating is returned even though it was appended first. |
| PlayerIds.LexLessTotal | multielo/player_tracker.py:268 | Python's string order is total. |
| PlayerIds.Insert | multielo/player_tracker.py:255-257 | Adding a new id to a sorted column gives a sorted column holding the old ids plus the new one. |
| PlayerIds.SortIds | multielo/player_tracker.py:268 | Sorting a column without duplicates yields a strictly sorted permutation of it. |
| PlayerIds.SortedColumnUnique | multielo/player_tracker.py:268 | Two strictly sorted columns with the same ids are equal, so any correct sort gives the same column. |
| PlayerIds.ValidateIds | multielo/player_tracker.py:261-268 | Fails exactly when the ids have a duplicate; otherwise returns them sorted, as a permutation. |
| PlayerIds.InsertValidated | multielo/player_tracker.py:255-257 | Concatenating a new id and validating yields the insertion of the id at its sorted place. |
| Registry.UpdateCounts | multielo/player_tracker.py:83-98 | A fresh player has 0 games. An update adds one game, keeps the earlier history and ends it with the new rating. |
| Registry.Fresh | multielo/player_tracker.py:35-39 | `Player(player_id, rating=initial)` as a value: the initial rating and one undated entry. It has no contract of its own; `UpdateCounts` gives its game count. |
| Registry.Update | multielo/player_tracker.py:43-53 | `update_rating` as a value: the new rating, with `(date, rating)` appended to the history. It has no contract of its own; `UpdateCounts` states its effect. |
| Registry.Present | multielo/player_tracker.py:176 | A row's ids, missing cells skipped: each id as often as it fills a place. |
| Registry.PresentInOrder | multielo/player_tracker.py:176 | The ids come out in finishing order: the k-th id is the one in the k-th filled place of the row, and every filled place gives one. |
| Registry.BlankHasNoIds | multielo/player_tracker.py:173 | A row is all-missing exactly when it names nobody. |
| Registry.DropBlank | multielo/player_tracker.py:173 | Removes exactly the blank rows; the rest stay. |
| Registry.DropBlankInOrder | multielo/player_tracker.py:173 | The kept rows stay in their order: the k-th row left is the k-th row with a filled place. |
| Registry.SortByDate | multielo/player_tracker.py:171 | Returns a permutation of the rows in non-decreasing date order, rows without a date after every dated row (`DateLe`). |
| Registry.SortByDateUndatedLast | multielo/player_tracker.py:171 | Rows without a date end up after the sorted dated rows, in the order they were given, as pandas places missing values last. |
| Registry.InsertByDateLast | multielo/player_tracker.py:171 | A row dated no earlier than all the sorted rows is placed after them. |
| Registry.SortByDateSorted | multielo/player_tracker.py:171 | Rows already in date order come back unchanged. |
| Registry.SortedUnique | multielo/player_tracker.py:171 | When no two rows share a date, two date-ordered arrangements of the same rows are the same sequence. |
| Registry.Resolve | multielo/player_tracker.py:176 | Adds exactly the row's missing ids as fresh players, and nobody already present changes. |
| Registry.Ratings | multielo/player_tracker.py:177 | The ratings of the row's players, in finishing order. |
| Registry.Record | multielo/player_tracker.py:179-180 | Recording new ratings keeps the set of players. |
| Registry.ApplyMatchup | multielo/player_tracker.py:175-180 | One loop iteration: creates the players the row names, rates them in finishing order, and records the ratings; on a rater error the created players stay. It has no contract of its own; `ApplyMatchupHistory` and `ApplyMatchupTotal` state its properties. |
| Registry.Run | multielo/player_tracker.py:174-180 | The loop over the rows, stopping at the first error. It has no contract of its own; `RunStopped`, `RunHistory`, `RunPlayers` and `RunTotal` state its properties. |
| Registry.Process | multielo/player_tracker.py:171-180 | Sorts by date, drops blank rows and runs the loop. It has no contract of its own; `ProcessGames`, `ProcessDatesAscending` and `ProcessMeanRating` state its properties. |
| Registry.RunStopped | multielo/player_tracker.py:174-180 | Once a row fails, later rows change nothing. |
| Registry.RecordHistory | multielo/player_tracker.py:179-180 | Each player gets one entry dated on the row's date per place it fills; the earlier history is kept. |
| Registry.RecordRatings | multielo/player_tracker.py:179-180 | With distinct ids, each listed player ends at its new rating, and unlisted players are unchanged. |
| Registry.ApplyMatchupHistory | multielo/player_tracker.py:174-180 | One matchup extends each named player's history by its appearances, dated on the row's date. |
| Registry.RunHistory | multielo/player_tracker.py:174-180 | A run without error extends each history by one dated entry per appearance, in processing order. |
| Registry.RunPlayers | multielo/player_tracker.py:174-180 | After a run without error, the players are those before plus those the rows name. |
| Registry.AppearancesPermutation | multielo/player_tracker.py:171 | Reordering the rows does not change anyone's appearance count. |
| Registry.AppearancesDropBlank | multielo/player_tracker.py:173 | Dropping blank rows does not change anyone's appearance count. |
| Registry.ProcessGames | multielo/player_tracker.py:171-180 | After processing without error, games played = games before + appearances in the table. A player exists iff it existed or appears. |
| Registry.ProcessPresorted | multielo/player_tracker.py:171-180 | Handing `process_data` rows that are already sorted by date gives the same result as handing them in any order. |
| Registry.ProcessReordered | multielo/player_tracker.py:171-180 | When no two rows share a date, any two orderings of the same rows give the same players and the same error. |
| Registry.DropBlankSorted | multielo/player_tracker.py:171-173 | Dropping blank rows keeps the date order. |
| Registry.AppearanceDatesAscending | multielo/player_tracker.py:171-180 | Date-sorted rows add history dates in non-decreasing order (missing dates last), none later than the last row's. |
| Registry.ProcessDatesAscending | multielo/player_tracker.py:171-180 | Processing appends to each history the dates of that player's matchups, in non-decreasing order, missing dates last. |
| Registry.ResolveTotal | multielo/player_tracker.py:176 | Creating players adds the initial rating once per new player to the rating total. |
| Registry.RecordTotal | multielo/player_tracker.py:179-180 | Recording new ratings for distinct players replaces their ratings in the total. |
| Registry.ApplyMatchupTotal | multielo/player_tracker.py:174-180 | Under a conserving rater with distinct ids in the row, a matchup changes the total only by the initial ratings of new players, whether the rater succeeds or fails. |
| Registry.RunTotal | multielo/player_tracker.py:174-180 | The same over a run of rows. |
| Registry.ProcessMeanRating | multielo/player_tracker.py:171-180 | Starting with no players, a conserving rater leaves a total of (number of players) × initial rating. |
| Registry.DistinctPlacesKept | multielo/player_tracker.py:171-173 | Sorting and dropping blank rows keep each row free of repeated ids. |
| Registry.Lines | multielo/player_tracker.py:195-197 | One line per id: id, games played, rating. |
| Registry.SortByRating | multielo/player_tracker.py:198 | Returns a permutation of the lines in non-increasing rating order. |
| Registry.CurrentRatings | multielo/player_tracker.py:195-201 | One row per id, ranks exactly 1..N, ratings non-increasing by rank, and the rows are a permutation of the players' lines. |
| Registry.DatedRows | multielo/player_tracker.py:219-221 | One player's dated history entries as rows, in history order. It has no contract of its own; the next two lemmas state it. |
| Registry.DatedRowsMembers | multielo/player_tracker.py:219-221 | A row is among a player's rows iff it names that player and is a dated entry of the history. |
| Registry.DatedRowsInOrder | multielo/player_tracker.py:219-221 | One row per dated entry, in history order: the k-th row is the k-th dated entry. |
| Registry.HistoryRowsMembers | multielo/player_tracker.py:210-224 | A row is in the report iff some player in the id column holds the row's id (`player.id`, line 221) and has the row as one of its dated entries. |
| Registry.HistoryRowsOwnIds | multielo/player_tracker.py:210-224 | When every player holds the id it is filed under, a row is in the report iff its id is in the column and the row is one of that player's dated entries. |
| Registry.HistoryRowsSingle | multielo/player_tracker.py:213-222 | The report for one player is that player's dated rows, labelled with the id the player holds. |
| Registry.HistoryRowsAppend | multielo/player_tracker.py:213-222 | The report goes player by player in column order: the rows for a longer column are those for its first part followed by those for the rest. |
| Registry.EloRateKeepsShape | multielo/multielo.py:59-63 | The MultiElo rater returns one rating per player. |
| Registry.EloRateConserves | multielo/multielo.py:59-63 | A MultiElo rater whose valid scores sum to exactly 1 conserves the rating total. |
| Registry.EloMeanRating | multielo/player_tracker.py:171-180 | Starting with no players and using such a rater, the players' mean rating is the initial rating. |
| Registry.ProcessedRoster | multielo/player_tracker.py:171-180 | Starting with no players, processing registers exactly the ids that appear, each with one game per appearance. |
| Registry.FamilyAppearances | tests/test_player_tracker.py:12-17 | In the test table, Homer fills 3 places and Marge, Bart and Lisa 2 each. |
| Registry.FamilyNames | tests/test_player_tracker.py:12-17 | The test table names exactly the four players. |
| Registry.FamilyDistinct | tests/test_player_tracker.py:12-17 | No row of the test table names a player twice. |
| Registry.FamilyTableTracked | tests/test_player_tracker.py:62-75 | Processing the test table from no players gives exactly four players with 3, 2, 2 and 2 games and a mean rating of 1000. |
| PlayerTracker.Player.constructor | multielo/player_tracker.py:35-41 | Without a history, the player starts with the one entry (date, rating) and 0 games. A supplied history is kept as given, and the rating is the one passed in. |
| PlayerTracker.Player.UpdateRating | multielo/player_tracker.py:43-53 | Sets the rating, appends exactly (date, rating), and counts one more game. |
| PlayerTracker.Player.UpdateRatingHistory | multielo/player_tracker.py:89-98 | Appends exactly one entry and leaves the rating alone. |
| PlayerTracker.Player.RatingAsOfDate | multielo/player_tracker.py:55-81 | The chosen entry's rating, or the default when no dated entry is on or before the date. |
| PlayerTracker.Column | multielo/player_tracker.py:150-154 | The player column keyed by id: exactly the column's ids, each mapped to its own player. |
| PlayerTracker.RosterRatings | multielo/player_tracker.py:177 | The current ratings of the roster, in order. |
| PlayerTracker.Tracker.constructor | multielo/player_tracker.py:147-154 | Stores the rater, the initial rating and the columns, and establishes the tracker invariant. |
| PlayerTracker.Tracker.Create | multielo/player_tracker.py:129-154 | No player table means no players. Duplicate ids fail. Otherwise the ids are sorted and each maps to its player. |
| PlayerTracker.Tracker.RetrieveExistingPlayer | multielo/player_tracker.py:226-240 | Returns the player under the id, and fails with PlayerNotFound exactly when the id is absent. |
| PlayerTracker.Tracker.CreateNewPlayer | multielo/player_tracker.py:248-259 | An existing id fails and changes nothing. Otherwise a fresh player at the initial rating, holding that id, joins, and its id is inserted into the sorted column. If every player held its own id before, every player still does. |
| PlayerTracker.AppendId | multielo/player_tracker.py:255-257 | Appending a new id to the sorted column and re-validating inserts it in order. The column stays strictly sorted and holds exactly the old ids plus the new one. |
| PlayerTracker.Tracker.AppendPlayer | multielo/player_tracker.py:255-257 | Adds the player under the new id, inserts the id into the sorted column, and keeps the tracker invariant. |
| PlayerTracker.Tracker.GetOrCreatePlayer | multielo/player_tracker.py:242-246 | Returns the existing player unchanged, or creates exactly one fresh player that holds the id. If every player held its own id before, every player still does. |
| PlayerTracker.Tracker.GetOrCreatePlayers | multielo/player_tracker.py:176 | Returns the row's players in finishing order and changes the players as Resolve does. |
| PlayerTracker.Tracker.UpdateRoster | multielo/player_tracker.py:179-180 | Changes the players as Record does. |
| PlayerTracker.Tracker.UpdatePlayer | multielo/player_tracker.py:180 | Updating one roster player changes that id's entry in the model as Update does, and no other player, because distinct ids hold distinct player objects. |
| PlayerTracker.Tracker.ProcessMatchup | multielo/player_tracker.py:174-180 | Changes the players, and reports the error, as ApplyMatchup does. |
| PlayerTracker.Tracker.ProcessData | multielo/player_tracker.py:159-180 | Changes the players, and reports the error, as Process does. The tracker invariant is kept, and if every player held its own id before, every player still does, since the players it creates hold their ids. |
| PlayerTracker.Tracker.CurrentRatings | multielo/player_tracker.py:188-201 | One row per registered player, ranks exactly 1..N, ratings non-increasing, and the rows are a permutation of the players. |
| PlayerTracker.Player.CountGames | multielo/player_tracker.py:83-87 | The number of history entries after the first. It has no contract of its own; `Registry.UpdateCounts` states the count it gives. |
| PlayerTracker.Player.Eq | multielo/player_tracker.py:106-107 | `__eq__`: the rating equals `other`. It has no contract of its own; `Tracker.StandingsCompare` states it on the standings. |
| PlayerTracker.Player.Lt | multielo/player_tracker.py:109-110 | `__lt__`: the rating is below `other`. It has no contract of its own; `Tracker.StandingsCompare` states it on the standings. |
| PlayerTracker.Player.Le | multielo/player_tracker.py:112-113 | `__le__`: the rating is at most `other`. It has no contract of its own; `Tracker.StandingsCompare` states it on the standings. |
| PlayerTracker.Player.Gt | multielo/player_tracker.py:115-116 | `__gt__`: the rating is above `other`. It has no contract of its own; `Tracker.StandingsCompare` states it on the standings. |
| PlayerTracker.Player.Ge | multielo/player_tracker.py:118-119 | `__ge__`: the rating is at least `other`. It has no contract of its own; `Tracker.StandingsCompare` states it on the standings. |
| PlayerTracker.Tracker.StandingsCompare | multielo/player_tracker.py:106-119 | The standings agree with the `Player` operators: for any two rows, both players are tracked, and the upper row's player is `>=`, is `>` or `==`, and is not `<` the lower one, which is `<=` the upper one. |
| PlayerTracker.Tracker.StandingIsPlayer | multielo/player_tracker.py:195-198 | Every standings row shows a tracked player and that player's current rating. |
| PlayerTracker.Tracker.HistoryDf | multielo/player_tracker.py:203-224 | A row is in the report iff some registered player holds the row's id (`player.id`, not the column key) and has the row as one of its dated history entries. |
| PlayerTracker.Tracker.HistoryDfOwnIds | multielo/player_tracker.py:203-224 | When every player holds the id it is filed under, as every player the tracker creates does, a row is in the report iff its id is registered and the row is one of that player's dated entries. |

## Left out

- **Not modelled at all:**
  - the logistic curve `1 / (1 + 10 ** (x / d))` and all floating-point rounding;
  - the default configuration values and the exponential score-function factory. The score function is a parameter. The tests' exact float results (Homer's 977.48… and the like) depend on the real exponential and are not reproduced.
- **Side effects:** logging and the missing-date warning in `get_history_df`, `__str__` / `__repr__`, and the `isinstance` checks on ratings and player objects.
- **Dates** are integers (yyyymmdd in the test tables). A missing date is `None`, in a history entry and in a matchup row. Dates compare as numbers, and for ISO date strings that order matches the string order.
  - a matchup row without a date is sorted after every dated row, in input order (`Registry.DateLe`, `Registry.SortByDateUndatedLast`), as `sort_values` places NaN last;
  - it is still rated and counted, and its players get an undated entry, which the as-of lookup (`History.AppendUndated`) and the history report skip, as Python's NaN does.
- **Ties in sorting:**
  - pandas' default `sort_values` is not stable;
  - the model's date and rating sorts are stable, so among rows with equal dates the model processes rows in input order;
  - on equal dates that order matters: a history's entry order, the as-of lookup on a date with several entries, and the final ratings follow input order in the model (`PlayerTracker.Tracker.ProcessData` is proved equal to `Registry.Process`, which uses the stable sort), and pandas may process those rows in another order;
  - so processing rows out of date order gives the same result as processing them sorted only where no two rows share a date: `Registry.ProcessReordered` states that case, and `Registry.ProcessPresorted` states that pre-sorting by date changes nothing;
  - the standings' contracts assert no order among equal ratings;
  - the id sort has no ties (`PlayerIds.SortedColumnUnique`).
- **The `date_col` argument** of `process_data` is left out. The date is a field of `Matchup`.
- **`PlayerTracker.Tracker.Create`:**
  - requires a supplied `player_df` to hold a different `Player` object in each row;
  - the same object under two ids, which Python allows, is not modelled.
- **`History.RatingAsOf`:** follows the code, not the docstring. On a date with several entries, it returns the highest rating, first appended on equal ratings (`rank(method="first", ascending=False)`). The docstring says "the one corresponding to a game result".
- **`MultiElo.ZeroSum`:**
  - assumes the scores sum to exactly 1, whereas `_validate_actual_scores` accepts sums allclose to 1;
  - `MultiElo.RatingChangesSum` gives the drift when they do not.
- **`MultiElo.ExpectedScores`:**
  - with fewer than two players, numpy divides 0 by 0 and the final allclose check raises;
  - the model fails there directly, so a row naming a single player stops `process_data` with an error.
- **The rater is a function value:** `Registry.ProcessMeanRating` and the other `Registry` lemmas take any rater that returns one rating per player (`KeepsShape`). `Registry.EloRateKeepsShape` shows that MultiElo is one.
- **`Registry.ProcessMeanRating`:** requires no id to fill two places of the same row. Python would then update that player twice with two different ratings.
- **`PlayerTracker.Tracker.HistoryDf`:** states which rows the report holds, not their order or multiplicity. Order and multiplicity are stated on `Registry.HistoryRows` (`Registry.HistoryRowsSingle`, `Registry.HistoryRowsAppend`, `Registry.DatedRowsInOrder`), the function it returns.
- **A supplied `rating_history`:** Python keeps the caller's list by reference, so `update_rating` also appends to the caller's list. `PlayerTracker.Player.constructor` copies the history as a value, so that aliasing is not modelled.
- **`PlayerTracker.Player.CountGames` and the comparison predicates** have no contracts of their own. `Registry.UpdateCounts` states the game count. `PlayerTracker.Tracker.StandingsCompare` ties `==`, `<`, `<=`, `>` and `>=` to the standings.
