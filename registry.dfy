/** The tracker's players as values: what `Tracker.process_data` does to the
    players of `player_df`, written as functions of the player map, together
    with the two reports `get_current_ratings` and `get_history_df`. The
    classes in module PlayerTracker are proved to follow these functions. */
module Registry {
  import opened Wrappers
  import opened Sums
  import opened History
  import opened PlayerIds
  import opened MultiElo

  /** A player's current rating and rating history. */
  datatype PlayerState = PlayerState(rating: real, history: seq<Entry>)

  /** The `player` column of `player_df`, keyed by `player_id`. */
  type Players = map<string, PlayerState>

  /** `Player.count_games`. */
  function Games(s: PlayerState): int
  {
    |s.history| - 1
  }

  /** `Player(player_id, rating=initial)`: no history given, so the history
      starts with one undated entry at the initial rating. */
  function Fresh(initial: real): PlayerState
  {
    PlayerState(initial, [Entry(None, initial)])
  }

  /** `Player.update_rating(rating, date)`. */
  function Update(s: PlayerState, rating: real, date: Option<int>): PlayerState
  {
    PlayerState(rating, s.history + [Entry(date, rating)])
  }

  /** A fresh player has played no game; each update counts one more game,
      keeps the earlier history and makes the new rating the last entry. */
  lemma UpdateCounts(s: PlayerState, rating: real, date: Option<int>)
    ensures Games(Fresh(rating)) == 0
    ensures Games(Update(s, rating, date)) == Games(s) + 1
    ensures Extends(s.history, Update(s, rating, date).history, [date])
    ensures Update(s, rating, date).history[|s.history|].rating == Update(s, rating, date).rating
  {
  }

  /** `after` is `before` followed by entries with the given dates. */
  ghost predicate Extends(before: seq<Entry>, after: seq<Entry>, dates: seq<Option<int>>)
  {
    && |after| == |before| + |dates|
    && after[..|before|] == before
    && (forall j :: 0 <= j < |dates| ==> after[|before| + j].date == dates[j])
  }

  lemma ExtendsTransitive(a: seq<Entry>, b: seq<Entry>, c: seq<Entry>, d1: seq<Option<int>>, d2: seq<Option<int>>)
    requires Extends(a, b, d1) && Extends(b, c, d2)
    ensures Extends(a, c, d1 + d2)
  {
    assert c[..|a|] == b[..|a|];
    forall j | 0 <= j < |d1 + d2|
      ensures c[|a| + j].date == (d1 + d2)[j]
    {
      if j < |d1| {
        assert c[|a| + j] == b[|a| + j];
      } else {
        assert c[|a| + j] == c[|b| + (j - |d1|)];
      }
    }
  }

  lemma ExtendsNothing(h: seq<Entry>)
    ensures Extends(h, h, [])
  {
  }

  /** The player `id` as the tracker would have it: its state if present,
      otherwise the state a first appearance creates. */
  function Initial(m: Players, id: string, initial: real): PlayerState
  {
    if id in m then m[id] else Fresh(initial)
  }

  // ---------------------------------------------------------------------
  // The matchup table

  /** One row of `matchup_history_df`: the date and one cell per finishing
      place, first to last; a missing date or cell is `None`. */
  datatype Matchup = Matchup(date: Option<int>, placements: seq<Option<string>>)

  /** The ids of a row in finishing order, missing cells skipped. */
  function Present(placements: seq<Option<string>>): (ids: seq<string>)
    ensures forall id {:trigger multiset(ids)[id]} :: multiset(ids)[id] == multiset(placements)[Some(id)]
  {
    if placements == [] then []
    else
      var n := |placements| - 1;
      assert placements == placements[..n] + [placements[n]];
      var rest := Present(placements[..n]);
      match placements[n]
      case None => rest
      case Some(id) => rest + [id]
  }

  /** The indices of `s` whose element `keep` accepts, in increasing order. */
  function Positions<T>(s: seq<T>, keep: T -> bool): (r: seq<nat>)
    ensures forall k :: 0 <= k < |r| ==> r[k] < |s| && keep(s[r[k]])
    ensures forall k, l :: 0 <= k < l < |r| ==> r[k] < r[l]
    ensures forall i :: 0 <= i < |s| && keep(s[i]) ==> i in r
  {
    if s == [] then []
    else
      var n := |s| - 1;
      var rest := Positions(s[..n], keep);
      assert forall k :: 0 <= k < |rest| ==> s[rest[k]] == s[..n][rest[k]];
      assert forall i :: 0 <= i < n ==> s[i] == s[..n][i];
      if keep(s[n]) then rest + [n] else rest
  }

  /** A place of a row that names a player. */
  predicate Filled(cell: Option<string>)
  {
    cell.Some?
  }

  /** `Present` keeps finishing order: its k-th id is the one in the k-th
      filled place of the row. */
  lemma {:induction false} PresentInOrder(placements: seq<Option<string>>)
    ensures |Present(placements)| == |Positions(placements, Filled)|
    ensures forall k :: 0 <= k < |Present(placements)| ==>
      placements[Positions(placements, Filled)[k]] == Some(Present(placements)[k])
  {
    if placements != [] {
      var n := |placements| - 1;
      assert placements == placements[..n] + [placements[n]];
      PresentInOrder(placements[..n]);
    }
  }

  /** Every place of the row is missing. */
  predicate Blank(m: Matchup)
  {
    forall i :: 0 <= i < |m.placements| ==> m.placements[i].None?
  }

  lemma {:induction false} BlankHasNoIds(m: Matchup)
    ensures Blank(m) <==> Present(m.placements) == []
  {
    if !Blank(m) {
      var i :| 0 <= i < |m.placements| && m.placements[i].Some?;
      assert m.placements[i] in multiset(m.placements);
      assert multiset(Present(m.placements))[m.placements[i].value] > 0;
    }
  }

  /** `dropna(how="all", subset=place_cols)`: blank rows go, the others keep
      their order. */
  function DropBlank(rows: seq<Matchup>): (r: seq<Matchup>)
    ensures forall m :: multiset(r)[m] == if Blank(m) then 0 else multiset(rows)[m]
    ensures forall i :: 0 <= i < |r| ==> !Blank(r[i])
  {
    if rows == [] then []
    else
      var n := |rows| - 1;
      assert rows == rows[..n] + [rows[n]];
      var rest := DropBlank(rows[..n]);
      if Blank(rows[n]) then rest else rest + [rows[n]]
  }

  /** A row that `dropna` keeps: some place of it is filled. */
  predicate Kept(m: Matchup)
  {
    !Blank(m)
  }

  /** `DropBlank` keeps row order: its k-th row is the k-th row with a
      filled place. */
  lemma {:induction false} DropBlankInOrder(rows: seq<Matchup>)
    ensures |DropBlank(rows)| == |Positions(rows, Kept)|
    ensures forall k :: 0 <= k < |DropBlank(rows)| ==> DropBlank(rows)[k] == rows[Positions(rows, Kept)[k]]
  {
    if rows != [] {
      var n := |rows| - 1;
      assert rows == rows[..n] + [rows[n]];
      DropBlankInOrder(rows[..n]);
    }
  }

  /** The order `sort_values` puts dates in: dated rows by date, rows
      without a date after all of them. */
  predicate DateLe(a: Option<int>, b: Option<int>)
  {
    b.None? || (a.Some? && a.value <= b.value)
  }

  predicate SortedByDate(rows: seq<Matchup>)
  {
    forall i, j :: 0 <= i < j < |rows| ==> DateLe(rows[i].date, rows[j].date)
  }

  /** Places a row after every row with the same or an earlier date. */
  function InsertByDate(rows: seq<Matchup>, m: Matchup): (r: seq<Matchup>)
    requires SortedByDate(rows)
    ensures SortedByDate(r)
    ensures multiset(r) == multiset(rows) + multiset{m}
  {
    if rows == [] then [m]
    else if !DateLe(rows[0].date, m.date) then [m] + rows
    else
      var rest := InsertByDate(rows[1..], m);
      InsertByDateAfter(rows, m, rest);
      [rows[0]] + rest
  }

  lemma InsertByDateAfter(rows: seq<Matchup>, m: Matchup, rest: seq<Matchup>)
    requires SortedByDate(rows) && rows != [] && DateLe(rows[0].date, m.date)
    requires SortedByDate(rest) && multiset(rest) == multiset(rows[1..]) + multiset{m}
    ensures SortedByDate([rows[0]] + rest)
    ensures multiset([rows[0]] + rest) == multiset(rows) + multiset{m}
  {
    assert rows == [rows[0]] + rows[1..];
    forall j | 0 <= j < |rest|
      ensures DateLe(rows[0].date, rest[j].date)
    {
      assert rest[j] in multiset(rest);
      if rest[j] != m {
        assert rest[j] in rows[1..];
      }
    }
  }

  /** `sort_values(date_col)`. Rows sharing a date keep their order here;
      pandas' default sort does not promise that. */
  function SortByDate(rows: seq<Matchup>): (r: seq<Matchup>)
    ensures SortedByDate(r)
    ensures multiset(r) == multiset(rows)
  {
    if rows == [] then []
    else
      var n := |rows| - 1;
      assert rows == rows[..n] + [rows[n]];
      InsertByDate(SortByDate(rows[..n]), rows[n])
  }

  /** A row dated no earlier than every row goes last. */
  lemma {:induction false} InsertByDateLast(rows: seq<Matchup>, m: Matchup)
    requires SortedByDate(rows)
    requires forall i :: 0 <= i < |rows| ==> DateLe(rows[i].date, m.date)
    ensures InsertByDate(rows, m) == rows + [m]
  {
    if rows != [] {
      InsertByDateLast(rows[1..], m);
      assert [rows[0]] + (rows[1..] + [m]) == rows + [m];
    }
  }

  /** Sorting rows already in date order leaves them as they are. */
  lemma {:induction false} SortByDateSorted(rows: seq<Matchup>)
    requires SortedByDate(rows)
    ensures SortByDate(rows) == rows
  {
    if rows != [] {
      var n := |rows| - 1;
      SortByDateSorted(rows[..n]);
      InsertByDateLast(rows[..n], rows[n]);
      assert rows[..n] + [rows[n]] == rows;
    }
  }

  /** Rows without a date go after every dated row and keep the order they
      were given in: sorting rows followed by undated ones sorts only the
      former. */
  lemma {:induction false} SortByDateUndatedLast(rows: seq<Matchup>, undated: seq<Matchup>)
    requires forall i :: 0 <= i < |undated| ==> undated[i].date.None?
    ensures SortByDate(rows + undated) == SortByDate(rows) + undated
  {
    if undated == [] {
      assert rows + undated == rows;
    } else {
      var n := |undated| - 1;
      var sorted := SortByDate(rows) + undated[..n];
      SplitLast(rows, undated);
      SplitLast(SortByDate(rows), undated);
      assert SortByDate(rows + undated[..n]) == sorted by {
        SortByDateUndatedLast(rows, undated[..n]);
      }
      InsertByDateLast(sorted, undated[n]);
    }
  }

  /** Taking the last element off `x + y`, for `y` not empty. */
  lemma SplitLast<T>(x: seq<T>, y: seq<T>)
    requires y != []
    ensures (x + y)[..|x + y| - 1] == x + y[..|y| - 1]
    ensures (x + y)[|x + y| - 1] == y[|y| - 1]
    ensures (x + y[..|y| - 1]) + [y[|y| - 1]] == x + y
  {
    assert y[..|y| - 1] + [y[|y| - 1]] == y;
  }

  /** No two rows share a date, and no row occurs twice. */
  predicate OneRowPerDate(rows: seq<Matchup>)
  {
    forall r, r' :: r in multiset(rows) && r' in multiset(rows) && r.date == r'.date ==>
      r == r' && multiset(rows)[r] == 1
  }

  /** With one row per date there is only one date order of a set of rows. */
  lemma {:induction false} SortedUnique(a: seq<Matchup>, b: seq<Matchup>)
    requires SortedByDate(a) && SortedByDate(b)
    requires multiset(a) == multiset(b) && OneRowPerDate(a)
    ensures a == b
  {
    if a == [] {
      assert |b| == |multiset(b)| == 0;
    } else {
      SortedHeads(a, b);
      SortedTails(a, b);
      OneRowPerDateTail(a);
      SortedUnique(a[1..], b[1..]);
      SameHeadAndTail(a, b);
    }
  }

  /** What is left after the common first row is again two date orders of
      the same rows. */
  lemma SortedTails(a: seq<Matchup>, b: seq<Matchup>)
    requires SortedByDate(a) && SortedByDate(b) && a != [] && b != []
    requires multiset(a) == multiset(b) && a[0] == b[0]
    ensures SortedByDate(a[1..]) && SortedByDate(b[1..])
    ensures multiset(a[1..]) == multiset(b[1..])
  {
    MultisetTail(a);
    MultisetTail(b);
  }

  lemma SameHeadAndTail<T>(a: seq<T>, b: seq<T>)
    requires a != [] && b != [] && a[0] == b[0] && a[1..] == b[1..]
    ensures a == b
  {
    assert a == [a[0]] + a[1..] && b == [b[0]] + b[1..];
  }

  /** Two date orders of the same rows start with the same row. */
  lemma SortedHeads(a: seq<Matchup>, b: seq<Matchup>)
    requires SortedByDate(a) && SortedByDate(b)
    requires multiset(a) == multiset(b) && OneRowPerDate(a) && a != []
    ensures b != [] && b[0] == a[0]
  {
    assert |b| == |multiset(b)| == |multiset(a)| == |a|;
    assert a[0] in multiset(b) && b[0] in multiset(a);
    var j :| 0 <= j < |a| && a[j] == b[0];
    var k :| 0 <= k < |b| && b[k] == a[0];
    assert a[j].date == a[0].date;
  }

  lemma OneRowPerDateTail(a: seq<Matchup>)
    requires OneRowPerDate(a) && a != []
    ensures OneRowPerDate(a[1..])
  {
    assert a == [a[0]] + a[1..];
    assert multiset(a) == multiset{a[0]} + multiset(a[1..]);
    forall r, r' | r in multiset(a[1..]) && r' in multiset(a[1..]) && r.date == r'.date
      ensures r == r' && multiset(a[1..])[r] == 1
    {
      assert r in multiset(a) && r' in multiset(a);
    }
  }

  /** `process_data` sorts the rows itself: handing it rows already sorted
      by date changes nothing. */
  lemma ProcessPresorted(rate: Rate, initial: real, m: Players, rows: seq<Matchup>)
    requires KeepsShape(rate)
    ensures Process(rate, initial, m, SortByDate(rows)) == Process(rate, initial, m, rows)
  {
    SortByDateSorted(SortByDate(rows));
  }

  /** With one row per date, the order in which the rows are handed to
      `process_data` does not matter. */
  lemma ProcessReordered(rate: Rate, initial: real, m: Players, rows: seq<Matchup>, rows': seq<Matchup>)
    requires KeepsShape(rate)
    requires multiset(rows') == multiset(rows) && OneRowPerDate(rows)
    ensures Process(rate, initial, m, rows') == Process(rate, initial, m, rows)
  {
    SortedUnique(SortByDate(rows), SortByDate(rows'));
  }

  // ---------------------------------------------------------------------
  // One matchup

  /** `_get_or_create_player` for each id in turn: ids not yet in the map are
      added as fresh players; nobody else changes. */
  function Resolve(m: Players, ids: seq<string>, initial: real): (r: Players)
    ensures r.Keys == m.Keys + set id | id in ids
    ensures forall id :: Initial(r, id, initial) == Initial(m, id, initial)
  {
    if ids == [] then m
    else
      var n := |ids| - 1;
      var rest := Resolve(m, ids[..n], initial);
      assert ids == ids[..n] + [ids[n]];
      if ids[n] in rest then rest else rest[ids[n] := Fresh(initial)]
  }

  /** The ratings of the given players, in the given order. */
  function Ratings(m: Players, ids: seq<string>): (r: seq<real>)
    requires forall id :: id in ids ==> id in m
    ensures |r| == |ids|
    ensures forall i :: 0 <= i < |ids| ==> r[i] == m[ids[i]].rating
  {
    if ids == [] then []
    else
      var n := |ids| - 1;
      Ratings(m, ids[..n]) + [m[ids[n]].rating]
  }

  /** `player.update_rating(new_ratings[i], date=date)` for each player in
      turn. A player listed twice is updated twice. */
  function Record(m: Players, ids: seq<string>, ratings: seq<real>, date: Option<int>): (r: Players)
    requires |ratings| == |ids|
    requires forall id :: id in ids ==> id in m
    ensures r.Keys == m.Keys
  {
    if ids == [] then m
    else
      var n := |ids| - 1;
      var rest := Record(m, ids[..n], ratings[..n], date);
      rest[ids[n] := Update(rest[ids[n]], ratings[n], date)]
  }

  /** Resolving one more id. */
  lemma ResolveStep(m: Players, ids: seq<string>, j: int, initial: real)
    requires 0 <= j < |ids|
    ensures var r := Resolve(m, ids[..j], initial);
      Resolve(m, ids[..j + 1], initial) == if ids[j] in r then r else r[ids[j] := Fresh(initial)]
  {
    assert ids[..j + 1][..j] == ids[..j];
  }

  /** Recording one more update. */
  lemma RecordStep(m: Players, ids: seq<string>, ratings: seq<real>, date: Option<int>, j: int)
    requires 0 <= j < |ids| == |ratings|
    requires forall id :: id in ids ==> id in m
    ensures var r := Record(m, ids[..j], ratings[..j], date);
      Record(m, ids[..j + 1], ratings[..j + 1], date) == r[ids[j] := Update(r[ids[j]], ratings[j], date)]
  {
    assert ids[..j + 1][..j] == ids[..j] && ratings[..j + 1][..j] == ratings[..j];
  }

  /** `elo_rater.get_new_ratings` as the tracker calls it. */
  type Rate = seq<real> -> Result<seq<real>, EloError>

  /** The rater hands back one rating per rating it is given, as
      `MultiElo.get_new_ratings` does. */
  ghost predicate KeepsShape(rate: Rate)
  {
    forall ratings :: rate(ratings).Success? ==> |rate(ratings).value| == |ratings|
  }

  /** The players after one step, and the error that stopped processing. */
  datatype Step = Step(players: Players, failure: Option<EloError>)

  /** One iteration of the loop in `process_data`: create the players the row
      names, rate them in finishing order, and record the new ratings. When
      `get_new_ratings` raises, the players created so far stay. */
  function ApplyMatchup(rate: Rate, initial: real, m: Players, row: Matchup): Step
    requires KeepsShape(rate)
  {
    var ids := Present(row.placements);
    var created := Resolve(m, ids, initial);
    match rate(Ratings(created, ids))
    case Failure(e) => Step(created, Some(e))
    case Success(ratings) => Step(Record(created, ids, ratings, row.date), None)
  }

  /** Proof helper that only unfolds `ApplyMatchup`: the step one row
      makes, given what the rater answered for it. */
  lemma ApplyMatchupRated(rate: Rate, initial: real, m: Players, row: Matchup, outcome: Result<seq<real>, EloError>)
    requires KeepsShape(rate)
    requires outcome == rate(Ratings(Resolve(m, Present(row.placements), initial), Present(row.placements)))
    ensures outcome.Failure? ==>
      ApplyMatchup(rate, initial, m, row) == Step(Resolve(m, Present(row.placements), initial), Some(outcome.error))
    ensures outcome.Success? ==>
      |outcome.value| == |Present(row.placements)| &&
      ApplyMatchup(rate, initial, m, row) == Step(Record(Resolve(m, Present(row.placements), initial), Present(row.placements), outcome.value, row.date), None)
  {
  }

  /** The loop of `process_data` over rows already sorted and filtered; it
      stops at the first error. */
  function Run(rate: Rate, initial: real, m: Players, rows: seq<Matchup>): Step
    requires KeepsShape(rate)
  {
    if rows == [] then Step(m, None)
    else
      var n := |rows| - 1;
      var prev := Run(rate, initial, m, rows[..n]);
      if prev.failure.Some? then prev else ApplyMatchup(rate, initial, prev.players, rows[n])
  }

  /** Running one more row. */
  lemma RunStep(rate: Rate, initial: real, m: Players, rows: seq<Matchup>, i: int)
    requires KeepsShape(rate) && 0 <= i < |rows|
    ensures var prev := Run(rate, initial, m, rows[..i]);
      Run(rate, initial, m, rows[..i + 1]) == if prev.failure.Some? then prev else ApplyMatchup(rate, initial, prev.players, rows[i])
  {
    assert rows[..i + 1][..i] == rows[..i];
  }

  /** Once a row fails, the later rows are not processed. */
  lemma {:induction false} RunStopped(rate: Rate, initial: real, m: Players, rows: seq<Matchup>, k: nat)
    requires KeepsShape(rate)
    requires k <= |rows| && Run(rate, initial, m, rows[..k]).failure.Some?
    ensures Run(rate, initial, m, rows) == Run(rate, initial, m, rows[..k])
  {
    if k < |rows| {
      var n := |rows| - 1;
      assert rows[..n][..k] == rows[..k];
      RunStopped(rate, initial, m, rows[..n], k);
    } else {
      assert rows[..k] == rows;
    }
  }

  /** `process_data(matchup_history_df)`. */
  function Process(rate: Rate, initial: real, m: Players, rows: seq<Matchup>): Step
    requires KeepsShape(rate)
  {
    Run(rate, initial, m, DropBlank(SortByDate(rows)))
  }

  // ---------------------------------------------------------------------
  // Games and dates

  /** `c` copies of `x`. */
  function Repeat<T>(x: T, c: nat): (r: seq<T>)
    ensures |r| == c
  {
    seq(c, _ => x)
  }

  /** How often `id` fills a place in the rows. */
  function Appearances(rows: seq<Matchup>, id: string): nat
  {
    if rows == [] then 0
    else
      var n := |rows| - 1;
      Appearances(rows[..n], id) + multiset(Present(rows[n].placements))[id]
  }

  /** The dates of the entries the rows add to `id`'s history, in the order
      they are added. */
  function AppearanceDates(rows: seq<Matchup>, id: string): seq<Option<int>>
  {
    if rows == [] then []
    else
      var n := |rows| - 1;
      AppearanceDates(rows[..n], id) + Repeat(rows[n].date, multiset(Present(rows[n].placements))[id])
  }

  lemma {:induction false} AppearanceDatesCount(rows: seq<Matchup>, id: string)
    ensures |AppearanceDates(rows, id)| == Appearances(rows, id)
  {
    if rows != [] {
      AppearanceDatesCount(rows[..|rows| - 1], id);
    }
  }

  /** Recording new ratings adds, to the history of every player, one entry
      dated `date` per place the player fills, and leaves the rest of the
      history as it was. */
  lemma {:induction false} RecordHistory(m: Players, ids: seq<string>, ratings: seq<real>, date: Option<int>, id: string)
    requires |ratings| == |ids| && forall x :: x in ids ==> x in m
    requires id in m
    ensures Extends(m[id].history, Record(m, ids, ratings, date)[id].history, Repeat(date, multiset(ids)[id]))
  {
    if ids == [] {
      ExtendsNothing(m[id].history);
    } else {
      var n := |ids| - 1;
      assert ids == ids[..n] + [ids[n]];
      var rest := Record(m, ids[..n], ratings[..n], date);
      RecordHistory(m, ids[..n], ratings[..n], date, id);
      var c := multiset(ids[..n])[id];
      if ids[n] == id {
        UpdateCounts(rest[id], ratings[n], date);
        ExtendsTransitive(m[id].history, rest[id].history, Record(m, ids, ratings, date)[id].history,
          Repeat(date, c), [date]);
        assert Repeat(date, c) + [date] == Repeat(date, c + 1);
      }
    }
  }

  /** With every player listed once, each gets exactly its new rating and the
      players not listed keep their state. */
  lemma {:induction false} RecordRatings(m: Players, ids: seq<string>, ratings: seq<real>, date: Option<int>)
    requires |ratings| == |ids| && forall x :: x in ids ==> x in m
    requires Unique(ids)
    ensures forall i :: 0 <= i < |ids| ==> Record(m, ids, ratings, date)[ids[i]].rating == ratings[i]
    ensures forall x :: x in m && x !in ids ==> Record(m, ids, ratings, date)[x] == m[x]
  {
    if ids != [] {
      var n := |ids| - 1;
      assert ids == ids[..n] + [ids[n]];
      RecordRatings(m, ids[..n], ratings[..n], date);
    }
  }

  /** One matchup adds, to the history of every player it names, one entry
      per place filled, dated on the matchup's date. */
  lemma {:induction false} ApplyMatchupHistory(rate: Rate, initial: real, m: Players, row: Matchup, id: string)
    requires KeepsShape(rate)
    requires ApplyMatchup(rate, initial, m, row).failure.None?
    ensures Extends(Initial(m, id, initial).history,
                    Initial(ApplyMatchup(rate, initial, m, row).players, id, initial).history,
                    Repeat(row.date, multiset(Present(row.placements))[id]))
  {
    var ids := Present(row.placements);
    var created := Resolve(m, ids, initial);
    var ratings := rate(Ratings(created, ids)).value;
    if id in created {
      RecordHistory(created, ids, ratings, row.date, id);
    } else {
      assert id !in ids;
      assert Repeat(row.date, multiset(ids)[id]) == [];
      ExtendsNothing(Initial(m, id, initial).history);
    }
  }

  /** After a run without error, every player's history is its history before
      followed by one entry per appearance, dated on that matchup's date, in
      the order the rows were processed. */
  lemma {:induction false} RunHistory(rate: Rate, initial: real, m: Players, rows: seq<Matchup>, id: string)
    requires KeepsShape(rate)
    requires Run(rate, initial, m, rows).failure.None?
    ensures Extends(Initial(m, id, initial).history,
                    Initial(Run(rate, initial, m, rows).players, id, initial).history,
                    AppearanceDates(rows, id))
  {
    if rows == [] {
      ExtendsNothing(Initial(m, id, initial).history);
    } else {
      var n := |rows| - 1;
      var prev := Run(rate, initial, m, rows[..n]);
      RunHistory(rate, initial, m, rows[..n], id);
      ApplyMatchupHistory(rate, initial, prev.players, rows[n], id);
      ExtendsTransitive(Initial(m, id, initial).history, Initial(prev.players, id, initial).history,
        Initial(Run(rate, initial, m, rows).players, id, initial).history,
        AppearanceDates(rows[..n], id), Repeat(rows[n].date, multiset(Present(rows[n].placements))[id]));
    }
  }

  /** The players after a run without error: those before and those the rows
      name. */
  lemma {:induction false} RunPlayers(rate: Rate, initial: real, m: Players, rows: seq<Matchup>, id: string)
    requires KeepsShape(rate)
    requires Run(rate, initial, m, rows).failure.None?
    ensures id in Run(rate, initial, m, rows).players <==> id in m || Appearances(rows, id) > 0
  {
    if rows != [] {
      var n := |rows| - 1;
      RunPlayers(rate, initial, m, rows[..n], id);
      assert multiset(Present(rows[n].placements))[id] > 0 <==> id in Present(rows[n].placements);
    }
  }

  lemma {:induction false} AppearancesAppend(a: seq<Matchup>, b: seq<Matchup>, id: string)
    ensures Appearances(a + b, id) == Appearances(a, id) + Appearances(b, id)
  {
    if b == [] {
      assert a + b == a;
    } else {
      var n := |b| - 1;
      assert (a + b)[..|a + b| - 1] == a + b[..n];
      AppearancesAppend(a, b[..n], id);
    }
  }

  /** The count of appearances does not depend on the order of the rows. */
  lemma {:induction false} AppearancesPermutation(a: seq<Matchup>, b: seq<Matchup>, id: string)
    requires multiset(a) == multiset(b)
    ensures Appearances(a, id) == Appearances(b, id)
    decreases |a|
  {
    if a != [] {
      var n := |a| - 1;
      var x := a[n];
      assert x in multiset(b);
      var j :| 0 <= j < |b| && b[j] == x;
      var left, right := b[..j], b[j + 1..];
      RemoveAt(a, n);
      RemoveAt(b, j);
      assert a[..n + 1] == a && a[n + 1..] == [];
      assert a[..n] + [] == a[..n];
      AppearancesPermutation(a[..n], left + right, id);
      AppearancesSplit(b, j, id);
    }
  }

  lemma RemoveAt<T>(s: seq<T>, j: int)
    requires 0 <= j < |s|
    ensures multiset(s[..j] + s[j + 1..]) == multiset(s) - multiset{s[j]}
  {
    assert s == s[..j] + [s[j]] + s[j + 1..];
  }

  lemma AppearancesSplit(b: seq<Matchup>, j: int, id: string)
    requires 0 <= j < |b|
    ensures Appearances(b, id) == Appearances(b[..j] + b[j + 1..], id) + multiset(Present(b[j].placements))[id]
  {
    var left, right := b[..j], b[j + 1..];
    assert b == left + [b[j]] + right;
    AppearancesAppend(left + [b[j]], right, id);
    AppearancesAppend(left, [b[j]], id);
    AppearancesAppend(left, right, id);
    assert [b[j]][..0] == [];
  }

  /** Blank rows name nobody, so dropping them changes no count. */
  lemma {:induction false} AppearancesDropBlank(rows: seq<Matchup>, id: string)
    ensures Appearances(DropBlank(rows), id) == Appearances(rows, id)
  {
    if rows != [] {
      var n := |rows| - 1;
      var rest := DropBlank(rows[..n]);
      AppearancesDropBlank(rows[..n], id);
      if Blank(rows[n]) {
        BlankHasNoIds(rows[n]);
        assert DropBlank(rows) == rest;
      } else {
        assert DropBlank(rows) == rest + [rows[n]];
        assert (rest + [rows[n]])[..|rest|] == rest;
      }
    }
  }

  /** After `process_data` without error, a player's game count is its count
      before plus the number of places it fills in the whole table. */
  lemma ProcessGames(rate: Rate, initial: real, m: Players, rows: seq<Matchup>, id: string)
    requires KeepsShape(rate)
    requires Process(rate, initial, m, rows).failure.None?
    ensures Games(Initial(Process(rate, initial, m, rows).players, id, initial))
         == Games(Initial(m, id, initial)) + Appearances(rows, id)
    ensures id in Process(rate, initial, m, rows).players <==> id in m || Appearances(rows, id) > 0
  {
    var processed := DropBlank(SortByDate(rows));
    RunHistory(rate, initial, m, processed, id);
    RunPlayers(rate, initial, m, processed, id);
    AppearanceDatesCount(processed, id);
    AppearancesDropBlank(SortByDate(rows), id);
    AppearancesPermutation(SortByDate(rows), rows, id);
  }

  /** The dates are in the order `sort_values` gives: dated ones
      non-decreasing, missing ones after them. */
  predicate Ascending(dates: seq<Option<int>>)
  {
    forall i, j :: 0 <= i < j < |dates| ==> DateLe(dates[i], dates[j])
  }

  lemma DropBlankSorted(rows: seq<Matchup>)
    requires SortedByDate(rows)
    ensures SortedByDate(DropBlank(rows))
  {
    var r := DropBlank(rows);
    forall i, j | 0 <= i < j < |r|
      ensures DateLe(r[i].date, r[j].date)
    {
      DropBlankOrder(rows, i, j);
    }
  }

  lemma {:induction false} DropBlankOrder(rows: seq<Matchup>, i: int, j: int)
    requires SortedByDate(rows) && 0 <= i < j < |DropBlank(rows)|
    ensures DateLe(DropBlank(rows)[i].date, DropBlank(rows)[j].date)
  {
    var n := |rows| - 1;
    assert SortedByDate(rows[..n]);
    var rest := DropBlank(rows[..n]);
    if j < |rest| {
      DropBlankOrder(rows[..n], i, j);
    } else {
      assert rest[i] in multiset(rest);
      assert rest[i] in rows[..n];
    }
  }

  /** Processing date-sorted rows appends history entries in date order, each
      no later than the last row's date. */
  lemma {:induction false} AppearanceDatesAscending(rows: seq<Matchup>, id: string)
    requires SortedByDate(rows)
    ensures Ascending(AppearanceDates(rows, id))
    ensures rows != [] ==> forall i :: 0 <= i < |AppearanceDates(rows, id)| ==>
      DateLe(AppearanceDates(rows, id)[i], rows[|rows| - 1].date)
  {
    if rows != [] {
      var n := |rows| - 1;
      assert SortedByDate(rows[..n]);
      AppearanceDatesAscending(rows[..n], id);
      if n > 0 {
        assert DateLe(rows[n - 1].date, rows[n].date);
      } else {
        assert AppearanceDates(rows[..n], id) == [];
      }
    }
  }

  /** After `process_data` without error, the entries it added to a player's
      history carry the dates of the player's matchups in non-decreasing
      order. */
  lemma ProcessDatesAscending(rate: Rate, initial: real, m: Players, rows: seq<Matchup>, id: string)
    requires KeepsShape(rate)
    requires Process(rate, initial, m, rows).failure.None?
    ensures Extends(Initial(m, id, initial).history,
                    Initial(Process(rate, initial, m, rows).players, id, initial).history,
                    AppearanceDates(DropBlank(SortByDate(rows)), id))
    ensures Ascending(AppearanceDates(DropBlank(SortByDate(rows)), id))
  {
    var processed := DropBlank(SortByDate(rows));
    RunHistory(rate, initial, m, processed, id);
    DropBlankSorted(SortByDate(rows));
    AppearanceDatesAscending(processed, id);
  }

  // ---------------------------------------------------------------------
  // The rating total

  /** The sum of all players' ratings. */
  ghost function Total(m: Players): real
    decreases |m|
  {
    if m == map[] then 0.0
    else
      var k :| k in m;
      m[k].rating + Total(m - {k})
  }

  /** Any player can be taken out first. */
  lemma {:induction false} TotalRemove(m: Players, k: string)
    requires k in m
    ensures Total(m) == m[k].rating + Total(m - {k})
    decreases |m|
  {
    var j :| j in m && Total(m) == m[j].rating + Total(m - {j});
    if j != k {
      TotalRemove(m - {j}, k);
      TotalRemove(m - {k}, j);
      assert m - {j} - {k} == m - {k} - {j};
    }
  }

  lemma TotalUpdate(m: Players, k: string, s: PlayerState)
    ensures Total(m[k := s]) == (if k in m then Total(m) - m[k].rating else Total(m)) + s.rating
  {
    TotalRemove(m[k := s], k);
    if k in m {
      TotalRemove(m, k);
      assert m[k := s] - {k} == m - {k};
    } else {
      assert m[k := s] - {k} == m;
    }
  }

  /** The players `later` has and `earlier` does not. */
  function Created(earlier: Players, later: Players): nat
  {
    |later.Keys - earlier.Keys|
  }

  lemma CreatedChain(a: Players, b: Players, c: Players)
    requires a.Keys <= b.Keys <= c.Keys
    ensures Created(a, c) == Created(a, b) + Created(b, c)
  {
    assert c.Keys - a.Keys == (b.Keys - a.Keys) + (c.Keys - b.Keys);
    assert (b.Keys - a.Keys) * (c.Keys - b.Keys) == {};
  }

  lemma CreatedInsert(m: Players, r: Players, k: string, s: PlayerState)
    requires m.Keys <= r.Keys && k !in r
    ensures Created(m, r[k := s]) == Created(m, r) + 1
  {
    var d := r.Keys - m.Keys;
    assert r[k := s].Keys - m.Keys == d + {k};
    assert k !in d;
    assert |d + {k}| == |d| + 1;
  }

  /** `c` times `x`, as repeated addition. */
  function Times(c: nat, x: real): real
  {
    if c == 0 then 0.0 else Times(c - 1, x) + x
  }

  lemma {:induction false} TimesAdd(a: nat, b: nat, x: real)
    ensures Times(a + b, x) == Times(a, x) + Times(b, x)
    decreases b
  {
    if b > 0 {
      TimesAdd(a, b - 1, x);
    }
  }

  lemma TotalsChain(t0: real, t1: real, t2: real, a: nat, b: nat, c: nat, x: real)
    requires t1 == t0 + Times(a, x) && t2 == t1 + Times(b, x) && c == a + b
    ensures t2 == t0 + Times(c, x)
  {
    TimesAdd(a, b, x);
  }

  lemma {:induction false} TimesProduct(c: nat, x: real)
    ensures Times(c, x) == (c as real) * x
  {
    if c > 0 {
      TimesProduct(c - 1, x);
    }
  }

  /** Each player created enters at the initial rating. */
  lemma {:induction false} ResolveTotal(m: Players, ids: seq<string>, initial: real)
    ensures Total(Resolve(m, ids, initial)) == Total(m) + Times(Created(m, Resolve(m, ids, initial)), initial)
  {
    if ids != [] {
      var n := |ids| - 1;
      var rest := Resolve(m, ids[..n], initial);
      ResolveTotal(m, ids[..n], initial);
      if ids[n] !in rest {
        var r := rest[ids[n] := Fresh(initial)];
        assert Resolve(m, ids, initial) == r;
        assert Total(r) == Total(rest) + initial by {
          TotalUpdate(rest, ids[n], Fresh(initial));
        }
        assert Created(m, r) == Created(m, rest) + 1 by {
          CreatedInsert(m, rest, ids[n], Fresh(initial));
        }
      } else {
        assert Resolve(m, ids, initial) == rest;
      }
    }
  }

  /** Recording ratings for players listed once replaces their ratings in the
      total. */
  lemma {:induction false} RecordTotal(m: Players, ids: seq<string>, ratings: seq<real>, date: Option<int>)
    requires |ratings| == |ids| && forall x :: x in ids ==> x in m
    requires Unique(ids)
    ensures Total(Record(m, ids, ratings, date)) == Total(m) - Sum(Ratings(m, ids)) + Sum(ratings)
  {
    if ids != [] {
      var n := |ids| - 1;
      assert ids == ids[..n] + [ids[n]];
      var rest := Record(m, ids[..n], ratings[..n], date);
      RecordTotal(m, ids[..n], ratings[..n], date);
      RecordRatings(m, ids[..n], ratings[..n], date);
      assert rest[ids[n]] == m[ids[n]];
      TotalUpdate(rest, ids[n], Update(rest[ids[n]], ratings[n], date));
      assert Ratings(m, ids)[..n] == Ratings(m, ids[..n]);
    }
  }

  /** Every successful call hands out as many rating points as it takes in. */
  ghost predicate Conserves(rate: Rate)
  {
    forall ratings :: rate(ratings).Success? ==> Sum(rate(ratings).value) == Sum(ratings)
  }

  /** No id fills two places of the same row. */
  predicate DistinctPlaces(rows: seq<Matchup>)
  {
    forall i :: 0 <= i < |rows| ==> Unique(Present(rows[i].placements))
  }

  /** With a conserving rater and no player twice in the row, a matchup leaves
      the rating total unchanged apart from the players it creates, who enter
      at the initial rating. This holds when the rater fails, too. */
  lemma {:induction false} ApplyMatchupTotal(rate: Rate, initial: real, m: Players, row: Matchup)
    requires KeepsShape(rate)
    requires Conserves(rate) && Unique(Present(row.placements))
    ensures m.Keys <= ApplyMatchup(rate, initial, m, row).players.Keys
    ensures Total(ApplyMatchup(rate, initial, m, row).players)
         == Total(m) + Times(Created(m, ApplyMatchup(rate, initial, m, row).players), initial)
  {
    var ids := Present(row.placements);
    var created := Resolve(m, ids, initial);
    ResolveTotal(m, ids, initial);
    var before := Ratings(created, ids);
    var result := rate(before);
    if result.Success? {
      RecordTotal(created, ids, result.value, row.date);
    }
  }

  lemma {:induction false} RunTotal(rate: Rate, initial: real, m: Players, rows: seq<Matchup>)
    requires KeepsShape(rate)
    requires Conserves(rate) && DistinctPlaces(rows)
    ensures m.Keys <= Run(rate, initial, m, rows).players.Keys
    ensures Total(Run(rate, initial, m, rows).players)
         == Total(m) + Times(Created(m, Run(rate, initial, m, rows).players), initial)
  {
    if rows != [] {
      var n := |rows| - 1;
      var prev := Run(rate, initial, m, rows[..n]);
      RunTotal(rate, initial, m, rows[..n]);
      if prev.failure.None? {
        var next := ApplyMatchup(rate, initial, prev.players, rows[n]);
        ApplyMatchupTotal(rate, initial, prev.players, rows[n]);
        CreatedChain(m, prev.players, next.players);
        assert Run(rate, initial, m, rows) == next;
        TotalsChain(Total(m), Total(prev.players), Total(next.players),
          Created(m, prev.players), Created(prev.players, next.players), Created(m, next.players), initial);
      } else {
        assert Run(rate, initial, m, rows) == prev;
      }
    }
  }

  /** A tracker that starts without players and processes a table with no id
      twice in a row, under a conserving rater, ends with a rating total of the
      initial rating times the number of players: their mean is the initial
      rating, whether or not processing stopped at an error. */
  lemma ProcessMeanRating(rate: Rate, initial: real, rows: seq<Matchup>)
    requires KeepsShape(rate)
    requires Conserves(rate) && DistinctPlaces(rows)
    ensures MeanRating(Process(rate, initial, map[], rows).players, initial)
  {
    var processed := DropBlank(SortByDate(rows));
    DistinctPlacesKept(rows);
    var empty: Players := map[];
    RunTotal(rate, initial, empty, processed);
    var final := Run(rate, initial, empty, processed).players;
    assert Process(rate, initial, empty, rows).players == final;
    assert Total(empty) == 0.0;
    CreatedFromEmpty(empty, final);
  }

  /** The ratings of the players average `x`: their total is `x` times the
      number of players (see TimesProduct). */
  ghost predicate MeanRating(m: Players, x: real)
  {
    Total(m) == Times(|m|, x)
  }



  lemma CreatedFromEmpty(empty: Players, m: Players)
    requires empty == map[]
    ensures Created(empty, m) == |m|
  {
    assert m.Keys - empty.Keys == m.Keys;
  }

  /** Sorting and dropping blank rows keep the rows' places distinct. */
  lemma DistinctPlacesKept(rows: seq<Matchup>)
    requires DistinctPlaces(rows)
    ensures DistinctPlaces(DropBlank(SortByDate(rows)))
  {
    var processed := DropBlank(SortByDate(rows));
    forall i | 0 <= i < |processed|
      ensures Unique(Present(processed[i].placements))
    {
      assert processed[i] in multiset(processed);
      assert processed[i] in rows;
    }
  }

  // ---------------------------------------------------------------------
  // Reports

  /** A player's row of `get_current_ratings` before it is ranked. */
  datatype Line = Line(playerId: string, games: int, rating: real)

  /** A row of `get_current_ratings`: rank, id, games played, rating. */
  datatype Standing = Standing(rank: nat, playerId: string, games: int, rating: real)

  /** The players of the id column, in column order. */
  function Lines(m: Players, ids: seq<string>): (r: seq<Line>)
    requires forall id :: id in ids ==> id in m
    ensures |r| == |ids|
    ensures forall i :: 0 <= i < |ids| ==> r[i] == Line(ids[i], Games(m[ids[i]]), m[ids[i]].rating)
  {
    if ids == [] then []
    else
      var n := |ids| - 1;
      Lines(m, ids[..n]) + [Line(ids[n], Games(m[ids[n]]), m[ids[n]].rating)]
  }

  predicate ByRatingDescending(lines: seq<Line>)
  {
    forall i, j :: 0 <= i < j < |lines| ==> lines[i].rating >= lines[j].rating
  }

  /** Places a line after every line with the same or a higher rating. */
  function InsertByRating(lines: seq<Line>, l: Line): (r: seq<Line>)
    requires ByRatingDescending(lines)
    ensures ByRatingDescending(r)
    ensures multiset(r) == multiset(lines) + multiset{l}
    ensures |r| == |lines| + 1
  {
    if lines == [] then [l]
    else if l.rating > lines[0].rating then [l] + lines
    else
      var rest := InsertByRating(lines[1..], l);
      InsertByRatingAfter(lines, l, rest);
      [lines[0]] + rest
  }

  lemma InsertByRatingAfter(lines: seq<Line>, l: Line, rest: seq<Line>)
    requires ByRatingDescending(lines) && lines != [] && l.rating <= lines[0].rating
    requires ByRatingDescending(rest) && multiset(rest) == multiset(lines[1..]) + multiset{l}
    ensures ByRatingDescending([lines[0]] + rest)
    ensures multiset([lines[0]] + rest) == multiset(lines) + multiset{l}
  {
    assert lines == [lines[0]] + lines[1..];
    forall j | 0 <= j < |rest|
      ensures lines[0].rating >= rest[j].rating
    {
      assert rest[j] in multiset(rest);
      if rest[j] != l {
        assert rest[j] in lines[1..];
      }
    }
  }

  /** `sort_values("player", ascending=False)`: players compare by rating.
      Equal ratings keep their column order here; pandas' default sort does
      not promise that. */
  function SortByRating(lines: seq<Line>): (r: seq<Line>)
    ensures ByRatingDescending(r)
    ensures multiset(r) == multiset(lines)
    ensures |r| == |lines|
  {
    if lines == [] then []
    else
      var n := |lines| - 1;
      assert lines == lines[..n] + [lines[n]];
      InsertByRating(SortByRating(lines[..n]), lines[n])
  }

  /** The line of a ranked row. */
  function Unranked(standings: seq<Standing>): (r: seq<Line>)
    ensures |r| == |standings|
  {
    seq(|standings|, i requires 0 <= i < |standings| =>
      Line(standings[i].playerId, standings[i].games, standings[i].rating))
  }

  /** `get_current_ratings`: every player once, best rating first, ranked
      1, 2, ... in that order. */
  function CurrentRatings(m: Players, ids: seq<string>): (r: seq<Standing>)
    requires forall id :: id in ids ==> id in m
    ensures |r| == |ids|
    ensures forall i :: 0 <= i < |r| ==> r[i].rank == i + 1
    ensures forall i, j :: 0 <= i < j < |r| ==> r[i].rating >= r[j].rating
    ensures multiset(Unranked(r)) == multiset(Lines(m, ids))
  {
    var sorted := SortByRating(Lines(m, ids));
    var r := seq(|sorted|, i requires 0 <= i < |sorted| =>
      Standing(i + 1, sorted[i].playerId, sorted[i].games, sorted[i].rating));
    assert Unranked(r) == sorted;
    r
  }

  /** A row of `get_history_df`. */
  datatype HistoryRow = HistoryRow(playerId: string, date: int, rating: real)

  /** The dated entries of one player's history, in history order; the
      undated entry a new player starts with is skipped. */
  function DatedRows(id: string, h: seq<Entry>): seq<HistoryRow>
  {
    if h == [] then []
    else
      var n := |h| - 1;
      var rest := DatedRows(id, h[..n]);
      assert h == h[..n] + [h[n]];
      if h[n].date.None? then rest else rest + [HistoryRow(id, h[n].date.value, h[n].rating)]
  }

  /** A history entry that carries a date. */
  predicate Dated(e: Entry)
  {
    e.date.Some?
  }

  /** A row is among a player's dated rows iff it names that player and is
      one of the dated entries of the history. */
  lemma {:induction false} DatedRowsMembers(id: string, h: seq<Entry>)
    ensures forall row :: row in DatedRows(id, h) <==> row.playerId == id && Entry(Some(row.date), row.rating) in h
  {
    if h != [] {
      var n := |h| - 1;
      assert h == h[..n] + [h[n]];
      DatedRowsMembers(id, h[..n]);
    }
  }

  /** `DatedRows` keeps history order: its k-th row is the k-th dated entry. */
  lemma {:induction false} DatedRowsInOrder(id: string, h: seq<Entry>)
    ensures |DatedRows(id, h)| == |Positions(h, Dated)|
    ensures forall k :: 0 <= k < |DatedRows(id, h)| ==>
      var e := h[Positions(h, Dated)[k]]; DatedRows(id, h)[k] == HistoryRow(id, e.date.value, e.rating)
  {
    if h != [] {
      var n := |h| - 1;
      assert h == h[..n] + [h[n]];
      DatedRowsInOrder(id, h[..n]);
    }
  }

  /** The rows one id of the column contributes: its player's dated
      entries, labelled with the id the player object holds. An id without
      a player contributes nothing; the tracker's column never holds one. */
  function PlayerRows(m: Players, labels: map<string, string>, id: string): seq<HistoryRow>
  {
    if id in m && id in labels then DatedRows(labels[id], m[id].history) else []
  }

  /** `get_history_df`: the dated history entries of every player of the id
      column, player by player; each row carries the id the player object
      holds (`player.id`), which `labels` gives for each key of the column. */
  function HistoryRows(m: Players, labels: map<string, string>, ids: seq<string>): seq<HistoryRow>
  {
    if ids == [] then []
    else
      var n := |ids| - 1;
      HistoryRows(m, labels, ids[..n]) + PlayerRows(m, labels, ids[n])
  }

  /** A row is in the history report iff some player of the id column holds
      the row's id and has the row as one of its dated entries. */
  lemma {:induction false} HistoryRowsMembers(m: Players, labels: map<string, string>, ids: seq<string>)
    requires forall id :: id in ids ==> id in m && id in labels
    ensures forall row :: row in HistoryRows(m, labels, ids) <==>
      exists id :: id in ids && row.playerId == labels[id] && Entry(Some(row.date), row.rating) in m[id].history
  {
    if ids != [] {
      var n := |ids| - 1;
      assert ids == ids[..n] + [ids[n]];
      HistoryRowsMembers(m, labels, ids[..n]);
      DatedRowsMembers(labels[ids[n]], m[ids[n]].history);
    }
  }

  /** When every player holds the id it is filed under, a row is in the
      history report iff its id is in the column and the row is one of that
      player's dated entries. */
  lemma HistoryRowsOwnIds(m: Players, labels: map<string, string>, ids: seq<string>)
    requires forall id :: id in ids ==> id in m && id in labels && labels[id] == id
    ensures forall row :: row in HistoryRows(m, labels, ids) <==>
      row.playerId in ids && Entry(Some(row.date), row.rating) in m[row.playerId].history
  {
    HistoryRowsMembers(m, labels, ids);
  }

  /** The history report of a single player is that player's dated entries. */
  lemma HistoryRowsSingle(m: Players, labels: map<string, string>, id: string)
    requires id in m && id in labels
    ensures HistoryRows(m, labels, [id]) == DatedRows(labels[id], m[id].history)
  {
    assert [id][..0] == [];
  }

  /** The history report goes player by player: the rows of a longer column
      follow those of its first part. */
  lemma {:induction false} HistoryRowsAppend(m: Players, labels: map<string, string>, a: seq<string>, b: seq<string>)
    ensures HistoryRows(m, labels, a + b) == HistoryRows(m, labels, a) + HistoryRows(m, labels, b)
  {
    if b == [] {
      assert a + b == a;
    } else {
      var n := |b| - 1;
      var b', id := b[..n], b[n];
      HistoryRowsAppend(m, labels, a, b');
      var x, y, z := HistoryRows(m, labels, a), HistoryRows(m, labels, b'), PlayerRows(m, labels, id);
      assert HistoryRows(m, labels, a + b) == (x + y) + z by {
        assert (a + b)[..|a + b| - 1] == a + b';
      }
      assert HistoryRows(m, labels, b) == y + z by {
        assert b[..n] == b';
      }
      ConcatAssociative(x, y, z);
    }
  }

  lemma ConcatAssociative<T>(x: seq<T>, y: seq<T>, z: seq<T>)
    ensures (x + y) + z == x + (y + z)
  {
  }

  // ---------------------------------------------------------------------
  // The MultiElo rater

  /** `MultiElo.get_new_ratings` as a rater. */
  function EloRate(rater: Rater): Rate
  {
    ratings => GetNewRatings(rater, ratings)
  }

  /** A MultiElo rater whose win probability is logistic and whose score
      vectors, whenever they pass validation, add up to exactly 1. */
  ghost predicate ZeroSumRater(rater: Rater)
  {
    && Logistic(rater.winProbability)
    && forall n: nat :: ActualScores(rater, n).Success? ==> Sum(rater.scoreFunction(n)) == 1.0
  }

  /** `get_new_ratings` returns one rating per player. */
  lemma EloRateKeepsShape(rater: Rater)
    ensures KeepsShape(EloRate(rater))
  {
  }

  /** For a zero-sum rater, `get_new_ratings` conserves the rating total. */
  lemma EloRateConserves(rater: Rater)
    ensures ZeroSumRater(rater) ==> Conserves(EloRate(rater))
  {
    if ZeroSumRater(rater) {
      forall ratings | EloRate(rater)(ratings).Success?
        ensures Sum(EloRate(rater)(ratings).value) == Sum(ratings)
      {
        assert ActualScores(rater, |ratings|).Success?;
        ZeroSum(rater, ratings);
      }
    }
  }

  /** With a zero-sum MultiElo rater and no id twice in a row, the ratings
      `process_data` leaves average out at the initial rating. */
  lemma EloMeanRating(rater: Rater, initial: real, rows: seq<Matchup>)
    requires ZeroSumRater(rater) && DistinctPlaces(rows)
    ensures MeanRating(Process(EloRate(rater), initial, map[], rows).players, initial)
  {
    EloRateKeepsShape(rater);
    EloRateConserves(rater);
    ProcessMeanRating(EloRate(rater), initial, rows);
  }

  // ---------------------------------------------------------------------
  // The table of tests/test_player_tracker.py (dates written as yyyymmdd)

  /** The table with its four players as parameters. */
  function FamilyTable(homer: string, marge: string, bart: string, lisa: string): seq<Matchup>
  {
    [Matchup(Some(20200329), [Some(homer), Some(marge), Some(bart)]),
     Matchup(Some(20200405), [Some(lisa), Some(bart), Some(homer)]),
     Matchup(Some(20200412), [Some(lisa), Some(marge), Some(homer)])]
  }

  predicate Distinct4(a: string, b: string, c: string, d: string)
  {
    a != b && a != c && a != d && b != c && b != d && c != d
  }

  /** How often each id fills a place in the table. */
  lemma FamilyAppearances(homer: string, marge: string, bart: string, lisa: string, id: string)
    requires Distinct4(homer, marge, bart, lisa)
    ensures Appearances(FamilyTable(homer, marge, bart, lisa), id) ==
      if id == homer then 3 else if id == marge || id == bart || id == lisa then 2 else 0
    ensures Appearances(FamilyTable(homer, marge, bart, lisa), id) > 0
      <==> id in {homer, marge, bart, lisa}
  {
    var r0 := Matchup(Some(20200329), [Some(homer), Some(marge), Some(bart)]);
    var r1 := Matchup(Some(20200405), [Some(lisa), Some(bart), Some(homer)]);
    var r2 := Matchup(Some(20200412), [Some(lisa), Some(marge), Some(homer)]);
    AppearancesOfThree(r0, r1, r2, id);
    RowCount(r0, homer, marge, bart, id);
    RowCount(r1, lisa, bart, homer, id);
    RowCount(r2, lisa, marge, homer, id);
  }

  /** How often `x` fills a place in a row with all three places filled. */
  lemma RowCount(row: Matchup, a: string, b: string, c: string, x: string)
    requires row.placements == [Some(a), Some(b), Some(c)]
    ensures multiset(Present(row.placements))[x]
         == (if a == x then 1 else 0) + (if b == x then 1 else 0) + (if c == x then 1 else 0)
  {
    PresentFull(a, b, c);
    CountOfThree(a, b, c, x);
  }

  /** A tracker without players that processes the table with a conserving
      rater meets the four players; the first has played three games and the
      others two each, and their ratings average the initial 1000. */
  lemma FamilyTableTracked(rate: Rate, homer: string, marge: string, bart: string, lisa: string)
    requires KeepsShape(rate) && Conserves(rate)
    requires Distinct4(homer, marge, bart, lisa)
    requires Process(rate, 1000.0, map[], FamilyTable(homer, marge, bart, lisa)).failure.None?
    ensures var final := Process(rate, 1000.0, map[], FamilyTable(homer, marge, bart, lisa)).players;
      && final.Keys == {homer, marge, bart, lisa}
      && Games(final[homer]) == 3 && Games(final[marge]) == 2
      && Games(final[bart]) == 2 && Games(final[lisa]) == 2
      && MeanRating(final, 1000.0)
  {
    var rows := FamilyTable(homer, marge, bart, lisa);
    var names := {homer, marge, bart, lisa};
    FamilyNames(homer, marge, bart, lisa, rows, names);
    ProcessedRoster(rate, 1000.0, rows, names);
    FamilyAppearances(homer, marge, bart, lisa, homer);
    FamilyAppearances(homer, marge, bart, lisa, marge);
    FamilyAppearances(homer, marge, bart, lisa, bart);
    FamilyAppearances(homer, marge, bart, lisa, lisa);
    FamilyDistinct(homer, marge, bart, lisa);
    ProcessMeanRating(rate, 1000.0, rows);
  }

  /** The four names are exactly the ids the family table mentions. */
  lemma FamilyNames(homer: string, marge: string, bart: string, lisa: string,
                    rows: seq<Matchup>, names: set<string>)
    requires Distinct4(homer, marge, bart, lisa)
    requires rows == FamilyTable(homer, marge, bart, lisa) && names == {homer, marge, bart, lisa}
    ensures forall id :: Appearances(rows, id) > 0 <==> id in names
  {
    forall id
      ensures Appearances(rows, id) > 0 <==> id in names
    {
      FamilyAppearances(homer, marge, bart, lisa, id);
    }
  }

  /** Processing a table from an empty tracker registers exactly the ids that
      appear in it, each with one game per appearance. */
  lemma ProcessedRoster(rate: Rate, initial: real, rows: seq<Matchup>, names: set<string>)
    requires KeepsShape(rate)
    requires Process(rate, initial, map[], rows).failure.None?
    requires forall id :: Appearances(rows, id) > 0 <==> id in names
    ensures Process(rate, initial, map[], rows).players.Keys == names
    ensures forall id :: id in names ==>
      Games(Process(rate, initial, map[], rows).players[id]) == Appearances(rows, id)
  {
    var empty: Players := map[];
    var final := Process(rate, initial, empty, rows).players;
    forall id
      ensures id in final <==> id in names
      ensures id in final ==> Games(final[id]) == Appearances(rows, id)
    {
      ProcessGames(rate, initial, empty, rows, id);
    }
  }

  /** No one appears twice in a row of the family table. */
  lemma FamilyDistinct(homer: string, marge: string, bart: string, lisa: string)
    requires Distinct4(homer, marge, bart, lisa)
    ensures DistinctPlaces(FamilyTable(homer, marge, bart, lisa))
  {
    var rows := FamilyTable(homer, marge, bart, lisa);
    PresentFull(homer, marge, bart);
    PresentFull(lisa, bart, homer);
    PresentFull(lisa, marge, homer);
    forall i | 0 <= i < |rows|
      ensures Unique(Present(rows[i].placements))
    {
      var p := Present(rows[i].placements);
      assert |p| == 3 && p[0] != p[1] && p[0] != p[2] && p[1] != p[2];
    }
  }

  /** A row with all three places filled. */
  lemma PresentFull(a: string, b: string, c: string)
    ensures Present([Some(a), Some(b), Some(c)]) == [a, b, c]
  {
    PresentSnoc([], Some(a));
    assert [] + [Some(a)] == [Some(a)];
    PresentSnoc([Some(a)], Some(b));
    assert [Some(a)] + [Some(b)] == [Some(a), Some(b)];
    PresentSnoc([Some(a), Some(b)], Some(c));
    assert [Some(a), Some(b)] + [Some(c)] == [Some(a), Some(b), Some(c)];
  }

  /** One more cell at the end of a row. */
  lemma PresentSnoc(p: seq<Option<string>>, x: Option<string>)
    ensures Present(p + [x]) == if x.Some? then Present(p) + [x.value] else Present(p)
  {
    assert (p + [x])[..|p|] == p;
  }

  lemma AppearancesOfThree(r0: Matchup, r1: Matchup, r2: Matchup, id: string)
    ensures Appearances([r0, r1, r2], id) == multiset(Present(r0.placements))[id]
      + multiset(Present(r1.placements))[id] + multiset(Present(r2.placements))[id]
  {
    assert [r0] == [] + [r0] && [r0, r1] == [r0] + [r1] && [r0, r1, r2] == [r0, r1] + [r2];
    AppearancesSnoc([], r0, id);
    AppearancesSnoc([r0], r1, id);
    AppearancesSnoc([r0, r1], r2, id);
  }

  lemma AppearancesSnoc(rows: seq<Matchup>, row: Matchup, id: string)
    ensures Appearances(rows + [row], id) == Appearances(rows, id) + multiset(Present(row.placements))[id]
  {
    assert (rows + [row])[..|rows|] == rows;
  }

  lemma CountOfThree<T>(a: T, b: T, c: T, x: T)
    ensures multiset([a, b, c])[x] == (if a == x then 1 else 0) + (if b == x then 1 else 0) + (if c == x then 1 else 0)
  {
  }
}
