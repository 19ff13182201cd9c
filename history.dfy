/** A player's rating history and the as-of-date lookup of
    `Player.get_rating_as_of_date`. */
module History {
  import opened Wrappers

  /** One `(date, rating)` tuple of `Player.rating_history`. The entry a
      tracker gives a new player has no date. */
  datatype Entry = Entry(date: Option<int>, rating: real)

  /** The entry has a date no later than `q`. Undated entries form no group
      under pandas' `groupby`, get no rank and so never qualify. */
  predicate Qualifies(e: Entry, q: int)
  {
    e.date.Some? && e.date.value <= q
  }

  /** `a` outranks `b` (both dated): a later date, or the same date and a
      strictly higher rating. On equal ratings the earlier entry keeps its
      place, as `rank(method="first", ascending=False)` does. */
  predicate Outranks(a: Entry, b: Entry)
    requires a.date.Some? && b.date.Some?
  {
    a.date.value > b.date.value || (a.date == b.date && a.rating > b.rating)
  }

  /** Entry `k` is the one the lookup answers with: it qualifies, no
      qualifying entry has a later date, none on its date has a higher rating,
      and every earlier entry on its date has a strictly lower one. */
  ghost predicate Chosen(h: seq<Entry>, q: int, k: int)
  {
    && 0 <= k < |h|
    && Qualifies(h[k], q)
    && (forall i :: 0 <= i < |h| && Qualifies(h[i], q) ==> h[i].date.value <= h[k].date.value)
    && (forall i :: 0 <= i < |h| && Qualifies(h[i], q) && h[i].date == h[k].date ==> h[i].rating <= h[k].rating)
    && (forall i :: 0 <= i < k && h[i].date == h[k].date ==> h[i].rating < h[k].rating)
  }

  /** The index of the entry `get_rating_as_of_date` reads, scanning the
      history in order; `None` when no entry qualifies. */
  function Pick(h: seq<Entry>, q: int): (r: Option<nat>)
    ensures r.None? <==> forall i :: 0 <= i < |h| ==> !Qualifies(h[i], q)
    ensures r.Some? ==> Chosen(h, q, r.value)
  {
    if h == [] then None
    else
      var n := |h| - 1;
      var prev := Pick(h[..n], q);
      if !Qualifies(h[n], q) then prev
      else if prev.None? || Outranks(h[n], h[prev.value]) then Some(n)
      else prev
  }

  /** At most one entry is the chosen one. */
  lemma ChosenUnique(h: seq<Entry>, q: int, k: int, k': int)
    requires Chosen(h, q, k) && Chosen(h, q, k')
    ensures k == k'
  {
    assert h[k].date == h[k'].date;
    assert h[k].rating == h[k'].rating;
  }

  /** `get_rating_as_of_date(q, default)`. */
  function RatingAsOf(h: seq<Entry>, q: int, default: real): (r: real)
    ensures (exists k :: Chosen(h, q, k) && r == h[k].rating)
         || ((forall i :: 0 <= i < |h| ==> !Qualifies(h[i], q)) && r == default)
  {
    match Pick(h, q)
    case None => default
    case Some(k) => h[k].rating
  }

  /** An entry dated after every earlier entry is what the lookup returns
      from its date on. */
  lemma {:induction false} AppendLatest(h: seq<Entry>, d: int, rating: real, q: int, default: real)
    requires forall i :: 0 <= i < |h| && h[i].date.Some? ==> h[i].date.value < d
    requires d <= q
    ensures RatingAsOf(h + [Entry(Some(d), rating)], q, default) == rating
  {
    var h' := h + [Entry(Some(d), rating)];
    assert h'[..|h|] == h;
  }

  /** Appending an entry dated after `q` leaves the lookup at `q` unchanged. */
  lemma {:induction false} AppendAfter(h: seq<Entry>, d: int, rating: real, q: int, default: real)
    requires q < d
    ensures RatingAsOf(h + [Entry(Some(d), rating)], q, default) == RatingAsOf(h, q, default)
  {
    var h' := h + [Entry(Some(d), rating)];
    assert h'[..|h|] == h;
  }

  /** An entry without a date, as a matchup without a date appends, never
      changes the lookup. */
  lemma {:induction false} AppendUndated(h: seq<Entry>, rating: real, q: int, default: real)
    ensures RatingAsOf(h + [Entry(None, rating)], q, default) == RatingAsOf(h, q, default)
  {
    var h' := h + [Entry(None, rating)];
    assert h'[..|h|] == h;
  }

  /** tests/test_player_tracker.py: a player created on 2020-01-01 at 900 and
      updated monthly (dates written as yyyymmdd). */
  function MonthlyHistory(): seq<Entry>
  {
    [Entry(Some(20200101), 900.0), Entry(Some(20200201), 1100.0),
     Entry(Some(20200301), 1200.0), Entry(Some(20200401), 1300.0)]
  }

  lemma {:induction false} MonthlyUpdatesEarly()
    ensures RatingAsOf(MonthlyHistory(), 20191231, 1000.0) == 1000.0
    ensures RatingAsOf(MonthlyHistory(), 20200115, 1000.0) == 900.0
  {
    var h1 := [Entry(Some(20200101), 900.0)];
    var h2 := h1 + [Entry(Some(20200201), 1100.0)];
    var h3 := h2 + [Entry(Some(20200301), 1200.0)];
    assert MonthlyHistory() == h3 + [Entry(Some(20200401), 1300.0)];
    AppendAfter([], 20200101, 900.0, 20191231, 1000.0);
    AppendAfter(h1, 20200201, 1100.0, 20191231, 1000.0);
    AppendAfter(h2, 20200301, 1200.0, 20191231, 1000.0);
    AppendAfter(h3, 20200401, 1300.0, 20191231, 1000.0);
    AppendLatest([], 20200101, 900.0, 20200115, 1000.0);
    AppendAfter(h1, 20200201, 1100.0, 20200115, 1000.0);
    AppendAfter(h2, 20200301, 1200.0, 20200115, 1000.0);
    AppendAfter(h3, 20200401, 1300.0, 20200115, 1000.0);
  }

  lemma {:induction false} MonthlyUpdatesLate()
    ensures RatingAsOf(MonthlyHistory(), 20200215, 1000.0) == 1100.0
    ensures RatingAsOf(MonthlyHistory(), 20200315, 1000.0) == 1200.0
  {
    var h1 := [Entry(Some(20200101), 900.0)];
    var h2 := h1 + [Entry(Some(20200201), 1100.0)];
    var h3 := h2 + [Entry(Some(20200301), 1200.0)];
    assert MonthlyHistory() == h3 + [Entry(Some(20200401), 1300.0)];
    AppendLatest(h1, 20200201, 1100.0, 20200215, 1000.0);
    AppendAfter(h2, 20200301, 1200.0, 20200215, 1000.0);
    AppendAfter(h3, 20200401, 1300.0, 20200215, 1000.0);
    AppendLatest(h2, 20200301, 1200.0, 20200315, 1000.0);
    AppendAfter(h3, 20200401, 1300.0, 20200315, 1000.0);
  }

  /** tests/test_player_tracker.py: a history supplied at construction is
      looked up as given. */
  lemma {:induction false} SuppliedHistory()
    ensures RatingAsOf([Entry(Some(1), 1000.0), Entry(Some(2), 1100.0)], 1, 1000.0) == 1000.0
    ensures RatingAsOf([Entry(Some(1), 1000.0), Entry(Some(2), 1100.0)], 2, 1000.0) == 1100.0
  {
    var h1 := [Entry(Some(1), 1000.0)];
    assert [Entry(Some(1), 1000.0), Entry(Some(2), 1100.0)] == h1 + [Entry(Some(2), 1100.0)];
    AppendLatest([], 1, 1000.0, 1, 1000.0);
    AppendAfter(h1, 2, 1100.0, 1, 1000.0);
    AppendLatest(h1, 2, 1100.0, 2, 1000.0);
  }

  /** Two entries on the same date: the lookup returns the higher rating even
      though the lower one was appended last. */
  lemma {:induction false} SameDateHigherRatingWins()
    ensures RatingAsOf([Entry(None, 1000.0), Entry(Some(5), 1100.0), Entry(Some(5), 900.0)], 5, 0.0) == 1100.0
  {
    var h := [Entry(None, 1000.0), Entry(Some(5), 1100.0), Entry(Some(5), 900.0)];
    assert Chosen(h, 5, 1);
  }
}
