/** The classes of player_tracker.py: `Player`, whose rating and history
    change in place, and `Tracker`, which owns a sorted column of player ids
    and the `Player` objects under them. Each method is proved to act on the
    tracker's players exactly as the functions of module Registry say. */
module PlayerTracker {
  import opened Wrappers
  import opened History
  import opened PlayerIds
  import opened MultiElo
  import opened Registry

  class Player {
    const id: string
    var rating: real
    var ratingHistory: seq<Entry>

    /** `Player(player_id, rating, rating_history, date)`: without a history
        the player starts with the single entry `(date, rating)`; a given
        history is kept as it is, whatever `rating` says. */
    constructor (id: string, rating: real, ratingHistory: Option<seq<Entry>>, date: Option<int>)
      ensures this.id == id && this.rating == rating
      ensures ratingHistory.None? ==> this.ratingHistory == [Entry(date, rating)]
      ensures ratingHistory.None? ==> CountGames() == 0
      ensures ratingHistory.Some? ==> this.ratingHistory == ratingHistory.value
    {
      this.id := id;
      this.rating := rating;
      this.ratingHistory := if ratingHistory.None? then [] else ratingHistory.value;
      new;
      if ratingHistory.None? {
        UpdateRatingHistory(rating, date);
      }
    }

    /** The player as a value. */
    function State(): PlayerState
      reads this
    {
      PlayerState(rating, ratingHistory)
    }

    /** `update_rating(new_rating, date)`: one more game, the new rating is
        current and is the last entry of the history. */
    method UpdateRating(newRating: real, date: Option<int>)
      modifies this
      ensures State() == Update(old(State()), newRating, date)
      ensures CountGames() == old(CountGames()) + 1
    {
      rating := newRating;
      UpdateRatingHistory(newRating, date);
    }

    /** `_update_rating_history(rating, date)`: appends `(date, rating)`. */
    method UpdateRatingHistory(rating: real, date: Option<int>)
      modifies this
      ensures ratingHistory == old(ratingHistory) + [Entry(date, rating)]
      ensures this.rating == old(this.rating)
    {
      ratingHistory := ratingHistory + [Entry(date, rating)];
    }

    /** `count_games()`: the entries after the first. */
    function CountGames(): int
      reads this
    {
      Games(State())
    }

    /** `get_rating_as_of_date(date, default_rating)`: the rating of the entry
        chosen among those dated on or before `date`, or the default when
        there is none. */
    function RatingAsOfDate(date: int, defaultRating: real): (r: real)
      reads this
      ensures (exists k :: Chosen(ratingHistory, date, k) && r == ratingHistory[k].rating)
           || ((forall i :: 0 <= i < |ratingHistory| ==> !Qualifies(ratingHistory[i], date)) && r == defaultRating)
    {
      RatingAsOf(ratingHistory, date, defaultRating)
    }

    // The comparison operators compare the current rating with `other`.
    // Between two players Python reflects the call, so `p < q` compares
    // `p.rating` with `q.rating`.

    predicate Eq(other: real)
      reads this
    {
      rating == other
    }

    predicate Lt(other: real)
      reads this
    {
      rating < other
    }

    predicate Le(other: real)
      reads this
    {
      rating <= other
    }

    predicate Gt(other: real)
      reads this
    {
      rating > other
    }

    predicate Ge(other: real)
      reads this
    {
      rating >= other
    }
  }

  /** The errors `Tracker` raises. */
  datatype TrackerError =
    | DuplicatePlayerIds
    | PlayerNotFound(playerId: string)
    | PlayerAlreadyExists(playerId: string)

  /** The id column of a `player_df`. */
  function IdColumn(playerDf: seq<(string, Player)>): (ids: seq<string>)
    ensures |ids| == |playerDf|
    ensures forall i :: 0 <= i < |playerDf| ==> ids[i] == playerDf[i].0
  {
    seq(|playerDf|, i requires 0 <= i < |playerDf| => playerDf[i].0)
  }

  /** The `player` column of a `player_df` without duplicate ids, keyed by
      id. */
  function Column(playerDf: seq<(string, Player)>): (m: map<string, Player>)
    requires Unique(IdColumn(playerDf))
    ensures forall id :: id in m <==> id in IdColumn(playerDf)
    ensures forall i :: 0 <= i < |playerDf| ==> playerDf[i].0 in m && m[playerDf[i].0] == playerDf[i].1
    ensures (forall i, j :: 0 <= i < j < |playerDf| ==> playerDf[i].1 != playerDf[j].1) ==>
      forall a, b :: a in m && b in m && a != b ==> m[a] != m[b]
  {
    ColumnKeys(playerDf);
    ColumnDistinct(playerDf);
    ColumnMap(playerDf)
  }

  /** The map comprehension behind `Column`. */
  function ColumnMap(playerDf: seq<(string, Player)>): map<string, Player>
    requires Unique(IdColumn(playerDf))
  {
    map i | 0 <= i < |playerDf| :: playerDf[i].0 := playerDf[i].1
  }

  lemma ColumnKeys(playerDf: seq<(string, Player)>)
    requires Unique(IdColumn(playerDf))
    ensures forall id :: id in ColumnMap(playerDf) <==> id in IdColumn(playerDf)
    ensures forall i :: 0 <= i < |playerDf| ==>
      playerDf[i].0 in ColumnMap(playerDf) && ColumnMap(playerDf)[playerDf[i].0] == playerDf[i].1
  {
    var ids := IdColumn(playerDf);
    var m := ColumnMap(playerDf);
    forall id | id in ids
      ensures id in m
    {
      var i :| 0 <= i < |ids| && ids[i] == id;
    }
  }

  lemma ColumnDistinct(playerDf: seq<(string, Player)>)
    requires Unique(IdColumn(playerDf))
    ensures (forall i, j :: 0 <= i < j < |playerDf| ==> playerDf[i].1 != playerDf[j].1) ==>
      forall a, b :: a in ColumnMap(playerDf) && b in ColumnMap(playerDf) && a != b ==> ColumnMap(playerDf)[a] != ColumnMap(playerDf)[b]
  {
    var m := ColumnMap(playerDf);
    forall a, b | a in m && b in m && a != b
      ensures exists i, j :: 0 <= i < |playerDf| && 0 <= j < |playerDf| && i != j && m[a] == playerDf[i].1 && m[b] == playerDf[j].1
    {
      var i :| 0 <= i < |playerDf| && playerDf[i].0 == a;
      var j :| 0 <= j < |playerDf| && playerDf[j].0 == b;
    }
  }

  /** Two columns with the same ids as a multiset name the same ids. */
  lemma SameIds(a: seq<string>, b: seq<string>)
    requires multiset(a) == multiset(b)
    ensures forall id :: id in a <==> id in b
  {
    forall id
      ensures id in a <==> id in b
    {
      assert id in a <==> id in multiset(a);
      assert id in b <==> id in multiset(b);
    }
  }

  /** Two maps with the same keys and the same value at each key are equal. */
  lemma SameStates(a: Players, b: Players)
    requires a.Keys == b.Keys
    requires forall x :: x in a ==> a[x] == b[x]
    ensures a == b
  {
  }

  /** Every player object holds the id it is filed under, as every player
      the tracker creates does; a supplied `player_df` need not. */
  predicate OwnIds(players: map<string, Player>)
  {
    forall x :: x in players ==> players[x].id == x
  }

  /** `np.array([player.rating for player in players])`. */
  function RosterRatings(roster: seq<Player>): (r: seq<real>)
    reads roster
    ensures |r| == |roster|
    ensures forall k :: 0 <= k < |roster| ==> r[k] == roster[k].rating
  {
    if roster == [] then []
    else
      var n := |roster| - 1;
      RosterRatings(roster[..n]) + [roster[n].rating]
  }

  /** The id column after `pd.concat` of a new id and `_validate_player_df`. */
  function AppendId(ids: seq<string>, id: string): (r: seq<string>)
    requires StrictlySorted(ids) && id !in ids
    ensures r == Insert(ids, id)
    ensures StrictlySorted(r) && forall x :: x in r <==> x in ids || x == id
  {
    InsertValidated(ids, id);
    ValidateIds(ids + [id]).value
  }

  class Tracker {
    const rater: Rater
    const initialPlayerRating: real
    /** The `player_id` column of `player_df`. */
    var playerIds: seq<string>
    /** The `player` column of `player_df`, keyed by id. */
    var players: map<string, Player>

    /** The id column is sorted without duplicates and names exactly the
        players; different ids hold different `Player` objects. */
    ghost predicate Valid()
      reads this
    {
      && StrictlySorted(playerIds)
      && (forall id :: id in players <==> id in playerIds)
      && (forall a, b :: a in players && b in players && a != b ==> players[a] != players[b])
      && KeepsShape(EloRate(rater))
    }

    /** The id each player object holds, by the key it is filed under. */
    function Labels(): (r: map<string, string>)
      reads this
      ensures r.Keys == players.Keys
    {
      map x | x in players :: players[x].id
    }

    /** The players as values. */
    function Model(): Players
      reads this, players.Values
    {
      map id | id in players :: players[id].State()
    }

    constructor (rater: Rater, initialRating: real, ids: seq<string>, players: map<string, Player>)
      requires StrictlySorted(ids) && (forall id :: id in players <==> id in ids)
      requires forall a, b :: a in players && b in players && a != b ==> players[a] != players[b]
      ensures Valid()
      ensures this.rater == rater && initialPlayerRating == initialRating
      ensures playerIds == ids && this.players == players
    {
      this.rater := rater;
      initialPlayerRating := initialRating;
      playerIds := ids;
      this.players := players;
      EloRateKeepsShape(rater);
    }

    /** `Tracker(elo_rater, initial_rating, player_df)` followed by
        `_validate_player_df`: no `player_df` means no players; duplicate ids
        raise; otherwise the column is sorted by id. */
    static method Create(rater: Rater, initialRating: real, playerDf: Option<seq<(string, Player)>>)
      returns (r: Result<Tracker, TrackerError>)
      requires playerDf.Some? ==>
        forall i, j :: 0 <= i < j < |playerDf.value| ==> playerDf.value[i].1 != playerDf.value[j].1
      ensures r.Failure? <==> playerDf.Some? && !Unique(IdColumn(playerDf.value))
      ensures r.Failure? ==> r.error == TrackerError.DuplicatePlayerIds
      ensures r.Success? ==> fresh(r.value) && r.value.Valid()
      ensures r.Success? ==> r.value.rater == rater && r.value.initialPlayerRating == initialRating
      ensures r.Success? && playerDf.None? ==> r.value.playerIds == [] && r.value.players == map[]
      ensures r.Success? && playerDf.Some? ==>
        && multiset(r.value.playerIds) == multiset(IdColumn(playerDf.value))
        && (forall i :: 0 <= i < |playerDf.value| ==> playerDf.value[i].0 in r.value.players)
        && (forall i :: 0 <= i < |playerDf.value| ==> r.value.players[playerDf.value[i].0] == playerDf.value[i].1)
    {
      var df := if playerDf.None? then [] else playerDf.value;
      var validated := ValidateIds(IdColumn(df));
      if validated.Failure? {
        return Failure(TrackerError.DuplicatePlayerIds);
      }
      var column := Column(df);
      SameIds(validated.value, IdColumn(df));
      var t := new Tracker(rater, initialRating, validated.value, column);
      return Success(t);
    }

    /** `retrieve_existing_player(player_id)`: the player under the id, or an
        error when the column does not hold the id. */
    function RetrieveExistingPlayer(id: string): (r: Result<Player, TrackerError>)
      requires Valid()
      reads this
      ensures r.Success? <==> id in playerIds
      ensures r.Success? ==> id in players && r.value == players[id]
      ensures r.Failure? ==> r.error == PlayerNotFound(id)
    {
      if id in playerIds then Success(players[id]) else Failure(PlayerNotFound(id))
    }

    /** `_create_new_player(player_id)`: an id already present raises and
        changes nothing; otherwise a fresh player at the initial rating joins
        the id column at its sorted place. */
    method CreateNewPlayer(id: string) returns (r: Result<Player, TrackerError>)
      requires Valid()
      modifies this
      ensures Valid()
      ensures id in old(playerIds) ==> r == Failure(PlayerAlreadyExists(id))
      ensures id in old(playerIds) ==> playerIds == old(playerIds) && players == old(players)
      ensures id !in old(playerIds) ==> r.Success? && fresh(r.value) && players == old(players)[id := r.value]
      ensures id !in old(playerIds) ==> playerIds == Insert(old(playerIds), id)
      ensures id !in old(playerIds) ==> Model() == old(Model())[id := Fresh(initialPlayerRating)]
      ensures id !in old(playerIds) ==> r.value.id == id
      ensures OwnIds(old(players)) ==> OwnIds(players)
    {
      if id in playerIds {
        return Failure(PlayerAlreadyExists(id));
      }
      ghost var before := Model();
      var player := new Player(id, initialPlayerRating, None, None);
      AppendPlayer(id, player);
      forall x | x in players
        ensures Model()[x] == before[id := Fresh(initialPlayerRating)][x]
      {
        if x != id {
          assert players[x] == old(players[x]);
        }
      }
      assert Model() == before[id := Fresh(initialPlayerRating)];
      return Success(player);
    }

    /** `pd.concat` of a one-row `player_df` followed by `_validate_player_df`:
        the new id joins the id column at its sorted place and the new player
        joins the player column; no other player changes. */
    method AppendPlayer(id: string, player: Player)
      requires Valid() && id !in playerIds && player !in players.Values
      modifies this
      ensures Valid()
      ensures playerIds == Insert(old(playerIds), id)
      ensures players == old(players)[id := player]
    {
      playerIds := AppendId(playerIds, id);
      players := players[id := player];
    }

    /** `_get_or_create_player(player_id)`: the existing player, or a new one
        at the initial rating. */
    method GetOrCreatePlayer(id: string) returns (p: Player)
      requires Valid()
      modifies this
      ensures Valid()
      ensures id in players && p == players[id]
      ensures forall x :: x in old(players) ==> x in players && players[x] == old(players[x])
      ensures forall x :: x in players ==> x in old(players) || x == id
      ensures id !in old(players) ==> fresh(p) && p.id == id
      ensures Model() == if id in old(Model()) then old(Model()) else old(Model())[id := Fresh(initialPlayerRating)]
      ensures OwnIds(old(players)) ==> OwnIds(players)
    {
      if id in playerIds {
        var r := RetrieveExistingPlayer(id);
        p := r.value;
      } else {
        var r := CreateNewPlayer(id);
        p := r.value;
      }
    }
  
    /** `[self._get_or_create_player(row[x]) for x in place_cols ...]`: the
        players of a row in finishing order, created as needed. */
    method GetOrCreatePlayers(ids: seq<string>) returns (roster: seq<Player>)
      requires Valid()
      modifies this
      ensures Valid()
      ensures |roster| == |ids|
      ensures forall k :: 0 <= k < |ids| ==> ids[k] in players && roster[k] == players[ids[k]]
      ensures Model() == Resolve(old(Model()), ids, initialPlayerRating)
      ensures forall x :: x in old(players) ==> x in players && players[x] == old(players[x])
      ensures forall x :: x in players ==> x in old(players) || (fresh(players[x]) && players[x].id == x)
    {
      ghost var m0 := Model();
      roster := [];
      var j := 0;
      while j < |ids|
        invariant 0 <= j <= |ids| && |roster| == j
        invariant Valid()
        invariant Model() == Resolve(m0, ids[..j], initialPlayerRating)
        invariant forall k :: 0 <= k < j ==> ids[k] in players && roster[k] == players[ids[k]]
        invariant forall x :: x in old(players) ==> x in players && players[x] == old(players[x])
        invariant forall x :: x in players ==> x in old(players) || (fresh(players[x]) && players[x].id == x)
      {
        ghost var before, column := Model(), players;
        var player := GetOrCreatePlayer(ids[j]);
        ResolveStep(m0, ids, j, initialPlayerRating);
        forall k | 0 <= k < j + 1
          ensures ids[k] in players && (roster + [player])[k] == players[ids[k]]
        {
          if k < j {
            assert ids[k] in column && roster[k] == column[ids[k]];
          }
        }
        roster := roster + [player];
        j := j + 1;
      }
      assert ids[..j] == ids;
    }

    /** `player.update_rating(new_ratings[i], date=date)` for each player of
        the row in turn. */
    method UpdateRoster(roster: seq<Player>, ids: seq<string>, newRatings: seq<real>, date: Option<int>)
      requires Valid()
      requires |roster| == |ids| == |newRatings|
      requires forall k :: 0 <= k < |ids| ==> ids[k] in players && roster[k] == players[ids[k]]
      modifies players.Values
      ensures Model() == Record(old(Model()), ids, newRatings, date)
    {
      ghost var m1 := Model();
      var j := 0;
      while j < |roster|
        invariant 0 <= j <= |roster|
        invariant Model() == Record(m1, ids[..j], newRatings[..j], date)
      {
        UpdatePlayer(roster[j], ids[j], newRatings[j], date);
        RecordStep(m1, ids, newRatings, date, j);
        j := j + 1;
      }
      assert ids[..j] == ids && newRatings[..j] == newRatings;
    }

    /** `player.update_rating(new_rating, date)` for one player of the
        roster: only that player's state changes. */
    method UpdatePlayer(player: Player, id: string, newRating: real, date: Option<int>)
      requires Valid() && id in players && players[id] == player
      modifies player
      ensures Model() == old(Model())[id := Update(old(Model())[id], newRating, date)]
    {
      ghost var before := Model();
      player.UpdateRating(newRating, date);
      forall x | x in players
        ensures Model()[x] == before[id := Update(before[id], newRating, date)][x]
      {
        if x != id {
          assert players[x] != player;
        }
      }
      SameStates(Model(), before[id := Update(before[id], newRating, date)]);
    }

    /** One iteration of the loop in `process_data`: get or create the
        players of the row in finishing order, rate them, and update each. */
    method ProcessMatchup(row: Matchup) returns (failure: Option<EloError>)
      requires Valid()
      modifies this, players.Values
      ensures Valid()
      ensures Step(Model(), failure) == ApplyMatchup(EloRate(rater), initialPlayerRating, old(Model()), row)
      ensures forall x :: x in old(players) ==> x in players && players[x] == old(players[x])
      ensures forall x :: x in players ==> x in old(players) || (fresh(players[x]) && players[x].id == x)
    {
      var ids := Present(row.placements);
      var roster := GetOrCreatePlayers(ids);
      ghost var m1 := Model();
      var ratings := RosterRatings(roster);
      assert ratings == Ratings(m1, ids);
      var result := GetNewRatings(rater, ratings);
      ApplyMatchupRated(EloRate(rater), initialPlayerRating, old(Model()), row, result);
      if result.Failure? {
        return Some(result.error);
      }
      UpdateRoster(roster, ids, result.value, row.date);
      return None;
    }

    /** `process_data(matchup_history_df)`: sort the rows by date, drop the
        blank ones, and process them in turn; the first error stops the
        loop, leaving the players as they are at that point. */
    method ProcessData(rows: seq<Matchup>) returns (failure: Option<EloError>)
      requires Valid()
      modifies this, players.Values
      ensures Valid()
      ensures Step(Model(), failure) == Process(EloRate(rater), initialPlayerRating, old(Model()), rows)
      ensures forall x :: x in old(players) ==> x in players && players[x] == old(players[x])
      ensures OwnIds(old(players)) ==> OwnIds(players)
    {
      var table := DropBlank(SortByDate(rows));
      ghost var m0 := Model();
      failure := None;
      var i := 0;
      while i < |table|
        invariant 0 <= i <= |table| && failure.None?
        invariant Valid()
        invariant Run(EloRate(rater), initialPlayerRating, m0, table[..i]) == Step(Model(), None)
        invariant forall x :: x in old(players) ==> x in players && players[x] == old(players[x])
        invariant forall x :: x in players ==> x in old(players) || (fresh(players[x]) && players[x].id == x)
      {
        failure := ProcessMatchup(table[i]);
        RunStep(EloRate(rater), initialPlayerRating, m0, table, i);
        if failure.Some? {
          RunStopped(EloRate(rater), initialPlayerRating, m0, table, i + 1);
          return;
        }
        i := i + 1;
      }
      assert table[..i] == table;
    }

    /** `get_current_ratings()`: every player once, best rating first, ranked
        1, 2, ... in that order, with games played. */
    function CurrentRatings(): (r: seq<Standing>)
      requires Valid()
      reads this, players.Values
      ensures |r| == |playerIds|
      ensures forall i :: 0 <= i < |r| ==> r[i].rank == i + 1
      ensures forall i, j :: 0 <= i < j < |r| ==> r[i].rating >= r[j].rating
      ensures multiset(Unranked(r)) == multiset(Lines(Model(), playerIds))
    {
      Registry.CurrentRatings(Model(), playerIds)
    }

    /** `get_current_ratings` sorts the `Player` objects with their own
        operators: a player listed above another compares `>=` and `>` or
        `==` with it, never `<`, and the one below compares `<=`. */
    lemma StandingsCompare(i: nat, j: nat)
      requires Valid() && i < j < |CurrentRatings()|
      ensures CurrentRatings()[i].playerId in players && CurrentRatings()[j].playerId in players
      ensures var above, below := players[CurrentRatings()[i].playerId], players[CurrentRatings()[j].playerId];
        && above.Ge(below.rating)
        && (above.Gt(below.rating) || above.Eq(below.rating))
        && !above.Lt(below.rating)
        && below.Le(above.rating)
    {
      var r := CurrentRatings();
      StandingIsPlayer(r, i);
      StandingIsPlayer(r, j);
    }

    /** A row of the standings shows a tracked player and that player's
        current rating. */
    lemma StandingIsPlayer(r: seq<Standing>, i: nat)
      requires Valid() && r == CurrentRatings() && i < |r|
      ensures r[i].playerId in players && r[i].rating == players[r[i].playerId].rating
    {
      var lines := Lines(Model(), playerIds);
      assert Unranked(r)[i] in multiset(Unranked(r));
      var k :| 0 <= k < |lines| && lines[k] == Unranked(r)[i];
      assert playerIds[k] in players;
    }

    /** `get_history_df()`: one row per dated history entry of every player,
        labelled with the id the player object holds. */
    function HistoryDf(): (r: seq<HistoryRow>)
      requires Valid()
      reads this, players.Values
      ensures forall row :: row in r <==>
        exists x :: x in playerIds && row.playerId == players[x].id &&
          Entry(Some(row.date), row.rating) in players[x].ratingHistory
    {
      HistoryRowsMembers(Model(), Labels(), playerIds);
      HistoryRows(Model(), Labels(), playerIds)
    }

    /** When every player holds its own key as id, the history report is
        keyed by the id column. */
    lemma HistoryDfOwnIds()
      requires Valid() && OwnIds(players)
      ensures forall row :: row in HistoryDf() <==>
        row.playerId in playerIds && Entry(Some(row.date), row.rating) in players[row.playerId].ratingHistory
    {
      HistoryRowsOwnIds(Model(), Labels(), playerIds);
    }
  }
}
