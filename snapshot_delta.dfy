/**
 * The "hours played on a day" diagnosis of test.py: the day's top games by
 * cumulative hours, diffed against the previous day's per-game snapshot,
 * keeping the games whose hours grew by more than a noise threshold; and the
 * "nearly identical" check on the two days' totals.
 *
 * Hours are exact reals where Python uses floats; `round(..., 1)` is not
 * applied, so result entries carry the unrounded values.
 */
module SnapshotDelta {
  import opened Common

  /** At most this many rows of the current day are examined (`LIMIT 10`). */
  const TopGames: nat := 10
  /** A game counts as played when its hours grew by strictly more than this. */
  const ChangeThreshold: real := 0.1
  /** Two daily totals closer than this are "nearly identical". */
  const IdenticalTolerance: real := 0.1

  /** One row of the current day's `daily_game_snapshots` query. */
  datatype SnapshotRow = SnapshotRow(gameId: int, title: string, hours: real, coverUrl: Option<string>)

  /** One row of the previous day's query: only the id and the hours. */
  datatype PrevRow = PrevRow(gameId: int, hours: real)

  /** One entry of `games_with_changes`. */
  datatype Change = Change(title: string, hoursAdded: real, totalHours: real)

  /** Rows ordered by hours, largest first, as `ORDER BY hours_played DESC` returns them. */
  predicate SortedByHoursDesc(rows: seq<SnapshotRow>)
  {
    forall i, j :: 0 <= i < j < |rows| ==> rows[i].hours >= rows[j].hours
  }

  /**
   * `LIMIT 10` applied to the day's rows (which the database has already
   * ordered): the examined games are a prefix of at most ten rows.
   */
  function TopCurrent(rows: seq<SnapshotRow>): (r: seq<SnapshotRow>)
    ensures |r| <= TopGames
    ensures |r| == Min(|rows|, TopGames)
    ensures r == rows[..|r|]
  {
    if |rows| <= TopGames then rows else rows[..TopGames]
  }

  /**
   * `{row['game_id']: row['hours_played'] for row in rows}`: the previous
   * day's hours by game id; a later row with the same id overwrites an
   * earlier one.
   */
  function PrevSnapshot(rows: seq<PrevRow>): (prev: map<int, real>)
    ensures forall i :: 0 <= i < |rows| ==> rows[i].gameId in prev
    ensures |prev| <= |rows|
    decreases |rows|
  {
    if |rows| == 0 then map[]
    else PrevSnapshot(rows[..|rows| - 1])[rows[|rows| - 1].gameId := rows[|rows| - 1].hours]
  }

  /** A game id is a key of the map exactly when some row carries it. */
  lemma {:induction false} PrevSnapshotKeys(rows: seq<PrevRow>, id: int)
    ensures id in PrevSnapshot(rows) <==> exists i :: 0 <= i < |rows| && rows[i].gameId == id
    decreases |rows|
  {
    if |rows| > 0 {
      var init := rows[..|rows| - 1];
      PrevSnapshotKeys(init, id);
      if id in PrevSnapshot(init) {
        var i :| 0 <= i < |init| && init[i].gameId == id;
        assert rows[i].gameId == id;
      }
      if exists i :: 0 <= i < |rows| && rows[i].gameId == id {
        var i :| 0 <= i < |rows| && rows[i].gameId == id;
        if i < |init| {
          assert init[i].gameId == id;
        }
      }
    }
  }

  /** The hours stored for an id are those of the last row carrying it. */
  lemma {:induction false} PrevSnapshotLastWins(rows: seq<PrevRow>, i: nat)
    requires i < |rows|
    requires forall j :: i < j < |rows| ==> rows[j].gameId != rows[i].gameId
    ensures rows[i].gameId in PrevSnapshot(rows)
    ensures PrevSnapshot(rows)[rows[i].gameId] == rows[i].hours
    decreases |rows|
  {
    if i < |rows| - 1 {
      var init := rows[..|rows| - 1];
      PrevSnapshotLastWins(init, i);
    }
  }

  /** `prev_snapshot.get(game_id, 0)`. */
  function PrevHours(prev: map<int, real>, id: int): (h: real)
    ensures id in prev ==> h == prev[id]
    ensures id !in prev ==> h == 0.0
  {
    if id in prev then prev[id] else 0.0
  }

  /** `hours_added`: current hours minus previous hours, previous defaulting to 0. */
  function HoursAdded(row: SnapshotRow, prev: map<int, real>): (h: real)
    ensures row.gameId in prev ==> h == row.hours - prev[row.gameId]
    ensures row.gameId !in prev ==> h == row.hours
  {
    row.hours - PrevHours(prev, row.gameId)
  }

  predicate Played(row: SnapshotRow, prev: map<int, real>)
  {
    HoursAdded(row, prev) > ChangeThreshold
  }

  /** The entry appended for a played game. */
  function ChangeOf(row: SnapshotRow, prev: map<int, real>): Change
  {
    Change(row.title, HoursAdded(row, prev), row.hours)
  }

  /** Reference definition of the loop: filter, then shape. */
  function Changes(current: seq<SnapshotRow>, prev: map<int, real>): (changes: seq<Change>)
    ensures |changes| <= |current|
    decreases |current|
  {
    if |current| == 0 then []
    else
      var rest := Changes(current[..|current| - 1], prev);
      var last := current[|current| - 1];
      if Played(last, prev) then rest + [ChangeOf(last, prev)] else rest
  }

  /** The positions of `current` whose game was played, in increasing order. */
  function PlayedIndices(current: seq<SnapshotRow>, prev: map<int, real>): (indices: seq<nat>)
    decreases |current|
  {
    if |current| == 0 then []
    else
      var rest := PlayedIndices(current[..|current| - 1], prev);
      if Played(current[|current| - 1], prev) then rest + [|current| - 1] else rest
  }

  predicate StrictlyIncreasing(s: seq<nat>)
  {
    forall a, b :: 0 <= a < b < |s| ==> s[a] < s[b]
  }

  /**
   * The loop of test.py:64-78: for each examined game, compute the hours
   * added and append an entry when it exceeds the threshold.
   */
  method ComputeChanges(current: seq<SnapshotRow>, prev: map<int, real>) returns (changes: seq<Change>)
    ensures changes == Changes(current, prev)
  {
    changes := [];
    var i := 0;
    while i < |current|
      invariant 0 <= i <= |current|
      invariant changes == Changes(current[..i], prev)
    {
      var game := current[i];
      var prevHours := if game.gameId in prev then prev[game.gameId] else 0.0;
      var hoursAdded := game.hours - prevHours;
      if hoursAdded > ChangeThreshold {
        changes := changes + [Change(game.title, hoursAdded, game.hours)];
      }
      assert current[..i + 1][..i] == current[..i];
      i := i + 1;
    }
    assert current[..i] == current;
  }

  /**
   * The result is exactly the played games of `current`, as a subsequence in
   * the same order: entry k is the entry of the game at position
   * `PlayedIndices[k]`, those positions increase, and a position is among them
   * iff that game's hours added exceed the threshold.
   */
  /** Entry k of the result is the entry of the game at position `PlayedIndices[k]`. */
  lemma {:induction false} ChangesAtPlayedIndices(current: seq<SnapshotRow>, prev: map<int, real>)
    ensures |Changes(current, prev)| == |PlayedIndices(current, prev)|
    ensures StrictlyIncreasing(PlayedIndices(current, prev))
    ensures forall k :: 0 <= k < |PlayedIndices(current, prev)| ==>
      PlayedIndices(current, prev)[k] < |current| &&
      Changes(current, prev)[k] == ChangeOf(current[PlayedIndices(current, prev)[k]], prev)
    decreases |current|
  {
    if |current| > 0 {
      var init := current[..|current| - 1];
      var last := current[|current| - 1];
      ChangesAtPlayedIndices(init, prev);
      var rest, idx := PlayedIndices(init, prev), PlayedIndices(current, prev);
      var restChanges, changes := Changes(init, prev), Changes(current, prev);
      assert idx == if Played(last, prev) then rest + [|current| - 1] else rest;
      assert changes == if Played(last, prev) then restChanges + [ChangeOf(last, prev)] else restChanges;
      forall k | 0 <= k < |rest|
        ensures idx[k] == rest[k] && changes[k] == restChanges[k] && current[rest[k]] == init[rest[k]]
      {
      }
    }
  }

  /** A position is kept iff that game's hours added exceed the threshold. */
  lemma {:induction false} PlayedIndicesMembership(current: seq<SnapshotRow>, prev: map<int, real>, i: nat)
    requires i < |current|
    ensures i in PlayedIndices(current, prev) <==> HoursAdded(current[i], prev) > ChangeThreshold
    decreases |current|
  {
    var init := current[..|current| - 1];
    var last := current[|current| - 1];
    var rest := PlayedIndices(init, prev);
    assert PlayedIndices(current, prev) == if Played(last, prev) then rest + [|current| - 1] else rest;
    ChangesAtPlayedIndices(init, prev);
    assert |current| - 1 !in rest;
    if i < |init| {
      PlayedIndicesMembership(init, prev, i);
      assert current[i] == init[i];
    }
  }

  /**
   * The result is exactly the played games of `current`, as a subsequence in
   * the same order: entry k is the entry of the game at position
   * `PlayedIndices[k]`, those positions increase, and a position is among them
   * iff that game's hours added exceed the threshold.
   */
  lemma ChangesCharacterized(current: seq<SnapshotRow>, prev: map<int, real>)
    ensures |Changes(current, prev)| == |PlayedIndices(current, prev)|
    ensures StrictlyIncreasing(PlayedIndices(current, prev))
    ensures forall k :: 0 <= k < |PlayedIndices(current, prev)| ==>
      PlayedIndices(current, prev)[k] < |current| &&
      Changes(current, prev)[k] == ChangeOf(current[PlayedIndices(current, prev)[k]], prev)
    ensures forall i :: 0 <= i < |current| ==>
      (i in PlayedIndices(current, prev) <==> HoursAdded(current[i], prev) > ChangeThreshold)
  {
    ChangesAtPlayedIndices(current, prev);
    forall i | 0 <= i < |current|
      ensures i in PlayedIndices(current, prev) <==> HoursAdded(current[i], prev) > ChangeThreshold
    {
      PlayedIndicesMembership(current, prev, i);
    }
  }

  /** Every entry reports the game's current cumulative hours. */
  lemma ChangesTotalHours(current: seq<SnapshotRow>, prev: map<int, real>, k: nat)
    requires k < |Changes(current, prev)|
    ensures exists i :: (0 <= i < |current| &&
                         Changes(current, prev)[k].totalHours == current[i].hours &&
                         Changes(current, prev)[k].hoursAdded == current[i].hours - PrevHours(prev, current[i].gameId) &&
                         Changes(current, prev)[k].hoursAdded > ChangeThreshold)
  {
    ChangesCharacterized(current, prev);
    var i := PlayedIndices(current, prev)[k];
    assert i in PlayedIndices(current, prev);
  }

  /** Games with zero or negative change never appear. */
  lemma NoGainNotReported(current: seq<SnapshotRow>, prev: map<int, real>, i: nat)
    requires i < |current|
    requires current[i].hours <= PrevHours(prev, current[i].gameId)
    ensures i !in PlayedIndices(current, prev)
  {
    ChangesCharacterized(current, prev);
  }

  /**
   * When the rows come in descending order of hours, so do the entries'
   * total hours.
   */
  lemma ChangesSortedByTotal(current: seq<SnapshotRow>, prev: map<int, real>)
    requires SortedByHoursDesc(current)
    ensures forall a, b :: 0 <= a < b < |Changes(current, prev)| ==>
      Changes(current, prev)[a].totalHours >= Changes(current, prev)[b].totalHours
  {
    ChangesCharacterized(current, prev);
  }

  /** At most ten entries, since at most ten rows are examined. */
  lemma ChangesAtMostTop(dayRows: seq<SnapshotRow>, prev: map<int, real>)
    ensures |Changes(TopCurrent(dayRows), prev)| <= TopGames
  {
  }

  /**
   * With no previous snapshot at all, nothing distinguishes a first day:
   * every examined game with more than 0.1 cumulative hours is reported,
   * with all its hours counted as added that day.
   */
  lemma NoPreviousSnapshot(current: seq<SnapshotRow>, prevRows: seq<PrevRow>)
    requires prevRows == []
    ensures forall i :: 0 <= i < |current| ==>
      (i in PlayedIndices(current, PrevSnapshot(prevRows)) <==> current[i].hours > ChangeThreshold)
    ensures forall k :: 0 <= k < |Changes(current, PrevSnapshot(prevRows))| ==>
      Changes(current, PrevSnapshot(prevRows))[k].hoursAdded ==
      Changes(current, PrevSnapshot(prevRows))[k].totalHours
  {
    var prev := PrevSnapshot(prevRows);
    assert prev == map[];
    ChangesCharacterized(current, prev);
  }

  /** `abs(today - yesterday) < 0.1`. */
  function NearlyIdentical(today: real, yesterday: real): (r: bool)
    ensures r <==> -IdenticalTolerance < today - yesterday < IdenticalTolerance
  {
    (if today >= yesterday then today - yesterday else yesterday - today) < IdenticalTolerance
  }

  lemma NearlyIdenticalSymmetric(a: real, b: real)
    ensures NearlyIdentical(a, b) == NearlyIdentical(b, a)
  {
  }

  /**
   * test.py:101-111: both totals are fetched with `fetchone()`; when either
   * day has no `daily_snapshots` row the subscript of `None` raises and the
   * script stops (result `None`); otherwise the verdict of the check.
   */
  function TotalsDiagnosis(prevTotal: Option<real>, currentTotal: Option<real>): (r: Option<bool>)
    ensures r.Some? <==> prevTotal.Some? && currentTotal.Some?
    ensures r.Some? ==> (r.value <==>
      -IdenticalTolerance < currentTotal.value - prevTotal.value < IdenticalTolerance)
  {
    match (prevTotal, currentTotal)
    case (Some(p), Some(c)) => Some(NearlyIdentical(c, p))
    case _ => None
  }
}
