/**
 * `get_steam_achievements` (app.py): the game's achievement schema merged
 * with the player's progress. The player's list is first turned into a map
 * keyed by `apiname`; then one record is produced per schema achievement,
 * in schema order, with defaults where the player has no progress.
 */
module SteamAchievements {
  import opened Common

  /** One achievement of `availableGameStats.achievements`; `None` marks a missing key. */
  datatype SchemaEntry = SchemaEntry(
    name: Option<string>, displayName: Option<string>, description: Option<string>, icon: Option<string>)

  /** One entry of `playerstats.achievements`; `None` marks a missing key. */
  datatype PlayerEntry = PlayerEntry(apiname: Option<string>, achieved: Option<int>, unlocktime: Option<int>)

  /** The `playerstats` object: its `success` flag and its achievement list. */
  datatype PlayerStats = PlayerStats(success: bool, achievements: seq<PlayerEntry>)

  /** A value of the `user_achievements` map. */
  datatype Progress = Progress(achieved: int, unlocktime: int)

  /**
   * One merged record. `unlockedAt` holds the unlock time that the handler
   * formats as a local date; it is present exactly when that date is.
   */
  datatype Achievement = Achievement(
    name: Option<string>, description: string, icon: string, apiname: string,
    achieved: int, unlockedAt: Option<int>)

  function GetOr<T>(o: Option<T>, default: T): T
  {
    match o
    case Some(v) => v
    case None => default
  }

  /** `{'achieved': ach.get('achieved', 0), 'unlocktime': ach.get('unlocktime', 0)}`. */
  function ProgressOf(e: PlayerEntry): (p: Progress)
    ensures e.achieved.None? ==> p.achieved == 0
    ensures e.achieved.Some? ==> p.achieved == e.achieved.value
    ensures e.unlocktime.None? ==> p.unlocktime == 0
    ensures e.unlocktime.Some? ==> p.unlocktime == e.unlocktime.value
  {
    Progress(GetOr(e.achieved, 0), GetOr(e.unlocktime, 0))
  }

  /**
   * The map the player loop builds, or `None` when an entry has no
   * `apiname`: `ach['apiname']` then raises and the handler returns `[]`.
   */
  function PlayerMap(entries: seq<PlayerEntry>): (users: Option<map<string, Progress>>)
    ensures users.Some? ==> forall i :: 0 <= i < |entries| ==>
      entries[i].apiname.Some? && entries[i].apiname.value in users.value
    decreases |entries|
  {
    if |entries| == 0 then Some(map[])
    else
      var last := entries[|entries| - 1];
      match PlayerMap(entries[..|entries| - 1])
      case None => None
      case Some(m) =>
        if last.apiname.Some? then Some(m[last.apiname.value := ProgressOf(last)]) else None
  }

  /** The loop of app.py:151-155. */
  method BuildPlayerMap(entries: seq<PlayerEntry>) returns (users: Option<map<string, Progress>>)
    ensures users == PlayerMap(entries)
  {
    var acc: map<string, Progress> := map[];
    var i := 0;
    while i < |entries|
      invariant 0 <= i <= |entries|
      invariant PlayerMap(entries[..i]) == Some(acc)
    {
      var ach := entries[i];
      assert entries[..i + 1][..i] == entries[..i];
      if ach.apiname.None? {
        assert PlayerMap(entries[..i + 1]).None?;
        PlayerMapNonePersists(entries, i + 1);
        assert entries[..|entries|] == entries;
        return None;
      }
      acc := acc[ach.apiname.value := Progress(GetOr(ach.achieved, 0), GetOr(ach.unlocktime, 0))];
      i := i + 1;
    }
    assert entries[..i] == entries;
    users := Some(acc);
  }

  lemma {:induction false} PlayerMapNonePersists(entries: seq<PlayerEntry>, n: nat)
    requires n <= |entries| && PlayerMap(entries[..n]).None?
    ensures PlayerMap(entries).None?
    decreases |entries| - n
  {
    if n < |entries| {
      assert entries[..n + 1][..n] == entries[..n];
      PlayerMapNonePersists(entries, n + 1);
    } else {
      assert entries[..n] == entries;
    }
  }

  /** The whole list is rejected exactly when some entry lacks an `apiname`. */
  lemma {:induction false} PlayerMapFails(entries: seq<PlayerEntry>)
    ensures PlayerMap(entries).None? <==> exists i :: 0 <= i < |entries| && entries[i].apiname.None?
    decreases |entries|
  {
    if |entries| > 0 {
      var init := entries[..|entries| - 1];
      PlayerMapFails(init);
      if exists i :: 0 <= i < |init| && init[i].apiname.None? {
        var i :| 0 <= i < |init| && init[i].apiname.None?;
        assert entries[i] == init[i];
      }
      if exists i :: 0 <= i < |entries| && entries[i].apiname.None? {
        var i :| 0 <= i < |entries| && entries[i].apiname.None?;
        if i < |init| {
          assert init[i] == entries[i];
        }
      }
    }
  }

  /** A name is a key exactly when some player entry carries it. */
  lemma {:induction false} PlayerMapKeys(entries: seq<PlayerEntry>, k: string)
    requires PlayerMap(entries).Some?
    ensures k in PlayerMap(entries).value <==> exists i :: 0 <= i < |entries| && entries[i].apiname == Some(k)
    decreases |entries|
  {
    if |entries| > 0 {
      var init := entries[..|entries| - 1];
      PlayerMapKeys(init, k);
      if exists i :: 0 <= i < |init| && init[i].apiname == Some(k) {
        var i :| 0 <= i < |init| && init[i].apiname == Some(k);
        assert entries[i] == init[i];
      }
      if exists i :: 0 <= i < |entries| && entries[i].apiname == Some(k) {
        var i :| 0 <= i < |entries| && entries[i].apiname == Some(k);
        if i < |init| {
          assert init[i] == entries[i];
        }
      }
    }
  }

  /** When a name repeats, the last entry carrying it is the one kept. */
  lemma {:induction false} PlayerMapLastWins(entries: seq<PlayerEntry>, i: nat)
    requires PlayerMap(entries).Some?
    requires i < |entries| && entries[i].apiname.Some?
    requires forall j :: i < j < |entries| ==> entries[j].apiname != entries[i].apiname
    ensures entries[i].apiname.value in PlayerMap(entries).value
    ensures PlayerMap(entries).value[entries[i].apiname.value] == ProgressOf(entries[i])
    decreases |entries|
  {
    if i < |entries| - 1 {
      var init := entries[..|entries| - 1];
      PlayerMapLastWins(init, i);
    }
  }

  /** One merged record of app.py:159-176. */
  function MergeEntry(s: SchemaEntry, users: map<string, Progress>): (a: Achievement)
    ensures a.apiname == GetOr(s.name, "")
    ensures a.name == (if s.displayName.Some? then s.displayName else s.name)
    ensures a.description == GetOr(s.description, "") && a.icon == GetOr(s.icon, "")
    ensures a.apiname !in users ==> a.achieved == 0 && a.unlockedAt == None
    ensures a.apiname in users ==> a.achieved == users[a.apiname].achieved
    ensures a.apiname in users ==>
      a.unlockedAt == (if users[a.apiname].unlocktime > 0 then Some(users[a.apiname].unlocktime) else None)
  {
    var apiname := GetOr(s.name, "");
    var progress := if apiname in users then users[apiname] else Progress(0, 0);
    Achievement(
      if s.displayName.Some? then s.displayName else s.name,
      GetOr(s.description, ""),
      GetOr(s.icon, ""),
      apiname,
      progress.achieved,
      if progress.unlocktime > 0 then Some(progress.unlocktime) else None)
  }

  /** The merge loop: one record per schema achievement, in schema order. */
  method MergeAchievements(schema: seq<SchemaEntry>, users: map<string, Progress>) returns (result: seq<Achievement>)
    ensures |result| == |schema|
    ensures forall i :: 0 <= i < |schema| ==> result[i] == MergeEntry(schema[i], users)
  {
    result := [];
    for i := 0 to |schema|
      invariant |result| == i
      invariant forall k :: 0 <= k < i ==> result[k] == MergeEntry(schema[k], users)
    {
      var ach := schema[i];
      var apiname := GetOr(ach.name, "");
      var userData := if apiname in users then Some(users[apiname]) else None;
      var unlockTime := if userData.Some? then userData.value.unlocktime else 0;
      var unlockDate: Option<int> := None;
      if unlockTime > 0 {
        unlockDate := Some(unlockTime);
      }
      var achieved := if userData.Some? then userData.value.achieved else 0;
      var name := if ach.displayName.Some? then ach.displayName else ach.name;
      result := result + [Achievement(name, GetOr(ach.description, ""), GetOr(ach.icon, ""), apiname, achieved, unlockDate)];
    }
  }

  /**
   * The player's progress as the handler ends up with it: an empty map when
   * no user id is configured, the request fails with a status or the stats
   * report no success; `None` when the request raises or an entry lacks its
   * `apiname` (the handler then returns `[]`).
   */
  function UserProgress(hasUserId: bool, player: Fetch<PlayerStats>): (users: Option<map<string, Progress>>)
    ensures users.None? <==> (hasUserId && (player.Raised? ||
                               (player.Ok? && player.body.success &&
                                exists i :: 0 <= i < |player.body.achievements| &&
                                            player.body.achievements[i].apiname.None?)))
    ensures !hasUserId || player.BadStatus? || (player.Ok? && !player.body.success) ==> users == Some(map[])
  {
    if !hasUserId then Some(map[])
    else
      match player
      case Raised => None
      case BadStatus => Some(map[])
      case Ok(stats) =>
        PlayerMapFails(stats.achievements);
        if stats.success then PlayerMap(stats.achievements) else Some(map[])
  }

  /**
   * The handler. Without an API key, on a failed schema request, or when the
   * player part raises, the result is empty; otherwise it is one merged
   * record per schema achievement, in schema order.
   */
  method GetSteamAchievements(hasApiKey: bool, schemaResponse: Fetch<seq<SchemaEntry>>,
                              hasUserId: bool, playerResponse: Fetch<PlayerStats>)
    returns (result: seq<Achievement>)
    ensures !hasApiKey || !schemaResponse.Ok? ==> result == []
    ensures hasApiKey && schemaResponse.Ok? && UserProgress(hasUserId, playerResponse).None? ==> result == []
    ensures hasApiKey && schemaResponse.Ok? && UserProgress(hasUserId, playerResponse).Some? ==>
      |result| == |schemaResponse.body| &&
      forall i :: 0 <= i < |result| ==>
        result[i] == MergeEntry(schemaResponse.body[i], UserProgress(hasUserId, playerResponse).value)
  {
    if !hasApiKey {
      return [];
    }
    if !schemaResponse.Ok? {
      return [];
    }
    var users: map<string, Progress> := map[];
    if hasUserId {
      match playerResponse
      case Raised =>
        return [];
      case BadStatus =>
      case Ok(stats) =>
        if stats.success {
          var built := BuildPlayerMap(stats.achievements);
          if built.None? {
            return [];
          }
          users := built.value;
        }
    }
    result := MergeAchievements(schemaResponse.body, users);
  }
}
