/**
 * `get_steam_game_details` (app.py): the hours played, taken from the first
 * owned-game entry for the app, and the tag list, assembled from the store
 * page's genres and categories.
 *
 * Hours are exact reals: minutes / 60 without the `round(..., 1)`.
 */
module SteamDetails {
  import opened Common
  import opened Decimal
  import opened Sequences

  const MaxGenres: nat := 5
  const MaxCategories: nat := 3
  const MaxTags: nat := 5

  /** One entry of `response.games`; `None` marks a missing key. */
  datatype OwnedGame = OwnedGame(appid: Option<nat>, playtimeForever: Option<int>)

  /** One genre or category of the store data; `None` marks a missing `description`. */
  datatype Described = Described(description: Option<string>)

  /** The store entry for one app: its `success` flag, `genres` and `categories`. */
  datatype StoreApp = StoreApp(success: bool, genres: seq<Described>, categories: seq<Described>)

  datatype GameDetails = GameDetails(hoursPlayed: Option<real>, tags: seq<string>)

  predicate Matches(g: OwnedGame, appId: nat)
  {
    g.appid == Some(appId)
  }

  /** `game.get('playtime_forever', 0)`. */
  function Minutes(g: OwnedGame): int
  {
    match g.playtimeForever
    case Some(m) => m
    case None => 0
  }

  /** Position of the first entry for the app, if any. */
  function MatchIndex(games: seq<OwnedGame>, appId: nat): (r: Option<nat>)
    ensures r.None? ==> forall i :: 0 <= i < |games| ==> !Matches(games[i], appId)
    ensures r.Some? ==> r.value < |games| && Matches(games[r.value], appId)
    ensures r.Some? ==> forall j :: 0 <= j < r.value ==> !Matches(games[j], appId)
    decreases |games|
  {
    if |games| == 0 then None
    else if Matches(games[0], appId) then Some(0)
    else
      match MatchIndex(games[1..], appId)
      case None => None
      case Some(k) => Some(k + 1)
  }

  /** Minutes become hours; a non-positive count becomes `None`. */
  function MinutesToHours(minutes: int): (h: Option<real>)
    ensures h.Some? <==> minutes > 0
    ensures h.Some? ==> h.value * 60.0 == minutes as real && h.value > 0.0
  {
    if minutes > 0 then Some(minutes as real / 60.0) else None
  }

  /**
   * The hours reported for the app: those of the first matching entry, or
   * `None` when no entry matches. Later matching entries are ignored.
   */
  function SelectedHours(games: seq<OwnedGame>, appId: nat): (h: Option<real>)
    ensures (forall i :: 0 <= i < |games| ==> !Matches(games[i], appId)) ==> h == None
    ensures forall k :: (0 <= k < |games| && Matches(games[k], appId) &&
                         (forall j :: 0 <= j < k ==> !Matches(games[j], appId))) ==>
                        h == MinutesToHours(Minutes(games[k]))
  {
    match MatchIndex(games, appId)
    case None => None
    case Some(k) => MinutesToHours(Minutes(games[k]))
  }

  lemma MatchIndexAt(games: seq<OwnedGame>, appId: nat, k: nat)
    requires k < |games| && Matches(games[k], appId)
    requires forall j :: 0 <= j < k ==> !Matches(games[j], appId)
    ensures MatchIndex(games, appId) == Some(k)
  {
  }

  /** The loop of app.py:198-202, which stops at the first match. */
  method FindHoursPlayed(games: seq<OwnedGame>, appId: nat) returns (hours: Option<real>)
    ensures hours == SelectedHours(games, appId)
  {
    hours := None;
    var i := 0;
    while i < |games|
      invariant 0 <= i <= |games|
      invariant forall j :: 0 <= j < i ==> !Matches(games[j], appId)
    {
      var game := games[i];
      if game.appid == Some(appId) {
        var playtimeMinutes := if game.playtimeForever.Some? then game.playtimeForever.value else 0;
        hours := MinutesToHours(playtimeMinutes);
        MatchIndexAt(games, appId, i);
        return;
      }
      i := i + 1;
    }
  }

  /**
   * `[x['description'] for x in entries]`, or `None` when an entry has no
   * description (the comprehension raises `KeyError`).
   */
  function Descriptions(entries: seq<Described>): (r: Option<seq<string>>)
    ensures r.None? <==> exists i :: 0 <= i < |entries| && entries[i].description.None?
    ensures r.Some? ==> |r.value| == |entries|
    ensures r.Some? ==> forall i :: 0 <= i < |entries| ==> entries[i].description == Some(r.value[i])
    decreases |entries|
  {
    if |entries| == 0 then Some([])
    else if entries[0].description.None? then None
    else
      match Descriptions(entries[1..])
      case None => None
      case Some(rest) => Some([entries[0].description.value] + rest)
  }

  /**
   * The tags of app.py:214-223 for a store entry. A `KeyError` in the genre
   * comprehension leaves the tags empty; one in the category comprehension
   * leaves them as the genre names, neither de-duplicated nor re-truncated.
   */
  function StoreTags(app: StoreApp): (tags: seq<string>)
    ensures |tags| <= MaxTags
    ensures !app.success ==> tags == []
  {
    if !app.success then []
    else
      match Descriptions(Prefix(app.genres, MaxGenres))
      case None => []
      case Some(genreNames) =>
        match Descriptions(Prefix(app.categories, MaxCategories))
        case None => genreNames
        case Some(categoryNames) => Prefix(Dedup(genreNames + categoryNames), MaxTags)
  }

  /** `store_data.get(str(app_id), {})`, followed by the tag assembly. */
  function ResponseTags(store: Fetch<map<string, StoreApp>>, appId: nat): (tags: seq<string>)
    ensures |tags| <= MaxTags
    ensures !store.Ok? ==> tags == []
    ensures store.Ok? && DecimalString(appId) !in store.body ==> tags == []
  {
    if store.Ok? && DecimalString(appId) in store.body then StoreTags(store.body[DecimalString(appId)]) else []
  }

  /**
   * The handler. The owned-games request is made only with both credentials;
   * its exception aborts the rest of the `try`, so the tags stay empty.
   */
  method GetSteamGameDetails(appId: nat, hasCredentials: bool, owned: Fetch<seq<OwnedGame>>,
                             store: Fetch<map<string, StoreApp>>)
    returns (details: GameDetails)
    ensures details.hoursPlayed == if hasCredentials && owned.Ok? then SelectedHours(owned.body, appId) else None
    ensures details.tags == if hasCredentials && owned.Raised? then [] else ResponseTags(store, appId)
  {
    details := GameDetails(None, []);
    if hasCredentials {
      match owned
      case Raised =>
        return;
      case BadStatus =>
      case Ok(games) =>
        var hours := FindHoursPlayed(games, appId);
        details := details.(hoursPlayed := hours);
    }
    if store.Ok? {
      var key := DecimalString(appId);
      if key in store.body && store.body[key].success {
        var gameData := store.body[key];
        var genres := Descriptions(Prefix(gameData.genres, MaxGenres));
        if genres.None? {
          return;
        }
        details := details.(tags := genres.value);
        var categoryNames := Descriptions(Prefix(gameData.categories, MaxCategories));
        if categoryNames.None? {
          return;
        }
        details := details.(tags := details.tags + categoryNames.value);
        details := details.(tags := Prefix(Dedup(details.tags), MaxTags));
      }
    }
  }

  /** Every genre and category examined has its description. */
  predicate FullyDescribed(app: StoreApp)
  {
    Descriptions(Prefix(app.genres, MaxGenres)).Some? &&
    Descriptions(Prefix(app.categories, MaxCategories)).Some?
  }

  function GenreNames(app: StoreApp): seq<string>
    requires FullyDescribed(app)
  {
    Descriptions(Prefix(app.genres, MaxGenres)).value
  }

  function CategoryNames(app: StoreApp): seq<string>
    requires FullyDescribed(app)
  {
    Descriptions(Prefix(app.categories, MaxCategories)).value
  }

  /**
   * The tag list of a successful, fully described store entry: at most five
   * tags, no duplicates, each one a name of the first five genres or of the
   * first three categories, in the order of first occurrence in the genre
   * names followed by the category names; the names kept are the first five
   * distinct ones, so every dropped name first occurs after every kept one.
   */
  lemma StoreTagsShape(app: StoreApp)
    requires app.success && FullyDescribed(app)
    ensures |StoreTags(app)| <= MaxTags
    ensures NoDuplicates(StoreTags(app))
    ensures forall t :: t in StoreTags(app) ==> t in GenreNames(app) || t in CategoryNames(app)
    ensures forall t :: t in GenreNames(app) + CategoryNames(app) ==> t in StoreTags(app) || |StoreTags(app)| == MaxTags
    ensures forall i, j :: 0 <= i < j < |StoreTags(app)| ==>
      StoreTags(app)[i] in GenreNames(app) + CategoryNames(app) &&
      StoreTags(app)[j] in GenreNames(app) + CategoryNames(app) &&
      FirstIndex(GenreNames(app) + CategoryNames(app), StoreTags(app)[i]) <
      FirstIndex(GenreNames(app) + CategoryNames(app), StoreTags(app)[j])
    ensures forall t, u :: t in StoreTags(app) && u in GenreNames(app) + CategoryNames(app) && u !in StoreTags(app) ==>
      t in GenreNames(app) + CategoryNames(app) &&
      FirstIndex(GenreNames(app) + CategoryNames(app), t) < FirstIndex(GenreNames(app) + CategoryNames(app), u)
  {
    var all := GenreNames(app) + CategoryNames(app);
    var d := Dedup(all);
    var tags := StoreTags(app);
    assert tags == Prefix(d, MaxTags);
    forall t | t in tags
      ensures t in GenreNames(app) || t in CategoryNames(app)
    {
      DedupSameElements(all, t);
    }
    forall t | t in all
      ensures t in tags || |tags| == MaxTags
    {
      DedupSameElements(all, t);
    }
    forall i, j | 0 <= i < j < |tags|
      ensures tags[i] in all && tags[j] in all && FirstIndex(all, tags[i]) < FirstIndex(all, tags[j])
    {
      DedupFirstOccurrenceOrder(all, i, j);
    }
    forall t, u | t in tags && u in all && u !in tags
      ensures t in all && FirstIndex(all, t) < FirstIndex(all, u)
    {
      DedupSameElements(all, t);
      DedupSameElements(all, u);
      var i :| 0 <= i < |tags| && tags[i] == t;
      var j :| 0 <= j < |d| && d[j] == u;
      assert tags[i] == d[i];
      DedupFirstOccurrenceOrder(all, i, j);
    }
  }

  lemma FirstIndexInFront(a: seq<string>, b: seq<string>, t: string)
    requires t in a + b
    ensures t in a <==> FirstIndex(a + b, t) < |a|
  {
    var k := FirstIndex(a + b, t);
    if t in a {
      var i := FirstIndex(a, t);
      assert (a + b)[i] == t;
    }
  }

  /**
   * Genre-sourced tags come first: a tag that is a genre name never follows
   * one that is only a category name.
   */
  lemma StoreTagsGenresFirst(app: StoreApp, i: nat, j: nat)
    requires app.success && FullyDescribed(app)
    requires i < j < |StoreTags(app)|
    requires StoreTags(app)[j] in GenreNames(app)
    ensures StoreTags(app)[i] in GenreNames(app)
  {
    StoreTagsShape(app);
    var all := GenreNames(app) + CategoryNames(app);
    FirstIndexInFront(GenreNames(app), CategoryNames(app), StoreTags(app)[i]);
    FirstIndexInFront(GenreNames(app), CategoryNames(app), StoreTags(app)[j]);
  }

  /**
   * A category without a description leaves the tags as the genre names,
   * which may then repeat.
   */
  lemma CategoryKeyErrorKeepsGenres(app: StoreApp)
    requires app.success && Descriptions(Prefix(app.genres, MaxGenres)).Some?
    requires exists i :: 0 <= i < Min(|app.categories|, MaxCategories) && app.categories[i].description.None?
    ensures StoreTags(app) == Descriptions(Prefix(app.genres, MaxGenres)).value
  {
    var i :| 0 <= i < Min(|app.categories|, MaxCategories) && app.categories[i].description.None?;
    assert Prefix(app.categories, MaxCategories)[i] == app.categories[i];
  }

  lemma RepeatedGenreSurvives()
    ensures StoreTags(StoreApp(true, [Described(Some("Action")), Described(Some("Action"))],
                                     [Described(None)])) == ["Action", "Action"]
  {
    var app := StoreApp(true, [Described(Some("Action")), Described(Some("Action"))], [Described(None)]);
    assert app.categories[0].description.None?;
    CategoryKeyErrorKeepsGenres(app);
  }
}
