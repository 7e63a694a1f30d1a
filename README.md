# Game-Tracker: a Dafny model of its sequential logic

Game-Tracker is a personal game-library web app. It stores games in SQLite and
pulls hours played, tags, achievements and cover images from Steam. This project
models the parts of it that compute something from already-fetched data:

- **Per-game daily deltas** (`test.py`, module `SnapshotDelta`). The day's top ten
  games by cumulative hours are compared with the previous day's snapshot. The
  hours added are the current hours minus the previous hours, with previous hours
  0 for an unknown game. Games whose hours added exceed 0.1 are kept. A separate
  check calls two daily totals "nearly identical" when they differ by less than 0.1.
- **Search shaping** (`app.py` `search_steam_games`, module `SteamSearch`). At most
  five items are kept, and each gets a capsule-image URL built from its own id.
- **Achievement merge** (`app.py` `get_steam_achievements`, module
  `SteamAchievements`). The player's achievements become a map keyed by
  `apiname`, where a later entry overwrites an earlier one. Then there is one
  record per schema achievement, in schema order, with defaults when the player
  has no progress for it.
- **Game details** (`app.py` `get_steam_game_details`, module `SteamDetails`). The
  hours played come from the first owned game whose `appid` matches. The tags are
  the first five genres followed by the first three categories, de-duplicated in
  first-occurrence order and cut to five.
- **Cover file name** (`app.py` `download_cover_image`, module `Covers`). The
  extension is the URL's last dot-segment cut at the first `?`, and it falls back
  to `jpg` unless it is on the whitelist. The returned path is
  `/static/covers/game_{id}.{ext}`.

Support modules: `Common` (`Option`, the `Fetch` outcome of one HTTP request, `Min`),
`Decimal` (`str(n)` for ids, with its inverse) and `Sequences` (prefix slicing and
`list(dict.fromkeys(...))`).

Modelling choices:

- Python floats are exact `real`s. Each `0.1` threshold is a named constant and is
  compared exactly.
- An HTTP call is a `Fetch<T>` value: `Ok(body)` for a 200 response with its decoded
  body, `BadStatus` for any other status, and `Raised` for an exception caught by the
  handler's own `try`.
- JSON objects are datatypes. A key that may be missing is an `Option` field, so the
  `.get(key, default)` defaults and the `KeyError` paths of `x['key']` are both
  modelled.
- The presence of the `STEAM_API_KEY` and `STEAM_USER_ID` settings is passed in as
  booleans.

Three behaviours of `test.py` are worth stating explicitly:

- It has no "first day" signal. With no previous-day rows, every examined game with
  more than 0.1 cumulative hours is reported (`SnapshotDelta.NoPreviousSnapshot`).
- The result keeps the rows' order, which is descending by *total* hours
  (`SnapshotDelta.ChangesSortedByTotal`). It is not re-sorted by hours added.
- Both thresholds, for a game's hours added and for the difference of the daily
  totals, are 0.1.

## Model

| member | source | states |
|---|---|---|
| `SnapshotDelta.TopCurrent` | test.py:44-51 | the examined rows are a prefix of the day's ordered rows, of length min(rows, 10) |
| `SnapshotDelta.PrevSnapshot` | test.py:59 | every previous-day row's game id is a key, and the map has no more entries than there are rows |
| `SnapshotDelta.PrevSnapshotKeys` | test.py:54-59 | a game id is in the previous-day map iff some previous-day row carries it |
| `SnapshotDelta.PrevSnapshotLastWins` | test.py:59 | for a repeated game id, the map holds the hours of the last row with that id |
| `SnapshotDelta.PrevHours` | test.py:65 | `prev.get(id, 0)`: the stored hours when the id is a key, else 0 |
| `SnapshotDelta.HoursAdded` | test.py:65-66 | hours added = current hours − previous hours, previous taken as 0 when the game is absent |
| `SnapshotDelta.Changes` | test.py:64-78 | the filtered list is never longer than the examined rows |
| `SnapshotDelta.ComputeChanges` | test.py:62-78 | the loop builds exactly the filtered list `Changes(current, prev)` |
| `SnapshotDelta.ChangesAtPlayedIndices` | test.py:64-78 | entry k is the entry of the game at the k-th kept position, and the kept positions increase |
| `SnapshotDelta.PlayedIndicesMembership` | test.py:73 | a position is kept iff that game's hours added exceed 0.1 |
| `SnapshotDelta.ChangesCharacterized` | test.py:64-78 | the result is the subsequence of the examined games, in their order, whose hours added > 0.1; position i is kept iff its hours added > 0.1 |
| `SnapshotDelta.ChangesTotalHours` | test.py:73-77 | every entry's total_hours is its game's current (unrounded) hours, and its hours_added is that minus the previous hours and above 0.1 |
| `SnapshotDelta.NoGainNotReported` | test.py:73 | a game whose hours did not grow is never reported |
| `SnapshotDelta.ChangesSortedByTotal` | test.py:48 | when the rows come in descending order of hours, the entries' total hours are descending too |
| `SnapshotDelta.ChangesAtMostTop` | test.py:49 | at most ten entries, since at most ten rows are examined |
| `SnapshotDelta.NoPreviousSnapshot` | test.py:65-73 | with no previous-day rows, a game is reported iff its hours exceed 0.1, with hours added equal to its total hours; there is no first-day signal |
| `SnapshotDelta.NearlyIdentical` | test.py:111 | the totals are flagged iff −0.1 < today − yesterday < 0.1 |
| `SnapshotDelta.NearlyIdenticalSymmetric` | test.py:111 | the flag does not depend on the order of the two totals |
| `SnapshotDelta.TotalsDiagnosis` | test.py:101-111 | the check has a verdict iff both days have a total row, and the verdict is the 0.1 test on their difference |
| `Decimal.DecimalString` | app.py:239 | `str(n)` of an id: a non-empty string of decimal digits |
| `Decimal.ParseDecimalString` | app.py:239 | reading the digits back gives the id, so distinct ids are spelled differently |
| `Sequences.Prefix` | app.py:223 | `s[:n]`: the first min(len(s), n) elements of s, unchanged |
| `Sequences.Dedup` | app.py:223 | `list(dict.fromkeys(s))`: no longer than s, no repeated element, every element taken from s |
| `Sequences.DedupSameElements` | app.py:223 | de-duplication keeps exactly the elements of its input |
| `Sequences.DedupFirstOccurrenceOrder` | app.py:223 | kept elements appear in the order of their first occurrences in the input |
| `SteamSearch.IdText` | app.py:118-120 | the id as the f-string renders it: its digits, or `None` when the item has no id |
| `SteamSearch.CapsuleUrl` | app.py:120 | the URL is as long as the CDN prefix, the id text and `/header.jpg` together |
| `SteamSearch.CapsuleUrlParts` | app.py:120 | the URL is the CDN prefix, then the id as text, then `/header.jpg` |
| `SteamSearch.SearchSteamGames` | app.py:107-124 | a 200 response gives min(n, 5) items, in order, each unchanged except for a capsule URL built from its own id; no response gives [] |
| `SteamSearch.CapsuleUrlInjective` | app.py:118-120 | the capsule URL determines the id it was built from |
| `SteamAchievements.ProgressOf` | app.py:152-155 | achieved and unlocktime are taken from the player entry, each defaulting to 0 when missing |
| `SteamAchievements.PlayerMap` | app.py:151-155 | when the map is built, every player entry's apiname is one of its keys |
| `SteamAchievements.UserProgress` | app.py:143-155 | the player part fails iff a user id is set and the request raises, or the stats succeed but some entry lacks `apiname`; without a user id, on a bad status or when not successful the map is empty |
| `SteamAchievements.BuildPlayerMap` | app.py:151-155 | the player loop builds exactly `PlayerMap(entries)` |
| `SteamAchievements.PlayerMapFails` | app.py:151-152 | the player list is rejected (the handler raises) iff some entry lacks `apiname` |
| `SteamAchievements.PlayerMapKeys` | app.py:151-155 | an apiname is a key of the map iff some player entry carries it |
| `SteamAchievements.PlayerMapLastWins` | app.py:151-155 | when an apiname repeats, the later entry overwrites the earlier one |
| `SteamAchievements.MergeEntry` | app.py:159-176 | apiname defaults to '', name to displayName or else name, description and icon to ''; achieved is 0 and unlock date absent when the player map lacks the apiname; otherwise they are the player's achieved flag and the unlock time when it is > 0 |
| `SteamAchievements.MergeAchievements` | app.py:158-176 | exactly one merged record per schema achievement, in schema order |
| `SteamAchievements.GetSteamAchievements` | app.py:126-181 | [] without an API key, on a failed schema request, or when the player part raises; otherwise one merged record per schema entry, in schema order, against the player's progress (an empty map without a user id, on a bad status or when not successful) |
| `SteamDetails.MatchIndex` | app.py:198-199 | the index of the first owned game whose appid matches, or none when no game matches |
| `SteamDetails.MinutesToHours` | app.py:200-201 | hours are present iff minutes > 0, and then equal minutes / 60 |
| `SteamDetails.SelectedHours` | app.py:186-202 | no match gives None; otherwise the hours come from the first matching game's minutes, defaulting to 0 minutes (None) |
| `SteamDetails.FindHoursPlayed` | app.py:198-202 | the loop with `break` yields exactly the first-match hours |
| `SteamDetails.Descriptions` | app.py:215-219 | the description list is defined iff every entry has a description, and then lists them entry by entry |
| `SteamDetails.StoreTags` | app.py:208-223 | at most five tags on every path, and none when the store entry is not successful |
| `SteamDetails.StoreTagsShape` | app.py:214-223 | for a fully described entry: at most 5 tags, no duplicates, each from the first 5 genres or first 3 categories, in first-occurrence order; the kept names are the first distinct ones, since every dropped name first occurs after every kept one, and a name is dropped only when 5 tags are already kept |
| `SteamDetails.StoreTagsGenresFirst` | app.py:214-220 | a genre-sourced tag never follows a category-only tag |
| `SteamDetails.CategoryKeyErrorKeepsGenres` | app.py:218-226 | a category without a description leaves the tags as the genre names, not de-duplicated |
| `SteamDetails.RepeatedGenreSurvives` | app.py:215-226 | concrete case: genres [Action, Action] with an undescribed category give tags [Action, Action] |
| `SteamDetails.ResponseTags` | app.py:208-211 | at most five tags, and none when the store request fails or has no entry under `str(app_id)` |
| `SteamDetails.GetSteamGameDetails` | app.py:183-228 | hours come from the owned-games list only with credentials and a 200 response; an exception there leaves the tags empty; otherwise the tags are those of the store entry under `str(app_id)` |
| `Covers.AfterLast` | app.py:236 | `split('.')[-1]`: a dot-free suffix, the whole string or the part after a dot |
| `Covers.BeforeFirst` | app.py:236 | `split('?')[0]`: a `?`-free prefix, the whole string or the part before a `?` |
| `Covers.RawExtension` | app.py:236 | the raw segment contains neither `.` nor `?` |
| `Covers.CoverExtension` | app.py:236-238 | the extension is always jpg/jpeg/png/webp; it is the raw segment when that is whitelisted, else jpg |
| `Covers.ExtensionWithQuery` | app.py:236-238 | for `stem.ext?query` with no dot after the last one, the extension is ext if whitelisted, else jpg |
| `Covers.ExtensionWithoutQuery` | app.py:236-238 | the same for `stem.ext` |
| `Covers.DotInQueryFallsBack` | app.py:236-238 | a dot inside the query string makes `cover.png?v=1.2` save as jpg |
| `Covers.CoverFileName` | app.py:239 | the file name starts with `game_`, and its part after the last dot is the chosen extension |
| `Covers.CoverPath` | app.py:239-247 | the path is exactly `/static/covers/game_{id}.{ext}`, and its part after the last dot is the chosen extension |
| `Covers.DownloadCoverImage` | app.py:230-250 | a 200 response returns the cover path of the game; any other status or an exception returns None |
| `Covers.CoverPathInjective` | app.py:239-247 | two games never share a cover path |

## Left out

- Flask routes, sessions, the login decorator and password checks: web plumbing.
- SQLite connection, schema and every query. Query results are input sequences. `ORDER BY hours_played DESC` is the database's job, so the ordering is a premise (`SortedByHoursDesc`) of the lemma that uses it.
- `requests.get`, status codes and JSON decoding: network I/O, visible only through `Fetch`. The search term and the ids interpolated into request URLs are not modelled.
- Writing the cover bytes to disk, and any exception it raises.
- Malformed JSON shapes that make the handlers raise beyond the modelled `KeyError` cases, such as a non-object entry or a non-numeric field. A `NULL` hours value in a snapshot row, which would make the subtraction raise, is also not modelled.
- All `print` output of test.py, including the listing of the first five results.
- The unused `steam_id` parameter of `get_steam_achievements`.
- SnapshotDelta.ComputeChanges: entries carry exact hours, not `round(..., 1)` of them, because float rounding is not modelled.
- SteamDetails.MinutesToHours: gives minutes / 60 exactly, without rounding to one decimal.
- SteamAchievements.MergeEntry: `unlockedAt` carries the raw unlock time rather than the date string, because `datetime.fromtimestamp` depends on the host timezone. It is present exactly when the unlock time is positive.
- SteamAchievements.GetSteamAchievements: does not model `datetime.fromtimestamp` raising for an unlock time outside the platform's date range. In that case the handler's `except` returns `[]` for the whole list, whereas the model still returns one record per schema entry.
- The daily snapshot recorder, scheduler, run lock and history endpoints are not part of this model: none of them is in the repository files modelled here.
