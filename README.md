# spotify-playlist-sync, modelled in Dafny

The script keeps a user's playlists in step. New tracks go into an origin
("staging") playlist named `Purgatoire`. Once the user has also put a track
into one of the specific ("genre") playlists (`Rock`, `Classique`, `Rap`,
`Chiant`, `Poubelle`, `Trad`), the track has graduated. It is then added to
the aggregate playlist `MEGA PLAYLIST` and removed from the origin.

The model replaces the streaming service with an in-memory account (`Library.Store`):
the user's playlists in service order, and each playlist's ordered track ids.
The service's two mutations become the store's two methods:
- add tracks at the end of a playlist;
- remove every occurrence of some tracks from a playlist.

Files and modules:
- `wrappers.dfy` (`Wrappers`): `Option`.
- `library.dfy` (`Library`): playlists, the account value and its validity
  (every listed playlist has a track list; ids are unique), the `Store` class,
  and `RemoveAll`, the filter that "remove all occurrences" performs.
- `pagination.dfy` (`Pagination`): the service answering one page (`Serve`).
  Also the recursive fetch behind `getPlaylists` (page size 50) and
  `getTrackIds` (page size 100), and the offsets it requests.
- `classification.dfy` (`Classification`): picking out the origin, mega and
  specific playlists by exact name, origin first, then mega, then specific.
- `graduation.dfy` (`Graduation`): the graduation step of `main`, and the
  relation `Graduated` that says what a run does to the account.
- `entry.dfy` (`Entry`): username resolution and the whole run.

The order in which the new tracks are appended to the mega playlist comes
from iterating a Python set, so the model leaves it open. `ListOf` picks any
order. `Graduated` only says the appended part lists every new track exactly
once.

## Model

| member | source | states |
|---|---|---|
| `Library.RemoveAll` | app.py:167-168 | the result holds exactly the tracks of the playlist that are not being removed, and is no longer than the playlist |
| `Library.RemoveAllCounts` | app.py:167-168 | every kept track occurs as often as before; every removed track no longer occurs |
| `Library.RemoveAllConcat` | app.py:167-168 | removal distributes over concatenation, so the kept tracks keep their order |
| `Library.RemoveAllAbsent` | app.py:167-168 | removing ids that do not occur leaves the playlist as it was |
| `Library.RemoveAllIdempotent` | app.py:167-168 | removing the same tracks a second time changes nothing |
| `Library.Store.AddTracks` | app.py:164 | the playlist gains the given tracks, in order, at its end; no other playlist changes and the account stays valid |
| `Library.Store.RemoveAllOccurrences` | app.py:167-168 | the playlist loses every occurrence of the given tracks; no other playlist changes |
| `Pagination.Serve` | app.py:47-49 | a page holds at most `limit` items, the items of the whole list from `offset` on, and reports the list's length as total |
| `Pagination.Fetch` | app.py:45-56 | the pages stitched together, each before the later ones, are exactly the server's list from `offset` to the end |
| `Pagination.Requests` | app.py:45-52 | the first request is at `offset`, and the last page reaches the total |
| `Pagination.RequestsAdvance` | app.py:45-52 | each further request is exactly `limit` beyond the one before, and every request but the last leaves items beyond its page |
| `Pagination.FetchIsPages` | app.py:47-56 | what `Fetch` returns is exactly the served pages at the offsets `Requests` lists, joined in request order |
| `Pagination.PagesAreRest` | app.py:47-56 | the pages served at those offsets, joined, are the whole list from `offset` on |
| `Pagination.GetPlaylists` | app.py:29-56 | the assembled playlist listing is the user's whole list, with length equal to the reported total |
| `Pagination.GetTrackIds` | app.py:59-91 | the assembled track ids are the playlist's whole track list, with length equal to the reported total |
| `Classification.RoleOf` | app.py:143-147 | a name is origin exactly when it equals the origin name; mega exactly when it equals the mega name but not the origin name; specific exactly when it is a specific name and neither of the other two |
| `Classification.LastWithRole` | app.py:142-146 | none exactly when no playlist has the role; otherwise a listed playlist with the role after which no playlist has it (the last one wins) |
| `Classification.WithRole` | app.py:147-148 | the selected playlists are exactly the listed ones with the role |
| `Classification.WithRoleCounts` | app.py:147-148 | a playlist with the role is selected as many times as it is listed; any other playlist is never selected |
| `Classification.WithRoleConcat` | app.py:142-148 | selection distributes over concatenation, so the selected playlists stay in listing order |
| `Classification.LastWithRoleConcat` | app.py:142-146 | the last holder of a role in `a + b` is the one in `b` if there is one, else the one in `a` |
| `Classification.UnmatchedIgnored` | app.py:142-148 | inserting a playlist whose name matches no configured name anywhere changes neither the origin, the mega nor the specific playlists |
| `Classification.Classify` | app.py:141-148 | the loop yields the last origin-named playlist, the last mega-named one (never one with the origin name), and every specific-named one in order; a playlist named as origin or mega is never among the specific ones |
| `Graduation.SpecificTracks` | app.py:153-156 | a track is in the concatenation exactly when some specific playlist holds it |
| `Graduation.SpecificTracksFrame` | app.py:153-156 | the concatenation depends only on the specific playlists' own track lists |
| `Graduation.CollectTracks` | app.py:153-156 | the nested loops produce the specific playlists' track lists end to end, in playlist order |
| `Graduation.NewTracks` | app.py:159 | a track graduates exactly when it is both in the origin and in the specific tracks |
| `Graduation.ListOf` | app.py:159 | the list names every graduating track exactly once, so its length is the set's size |
| `Graduation.PendingTracks` | app.py:151-159 | the graduating tracks are those of the origin that some specific playlist holds |
| `Graduation.Promote` | app.py:161-172 | with no new tracks nothing changes; with new tracks but no mega playlist nothing changes; otherwise mega gains the new tracks once each at its end, origin loses every occurrence of them, and nothing else changes |
| `Graduation.Sync` | app.py:138-172 | the run fails before any change when no playlist has the origin name, and otherwise changes the account exactly as `Graduated` describes |
| `Graduation.GraduatedValid` | app.py:161-168 | a run keeps the account valid |
| `Graduation.OnlyOriginAndMegaChange` | app.py:161-168 | the specific playlists and the playlists with no configured name never change |
| `Graduation.NothingLeftToGraduate` | app.py:159-168 | after a graduation the origin shares no track with the specific playlists |
| `Graduation.SecondRunChangesNothing` | app.py:138-172 | a run straight after a run changes nothing; it reports nothing done after a graduation, and the same failure or nothing done otherwise |
| `Entry.ResolveUsername` | app.py:123-132 | a username is found exactly when the environment value is non-empty or there is an argument after the program name; the environment value wins, else that argument |
| `Entry.EnvironmentWins` | app.py:124-127 | with a non-empty environment value the command line does not matter |
| `Entry.EmptyEnvironmentFallsThrough` | app.py:124-129 | an empty environment value behaves as an unset one |
| `Entry.Run` | app.py:118-172 | without a username the run shows usage and changes nothing; with one it runs the graduation step with the script's playlist names |

## Left out

- `connectToSpotify` (app.py:7-26): prompting for an OAuth token and building the client are interactive and belong to a foreign library. The model assumes the connection succeeds and uses the store directly; the username selects nothing in the model.
- Network and service failures (rate limits, permissions, time-outs), and the service's own cap on how many tracks one add request may carry: the script has no handling for them.
- Console output (app.py:131, 163, 170, 172) is not modelled; each ending is an `Outcome` value. The count in `Handled` is the number printed at app.py:170.
- `sys.exit()` at app.py:132 is modelled as the `ShowedUsage` outcome. The script calls it without an argument, so the exit status is 0, not an error status.
- The unhandled Python errors for a missing origin (app.py:151) and a missing mega playlist (app.py:164) become the `MissingOrigin` and `MissingMega` outcomes. The list printed at app.py:163 before the second failure is not modelled.
- Track entries whose track or id is null (local files, removed tracks) are not modelled: a track id is a plain string.
- The `fields` filter of the track request (app.py:79) only trims the service's answer; the model's pages carry the ids directly.
- `Pagination.Requests`: the number of requests is pinned down by the stopping condition (with `Pagination.RequestsAdvance`) rather than stated as the total divided by the page size, rounded up.
- When two playlists share the origin or mega name, the code keeps the last one; the model follows the code.
- Pruning orphaned genre and aggregate tracks and sweeping the trash playlist are not part of this script, so they are not modelled.
