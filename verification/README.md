# Quiz relay server: room and session bookkeeping

This project models the in-memory room bookkeeping of a movie-quiz relay
server. One host display, one game display and up to three players connect
over socket.io. The server keeps a global map from room code to room record
and a second map from room code to that room's movie catalog. The repository
holds two overlapping drafts of the socket handlers:

- `src/reserver.js` (module `Reserver`, event runs in `ReserverRun`): rooms
  start empty. Players are appended on `join_room` up to a capacity of 3,
  with duplicate ids rejected. The host binds or rebinds by logical id, and
  the game page binds once. `send_points` adds to a score by player name,
  `get_themes` builds the catalog and `end_game` clears the room.
- `src/new.js` (module `RosterServer`, event runs in `RosterRun`): a room is
  created with a fixed roster of three named player slots plus empty host
  and game slots. Joins rebind a slot by logical id and `get_points` adds to
  a slot's points. `create_session` fetches the catalog first.

Both drafts map a theme's movie folders to movie entries the same way. That
mapping and the theme fill loop live in module `Catalog`. `Common` holds
`Option` (the source's `null`), the first-match search behind `find` and
`findIndex`, and a sum over a roster.

Each handler is a pure function from the maps to the new maps. Emitted
events are returned as data where they depend on state: the `game_page`
signal of `join_room` and the hand-off of the game page id to the host.
Several inputs are plain parameters rather than effects: socket ids, the id
`nanoid` would mint, and the media service's folder listings. A theme
listing of `None` stands for a listing call that threw. A theme missing from
the movie `listing` map stands for a movie listing call that threw.

Where a handler dereferences a missing room or slot and would throw, the
model states that as a `requires`. This covers `src/new.js:93`, `:114`,
`:136` and `:184`, and `src/reserver.js:194-198`. The event-run models drop
such an event.

Three behaviours of the code are worth stating outright:

- `create_session` always resets the room. In `src/reserver.js` the
  existence test at line 117 runs after the overwrite at line 111, and
  `src/new.js` has no test at all.
- `player_join_room` compares logical ids (`src/new.js:97`), not sockets.
  A join without an id mints a fresh one, so it always takes the slot over.
- `src/new.js` dereferences the room unguarded, so an event for an unknown
  room throws instead of being ignored.

## Model

| member | source | states |
|---|---|---|
| Common.FirstIndex | src/reserver.js:304-306 | the index returned holds the first element satisfying the test; `None` exactly when no element does |
| Catalog.MovieList | src/reserver.js:237-243 | the theme's movie list is unplayed (each `index` equals its position, `guessed` false, `whoGuessed` null) and carries the folder names in listing order |
| Catalog.MovieListCharacterized | src/new.js:50-57 | a movie list is the one built from a folder list exactly when it is unplayed and its names are that list |
| Catalog.FillKeepsExisting | src/reserver.js:229-231 | the fill loop never removes or rebuilds a theme already present |
| Catalog.FillAddsListed | src/reserver.js:229-244 | every theme the loop adds is a listed folder holding its mapped movies, or an empty list when its listing failed |
| Catalog.FillCompleteIff | src/reserver.js:222-251 | the loop runs to the end exactly when every listed theme not yet present had a successful movie listing |
| Catalog.FillCompleteKeys | src/reserver.js:229-245 | a complete fill holds exactly the old themes plus every listed folder |
| Reserver.CreateSession | src/reserver.js:110-123 | the room becomes a fresh record (no host, no players, no game page) even if it already existed; other rooms are unchanged |
| Reserver.JoinRoom | src/reserver.js:125-152 | unknown room, duplicate id or full room: no change and no emission; otherwise exactly one player with score 0 and the given id, socket and name is appended and nothing else changes; `game_page` is emitted exactly when a host is bound and the room now holds 3 players |
| Reserver.HostPageId | src/reserver.js:154-191 | unknown room: no change; no host: bound to (id, socket); same id: only the socket is updated; different id: nothing changes |
| Reserver.GamePageId | src/reserver.js:193-213 | the first call binds the game page and sends its id to the host's socket; once bound, any call changes and emits nothing |
| Reserver.FindPlayer | src/reserver.js:304-306 | the index found holds the first player with that name; `None` exactly when no player has it |
| Reserver.SendPoints | src/reserver.js:299-316 | unknown room or name: no change; otherwise only the first matching player's score changes, by `pts` |
| Reserver.JoinRoomTotal | src/reserver.js:135-140 | a join leaves the room's total score unchanged, because the appended player starts at score 0 |
| Reserver.SendPointsTotal | src/reserver.js:311 | the room's total score rises by `pts` when the name is found and is unchanged otherwise |
| Reserver.GetThemes | src/reserver.js:217-252 | an absent catalog starts empty; existing themes are kept as they are; added themes come from the listing; a complete listing adds exactly the listed themes; a wiped catalog never changes |
| Reserver.EndGame | src/reserver.js:324-331 | the room entry becomes null and the catalog an empty array, whether or not the room existed; other rooms are untouched |
| ReserverRun.JoinRoomKeepsInv | src/reserver.js:126-140 | after `join_room` every live room still has at most 3 players with pairwise distinct ids |
| ReserverRun.SendPointsKeepsInv | src/reserver.js:304-315 | scoring keeps the capacity and distinct-id invariant |
| ReserverRun.RunKeepsInv | src/reserver.js:125-152 | any event sequence keeps every live room within capacity with distinct player ids |
| ReserverRun.ReachableRoomsOk | src/reserver.js:107-152 | every state reachable from start-up satisfies the capacity and distinct-id invariant |
| ReserverRun.JoinRoomIdempotent | src/reserver.js:126-129 | a repeated `join_room` with the same player id changes and emits nothing |
| ReserverRun.GamePageIdBindsOnce | src/reserver.js:194-212 | after the first `game_page_id`, a second one with any id is a no-op |
| ReserverRun.HostPageIdIdempotent | src/reserver.js:171-185 | repeating `host_page_id` with the same arguments is a no-op |
| ReserverRun.RunPersists | src/reserver.js:154-212 | until the room is re-created or ended, no event unbinds or replaces its host or game page, or drops, reorders or rebinds a player |
| ReserverRun.WipedCatalogStaysWiped | src/reserver.js:218-230 | once a catalog is the empty array left by `end_game`, no event sequence turns it back into a catalog |
| ReserverRun.EndGameBlocksNewCatalog | src/reserver.js:324-331 | end, re-create and fetch themes: as written the catalog stays wiped; with the intended `end_game` it holds the listed theme |
| ReserverRun.EndGameIntended | src/reserver.js:327 | the corrected `end_game` deletes the catalog entry and leaves all others |
| ReserverRun.EndGameIntendedAllowsCatalog | src/reserver.js:217-245 | with the corrected `end_game`, a re-created room gets a catalog holding exactly the listed themes |
| RosterServer.FreshRoster | src/new.js:76-84 | empty host and game slots and exactly 3 player slots named "Черепашки", "Черепушки", "Черемушки" in that order, each with 0 points and null socket and id |
| RosterServer.EffectiveId | src/new.js:90-92 | a truthy supplied id is used, otherwise the minted one |
| RosterServer.GetThemesAndMovies | src/new.js:36-64 | a failed theme listing changes nothing; otherwise the catalog under the key is replaced by one holding only listed themes with their mapped movies, and exactly the listed themes when all listings succeed |
| RosterServer.CreateSession | src/new.js:74-85 | the room is overwritten with the fresh roster and other rooms are untouched; the catalog is stored under the creating socket's id, not the room code, holds only listed themes with their mapped movies, and every other catalog key is unchanged (all catalogs are unchanged when the theme listing fails) |
| RosterServer.FindSlot | src/new.js:93-95 | the index found holds the first slot with that name; `None` exactly when none has it |
| RosterServer.PlayerJoinRoom | src/new.js:87-107 | if the named slot's id differs from the effective id, only that slot's socket and id are overwritten and its name and points are kept; if equal, nothing changes; other slots, host and game are untouched |
| RosterServer.Rejoin | src/new.js:121-122 | a slot's socket changes only when its id matches and its socket differs; its id never changes |
| RosterServer.HostJoinRoom | src/new.js:109-129 | the host slot changes exactly when its stored id equals the effective id and its socket differs, and then only the socket is updated |
| RosterServer.GameJoinRoom | src/new.js:131-151 | the game slot changes exactly when its stored id equals the effective id and its socket differs, and then only the socket is updated |
| RosterServer.GetPoints | src/new.js:183-185 | the named slot's points rise by `pts`; other slots and the roster length are unchanged |
| RosterServer.GetPointsTotal | src/new.js:183-185 | the room's total points rise by exactly `pts` |
| RosterServer.PlayerJoinRoomIdempotent | src/new.js:97-105 | a second join with the id the first bound changes nothing, whatever socket it carries |
| RosterServer.BindRole | src/new.js:116-125 | corrected binding: an unbound slot takes the caller's socket and id; a bound slot keeps its id and ignores a foreign id |
| RosterServer.HostJoinRoomIntended | src/new.js:109-129 | corrected `host_join_room`: an unbound host is bound to the caller's socket and effective id; a bound host keeps its id |
| RosterServer.GameJoinRoomIntended | src/new.js:131-151 | corrected `game_join_room`: an unbound game slot is bound to the caller's socket and effective id; a bound one keeps its id |
| RosterRun.RunKeepsRosters | src/new.js:76-101 | no event sequence adds, removes, renames or reorders a roster slot |
| RosterRun.ReachableRosters | src/new.js:74-85 | every room reachable from start-up has exactly the three fixed slots |
| RosterRun.RolesNeverBind | src/new.js:114-150 | as written, host and game slots stay the empty slots `create_session` made, whatever events arrive |
| RosterRun.HostJoinAfterCreate | src/new.js:114-128 | after create and a host join with id "h1", the host slot is empty as written and bound to ("s1", "h1") when corrected |
| RosterRun.IntendedIdentityStable | src/new.js:114-150 | with the corrected binding, a bound host or game slot keeps its logical id until the room is re-created |

## Left out

- HTTP scaffolding is not modelled: express, CORS, logging, the greeting, the 404 and 500 responders and `server.listen`.
- `src/server.js` is a stateless relay, so there is no state to model.
- `src/routers/cloudinary.js` is a thin wrapper over the media service. Its listings are inputs here.
- `socket.join`, `broadcast` and pure relay handlers (`give_answer`, `bad_answer`, `start_round`, `round_end`, `player_answer`, `answer_yes`, `answer_no`, `change_frame`, `start_game`, `get_frames`) change no server state.
- Emissions of `player_joined_room`, `host_joined_room`, `game_joined_room`, `themes_list`, `all_points` and `your_points` are not modelled. They only relay the state the model already has.
- The emission tail of `send_points` (`src/reserver.js:317-321`) reads `playerIndex` out of its scope.
- Interleaving at `await` points and concurrency are not modelled. Each handler runs to completion, and the `get_themes` listings are given up front.
- `show_logo` and `select_movie` (`src/reserver.js:254-285`) index `.theme` instead of `.themes` and discard the frame list. No coherent behaviour can be stated for them.
- `get_themes` in `src/new.js:195-204` keys by socket id and by an array.
- `end_game` in `src/new.js:224-255` deletes undeclared globals.
- Winner and tie computation exists only as commented-out code (`src/new.js:225-254`). In `src/reserver.js` the winner comes from the client.
- Reserver.GamePageId: the source writes `gamePage` and then throws when no host is bound. The model requires a bound host instead of modelling that partial write.
- Catalog.Fill: theme names that collide with inherited object properties (such as `constructor`) are skipped by the source's truthiness test. The model treats every name as absent until added.
- Reserver.SendPoints: `pts` is an unbounded integer. String concatenation, which JavaScript's `+=` would do on a string payload, is not modelled.
- RosterServer.GetPoints: `pts` is an unbounded integer. String concatenation, which JavaScript's `+=` (`src/new.js:184-185`) would do on a string payload, is not modelled.
- RosterServer.GameJoinRoom: the `!game` branch (`src/new.js:138-142`) is not modelled. `create_session` always installs an object, so the branch is unreachable.
- RosterServer.HostJoinRoom: the `!host` branch (`src/new.js:116-120`) is not modelled. `create_session` always installs an object, so the branch is unreachable.

## Findings

| source | as written | input that shows it | evidently intended | confidence | as-written member | corrected member |
|---|---|---|---|---|---|---|
| src/new.js:114-128 | the host slot starts as `{socketId: null, _id: null}`, and a join changes it only when `_id === hostId`, which never holds for a string id; the `!host` branch that should bind is dead (and would store a second fresh id instead of `hostId`) | `create_session("R")`, then `host_join_room("R", "s1", "h1")`: the host stays `{null, null}` | an unbound host slot is bound to the caller's socket and id | high, not executed | RosterRun.RolesNeverBind | RosterServer.HostJoinRoomIntended |
| src/new.js:136-150 | the same comparison against the stored `null` id means the game slot is never bound | `create_session("R")`, then `game_join_room("R", "g1", "x")`: the game slot stays `{null, null}` | an unbound game slot is bound to the caller's socket and id | high, not executed | RosterRun.RolesNeverBind | RosterServer.GameJoinRoomIntended |
| src/reserver.js:327 | `end_game` sets the catalog to `[]`, which is truthy and has no `themes`, so `get_themes` (lines 218-230) neither re-initialises nor fills it | `end_game("R")`, `create_session("R")`, then `get_themes("R")` with theme "Sci-Fi" holding "Interstellar": the catalog stays `[]` | the catalog entry is deleted, so a reused room code gets a fresh catalog | medium, not executed | ReserverRun.EndGameBlocksNewCatalog | ReserverRun.EndGameIntended |

The event-run models (`ReserverRun.Run`, `RosterRun.Run`) take an `intended` flag. With it set, they use the corrected handlers above. The invariants on capacity, distinct ids, roster shape and persistence are proved for both settings.
