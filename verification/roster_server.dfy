/** The room bookkeeping of the `src/new.js` draft. A room is created with
    its whole roster up front: an empty host slot, an empty game slot and
    three named player slots. Joins rebind slots by logical id; nothing is
    ever added or removed. Freshly minted ids (`nanoid`), socket ids and the
    media service's folder listings are parameters. */
module RosterServer {
  import opened Common
  import opened Catalog

  /** A host or game slot: current socket and logical id, both `null` until bound. */
  datatype Slot = Slot(socketId: Option<string>, id: Option<string>)

  datatype Player = Player(socketId: Option<string>, id: Option<string>, points: int, name: string)

  datatype Room = Room(host: Slot, players: seq<Player>, game: Slot)

  type Games = map<string, Room>

  /** Catalogs by key. The source keys them by the creating socket's id. */
  type Movies = map<string, Themes>

  datatype Server = Server(games: Games, movies: Movies)

  /** The fixed player names, in roster order. */
  const RosterNames: seq<string> := ["Черепашки", "Черепушки", "Черемушки"]

  const EmptySlot: Slot := Slot(None, None)

  /** The roster `create_session` installs. */
  function FreshRoster(): (r: Room)
    ensures r.host == EmptySlot && r.game == EmptySlot
    ensures |r.players| == |RosterNames| == 3
    ensures forall i :: 0 <= i < |r.players| ==>
      r.players[i] == Player(None, None, 0, RosterNames[i])
  {
    Room(EmptySlot, seq(3, i requires 0 <= i < 3 => Player(None, None, 0, RosterNames[i])), EmptySlot)
  }

  /** The id a handler works with: the supplied one when it is truthy,
      otherwise the freshly minted one. */
  function EffectiveId(supplied: Option<string>, minted: string): (r: string)
    ensures supplied.Some? && supplied.value != "" ==> r == supplied.value
    ensures supplied.None? || supplied.value == "" ==> r == minted
  {
    if supplied.Some? && supplied.value != "" then supplied.value else minted
  }

  /** `getThemesAndMovies`: when the theme listing succeeds the catalog under
      `key` is replaced by a fresh one filled from the listings; when it
      fails nothing changes. */
  function GetThemesAndMovies(movies: Movies, key: string, folders: Option<seq<string>>, listing: map<string, seq<string>>): (r: Movies)
    ensures folders.None? ==> r == movies
    ensures folders.Some? ==> r.Keys == movies.Keys + {key}
    ensures forall k :: k in movies && k != key ==> k in r && r[k] == movies[k]
    ensures folders.Some? ==>
      forall k :: k in r[key] ==> k in folders.value && Entered(r[key], k, listing)
    ensures folders.Some? && AllListed(folders.value, listing) ==>
      r[key].Keys == set j | 0 <= j < |folders.value| :: folders.value[j]
  {
    match folders
    case None => movies
    case Some(fs) =>
      FillAddsListed(map[], fs, listing);
      FillCompleteIff(map[], fs, listing);
      if Fill(map[], fs, listing).complete then
        FillCompleteKeys(map[], fs, listing);
        movies[key := Fill(map[], fs, listing).themes]
      else movies[key := Fill(map[], fs, listing).themes]
  }

  /** `create_session`: the catalog is fetched under the creating socket's
      id, then the room is overwritten with a fresh roster. */
  function CreateSession(s: Server, room: string, socketId: string, folders: Option<seq<string>>, listing: map<string, seq<string>>): (r: Server)
    ensures r.games.Keys == s.games.Keys + {room}
    ensures r.games[room] == FreshRoster()
    ensures forall k :: k in s.games && k != room ==> r.games[k] == s.games[k]
    ensures folders.None? ==> r.movies == s.movies
    ensures folders.Some? ==> r.movies.Keys == s.movies.Keys + {socketId}
    ensures forall k :: k in s.movies && k != socketId ==> k in r.movies && r.movies[k] == s.movies[k]
    ensures folders.Some? ==>
      forall k :: k in r.movies[socketId] ==> k in folders.value && Entered(r.movies[socketId], k, listing)
  {
    Server(s.games[room := FreshRoster()], GetThemesAndMovies(s.movies, socketId, folders, listing))
  }

  /** Index of the first slot called `name`, as `find` locates it. */
  function FindSlot(ps: seq<Player>, name: string): (r: Option<nat>)
    ensures r.Some? ==> r.value < |ps| && ps[r.value].name == name
    ensures r.Some? ==> forall j :: 0 <= j < r.value ==> ps[j].name != name
    ensures r.None? <==> forall j :: 0 <= j < |ps| ==> ps[j].name != name
  {
    FirstIndex(ps, (p: Player) => p.name == name)
  }

  /** A slot called `name` exists in `room`; the handlers that look one up
      dereference it unguarded. */
  predicate HasSlot(games: Games, room: string, name: string)
  {
    room in games && FindSlot(games[room].players, name).Some?
  }

  /** `player_join_room`: the slot called `playerName` is rebound to
      (`playerSocket`, id) when its logical id differs from the supplied
      (or else minted) id; otherwise nothing changes. Name and points are
      kept and no other slot is touched. */
  function PlayerJoinRoom(games: Games, room: string, playerName: string, playerSocket: string,
                          playerId: Option<string>, minted: string): (r: Games)
    requires HasSlot(games, room, playerName)
    ensures r.Keys == games.Keys
    ensures forall k :: k in games && k != room ==> r[k] == games[k]
    ensures
      var rm := games[room];
      var i := FindSlot(rm.players, playerName).value;
      var id := EffectiveId(playerId, minted);
      r[room].host == rm.host && r[room].game == rm.game &&
      |r[room].players| == |rm.players| &&
      (forall j :: 0 <= j < |rm.players| && j != i ==> r[room].players[j] == rm.players[j]) &&
      (rm.players[i].id == Some(id) ==> r == games) &&
      (rm.players[i].id != Some(id) ==>
        r[room].players[i] == Player(Some(playerSocket), Some(id), rm.players[i].points, playerName))
  {
    var rm := games[room];
    var i := FindSlot(rm.players, playerName).value;
    var id := EffectiveId(playerId, minted);
    var p := rm.players[i];
    if p.id != Some(id) then
      games[room := rm.(players := rm.players[i := p.(socketId := Some(playerSocket), id := Some(id))])]
    else games
  }

  /** The reconnect rule for the host and game slots: the socket moves to
      `socket` only when the logical id matches and the socket differs. */
  function Rejoin(slot: Slot, socket: string, id: string): (r: Slot)
    ensures r.id == slot.id
    ensures r != slot <==> slot.id == Some(id) && slot.socketId != Some(socket)
    ensures r != slot ==> r.socketId == Some(socket)
  {
    if slot.socketId != Some(socket) && slot.id == Some(id) then slot.(socketId := Some(socket)) else slot
  }

  /** `host_join_room`: the host slot follows the reconnect rule for the
      supplied (or else minted) id; players and game slot are untouched. */
  function HostJoinRoom(games: Games, room: string, hostSocket: string, hostId: Option<string>, minted: string): (r: Games)
    requires room in games
    ensures r.Keys == games.Keys
    ensures forall k :: k in games && k != room ==> r[k] == games[k]
    ensures r[room].players == games[room].players && r[room].game == games[room].game
    ensures r[room].host.id == games[room].host.id
    ensures r != games <==>
      games[room].host.id == Some(EffectiveId(hostId, minted)) && games[room].host.socketId != Some(hostSocket)
    ensures r != games ==> r[room].host.socketId == Some(hostSocket)
  {
    var rm := games[room];
    var host' := Rejoin(rm.host, hostSocket, EffectiveId(hostId, minted));
    if host' != rm.host then games[room := rm.(host := host')] else games
  }

  /** `game_join_room`: the same reconnect rule for the game slot. */
  function GameJoinRoom(games: Games, room: string, gameSocket: string, gameId: Option<string>, minted: string): (r: Games)
    requires room in games
    ensures r.Keys == games.Keys
    ensures forall k :: k in games && k != room ==> r[k] == games[k]
    ensures r[room].players == games[room].players && r[room].host == games[room].host
    ensures r[room].game.id == games[room].game.id
    ensures r != games <==>
      games[room].game.id == Some(EffectiveId(gameId, minted)) && games[room].game.socketId != Some(gameSocket)
    ensures r != games ==> r[room].game.socketId == Some(gameSocket)
  {
    var rm := games[room];
    var game' := Rejoin(rm.game, gameSocket, EffectiveId(gameId, minted));
    if game' != rm.game then games[room := rm.(game := game')] else games
  }

  function Points(p: Player): int { p.points }

  /** Sum of the points of a room's slots. */
  function TotalPoints(ps: seq<Player>): int { SumOf(ps, Points) }

  /** `get_points`: adds `pts` to the slot called `playerName`. */
  function GetPoints(games: Games, room: string, playerName: string, pts: int): (r: Games)
    requires HasSlot(games, room, playerName)
    ensures r.Keys == games.Keys
    ensures forall k :: k in games && k != room ==> r[k] == games[k]
    ensures
      var rm := games[room];
      var i := FindSlot(rm.players, playerName).value;
      r[room].host == rm.host && r[room].game == rm.game &&
      |r[room].players| == |rm.players| &&
      r[room].players[i] == rm.players[i].(points := rm.players[i].points + pts) &&
      forall j :: 0 <= j < |rm.players| && j != i ==> r[room].players[j] == rm.players[j]
  {
    var rm := games[room];
    var i := FindSlot(rm.players, playerName).value;
    var p := rm.players[i];
    games[room := rm.(players := rm.players[i := p.(points := p.points + pts)])]
  }

  /** `get_points` raises the room's total by exactly `pts`. */
  lemma GetPointsTotal(games: Games, room: string, playerName: string, pts: int)
    requires HasSlot(games, room, playerName)
    ensures TotalPoints(GetPoints(games, room, playerName, pts)[room].players) == TotalPoints(games[room].players) + pts
  {
    var ps := games[room].players;
    var i := FindSlot(ps, playerName).value;
    SumOfUpdate(ps, Points, i, ps[i].(points := ps[i].points + pts));
  }

  /** A second `player_join_room` with the id the first one bound changes
      nothing, whatever socket it carries. A minted id is never empty. */
  lemma PlayerJoinRoomIdempotent(games: Games, room: string, playerName: string, s1: string, s2: string,
                                 playerId: Option<string>, minted: string, minted2: string)
    requires HasSlot(games, room, playerName) && minted != ""
    ensures
      var g1 := PlayerJoinRoom(games, room, playerName, s1, playerId, minted);
      HasSlot(g1, room, playerName) &&
      PlayerJoinRoom(g1, room, playerName, s2, Some(EffectiveId(playerId, minted)), minted2) == g1
  {
    var g1 := PlayerJoinRoom(games, room, playerName, s1, playerId, minted);
    var i := FindSlot(games[room].players, playerName).value;
    assert forall j :: 0 <= j < |games[room].players| ==> g1[room].players[j].name == games[room].players[j].name;
    assert FindSlot(g1[room].players, playerName) == Some(i);
  }

  /** The host slot as evidently intended: an unbound slot is bound to the
      caller's socket and the id it was handed; a bound slot follows the
      reconnect rule, so a foreign id never replaces it. */
  function BindRole(slot: Slot, socket: string, id: string): (r: Slot)
    ensures slot.id.None? ==> r == Slot(Some(socket), Some(id))
    ensures slot.id.Some? ==> r.id == slot.id
    ensures slot.id == Some(id) ==> r.socketId == Some(socket)
    ensures slot.id.Some? && slot.id != Some(id) ==> r == slot
  {
    if slot.id.None? then Slot(Some(socket), Some(id)) else Rejoin(slot, socket, id)
  }

  /** `host_join_room` as evidently intended, using `BindRole`. */
  function HostJoinRoomIntended(games: Games, room: string, hostSocket: string, hostId: Option<string>, minted: string): (r: Games)
    requires room in games
    ensures r.Keys == games.Keys
    ensures forall k :: k in games && k != room ==> r[k] == games[k]
    ensures r[room].players == games[room].players && r[room].game == games[room].game
    ensures games[room].host.id.None? ==>
      r[room].host == Slot(Some(hostSocket), Some(EffectiveId(hostId, minted)))
    ensures games[room].host.id.Some? ==> r[room].host.id == games[room].host.id
  {
    games[room := games[room].(host := BindRole(games[room].host, hostSocket, EffectiveId(hostId, minted)))]
  }

  /** `game_join_room` as evidently intended, using `BindRole`. */
  function GameJoinRoomIntended(games: Games, room: string, gameSocket: string, gameId: Option<string>, minted: string): (r: Games)
    requires room in games
    ensures r.Keys == games.Keys
    ensures forall k :: k in games && k != room ==> r[k] == games[k]
    ensures r[room].players == games[room].players && r[room].host == games[room].host
    ensures games[room].game.id.None? ==>
      r[room].game == Slot(Some(gameSocket), Some(EffectiveId(gameId, minted)))
    ensures games[room].game.id.Some? ==> r[room].game.id == games[room].game.id
  {
    games[room := games[room].(game := BindRole(games[room].game, gameSocket, EffectiveId(gameId, minted)))]
  }
}
