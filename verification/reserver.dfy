/** The room bookkeeping of the `src/reserver.js` draft: a global map from
    room code to room record (host, players, game page) and a second map
    from room code to that room's movie catalog. Every socket handler is a
    pure transition over these maps; socket ids and the media service's
    folder listings are parameters. */
module Reserver {
  import opened Common
  import opened Catalog

  /** The most players a room accepts. */
  const Capacity: nat := 3

  datatype Player = Player(id: string, socketId: string, name: string, score: int)

  /** The host record: logical id and current socket. */
  datatype Host = Host(id: string, socketId: string)

  datatype Room = Room(host: Option<Host>, players: seq<Player>, gamePage: Option<string>)

  /** A registry slot: `Cleared` is the `null` that `end_game` leaves behind. */
  datatype Entry = Cleared | Live(room: Room)

  type Games = map<string, Entry>

  /** A catalog slot: `Wiped` is the empty array `end_game` leaves behind. */
  datatype Stored = Wiped | Stored(themes: Themes)

  type Movies = map<string, Stored>

  datatype Server = Server(games: Games, movies: Movies)

  /** Events the handlers emit. `GamePage` goes to the whole room,
      `SendGamePageId` to the host's socket. */
  datatype Emit = GamePage(room: string) | SendGamePageId(socketId: string, gameId: string)

  /** The registry after a handler, with what it emitted. */
  datatype Step = Step(games: Games, emits: seq<Emit>)

  const FreshRoom: Room := Room(None, [], None)

  predicate IsLive(games: Games, room: string)
  {
    room in games && games[room].Live?
  }

  /** Some player of the list already has logical id `id`. */
  predicate HasId(ps: seq<Player>, id: string)
  {
    exists i :: 0 <= i < |ps| && ps[i].id == id
  }

  /** Only the entry for `room` may differ, and no room appears or vanishes. */
  predicate OthersUnchanged(games: Games, games': Games, room: string)
  {
    games'.Keys == games.Keys + {room} &&
    forall k :: k in games && k != room ==> games'[k] == games[k]
  }

  /** `create_session`: the room is overwritten with a fresh record. The
      existence test in the source runs after the overwrite, so it always
      succeeds and never prevents the reset. */
  function CreateSession(games: Games, room: string): (r: Games)
    ensures OthersUnchanged(games, r, room)
    ensures IsLive(r, room)
    ensures r[room].room.host.None? && r[room].room.players == [] && r[room].room.gamePage.None?
  {
    games[room := Live(FreshRoom)]
  }

  /** `join_room` admits the player: the room is live, the id is new to it
      and there is a free place. */
  predicate Admits(games: Games, room: string, playerId: string)
  {
    IsLive(games, room) &&
    !HasId(games[room].room.players, playerId) &&
    |games[room].room.players| < Capacity
  }

  /** `join_room`: appends a player with score 0 unless the room is
      unknown or cleared, the id is already present, or the room is full;
      then signals `game_page` to the room once a host is bound and the
      room holds exactly `Capacity` players. */
  function JoinRoom(games: Games, room: string, playerId: string, socketId: string, playerName: string): (r: Step)
    ensures !Admits(games, room, playerId) ==> r == Step(games, [])
    ensures Admits(games, room, playerId) ==>
      OthersUnchanged(games, r.games, room) &&
      r.games[room] == Live(games[room].room.(players := games[room].room.players + [Player(playerId, socketId, playerName, 0)]))
    ensures r.emits == [] || r.emits == [GamePage(room)]
    ensures GamePage(room) in r.emits <==>
      Admits(games, room, playerId) && games[room].room.host.Some? && |r.games[room].room.players| == Capacity
  {
    if !IsLive(games, room) then Step(games, [])
    else
      var rm := games[room].room;
      if FirstIndex(rm.players, (p: Player) => p.id == playerId).Some? then Step(games, [])
      else if |rm.players| >= Capacity then Step(games, [])
      else
        var rm' := rm.(players := rm.players + [Player(playerId, socketId, playerName, 0)]);
        Step(games[room := Live(rm')], if rm'.host.Some? && |rm'.players| == Capacity then [GamePage(room)] else [])
  }

  /** `host_page_id`: on an unknown or cleared room nothing happens. An
      unbound host is bound to (`hostId`, `socketId`); a host with the same
      logical id moves to `socketId`; a host with a different id stays. */
  function HostPageId(games: Games, room: string, socketId: string, hostId: string): (r: Games)
    ensures !IsLive(games, room) ==> r == games
    ensures IsLive(games, room) ==>
      OthersUnchanged(games, r, room) && IsLive(r, room) &&
      r[room].room.players == games[room].room.players &&
      r[room].room.gamePage == games[room].room.gamePage
    ensures IsLive(games, room) && games[room].room.host.None? ==>
      r[room].room.host == Some(Host(hostId, socketId))
    ensures IsLive(games, room) && games[room].room.host.Some? && games[room].room.host.value.id == hostId ==>
      r[room].room.host == Some(Host(hostId, socketId))
    ensures IsLive(games, room) && games[room].room.host.Some? && games[room].room.host.value.id != hostId ==>
      r == games
  {
    if !IsLive(games, room) then games
    else
      var rm := games[room].room;
      match rm.host
      case None => games[room := Live(rm.(host := Some(Host(hostId, socketId))))]
      case Some(h) =>
        if h.id == hostId then
          if h.socketId != socketId then games[room := Live(rm.(host := Some(h.(socketId := socketId))))]
          else games
        else games
  }

  /** `game_page_id` may be called on this room: the source reads the room
      without a guard, and on the first binding it reads the host's socket. */
  predicate GamePageCallable(games: Games, room: string)
  {
    IsLive(games, room) && (games[room].room.gamePage.None? ==> games[room].room.host.Some?)
  }

  /** `game_page_id`: the game page is bound once. The first call records
      `gameId` and hands it to the host's socket; every later call, with the
      same id or another, changes and emits nothing. */
  function GamePageId(games: Games, room: string, gameId: string): (r: Step)
    requires GamePageCallable(games, room)
    ensures games[room].room.gamePage.Some? ==> r == Step(games, [])
    ensures games[room].room.gamePage.None? ==>
      OthersUnchanged(games, r.games, room) &&
      r.games[room] == Live(games[room].room.(gamePage := Some(gameId))) &&
      r.emits == [SendGamePageId(games[room].room.host.value.socketId, gameId)]
  {
    var rm := games[room].room;
    if rm.gamePage.None? then
      Step(games[room := Live(rm.(gamePage := Some(gameId)))], [SendGamePageId(rm.host.value.socketId, gameId)])
    else Step(games, [])
  }

  /** Index of the first player called `name`, as `findIndex` finds it. */
  function FindPlayer(ps: seq<Player>, name: string): (r: Option<nat>)
    ensures r.Some? ==> r.value < |ps| && ps[r.value].name == name
    ensures r.Some? ==> forall j :: 0 <= j < r.value ==> ps[j].name != name
    ensures r.None? <==> forall j :: 0 <= j < |ps| ==> ps[j].name != name
  {
    FirstIndex(ps, (p: Player) => p.name == name)
  }

  function Score(p: Player): int { p.score }

  /** Sum of the scores of a room's players. */
  function TotalScore(ps: seq<Player>): int { SumOf(ps, Score) }

  /** `send_points`: adds `pts` to the first player called `playerName`;
      an unknown or cleared room or an unknown name changes nothing. */
  function SendPoints(games: Games, room: string, playerName: string, pts: int): (r: Games)
    ensures !IsLive(games, room) ==> r == games
    ensures IsLive(games, room) && FindPlayer(games[room].room.players, playerName).None? ==> r == games
    ensures IsLive(games, room) && FindPlayer(games[room].room.players, playerName).Some? ==>
      OthersUnchanged(games, r, room) && IsLive(r, room) &&
      var ps := games[room].room.players;
      var i := FindPlayer(ps, playerName).value;
      r[room].room.host == games[room].room.host &&
      r[room].room.gamePage == games[room].room.gamePage &&
      |r[room].room.players| == |ps| &&
      r[room].room.players[i] == ps[i].(score := ps[i].score + pts) &&
      forall j :: 0 <= j < |ps| && j != i ==> r[room].room.players[j] == ps[j]
  {
    if !IsLive(games, room) then games
    else
      var rm := games[room].room;
      match FindPlayer(rm.players, playerName)
      case None => games
      case Some(i) =>
        var p := rm.players[i];
        games[room := Live(rm.(players := rm.players[i := p.(score := p.score + pts)]))]
  }

  /** A `join_room` never changes the room's total score: the only player it
      can add starts at 0. */
  lemma JoinRoomTotal(games: Games, room: string, playerId: string, socketId: string, playerName: string)
    requires IsLive(games, room)
    ensures IsLive(JoinRoom(games, room, playerId, socketId, playerName).games, room)
    ensures TotalScore(JoinRoom(games, room, playerId, socketId, playerName).games[room].room.players) ==
      TotalScore(games[room].room.players)
  {
    if Admits(games, room, playerId) {
      SumOfAppend(games[room].room.players, Score, Player(playerId, socketId, playerName, 0));
    }
  }

  /** `send_points` raises the room's total score by exactly `pts` when the
      name is found, and leaves it alone otherwise. */
  lemma SendPointsTotal(games: Games, room: string, playerName: string, pts: int)
    requires IsLive(games, room)
    ensures IsLive(SendPoints(games, room, playerName, pts), room)
    ensures TotalScore(SendPoints(games, room, playerName, pts)[room].room.players) ==
      TotalScore(games[room].room.players) + (if FindPlayer(games[room].room.players, playerName).Some? then pts else 0)
  {
    var ps := games[room].room.players;
    match FindPlayer(ps, playerName)
    case None =>
    case Some(i) =>
      SumOfUpdate(ps, Score, i, ps[i].(score := ps[i].score + pts));
  }

  /** The catalog `get_themes` works on: the stored one, or a fresh empty
      one when the room has none yet. */
  function Current(movies: Movies, room: string): Stored
  {
    if room in movies then movies[room] else Stored(map[])
  }

  /** `get_themes`: an absent catalog is first set to an empty one. When
      the theme listing succeeds, a stored catalog is filled with the
      themes it lacks. A wiped catalog has no themes object: a non-empty
      listing throws on it and leaves it wiped. */
  function GetThemes(movies: Movies, room: string, folders: Option<seq<string>>, listing: map<string, seq<string>>): (r: Movies)
    ensures r.Keys == movies.Keys + {room}
    ensures forall k :: k in movies && k != room ==> r[k] == movies[k]
    ensures Current(movies, room).Wiped? ==> r == movies
    ensures Current(movies, room).Stored? ==> r[room].Stored?
    ensures Current(movies, room).Stored? && folders.None? ==> r[room] == Current(movies, room)
    ensures Current(movies, room).Stored? ==>
      var before := Current(movies, room).themes;
      forall k :: k in before ==> k in r[room].themes && r[room].themes[k] == before[k]
    ensures Current(movies, room).Stored? && folders.Some? ==>
      var before := Current(movies, room).themes;
      forall k :: k in r[room].themes && k !in before ==> k in folders.value && Entered(r[room].themes, k, listing)
    ensures Current(movies, room).Stored? && folders.Some? && AllListed(folders.value, listing) ==>
      r[room].themes.Keys == Current(movies, room).themes.Keys + set j | 0 <= j < |folders.value| :: folders.value[j]
  {
    var cur := Current(movies, room);
    match cur
    case Wiped => movies
    case Stored(themes) =>
      match folders
      case None => movies[room := cur]
      case Some(fs) =>
        FillKeepsExisting(themes, fs, listing);
        FillAddsListed(themes, fs, listing);
        FillCompleteIff(themes, fs, listing);
        if Fill(themes, fs, listing).complete then
          FillCompleteKeys(themes, fs, listing);
          movies[room := Stored(Fill(themes, fs, listing).themes)]
        else movies[room := Stored(Fill(themes, fs, listing).themes)]
  }

  /** `end_game`: the room entry becomes `null` and the catalog an empty
      array, whether or not the room existed. */
  function EndGame(s: Server, room: string): (r: Server)
    ensures OthersUnchanged(s.games, r.games, room) && r.games[room].Cleared?
    ensures r.movies.Keys == s.movies.Keys + {room} && r.movies[room].Wiped?
    ensures forall k :: k in s.movies && k != room ==> r.movies[k] == s.movies[k]
  {
    Server(s.games[room := Cleared], s.movies[room := Wiped])
  }
}
