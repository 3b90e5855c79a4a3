/** Properties of the `src/reserver.js` draft over whole event sequences:
    the capacity and unique-id invariant of every live room, idempotent
    re-joins, bind-once host and game page, and the catalog that `end_game`
    wipes for good. */
module ReserverRun {
  import opened Common
  import opened Catalog
  import opened Reserver

  /** The socket events that touch server state, with their payloads. */
  datatype Event =
    | CreateSessionEv(room: string)
    | JoinRoomEv(room: string, playerId: string, socketId: string, playerName: string)
    | HostPageIdEv(room: string, socketId: string, hostId: string)
    | GamePageIdEv(room: string, gameId: string)
    | GetThemesEv(room: string, folders: Option<seq<string>>, listing: map<string, seq<string>>)
    | SendPointsEv(room: string, playerName: string, pts: int)
    | EndGameEv(room: string)

  /** One event handled to completion. A `game_page_id` whose handler
      would throw is dropped. With `intended`, `end_game` deletes the
      catalog instead of wiping it. */
  function Apply(s: Server, e: Event, intended: bool): Server
  {
    match e
    case CreateSessionEv(room) => s.(games := CreateSession(s.games, room))
    case JoinRoomEv(room, playerId, socketId, playerName) =>
      s.(games := JoinRoom(s.games, room, playerId, socketId, playerName).games)
    case HostPageIdEv(room, socketId, hostId) => s.(games := HostPageId(s.games, room, socketId, hostId))
    case GamePageIdEv(room, gameId) =>
      if GamePageCallable(s.games, room) then s.(games := GamePageId(s.games, room, gameId).games) else s
    case GetThemesEv(room, folders, listing) => s.(movies := GetThemes(s.movies, room, folders, listing))
    case SendPointsEv(room, playerName, pts) => s.(games := SendPoints(s.games, room, playerName, pts))
    case EndGameEv(room) => if intended then EndGameIntended(s, room) else EndGame(s, room)
  }

  /** Events handled one at a time in arrival order. */
  function Run(s: Server, es: seq<Event>, intended: bool): Server
    decreases |es|
  {
    if |es| == 0 then s else Run(Apply(s, es[0], intended), es[1..], intended)
  }

  const Boot: Server := Server(map[], map[])

  predicate UniqueIds(ps: seq<Player>)
  {
    forall i, j :: 0 <= i < j < |ps| ==> ps[i].id != ps[j].id
  }

  /** A room never holds more than `Capacity` players, and no two share a
      logical id. */
  predicate RoomOk(rm: Room)
  {
    |rm.players| <= Capacity && UniqueIds(rm.players)
  }

  predicate Inv(games: Games)
  {
    forall k :: k in games && games[k].Live? ==> RoomOk(games[k].room)
  }

  /** `join_room` keeps every room within capacity with distinct ids. */
  lemma JoinRoomKeepsInv(games: Games, room: string, playerId: string, socketId: string, playerName: string)
    requires Inv(games)
    ensures Inv(JoinRoom(games, room, playerId, socketId, playerName).games)
  {
    var r := JoinRoom(games, room, playerId, socketId, playerName);
    if Admits(games, room, playerId) {
      var ps := games[room].room.players;
      var ps' := r.games[room].room.players;
      assert ps' == ps + [Player(playerId, socketId, playerName, 0)];
      forall i, j | 0 <= i < j < |ps'|
        ensures ps'[i].id != ps'[j].id
      {
        if j == |ps| {
          assert ps'[i] == ps[i];
          assert !HasId(ps, playerId);
        }
      }
    }
  }

  /** `send_points` changes only a score, so the invariant survives it. */
  lemma SendPointsKeepsInv(games: Games, room: string, playerName: string, pts: int)
    requires Inv(games)
    ensures Inv(SendPoints(games, room, playerName, pts))
  {
    var r := SendPoints(games, room, playerName, pts);
    if IsLive(games, room) && FindPlayer(games[room].room.players, playerName).Some? {
      var ps := games[room].room.players;
      var ps' := r[room].room.players;
      assert forall j :: 0 <= j < |ps| ==> ps'[j].id == ps[j].id;
    }
  }

  lemma {:induction false} ApplyKeepsInv(s: Server, e: Event, intended: bool)
    requires Inv(s.games)
    ensures Inv(Apply(s, e, intended).games)
  {
    match e
    case JoinRoomEv(room, playerId, socketId, playerName) =>
      JoinRoomKeepsInv(s.games, room, playerId, socketId, playerName);
    case SendPointsEv(room, playerName, pts) =>
      SendPointsKeepsInv(s.games, room, playerName, pts);
    case _ =>
  }

  /** Whatever events arrive, every live room stays within capacity and
      keeps its player ids unique. */
  lemma {:induction false} RunKeepsInv(s: Server, es: seq<Event>, intended: bool)
    requires Inv(s.games)
    ensures Inv(Run(s, es, intended).games)
    decreases |es|
  {
    if |es| > 0 {
      ApplyKeepsInv(s, es[0], intended);
      RunKeepsInv(Apply(s, es[0], intended), es[1..], intended);
    }
  }

  /** Every state the server can reach from start-up satisfies the invariant. */
  lemma ReachableRoomsOk(es: seq<Event>, intended: bool)
    ensures Inv(Run(Boot, es, intended).games)
  {
    RunKeepsInv(Boot, es, intended);
  }

  /** A repeated `join_room` with the same player id changes nothing and
      emits nothing, whatever socket or name it carries. */
  lemma JoinRoomIdempotent(games: Games, room: string, playerId: string, s1: string, n1: string, s2: string, n2: string)
    ensures
      var g1 := JoinRoom(games, room, playerId, s1, n1).games;
      JoinRoom(g1, room, playerId, s2, n2) == Step(g1, [])
  {
    var g1 := JoinRoom(games, room, playerId, s1, n1).games;
    if Admits(games, room, playerId) {
      var ps' := g1[room].room.players;
      assert ps'[|ps'| - 1].id == playerId;
      assert HasId(ps', playerId);
    } else if IsLive(games, room) && HasId(games[room].room.players, playerId) {
      assert g1 == games;
    }
  }

  /** Once the game page is bound, a second `game_page_id`, with the same id
      or another, changes nothing and emits nothing. */
  lemma GamePageIdBindsOnce(games: Games, room: string, id1: string, id2: string)
    requires GamePageCallable(games, room)
    ensures
      var g1 := GamePageId(games, room, id1).games;
      GamePageCallable(g1, room) && g1[room].room.gamePage.Some? &&
      GamePageId(g1, room, id2) == Step(g1, [])
  {
  }

  /** Repeating `host_page_id` with the same arguments is a no-op. */
  lemma HostPageIdIdempotent(games: Games, room: string, socketId: string, hostId: string)
    ensures
      var g1 := HostPageId(games, room, socketId, hostId);
      HostPageId(g1, room, socketId, hostId) == g1
  {
  }

  /** The event resets `room`: only `create_session` and `end_game` do. */
  predicate Resets(e: Event, room: string)
  {
    (e.CreateSessionEv? && e.room == room) || (e.EndGameEv? && e.room == room)
  }

  /** What a room keeps across any event that does not reset it: it stays
      live, a bound host keeps its logical id, a bound game page keeps its
      id, and existing players keep their place, id, socket and name. */
  predicate Persists(rm: Room, rm': Room)
  {
    (rm.host.Some? ==> rm'.host.Some? && rm'.host.value.id == rm.host.value.id) &&
    (rm.gamePage.Some? ==> rm'.gamePage == rm.gamePage) &&
    |rm.players| <= |rm'.players| &&
    forall i :: 0 <= i < |rm.players| ==>
      rm'.players[i].id == rm.players[i].id &&
      rm'.players[i].socketId == rm.players[i].socketId &&
      rm'.players[i].name == rm.players[i].name
  }

  lemma {:induction false} ApplyPersists(s: Server, e: Event, room: string, intended: bool)
    requires IsLive(s.games, room) && !Resets(e, room)
    ensures IsLive(Apply(s, e, intended).games, room)
    ensures Persists(s.games[room].room, Apply(s, e, intended).games[room].room)
  {
    match e
    case CreateSessionEv(r) =>
    case JoinRoomEv(r, playerId, socketId, playerName) =>
    case HostPageIdEv(r, socketId, hostId) =>
    case GamePageIdEv(r, gameId) =>
    case GetThemesEv(r, folders, listing) =>
    case SendPointsEv(r, playerName, pts) =>
    case EndGameEv(r) =>
  }

  /** Until the room is re-created or ended, no event sequence unbinds or
      replaces its host or game page, or drops or rebinds a player. */
  lemma {:induction false} RunPersists(s: Server, es: seq<Event>, room: string, intended: bool)
    requires IsLive(s.games, room)
    requires forall i :: 0 <= i < |es| ==> !Resets(es[i], room)
    ensures IsLive(Run(s, es, intended).games, room)
    ensures Persists(s.games[room].room, Run(s, es, intended).games[room].room)
    decreases |es|
  {
    if |es| > 0 {
      var s1 := Apply(s, es[0], intended);
      ApplyPersists(s, es[0], room, intended);
      assert forall i :: 0 <= i < |es[1..]| ==> es[1..][i] == es[i + 1];
      RunPersists(s1, es[1..], room, intended);
    }
  }

  /** As written, after `end_game` the room's catalog is the empty array,
      and no event sequence ever turns it back into a catalog, even when the
      room code is used for a new session. */
  lemma {:induction false} WipedCatalogStaysWiped(s: Server, es: seq<Event>, room: string)
    requires room in s.movies && s.movies[room].Wiped?
    ensures room in Run(s, es, false).movies && Run(s, es, false).movies[room].Wiped?
    decreases |es|
  {
    if |es| > 0 {
      var s1 := Apply(s, es[0], false);
      assert room in s1.movies && s1.movies[room].Wiped?;
      WipedCatalogStaysWiped(s1, es[1..], room);
    }
  }

  lemma RunThree(s: Server, e1: Event, e2: Event, e3: Event, intended: bool)
    ensures Run(s, [e1, e2, e3], intended) == Apply(Apply(Apply(s, e1, intended), e2, intended), e3, intended)
  {
    var s1 := Apply(s, e1, intended);
    var s2 := Apply(s1, e2, intended);
    var s3 := Apply(s2, e3, intended);
    assert [e1, e2, e3][1..] == [e2, e3];
    assert [e2, e3][1..] == [e3];
    assert [e3][1..] == [];
    assert Run(s, [e1, e2, e3], intended) == Run(s1, [e2, e3], intended);
    assert Run(s1, [e2, e3], intended) == Run(s2, [e3], intended);
    assert Run(s2, [e3], intended) == Run(s3, [], intended);
  }

  /** A concrete run: end the game, open a new session under the same code,
      and ask for the themes with a listing that fully succeeds. As written
      the room is live again but its catalog stays wiped; with the intended
      `end_game` it holds the listed theme. */
  lemma EndGameBlocksNewCatalog(s: Server, room: string)
    ensures
      var es := [EndGameEv(room), CreateSessionEv(room),
                 GetThemesEv(room, Some(["Sci-Fi"]), map["Sci-Fi" := ["Interstellar"]])];
      IsLive(Run(s, es, false).games, room) &&
      room in Run(s, es, false).movies && Run(s, es, false).movies[room] == Wiped &&
      room in Run(s, es, true).movies && Run(s, es, true).movies[room] == Stored(map["Sci-Fi" := MovieList(["Interstellar"])])
  {
    var get := GetThemesEv(room, Some(["Sci-Fi"]), map["Sci-Fi" := ["Interstellar"]]);
    RunThree(s, EndGameEv(room), CreateSessionEv(room), get, false);
    RunThree(s, EndGameEv(room), CreateSessionEv(room), get, true);
    var fill := Fill(map[], ["Sci-Fi"], map["Sci-Fi" := ["Interstellar"]]);
    assert ["Sci-Fi"][1..] == [];
    assert fill.themes == map["Sci-Fi" := MovieList(["Interstellar"])];
  }

  /** `end_game` as evidently intended: the catalog entry is deleted, not
      replaced by an empty array, so the code can be reused. */
  function EndGameIntended(s: Server, room: string): (r: Server)
    ensures OthersUnchanged(s.games, r.games, room) && r.games[room].Cleared?
    ensures room !in r.movies && r.movies.Keys == s.movies.Keys - {room}
    ensures forall k :: k in r.movies ==> r.movies[k] == s.movies[k]
  {
    Server(s.games[room := Cleared], s.movies - {room})
  }

  /** With the intended `end_game`, a new session under the same code gets a
      full catalog from any theme listing that succeeds. */
  lemma EndGameIntendedAllowsCatalog(s: Server, room: string, folders: seq<string>, listing: map<string, seq<string>>)
    requires AllListed(folders, listing)
    ensures
      var es := [EndGameEv(room), CreateSessionEv(room), GetThemesEv(room, Some(folders), listing)];
      var m := Run(s, es, true).movies;
      IsLive(Run(s, es, true).games, room) &&
      room in m && m[room].Stored? && m[room].themes.Keys == set j | 0 <= j < |folders| :: folders[j]
  {
    RunThree(s, EndGameEv(room), CreateSessionEv(room), GetThemesEv(room, Some(folders), listing), true);
  }
}
