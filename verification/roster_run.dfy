/** Properties of the `src/new.js` draft over whole event sequences: the
    roster keeps its three named slots, and, as written, the host and game
    slots never get bound. The same run with the evidently intended binding
    keeps a bound host's and game page's identity for good. */
module RosterRun {
  import opened Common
  import opened Catalog
  import opened RosterServer

  /** The socket events that touch server state, with their payloads and
      the id `nanoid` would mint for them. */
  datatype Event =
    | CreateSessionEv(room: string, socketId: string, folders: Option<seq<string>>, listing: map<string, seq<string>>)
    | PlayerJoinEv(room: string, playerName: string, playerSocket: string, playerId: Option<string>, minted: string)
    | HostJoinEv(room: string, hostSocket: string, hostId: Option<string>, minted: string)
    | GameJoinEv(room: string, gameSocket: string, gameId: Option<string>, minted: string)
    | GetPointsEv(room: string, playerName: string, pts: int)

  /** One event handled to completion; an event whose handler would throw
      is dropped. With `intended`, the host and game joins use the
      corrected binding. */
  function Apply(s: Server, e: Event, intended: bool): Server
  {
    match e
    case CreateSessionEv(room, socketId, folders, listing) => CreateSession(s, room, socketId, folders, listing)
    case PlayerJoinEv(room, playerName, playerSocket, playerId, minted) =>
      if HasSlot(s.games, room, playerName)
      then s.(games := PlayerJoinRoom(s.games, room, playerName, playerSocket, playerId, minted))
      else s
    case HostJoinEv(room, hostSocket, hostId, minted) =>
      if room !in s.games then s
      else if intended then s.(games := HostJoinRoomIntended(s.games, room, hostSocket, hostId, minted))
      else s.(games := HostJoinRoom(s.games, room, hostSocket, hostId, minted))
    case GameJoinEv(room, gameSocket, gameId, minted) =>
      if room !in s.games then s
      else if intended then s.(games := GameJoinRoomIntended(s.games, room, gameSocket, gameId, minted))
      else s.(games := GameJoinRoom(s.games, room, gameSocket, gameId, minted))
    case GetPointsEv(room, playerName, pts) =>
      if HasSlot(s.games, room, playerName) then s.(games := GetPoints(s.games, room, playerName, pts)) else s
  }

  function Run(s: Server, es: seq<Event>, intended: bool): Server
    decreases |es|
  {
    if |es| == 0 then s else Run(Apply(s, es[0], intended), es[1..], intended)
  }

  const Boot: Server := Server(map[], map[])

  /** The roster shape: exactly the three fixed names, in order. */
  predicate RosterShape(rm: Room)
  {
    |rm.players| == |RosterNames| &&
    forall i :: 0 <= i < |rm.players| ==> rm.players[i].name == RosterNames[i]
  }

  predicate AllRosters(games: Games)
  {
    forall k :: k in games ==> RosterShape(games[k])
  }

  lemma {:induction false} ApplyKeepsRosters(s: Server, e: Event, intended: bool)
    requires AllRosters(s.games)
    ensures AllRosters(Apply(s, e, intended).games)
  {
    match e
    case CreateSessionEv(room, socketId, folders, listing) =>
    case PlayerJoinEv(room, playerName, playerSocket, playerId, minted) =>
    case HostJoinEv(room, hostSocket, hostId, minted) =>
    case GameJoinEv(room, gameSocket, gameId, minted) =>
    case GetPointsEv(room, playerName, pts) =>
  }

  /** No event sequence adds, removes, renames or reorders a roster slot,
      whichever host binding is used. */
  lemma {:induction false} RunKeepsRosters(s: Server, es: seq<Event>, intended: bool)
    requires AllRosters(s.games)
    ensures AllRosters(Run(s, es, intended).games)
    decreases |es|
  {
    if |es| > 0 {
      ApplyKeepsRosters(s, es[0], intended);
      RunKeepsRosters(Apply(s, es[0], intended), es[1..], intended);
    }
  }

  /** Every room reachable from start-up has exactly three slots with the fixed names. */
  lemma ReachableRosters(es: seq<Event>, intended: bool)
    ensures AllRosters(Run(Boot, es, intended).games)
  {
    RunKeepsRosters(Boot, es, intended);
  }

  /** Host and game slots are still the empty slots `create_session` made. */
  predicate RolesUnbound(games: Games)
  {
    forall k :: k in games ==> games[k].host == EmptySlot && games[k].game == EmptySlot
  }

  /** As written, a join compares the stored `null` id with a string id,
      which never matches, so host and game slots stay unbound forever. */
  lemma {:induction false} RolesNeverBind(s: Server, es: seq<Event>)
    requires RolesUnbound(s.games)
    ensures RolesUnbound(Run(s, es, false).games)
    decreases |es|
  {
    if |es| > 0 {
      var s1 := Apply(s, es[0], false);
      assert RolesUnbound(s1.games);
      RolesNeverBind(s1, es[1..]);
    }
  }

  lemma RunTwo(s: Server, e1: Event, e2: Event, intended: bool)
    ensures Run(s, [e1, e2], intended) == Apply(Apply(s, e1, intended), e2, intended)
  {
    var es := [e1, e2];
    var s1 := Apply(s, e1, intended);
    var s2 := Apply(s1, e2, intended);
    assert es[1..] == [e2];
    assert [e2][1..] == [];
    assert Run(s, es, intended) == Run(s1, [e2], intended);
    assert Run(s1, [e2], intended) == Run(s2, [], intended);
  }

  /** A concrete run: a new room, then the host page joins with id "h1" from
      socket "s1". As written the host slot stays empty; with the intended
      binding it holds ("s1", "h1"). */
  lemma HostJoinAfterCreate(room: string)
    ensures
      var es := [CreateSessionEv(room, "c1", None, map[]), HostJoinEv(room, "s1", Some("h1"), "m1")];
      room in Run(Boot, es, false).games && Run(Boot, es, false).games[room].host == EmptySlot &&
      room in Run(Boot, es, true).games && Run(Boot, es, true).games[room].host == Slot(Some("s1"), Some("h1"))
  {
    RunTwo(Boot, CreateSessionEv(room, "c1", None, map[]), HostJoinEv(room, "s1", Some("h1"), "m1"), false);
    RunTwo(Boot, CreateSessionEv(room, "c1", None, map[]), HostJoinEv(room, "s1", Some("h1"), "m1"), true);
  }

  /** What stays fixed for a room under the intended binding: a bound host
      or game page keeps its logical id. */
  predicate IdentityKept(rm: Room, rm': Room)
  {
    (rm.host.id.Some? ==> rm'.host.id == rm.host.id) &&
    (rm.game.id.Some? ==> rm'.game.id == rm.game.id)
  }

  lemma {:induction false} ApplyKeepsIdentity(s: Server, e: Event, room: string)
    requires room in s.games && !(e.CreateSessionEv? && e.room == room)
    ensures room in Apply(s, e, true).games
    ensures IdentityKept(s.games[room], Apply(s, e, true).games[room])
  {
    match e
    case CreateSessionEv(r, socketId, folders, listing) =>
    case PlayerJoinEv(r, playerName, playerSocket, playerId, minted) =>
    case HostJoinEv(r, hostSocket, hostId, minted) =>
    case GameJoinEv(r, gameSocket, gameId, minted) =>
    case GetPointsEv(r, playerName, pts) =>
  }

  /** With the intended binding, until the room is re-created no stale or
      foreign page can take over a bound host or game slot. */
  lemma {:induction false} IntendedIdentityStable(s: Server, es: seq<Event>, room: string)
    requires room in s.games
    requires forall i :: 0 <= i < |es| ==> !(es[i].CreateSessionEv? && es[i].room == room)
    ensures room in Run(s, es, true).games
    ensures IdentityKept(s.games[room], Run(s, es, true).games[room])
    decreases |es|
  {
    if |es| > 0 {
      var s1 := Apply(s, es[0], true);
      ApplyKeepsIdentity(s, es[0], room);
      assert forall i :: 0 <= i < |es[1..]| ==> es[1..][i] == es[i + 1];
      IntendedIdentityStable(s1, es[1..], room);
    }
  }
}
