/**
 * socket.js: the session registry and event dispatcher of the battle server.
 *
 * Its state is four module-level maps: `activeGames` (game id to game),
 * `playerConnections` (user id to game id or 'waiting_room'),
 * `waitingPlayers` (socket id to user id) and `questionTimers` (game id to
 * the pending question timer). Each socket handler is a method of `Server`
 * that updates these maps in place. Each `setTimeout` callback is a pending
 * entry that an event method fires later; the callback keeps the game object
 * it captured, whatever happens to the maps in the meantime. What the server
 * broadcasts is appended to an event log.
 */
module Dispatcher {
  import opened Common
  import opened RoundGame

  type SocketId = string

  /** The `playerConnections` value of a user who waits for an opponent, and the room name. */
  const WaitingRoom: string := "waiting_room"

  /** What the server emits, with the parts of each payload that depend on the state. */
  datatype Event =
    | MatchFound(gameId: GameId, socket: SocketId, opponent: SocketId)
    | GameStateSent(gameId: GameId, socket: SocketId)
    | GameStarting(gameId: GameId)
    | GameStarted(gameId: GameId)
    | NewQuestion(gameId: GameId, question: Option<Question>, roundNumber: nat)
    | AnswerReply(socket: SocketId, result: AnswerResult)
    | AnswerRecorded(gameId: GameId, userId: UserId, isCorrect: bool)
    | TimeUp(gameId: GameId)
    | RoundResults(gameId: GameId, round: RoundResult)
    | GameOver(gameId: GameId, standings: FinalResults)
    | RematchRequested(gameId: GameId, userId: UserId)
    | RematchCreated(gameId: GameId, newGameId: GameId)
    | PlayerDisconnected(gameId: GameId, userId: UserId)

  /**
   * How many `round_results` for `id` the first `n` events of the log hold
   * since the last `new_question` for `id` among them.
   */
  function ResultsIn(log: seq<Event>, n: nat, id: GameId): nat
    requires n <= |log|
  {
    if n == 0 then 0
    else
      var e := log[n - 1];
      if e.NewQuestion? && e.gameId == id then 0
      else ResultsIn(log, n - 1, id) + (if e.RoundResults? && e.gameId == id then 1 else 0)
  }

  /** How many `round_results` for `id` the log holds since its last `new_question` for `id`. */
  function ResultsSince(log: seq<Event>, id: GameId): nat {
    ResultsIn(log, |log|, id)
  }

  /** Every `round_results` is the first one for its game since that game's last question. */
  ghost predicate AtMostOnePerRound(log: seq<Event>) {
    forall j :: 0 <= j < |log| && log[j].RoundResults? ==> ResultsIn(log, j, log[j].gameId) == 0
  }

  /** Appending to the log leaves the counts over its old prefixes alone. */
  lemma {:induction false} ResultsInAppend(log: seq<Event>, e: Event, n: nat, id: GameId)
    requires n <= |log|
    ensures ResultsIn(log + [e], n, id) == ResultsIn(log, n, id)
  {
    if n > 0 {
      assert (log + [e])[n - 1] == log[n - 1];
      ResultsInAppend(log, e, n - 1, id);
    }
  }

  /** Appending one event: how the counts move, and when the log stays well formed. */
  lemma Extend(log: seq<Event>, e: Event)
    requires AtMostOnePerRound(log)
    requires e.RoundResults? ==> ResultsSince(log, e.gameId) == 0
    ensures AtMostOnePerRound(log + [e])
    ensures forall id :: ResultsSince(log + [e], id) ==
              if e.NewQuestion? && e.gameId == id then 0
              else ResultsSince(log, id) + (if e.RoundResults? && e.gameId == id then 1 else 0)
  {
    var log' := log + [e];
    forall id ensures ResultsIn(log', |log|, id) == ResultsIn(log, |log|, id) {
      ResultsInAppend(log, e, |log|, id);
    }
    forall j | 0 <= j < |log'| && log'[j].RoundResults? ensures ResultsIn(log', j, log'[j].gameId) == 0 {
      if j < |log| {
        ResultsInAppend(log, e, j, log'[j].gameId);
      }
    }
  }

  /** A game id that no `round_results` mentions has no results pending. */
  lemma {:induction false} NoResultsYet(log: seq<Event>, n: nat, id: GameId)
    requires n <= |log|
    requires forall k :: 0 <= k < |log| && log[k].RoundResults? ==> log[k].gameId != id
    ensures ResultsIn(log, n, id) == 0
  {
    if n > 0 {
      NoResultsYet(log, n - 1, id);
    }
  }

  /** With no results pending after `n` events, a `round_results` before `n` is followed by a question. */
  lemma {:induction false} QuestionSince(log: seq<Event>, n: nat, id: GameId, i: nat)
    requires n <= |log| && ResultsIn(log, n, id) == 0
    requires i < n && log[i].RoundResults? && log[i].gameId == id
    ensures exists k :: i < k < n && log[k].NewQuestion? && log[k].gameId == id
  {
    if !(log[n - 1].NewQuestion? && log[n - 1].gameId == id) {
      QuestionSince(log, n - 1, id, i);
    }
  }

  /** Between two `round_results` for the same game the server sent that game a new question. */
  lemma RoundsSeparated(log: seq<Event>, i: nat, j: nat)
    requires AtMostOnePerRound(log)
    requires i < j < |log| && log[i].RoundResults? && log[j].RoundResults? && log[i].gameId == log[j].gameId
    ensures exists k :: i < k < j && log[k].NewQuestion? && log[k].gameId == log[i].gameId
  {
    QuestionSince(log, j, log[i].gameId, i);
  }

  /** A user whose connection entry names a live game that lists them. */
  predicate Seated(u: UserId, conns: map<UserId, string>, rosters: map<GameId, seq<UserId>>) {
    u in conns && conns[u] != WaitingRoom && conns[u] in rosters && u in rosters[conns[u]]
  }

  /** The `for...of` search of `handleDisconnect`: the first seated user in connection order. */
  function FirstSeated(order: seq<UserId>, conns: map<UserId, string>, rosters: map<GameId, seq<UserId>>): (r: Option<UserId>)
    ensures r.Some? ==> r.value in order && Seated(r.value, conns, rosters)
    ensures r.Some? ==> forall k :: 0 <= k < |order| && Seated(order[k], conns, rosters) ==> FirstIndex(order, r.value) <= k
    ensures r.None? ==> forall u :: u in order ==> !Seated(u, conns, rosters)
  {
    Find(order, (u: UserId) => Seated(u, conns, rosters))
  }

  /** The user `handleDisconnect` reports and the game it deletes: the first seated user, unless an id is empty. */
  function Departing(order: seq<UserId>, conns: map<UserId, string>, rosters: map<GameId, seq<UserId>>): (r: Option<(UserId, GameId)>)
    ensures r.Some? ==> r.value.0 in order && Seated(r.value.0, conns, rosters) && conns[r.value.0] == r.value.1
    ensures r.Some? ==> r.value.1 in rosters && r.value.0 in rosters[r.value.1]
    ensures var first := FirstSeated(order, conns, rosters);
            r.Some? <==> first.Some? && first.value != "" && conns[first.value] != ""
    ensures r.Some? ==> FirstSeated(order, conns, rosters) == Some(r.value.0)
  {
    match FirstSeated(order, conns, rosters)
    case None => None
    case Some(u) => if u != "" && conns[u] != "" then Some((u, conns[u])) else None
  }

  function Lookup(rosters: map<GameId, seq<UserId>>, gid: GameId): Option<seq<UserId>> {
    if gid in rosters then Some(rosters[gid]) else None
  }

  /** The connection cleanup of `handleDisconnect` as written: the game is deleted, then looked up. */
  function DeleteThenClear(rosters: map<GameId, seq<UserId>>, conns: map<UserId, string>, gid: GameId): map<UserId, string> {
    match Lookup(rosters - {gid}, gid)
    case None => conns
    case Some(ids) => DeleteEach(conns, ids)
  }

  /** The cleanup the comment describes: the game's players are looked up before it is deleted. */
  function ClearThenDelete(rosters: map<GameId, seq<UserId>>, conns: map<UserId, string>, gid: GameId): map<UserId, string> {
    match Lookup(rosters, gid)
    case None => conns
    case Some(ids) => DeleteEach(conns, ids)
  }

  /** As written, every connection survives, including those that point at the game just removed. */
  lemma DeleteThenClearKeepsStale(rosters: map<GameId, seq<UserId>>, conns: map<UserId, string>, gid: GameId, u: UserId)
    requires gid in rosters && u in rosters[gid] && u in conns && conns[u] == gid
    ensures DeleteThenClear(rosters, conns, gid) == conns
    ensures u in DeleteThenClear(rosters, conns, gid) && DeleteThenClear(rosters, conns, gid)[u] == gid
    ensures gid !in rosters - {gid}
  {
  }

  /** Looking up first removes exactly the players of the game and keeps every other connection. */
  lemma ClearThenDeleteCleans(rosters: map<GameId, seq<UserId>>, conns: map<UserId, string>, gid: GameId)
    requires gid in rosters
    ensures forall u :: u in rosters[gid] ==> u !in ClearThenDelete(rosters, conns, gid)
    ensures forall u :: u in conns && u !in rosters[gid] ==>
              u in ClearThenDelete(rosters, conns, gid) && ClearThenDelete(rosters, conns, gid)[u] == conns[u]
  {
  }

  /** The player ids of every live game. */
  ghost function RostersOf(games: map<GameId, TriviaGame>): (r: map<GameId, seq<UserId>>)
    reads games.Values
    ensures r.Keys == games.Keys
  {
    map id | id in games :: IdsOf(games[id].players)
  }

  /**
   * The live games are the ones created under their ids, and no game was
   * created under two ids: `idOf` takes each created game back to its id.
   */
  ghost predicate Registered(active: map<GameId, TriviaGame>, games: map<GameId, TriviaGame>,
                             idOf: map<TriviaGame, GameId>) {
    && (forall id :: id in active ==> id in games && games[id] == active[id])
    && (forall id :: id in games ==> games[id] in idOf && idOf[games[id]] == id)
  }

  /** `order` lists the keys of `m` once each: the iteration order of a JavaScript `Map`. */
  ghost predicate KeyOrder<K(!new), V>(m: map<K, V>, order: seq<K>) {
    NoDup(order) && forall u :: u in order <==> u in m
  }

  lemma KeyOrderSet<K(!new), V>(m: map<K, V>, order: seq<K>, k: K, v: V)
    requires KeyOrder(m, order)
    ensures KeyOrder(m[k := v], OrderSet(order, k))
  {
  }

  lemma KeyOrderDelete<K(!new), V>(m: map<K, V>, order: seq<K>, k: K)
    requires KeyOrder(m, order)
    ensures KeyOrder(m - {k}, OrderDelete(order, k))
  {
  }

  lemma KeyOrderSetEach<K(!new), V>(m: map<K, V>, order: seq<K>, ks: seq<K>, v: V)
    requires KeyOrder(m, order)
    ensures KeyOrder(SetEach(m, ks, v), OrderSetEach(order, ks))
  {
  }

  lemma KeyOrderDeleteEach<K(!new), V>(m: map<K, V>, order: seq<K>, ks: seq<K>)
    requires KeyOrder(m, order)
    ensures KeyOrder(DeleteEach(m, ks), OrderDeleteEach(order, ks))
  {
  }

  lemma SetEachStep<K(!new), V>(m: map<K, V>, order: seq<K>, ks: seq<K>, k: nat, v: V)
    requires k < |ks|
    ensures SetEach(m, ks[..k + 1], v) == SetEach(m, ks[..k], v)[ks[k] := v]
    ensures OrderSetEach(order, ks[..k + 1]) == OrderSet(OrderSetEach(order, ks[..k]), ks[k])
  {
    assert ks[..k + 1][..k] == ks[..k];
  }

  lemma DeleteEachStep<K(!new), V>(m: map<K, V>, order: seq<K>, ks: seq<K>, k: nat)
    requires k < |ks|
    ensures DeleteEach(m, ks[..k + 1]) == DeleteEach(m, ks[..k]) - {ks[k]}
    ensures OrderDeleteEach(order, ks[..k + 1]) == OrderDelete(OrderDeleteEach(order, ks[..k]), ks[k])
  {
    assert ks[..k + 1][..k] == ks[..k];
  }

  /** The `forEach` loop that sets every key of `ks` to `v`, on a map and its key order. */
  method SetAll<K(!new), V>(m: map<K, V>, order: seq<K>, ks: seq<K>, v: V) returns (m': map<K, V>, order': seq<K>)
    ensures m' == SetEach(m, ks, v) && order' == OrderSetEach(order, ks)
  {
    m', order' := m, order;
    var k := 0;
    while k < |ks|
      invariant 0 <= k <= |ks|
      invariant m' == SetEach(m, ks[..k], v) && order' == OrderSetEach(order, ks[..k])
    {
      SetEachStep(m, order, ks, k, v);
      m', order' := m'[ks[k] := v], OrderSet(order', ks[k]);
      k := k + 1;
    }
    assert ks[..k] == ks;
  }

  /** The `forEach` loop that deletes every key of `ks`, on a map and its key order. */
  method DeleteAll<K(!new), V>(m: map<K, V>, order: seq<K>, ks: seq<K>) returns (m': map<K, V>, order': seq<K>)
    ensures m' == DeleteEach(m, ks) && order' == OrderDeleteEach(order, ks)
  {
    m', order' := m, order;
    var k := 0;
    while k < |ks|
      invariant 0 <= k <= |ks|
      invariant m' == DeleteEach(m, ks[..k]) && order' == OrderDeleteEach(order, ks[..k])
    {
      DeleteEachStep(m, order, ks, k);
      m', order' := m' - {ks[k]}, OrderDelete(order', ks[k]);
      k := k + 1;
    }
    assert ks[..k] == ks;
  }

  /** Every callback names a created game, and each pending question callback is the one `questionTimers` records. */
  ghost predicate Captured(games: map<GameId, TriviaGame>, starts: map<nat, GameId>, questions: map<nat, GameId>,
                           settles: map<nat, GameId>, timers: map<GameId, nat>, next: nat)
  {
    && (forall t :: t in starts ==> t < next && starts[t] in games)
    && (forall t :: t in questions ==> t < next && questions[t] in games && questions[t] in timers && timers[questions[t]] == t)
    && (forall t :: t in settles ==> t < next && settles[t] in games)
  }

  /** Clearing the question timer of `id` leaves no question callback for `id`. */
  lemma CancelKeepsCaptured(games: map<GameId, TriviaGame>, starts: map<nat, GameId>, questions: map<nat, GameId>,
                            settles: map<nat, GameId>, timers: map<GameId, nat>, next: nat, id: GameId)
    requires Captured(games, starts, questions, settles, timers, next) && id in timers
    ensures Captured(games, starts, questions - {timers[id]}, settles, timers - {id}, next)
    ensures forall t :: t in questions - {timers[id]} ==> questions[t] != id
  {
  }

  /** Round results only name games that exist, and never twice in one round. */
  ghost predicate LogInv(log: seq<Event>, games: map<GameId, TriviaGame>) {
    && (forall k :: 0 <= k < |log| && log[k].RoundResults? ==> log[k].gameId in games)
    && AtMostOnePerRound(log)
  }

  /**
   * Every game is a duel with a question per round, and a game with a pending
   * question or reveal callback has a current question.
   */
  ghost predicate GamesOk(games: map<GameId, TriviaGame>, questions: map<nat, GameId>, settles: map<nat, GameId>)
    reads games.Values
  {
    && (forall id :: id in games ==> |games[id].players| == 2 && games[id].Loaded())
    && (forall t :: t in questions && questions[t] in games ==> games[questions[t]].currentQuestion.Some?)
    && (forall t :: t in settles && settles[t] in games ==> games[settles[t]].currentQuestion.Some?)
  }

  /**
   * A live game (other than `except`) in which someone has yet to answer has
   * no round results out: `except` may have cleared its answers without having
   * been sent its next question yet.
   */
  ghost predicate Unsettled(active: map<GameId, TriviaGame>, log: seq<Event>, except: Option<GameId>)
    reads active.Values
  {
    forall id :: id in active && except != Some(id) && !AllAnswered(active[id].players) ==> ResultsSince(log, id) == 0
  }

  /** The socket `findMatch` pairs with: the first other socket in the waiting room, if its waiting entry names a user. */
  function Opponent(room: seq<SocketId>, waiting: map<SocketId, UserId>, socket: SocketId): (r: Option<SocketId>)
    ensures r.Some? ==> r.value in room && r.value != socket && r.value in waiting && waiting[r.value] != ""
    ensures (forall s :: s in room ==> s == socket) ==> r.None?
    ensures r.Some? ==> forall k :: 0 <= k < |room| && room[k] != socket ==> FirstIndex(room, r.value) <= k
    ensures forall k :: 0 <= k < |room| && room[k] != socket && (forall j :: 0 <= j < k ==> room[j] == socket) ==>
              (r.Some? <==> room[k] in waiting && waiting[room[k]] != "")
  {
    var available := Filter(room, (s: SocketId) => s != socket);
    if |available| == 0 || available[0] !in waiting || waiting[available[0]] == "" then None
    else Some(available[0])
  }

  /** The pending question callbacks once the one `questionTimers` records for `id` is cleared. */
  function WithoutTimer(questions: map<nat, GameId>, timers: map<GameId, nat>, id: GameId): (r: map<nat, GameId>)
    ensures r.Keys <= questions.Keys
    ensures id in timers ==> timers[id] !in r && forall t :: t in questions && t != timers[id] ==> t in r
    ensures id !in timers ==> r == questions
  {
    if id in timers then questions - {timers[id]} else questions
  }

  /** A game as its constructor leaves it, for the given players. */
  ghost predicate Unstarted(g: TriviaGame, ids: seq<UserId>)
    reads g
  {
    && g.players == MapSeq(ids, NewPlayer) && g.currentRound == 0 && g.currentQuestion == None
    && g.status == Waiting && g.roundResults == []
  }

  class Server {
    var activeGames: map<GameId, TriviaGame>
    var playerConnections: map<UserId, string>
    /** The insertion order of `playerConnections`, which its `for...of` loop follows. */
    var connectionOrder: seq<UserId>
    var waitingPlayers: map<SocketId, UserId>
    /** The sockets in the 'waiting_room' room, in join order. */
    var waitingRoom: seq<SocketId>
    /** The handle of the pending question timer of each game. */
    var questionTimers: map<GameId, nat>
    /** Armed 3-second start callbacks, by the id of the game they captured. */
    var pendingStarts: map<nat, GameId>
    /** Armed 20-second question callbacks, by timer handle. */
    var pendingQuestions: map<nat, GameId>
    /** Armed 5-second reveal callbacks. */
    var pendingReveals: map<nat, GameId>
    var nextTimer: nat
    var emitted: seq<Event>
    /**
     * Every game created so far, by id: what the callbacks close over. A
     * callback runs on its game even after `activeGames` has dropped it.
     * Fresh ids come from outside this map.
     */
    var games: map<GameId, TriviaGame>
    /** The inverse of `games`. */
    ghost var idOf: map<TriviaGame, GameId>

    ghost function GameAt(gid: GameId): set<TriviaGame>
      reads this
    {
      if gid in activeGames then {activeGames[gid]} else {}
    }

    /** The server invariant, with `Unsettled` relaxed for game `except`. */
    ghost predicate Inv(except: Option<GameId>)
      reads this, games.Values, activeGames.Values
    {
      && Registered(activeGames, games, idOf) && KeyOrder(playerConnections, connectionOrder) && NoDup(waitingRoom)
      && Captured(games, pendingStarts, pendingQuestions, pendingReveals, questionTimers, nextTimer)
      && LogInv(emitted, games) && GamesOk(games, pendingQuestions, pendingReveals)
      && Unsettled(activeGames, emitted, except)
    }

    ghost predicate Valid()
      reads this, games.Values, activeGames.Values
    {
      Inv(None)
    }

    twostate predicate SameGames()
      reads this
    {
      activeGames == old(activeGames) && games == old(games) && idOf == old(idOf)
    }

    twostate predicate SameConnections()
      reads this
    {
      playerConnections == old(playerConnections) && connectionOrder == old(connectionOrder)
    }

    twostate predicate SameWaiting()
      reads this
    {
      waitingPlayers == old(waitingPlayers) && waitingRoom == old(waitingRoom)
    }

    twostate predicate SameTimers()
      reads this
    {
      && questionTimers == old(questionTimers) && pendingStarts == old(pendingStarts)
      && pendingQuestions == old(pendingQuestions) && pendingReveals == old(pendingReveals)
      && nextTimer == old(nextTimer)
    }

    constructor ()
      ensures Valid()
      ensures activeGames == map[] && playerConnections == map[] && connectionOrder == []
      ensures waitingPlayers == map[] && waitingRoom == [] && questionTimers == map[]
      ensures pendingStarts == map[] && pendingQuestions == map[] && pendingReveals == map[] && emitted == []
    {
      activeGames := map[];
      playerConnections := map[];
      connectionOrder := [];
      waitingPlayers := map[];
      waitingRoom := [];
      questionTimers := map[];
      pendingStarts := map[];
      pendingQuestions := map[];
      pendingReveals := map[];
      nextTimer := 0;
      emitted := [];
      games := map[];
      idOf := map[];
    }

    /*
     * The single map operations the handlers are made of. Each keeps the
     * invariant and says which fields it changes.
     */

    /** Broadcasts `e`. A `round_results` needs its round to be complete and not yet reported. */
    method Emit(e: Event, ghost except: Option<GameId>)
      requires Inv(except)
      requires e.RoundResults? ==>
                 && e.gameId in games && ResultsSince(emitted, e.gameId) == 0
                 && (e.gameId in activeGames ==> AllAnswered(activeGames[e.gameId].players))
      modifies this
      ensures Inv(if e.NewQuestion? && except == Some(e.gameId) then None else except)
      ensures emitted == old(emitted) + [e]
      ensures forall id :: ResultsSince(emitted, id) ==
                if e.NewQuestion? && e.gameId == id then 0
                else old(ResultsSince(emitted, id)) + (if e.RoundResults? && e.gameId == id then 1 else 0)
      ensures SameGames() && SameConnections() && SameWaiting() && SameTimers()
    {
      ghost var log := emitted;
      Extend(log, e);
      emitted := emitted + [e];
      ghost var ex := if e.NewQuestion? && except == Some(e.gameId) then None else except;
      assert LogInv(emitted, games) by {
        forall k | 0 <= k < |emitted| && emitted[k].RoundResults?
          ensures emitted[k].gameId in games
        {
          if k < |log| { assert emitted[k] == log[k]; }
        }
      }
      assert Unsettled(activeGames, emitted, ex) by {
        forall id | id in activeGames && ex != Some(id) && !AllAnswered(activeGames[id].players)
          ensures ResultsSince(emitted, id) == 0
        {
        }
      }
    }

    /** `playerConnections.set(userId, value)`. */
    method Connect(userId: UserId, value: string)
      requires Valid()
      modifies this
      ensures Valid()
      ensures playerConnections == old(playerConnections)[userId := value]
      ensures connectionOrder == OrderSet(old(connectionOrder), userId)
      ensures SameGames() && SameWaiting() && SameTimers() && emitted == old(emitted)
    {
      KeyOrderSet(playerConnections, connectionOrder, userId, value);
      playerConnections, connectionOrder := playerConnections[userId := value], OrderSet(connectionOrder, userId);
    }

    /** `ids.forEach(id => playerConnections.set(id, value))`. */
    method ConnectAll(ids: seq<UserId>, value: string)
      requires Valid()
      modifies this
      ensures Valid()
      ensures playerConnections == SetEach(old(playerConnections), ids, value)
      ensures connectionOrder == OrderSetEach(old(connectionOrder), ids)
      ensures SameGames() && SameWaiting() && SameTimers() && emitted == old(emitted)
    {
      var conns, order := SetAll(playerConnections, connectionOrder, ids, value);
      KeyOrderSetEach(playerConnections, connectionOrder, ids, value);
      playerConnections, connectionOrder := conns, order;
    }

    /** `playerConnections.delete(userId)`. */
    method DropConnection(userId: UserId)
      requires Valid()
      modifies this
      ensures Valid()
      ensures playerConnections == old(playerConnections) - {userId}
      ensures connectionOrder == OrderDelete(old(connectionOrder), userId)
      ensures SameGames() && SameWaiting() && SameTimers() && emitted == old(emitted)
    {
      KeyOrderDelete(playerConnections, connectionOrder, userId);
      playerConnections, connectionOrder := playerConnections - {userId}, OrderDelete(connectionOrder, userId);
    }

    /** `ids.forEach(id => playerConnections.delete(id))`. */
    method DropConnections(ids: seq<UserId>)
      requires Valid()
      modifies this
      ensures Valid()
      ensures playerConnections == DeleteEach(old(playerConnections), ids)
      ensures connectionOrder == OrderDeleteEach(old(connectionOrder), ids)
      ensures SameGames() && SameWaiting() && SameTimers() && emitted == old(emitted)
    {
      var conns, order := DeleteAll(playerConnections, connectionOrder, ids);
      KeyOrderDeleteEach(playerConnections, connectionOrder, ids);
      playerConnections, connectionOrder := conns, order;
    }

    /** `waitingPlayers.set(socket, userId)`. */
    method AddWaiting(socket: SocketId, userId: UserId)
      requires Valid()
      modifies this
      ensures Valid()
      ensures waitingPlayers == old(waitingPlayers)[socket := userId] && waitingRoom == old(waitingRoom)
      ensures SameGames() && SameConnections() && SameTimers() && emitted == old(emitted)
    {
      waitingPlayers := waitingPlayers[socket := userId];
    }

    /** `waitingPlayers.delete(socket)`. */
    method ForgetWaiting(socket: SocketId)
      requires Valid()
      modifies this
      ensures Valid()
      ensures waitingPlayers == old(waitingPlayers) - {socket} && waitingRoom == old(waitingRoom)
      ensures SameGames() && SameConnections() && SameTimers() && emitted == old(emitted)
    {
      waitingPlayers := waitingPlayers - {socket};
    }

    /** `socket.join('waiting_room')`. */
    method JoinRoom(socket: SocketId)
      requires Valid()
      modifies this
      ensures Valid()
      ensures waitingRoom == OrderSet(old(waitingRoom), socket) && waitingPlayers == old(waitingPlayers)
      ensures SameGames() && SameConnections() && SameTimers() && emitted == old(emitted)
    {
      waitingRoom := OrderSet(waitingRoom, socket);
    }

    /** `socket.leave('waiting_room')`, also what a disconnect does to every room. */
    method LeaveRoom(socket: SocketId)
      requires Valid()
      modifies this
      ensures Valid()
      ensures waitingRoom == OrderDelete(old(waitingRoom), socket) && waitingPlayers == old(waitingPlayers)
      ensures SameGames() && SameConnections() && SameTimers() && emitted == old(emitted)
    {
      waitingRoom := OrderDelete(waitingRoom, socket);
    }

    /** A matched socket stops waiting: its entry goes and it leaves the waiting room. */
    method Dequeue(socket: SocketId)
      requires Valid()
      modifies this
      ensures Valid()
      ensures waitingPlayers == old(waitingPlayers) - {socket} && waitingRoom == OrderDelete(old(waitingRoom), socket)
      ensures SameGames() && SameConnections() && SameTimers() && emitted == old(emitted)
    {
      ForgetWaiting(socket);
      LeaveRoom(socket);
    }

    /** `activeGames.set(gameId, game)` for a fresh id and a new game. */
    method AddGame(gameId: GameId, game: TriviaGame)
      requires Valid() && gameId !in games && game !in idOf && |game.players| == 2 && game.Loaded()
      modifies this
      ensures Valid()
      ensures activeGames == old(activeGames)[gameId := game] && games == old(games)[gameId := game]
      ensures idOf == old(idOf)[game := gameId]
      ensures SameConnections() && SameWaiting() && SameTimers() && emitted == old(emitted)
    {
      Register(gameId, game);
      NoResultsYet(emitted, |emitted|, gameId);
      activeGames := activeGames[gameId := game];
    }

    /** The new game joins the registry the callbacks close over. */
    method Register(gameId: GameId, game: TriviaGame)
      requires Valid() && gameId !in games && game !in idOf && |game.players| == 2 && game.Loaded()
      modifies this
      ensures Valid()
      ensures games == old(games)[gameId := game] && idOf == old(idOf)[game := gameId]
      ensures activeGames == old(activeGames)
      ensures SameConnections() && SameWaiting() && SameTimers() && emitted == old(emitted)
    {
      games := games[gameId := game];
      idOf := idOf[game := gameId];
      assert Registered(activeGames, games, idOf);
      assert Captured(games, pendingStarts, pendingQuestions, pendingReveals, questionTimers, nextTimer);
      assert GamesOk(games, pendingQuestions, pendingReveals);
    }

    /** `activeGames.delete(gameId)`. */
    method RemoveGame(gameId: GameId)
      requires Valid()
      modifies this
      ensures Valid()
      ensures activeGames == old(activeGames) - {gameId} && games == old(games) && idOf == old(idOf)
      ensures SameConnections() && SameWaiting() && SameTimers() && emitted == old(emitted)
    {
      activeGames := activeGames - {gameId};
    }

    /** `clearTimeout(questionTimers.get(gameId)); questionTimers.delete(gameId)`, when there is one. */
    method CancelTimer(gameId: GameId, ghost except: Option<GameId>)
      requires Inv(except)
      modifies this
      ensures Inv(except)
      ensures questionTimers == old(questionTimers) - {gameId}
      ensures pendingQuestions == WithoutTimer(old(pendingQuestions), old(questionTimers), gameId)
      ensures forall t :: t in pendingQuestions ==> pendingQuestions[t] != gameId
      ensures pendingStarts == old(pendingStarts) && pendingReveals == old(pendingReveals) && nextTimer == old(nextTimer)
      ensures SameGames() && SameConnections() && SameWaiting() && emitted == old(emitted)
    {
      if gameId in questionTimers {
        CancelKeepsCaptured(games, pendingStarts, pendingQuestions, pendingReveals, questionTimers, nextTimer, gameId);
        pendingQuestions := pendingQuestions - {questionTimers[gameId]};
        questionTimers := questionTimers - {gameId};
      }
    }

    /** `questionTimers.delete(gameId)` from inside the callback that already fired. */
    method ForgetTimer(gameId: GameId)
      requires Valid()
      requires forall t :: t in pendingQuestions ==> pendingQuestions[t] != gameId
      modifies this
      ensures Valid()
      ensures questionTimers == old(questionTimers) - {gameId}
      ensures pendingStarts == old(pendingStarts) && pendingQuestions == old(pendingQuestions)
      ensures pendingReveals == old(pendingReveals) && nextTimer == old(nextTimer)
      ensures SameGames() && SameConnections() && SameWaiting() && emitted == old(emitted)
    {
      questionTimers := questionTimers - {gameId};
    }

    /** Arms the 3-second start timer. */
    method ArmStart(gameId: GameId)
      requires Valid() && gameId in games
      modifies this
      ensures Valid()
      ensures nextTimer == old(nextTimer) + 1 && pendingStarts == old(pendingStarts)[old(nextTimer) := gameId]
      ensures questionTimers == old(questionTimers) && pendingQuestions == old(pendingQuestions)
      ensures pendingReveals == old(pendingReveals)
      ensures SameGames() && SameConnections() && SameWaiting() && emitted == old(emitted)
    {
      pendingStarts := pendingStarts[nextTimer := gameId];
      nextTimer := nextTimer + 1;
    }

    /** Arms the 20-second question timer and records it in `questionTimers`. */
    method ArmQuestion(gameId: GameId, ghost except: Option<GameId>)
      requires Inv(except) && gameId in games && games[gameId].currentQuestion.Some?
      requires forall t :: t in pendingQuestions ==> pendingQuestions[t] != gameId
      modifies this
      ensures Inv(except)
      ensures nextTimer == old(nextTimer) + 1
      ensures pendingQuestions == old(pendingQuestions)[old(nextTimer) := gameId]
      ensures questionTimers == old(questionTimers)[gameId := old(nextTimer)]
      ensures pendingStarts == old(pendingStarts) && pendingReveals == old(pendingReveals)
      ensures SameGames() && SameConnections() && SameWaiting() && emitted == old(emitted)
    {
      var timer := nextTimer;
      nextTimer := nextTimer + 1;
      pendingQuestions := pendingQuestions[timer := gameId];
      questionTimers := questionTimers[gameId := timer];
    }

    /** Arms the 5-second reveal timer. */
    method ArmReveal(gameId: GameId)
      requires Valid() && gameId in games && games[gameId].currentQuestion.Some?
      modifies this
      ensures Valid()
      ensures nextTimer == old(nextTimer) + 1 && pendingReveals == old(pendingReveals)[old(nextTimer) := gameId]
      ensures questionTimers == old(questionTimers) && pendingQuestions == old(pendingQuestions)
      ensures pendingStarts == old(pendingStarts)
      ensures SameGames() && SameConnections() && SameWaiting() && emitted == old(emitted)
    {
      pendingReveals := pendingReveals[nextTimer := gameId];
      nextTimer := nextTimer + 1;
    }

    /** Removes start callback `t` to run it. */
    method TakeStart(t: nat) returns (gameId: GameId, game: TriviaGame)
      requires Valid() && t in pendingStarts
      modifies this
      ensures Valid()
      ensures gameId == old(pendingStarts[t]) && gameId in games && games[gameId] == game
      ensures pendingStarts == old(pendingStarts) - {t}
      ensures questionTimers == old(questionTimers) && pendingQuestions == old(pendingQuestions)
      ensures pendingReveals == old(pendingReveals) && nextTimer == old(nextTimer)
      ensures SameGames() && SameConnections() && SameWaiting() && emitted == old(emitted)
    {
      gameId := pendingStarts[t];
      game := games[gameId];
      pendingStarts := pendingStarts - {t};
    }

    /** Removes question callback `t` to run it. */
    method TakeQuestion(t: nat) returns (gameId: GameId, game: TriviaGame)
      requires Valid() && t in pendingQuestions
      modifies this
      ensures Valid()
      ensures gameId == old(pendingQuestions[t]) && gameId in games && games[gameId] == game
      ensures game.currentQuestion.Some?
      ensures forall t' :: t' in pendingQuestions ==> pendingQuestions[t'] != gameId
      ensures pendingQuestions == old(pendingQuestions) - {t}
      ensures questionTimers == old(questionTimers) && pendingStarts == old(pendingStarts)
      ensures pendingReveals == old(pendingReveals) && nextTimer == old(nextTimer)
      ensures SameGames() && SameConnections() && SameWaiting() && emitted == old(emitted)
    {
      gameId := pendingQuestions[t];
      game := games[gameId];
      pendingQuestions := pendingQuestions - {t};
    }

    /** Removes reveal callback `t` to run it. */
    method TakeReveal(t: nat) returns (gameId: GameId, game: TriviaGame)
      requires Valid() && t in pendingReveals
      modifies this
      ensures Valid()
      ensures gameId == old(pendingReveals[t]) && gameId in games && games[gameId] == game
      ensures game.currentQuestion.Some? && |game.players| == 2
      ensures pendingReveals == old(pendingReveals) - {t}
      ensures questionTimers == old(questionTimers) && pendingQuestions == old(pendingQuestions)
      ensures pendingStarts == old(pendingStarts) && nextTimer == old(nextTimer)
      ensures SameGames() && SameConnections() && SameWaiting() && emitted == old(emitted)
    {
      gameId := pendingReveals[t];
      game := games[gameId];
      pendingReveals := pendingReveals - {t};
    }

    /** A new game for `ids` is live under `newId`, and nothing else changed among the games. */
    twostate predicate Spawned(newId: GameId, ids: seq<UserId>)
      reads this, activeGames.Values
    {
      && newId in activeGames && fresh(activeGames[newId]) && Unstarted(activeGames[newId], ids)
      && activeGames == old(activeGames)[newId := activeGames[newId]]
      && games == old(games)[newId := activeGames[newId]] && idOf == old(idOf)[activeGames[newId] := newId]
    }

    /*
     * The calls the handlers make on a game, each keeping the invariant.
     */

    /** `game.submitAnswer(...)` on the live game `gameId`. An accepted answer finds its round still open. */
    method Answer(gameId: GameId, userId: UserId, answer: string, timeRemaining: nat) returns (r: AnswerResult)
      requires Valid() && gameId in activeGames
      modifies activeGames[gameId]
      ensures Valid()
      ensures var g := activeGames[gameId];
              && (r, g.players) == Submit(old(g.players), old(g.currentQuestion), userId, answer, timeRemaining)
              && g.currentQuestion == old(g.currentQuestion) && g.currentRound == old(g.currentRound)
              && g.status == old(g.status) && g.roundResults == old(g.roundResults)
      ensures r.error.None? ==> ResultsSince(emitted, gameId) == 0
    {
      var game := activeGames[gameId];
      ghost var before := game.players;
      r := game.SubmitAnswer(userId, answer, timeRemaining);
      if r.error.None? {
        ghost var i := IndexOf(before, userId).value;
        assert !AllAnswered(before) by {
          assert before[i].currentAnswer.None?;
        }
      }
    }

    /** The reset loop of `sendNextQuestion`: every player's answer and time are cleared. */
    method ClearAnswersOf(gameId: GameId)
      requires Inv(Some(gameId)) && gameId in activeGames
      modifies activeGames[gameId]
      ensures Inv(Some(gameId))
      ensures var g := activeGames[gameId];
              && g.players == ClearAnswers(old(g.players))
              && g.currentQuestion == old(g.currentQuestion) && g.currentRound == old(g.currentRound)
              && g.status == old(g.status) && g.roundResults == old(g.roundResults)
    {
      var game := activeGames[gameId];
      var players := game.players;
      var i := 0;
      while i < |players|
        invariant 0 <= i <= |players| == |game.players|
        invariant forall k :: 0 <= k < i ==> players[k] == Cleared(game.players[k])
        invariant forall k :: i <= k < |players| ==> players[k] == game.players[k]
      {
        players := players[i := players[i].(currentAnswer := None, timeRemaining := None)];
        i := i + 1;
      }
      game.players := players;
    }

    /** `game.startGame()` in the start callback. */
    method Begin(gameId: GameId, game: TriviaGame)
      requires Valid() && gameId in games && games[gameId] == game
      modifies game
      ensures Inv(Some(gameId))
      ensures game.status == Active && game.currentRound == 1 && game.currentQuestion == Some(game.questions[0])
      ensures game.players == old(game.players) && game.roundResults == old(game.roundResults)
    {
      game.StartGame();
    }

    /** `game.timeUp()` in the question callback, on a live game whose round is still open. */
    method Expire(gameId: GameId, game: TriviaGame)
      requires Valid() && gameId in activeGames && activeGames[gameId] == game && !AllAnswered(game.players)
      modifies game
      ensures Valid()
      ensures game.players == TimedOut(old(game.players)) && AllAnswered(game.players)
      ensures game.currentQuestion == old(game.currentQuestion) && game.currentRound == old(game.currentRound)
      ensures game.status == old(game.status) && game.roundResults == old(game.roundResults)
      ensures ResultsSince(emitted, gameId) == 0
    {
      game.TimeUp();
    }

    /** `game.moveToNextQuestion()` in the reveal callback. */
    method Advance(gameId: GameId, game: TriviaGame)
      requires Valid() && gameId in games && games[gameId] == game && game.currentQuestion.Some?
      modifies game
      ensures Inv(Some(gameId))
      ensures game.roundResults == old(game.roundResults) + [RoundResultOf(old(game.players), old(game.currentQuestion).value)]
      ensures game.players == ClearAnswers(old(game.players)) && game.currentRound == old(game.currentRound) + 1
      ensures game.currentRound <= TotalRounds ==>
                game.currentQuestion == Some(game.questions[game.currentRound - 1]) && game.status == old(game.status)
      ensures game.currentRound > TotalRounds ==> game.currentQuestion == old(game.currentQuestion) && game.status == Completed
    {
      game.MoveToNextQuestion();
    }

    /** `game.requestRematch(userId)` on the live game `gameId`. */
    method CastVote(gameId: GameId, userId: UserId)
      requires Valid() && gameId in activeGames
      modifies activeGames[gameId]
      ensures Valid()
      ensures var g := activeGames[gameId];
              && g.players == Vote(old(g.players), userId)
              && g.currentQuestion == old(g.currentQuestion) && g.currentRound == old(g.currentRound)
              && g.status == old(g.status) && g.roundResults == old(g.roundResults)
    {
      var game := activeGames[gameId];
      ghost var before := game.players;
      game.RequestRematch(userId);
      assert AllAnswered(game.players) == AllAnswered(before) by {
        assert forall k :: 0 <= k < |before| ==> game.players[k].currentAnswer == before[k].currentAnswer;
      }
    }

    /*
     * The handlers.
     */

    /** 'join_waiting_room': record the socket and the user as waiting, then look for an opponent. */
    method JoinWaitingRoom(socket: SocketId, userId: UserId, newId: GameId)
      requires Valid() && newId !in games
      modifies this
      ensures Valid()
      ensures SameTimers()
      ensures var room := OrderSet(old(waitingRoom), socket);
              var waiting := old(waitingPlayers)[socket := userId];
              match Opponent(room, waiting, socket)
              case None =>
                && SameGames() && emitted == old(emitted)
                && waitingPlayers == waiting && waitingRoom == room
                && playerConnections == old(playerConnections)[userId := WaitingRoom]
                && connectionOrder == OrderSet(old(connectionOrder), userId)
              case Some(opponent) =>
                var opponentId := waiting[opponent];
                && Spawned(newId, [userId, opponentId])
                && playerConnections == old(playerConnections)[userId := WaitingRoom][userId := newId][opponentId := newId]
                && connectionOrder == OrderSet(OrderSet(OrderSet(old(connectionOrder), userId), userId), opponentId)
                && waitingPlayers == waiting - {socket} - {opponent}
                && waitingRoom == OrderDelete(OrderDelete(room, socket), opponent)
                && emitted == old(emitted) + [MatchFound(newId, socket, opponent)]
    {
      AddWaiting(socket, userId);
      Connect(userId, WaitingRoom);
      JoinRoom(socket);
      FindMatch(socket, userId, newId);
    }

    /**
     * `findMatch`: pair the socket with the first other socket in the
     * waiting room, unless that socket has no (or an empty) waiting entry.
     */
    method FindMatch(socket: SocketId, userId: UserId, newId: GameId)
      requires Valid() && newId !in games
      modifies this
      ensures Valid()
      ensures SameTimers()
      ensures match Opponent(old(waitingRoom), old(waitingPlayers), socket)
              case None => SameGames() && SameConnections() && SameWaiting() && emitted == old(emitted)
              case Some(opponent) =>
                var opponentId := old(waitingPlayers)[opponent];
                && Spawned(newId, [userId, opponentId])
                && playerConnections == old(playerConnections)[userId := newId][opponentId := newId]
                && connectionOrder == OrderSet(OrderSet(old(connectionOrder), userId), opponentId)
                && waitingPlayers == old(waitingPlayers) - {socket} - {opponent}
                && waitingRoom == OrderDelete(OrderDelete(old(waitingRoom), socket), opponent)
                && emitted == old(emitted) + [MatchFound(newId, socket, opponent)]
    {
      var opponent := Opponent(waitingRoom, waitingPlayers, socket);
      if opponent.None? {
        return;
      }
      var opponentId := waitingPlayers[opponent.value];
      Pair(userId, opponentId, newId);
      Dequeue(socket);
      Dequeue(opponent.value);
      Emit(MatchFound(newId, socket, opponent.value), None);
    }

    /** The game creation of `findMatch`: a new game for the two users, and both connections point at it. */
    method Pair(userId: UserId, opponentId: UserId, newId: GameId)
      requires Valid() && newId !in games
      modifies this
      ensures Valid()
      ensures Spawned(newId, [userId, opponentId])
      ensures playerConnections == old(playerConnections)[userId := newId][opponentId := newId]
      ensures connectionOrder == OrderSet(OrderSet(old(connectionOrder), userId), opponentId)
      ensures SameWaiting() && SameTimers() && emitted == old(emitted)
    {
      var game := new TriviaGame([userId, opponentId]);
      AddGame(newId, game);
      Connect(userId, newId);
      Connect(opponentId, newId);
    }

    /**
     * 'join_game': point the user at the game; if the game exists, send its
     * state and, since a game always holds both players, arm a start timer.
     */
    method JoinGame(socket: SocketId, gameId: GameId, userId: UserId)
      requires Valid()
      modifies this
      ensures Valid()
      ensures playerConnections == old(playerConnections)[userId := gameId]
      ensures connectionOrder == OrderSet(old(connectionOrder), userId)
      ensures SameGames() && SameWaiting()
      ensures questionTimers == old(questionTimers) && pendingQuestions == old(pendingQuestions)
      ensures pendingReveals == old(pendingReveals)
      ensures gameId !in activeGames ==> pendingStarts == old(pendingStarts) && nextTimer == old(nextTimer) && emitted == old(emitted)
      ensures gameId in activeGames ==>
                && nextTimer == old(nextTimer) + 1 && pendingStarts == old(pendingStarts)[old(nextTimer) := gameId]
                && emitted == old(emitted) + [GameStateSent(gameId, socket), GameStarting(gameId)]
    {
      Connect(userId, gameId);
      Announce(socket, gameId);
    }

    /** The rest of 'join_game': a live game sends its state and, holding both players, schedules its start. */
    method Announce(socket: SocketId, gameId: GameId)
      requires Valid()
      modifies this
      ensures Valid()
      ensures SameGames() && SameConnections() && SameWaiting()
      ensures questionTimers == old(questionTimers) && pendingQuestions == old(pendingQuestions)
      ensures pendingReveals == old(pendingReveals)
      ensures gameId !in activeGames ==> pendingStarts == old(pendingStarts) && nextTimer == old(nextTimer) && emitted == old(emitted)
      ensures gameId in activeGames ==>
                && nextTimer == old(nextTimer) + 1 && pendingStarts == old(pendingStarts)[old(nextTimer) := gameId]
                && emitted == old(emitted) + [GameStateSent(gameId, socket), GameStarting(gameId)]
    {
      if gameId in activeGames {
        var game := activeGames[gameId];
        Emit(GameStateSent(gameId, socket), None);
        if game.HasAllPlayers() {
          Schedule(gameId);
        }
      }
    }

    /** 'game_starting' goes out and the 3-second start timer is armed. */
    method Schedule(gameId: GameId)
      requires Valid() && gameId in games
      modifies this
      ensures Valid()
      ensures SameGames() && SameConnections() && SameWaiting()
      ensures questionTimers == old(questionTimers) && pendingQuestions == old(pendingQuestions)
      ensures pendingReveals == old(pendingReveals)
      ensures nextTimer == old(nextTimer) + 1 && pendingStarts == old(pendingStarts)[old(nextTimer) := gameId]
      ensures emitted == old(emitted) + [GameStarting(gameId)]
    {
      Emit(GameStarting(gameId), None);
      ArmStart(gameId);
    }

    /**
     * 'submit_answer': an unknown game gets "Game not found"; otherwise the
     * game's reply goes back to the socket, and an error stops there. When
     * the answer completes the round, the round is closed.
     */
    method SubmitAnswer(socket: SocketId, gameId: GameId, userId: UserId, answer: string, timeRemaining: nat)
      requires Valid()
      modifies this, GameAt(gameId)
      ensures Valid()
      ensures SameGames() && SameConnections() && SameWaiting()
      ensures pendingStarts == old(pendingStarts)
      ensures gameId !in old(activeGames) ==>
                emitted == old(emitted) + [AnswerReply(socket, Rejection(GameNotFound))] && SameTimers()
      ensures gameId in old(activeGames) ==>
                var g := old(activeGames)[gameId];
                var q := old(g.currentQuestion);
                var (r, ps) := RoundGame.Submit(old(g.players), q, userId, answer, timeRemaining);
                && g.players == ps && g.currentQuestion == q && g.currentRound == old(g.currentRound)
                && g.status == old(g.status) && g.roundResults == old(g.roundResults)
                && (r.error.Some? ==> emitted == old(emitted) + [AnswerReply(socket, r)] && SameTimers())
                && (r.error.None? && !AllAnswered(ps) ==>
                      emitted == old(emitted) + [AnswerReply(socket, r), AnswerRecorded(gameId, userId, r.isCorrect)]
                      && SameTimers())
                && (r.error.None? && AllAnswered(ps) ==>
                      && questionTimers == old(questionTimers) - {gameId}
                      && pendingQuestions == WithoutTimer(old(pendingQuestions), old(questionTimers), gameId)
                      && nextTimer == old(nextTimer) + 1 && pendingReveals == old(pendingReveals)[old(nextTimer) := gameId]
                      && emitted == old(emitted) + [AnswerReply(socket, r), AnswerRecorded(gameId, userId, r.isCorrect),
                                                    RoundResults(gameId, RoundResultOf(ps, q.value))])
    {
      if gameId !in activeGames {
        Emit(AnswerReply(socket, Rejection(GameNotFound)), None);
        return;
      }
      var game := activeGames[gameId];
      var result := Answer(gameId, userId, answer, timeRemaining);
      Reply(socket, gameId, game, userId, result);
    }

    /**
     * The rest of 'submit_answer' once the game has judged the answer: the
     * reply goes back, and an accepted answer is announced and may close the round.
     */
    method Reply(socket: SocketId, gameId: GameId, game: TriviaGame, userId: UserId, r: AnswerResult)
      requires Valid() && gameId in activeGames && activeGames[gameId] == game
      requires r.error.None? ==> game.currentQuestion.Some? && ResultsSince(emitted, gameId) == 0
      modifies this
      ensures Valid()
      ensures SameGames() && SameConnections() && SameWaiting() && pendingStarts == old(pendingStarts)
      ensures r.error.Some? ==> emitted == old(emitted) + [AnswerReply(socket, r)] && SameTimers()
      ensures r.error.None? && !AllAnswered(game.players) ==>
                emitted == old(emitted) + [AnswerReply(socket, r), AnswerRecorded(gameId, userId, r.isCorrect)] && SameTimers()
      ensures r.error.None? && AllAnswered(game.players) ==>
                && questionTimers == old(questionTimers) - {gameId}
                && pendingQuestions == WithoutTimer(old(pendingQuestions), old(questionTimers), gameId)
                && nextTimer == old(nextTimer) + 1 && pendingReveals == old(pendingReveals)[old(nextTimer) := gameId]
                && emitted == old(emitted) + [AnswerReply(socket, r), AnswerRecorded(gameId, userId, r.isCorrect),
                                              RoundResults(gameId, RoundResultOf(game.players, game.currentQuestion.value))]
    {
      Emit(AnswerReply(socket, r), None);
      if r.error.Some? {
        return;
      }
      Record(gameId, game, userId, r.isCorrect);
    }

    /** An accepted answer is announced to the game; when it completes the round, the round is closed. */
    method Record(gameId: GameId, game: TriviaGame, userId: UserId, isCorrect: bool)
      requires Valid() && gameId in activeGames && activeGames[gameId] == game
      requires game.currentQuestion.Some? && ResultsSince(emitted, gameId) == 0
      modifies this
      ensures Valid()
      ensures SameGames() && SameConnections() && SameWaiting() && pendingStarts == old(pendingStarts)
      ensures !AllAnswered(game.players) ==> emitted == old(emitted) + [AnswerRecorded(gameId, userId, isCorrect)] && SameTimers()
      ensures AllAnswered(game.players) ==>
                && questionTimers == old(questionTimers) - {gameId}
                && pendingQuestions == WithoutTimer(old(pendingQuestions), old(questionTimers), gameId)
                && nextTimer == old(nextTimer) + 1 && pendingReveals == old(pendingReveals)[old(nextTimer) := gameId]
                && emitted == old(emitted) + [AnswerRecorded(gameId, userId, isCorrect),
                                              RoundResults(gameId, RoundResultOf(game.players, game.currentQuestion.value))]
    {
      Emit(AnswerRecorded(gameId, userId, isCorrect), None);
      if game.ShouldMoveToNextQuestion() {
        CloseRound(gameId, game);
      }
    }

    /**
     * The end of a round in 'submit_answer': the question timer is cancelled,
     * the round results are broadcast and a reveal timer is armed.
     */
    method CloseRound(gameId: GameId, game: TriviaGame)
      requires Valid() && gameId in activeGames && activeGames[gameId] == game
      requires game.currentQuestion.Some? && AllAnswered(game.players) && ResultsSince(emitted, gameId) == 0
      modifies this
      ensures Valid()
      ensures questionTimers == old(questionTimers) - {gameId}
      ensures pendingQuestions == WithoutTimer(old(pendingQuestions), old(questionTimers), gameId)
      ensures nextTimer == old(nextTimer) + 1 && pendingReveals == old(pendingReveals)[old(nextTimer) := gameId]
      ensures emitted == old(emitted) + [RoundResults(gameId, RoundResultOf(game.players, game.currentQuestion.value))]
      ensures SameGames() && SameConnections() && SameWaiting()
      ensures pendingStarts == old(pendingStarts)
    {
      CancelTimer(gameId, None);
      var results := game.GetRoundResults();
      Emit(RoundResults(gameId, results), None);
      ArmReveal(gameId);
    }

    /**
     * `sendNextQuestion`: for a live game, cancel its question timer, clear
     * every player's answer, broadcast the question and arm one new timer.
     * A game that is no longer live is left alone.
     */
    method SendNextQuestion(gameId: GameId)
      requires Inv(Some(gameId))
      requires gameId in activeGames ==> activeGames[gameId].currentQuestion.Some?
      modifies this, GameAt(gameId)
      ensures Valid()
      ensures SameGames() && SameConnections() && SameWaiting()
      ensures pendingStarts == old(pendingStarts) && pendingReveals == old(pendingReveals)
      ensures gameId !in old(activeGames) ==> SameTimers() && emitted == old(emitted)
      ensures gameId in old(activeGames) ==>
                var g := old(activeGames)[gameId];
                && g.players == ClearAnswers(old(g.players))
                && g.currentQuestion == old(g.currentQuestion) && g.currentRound == old(g.currentRound)
                && g.status == old(g.status) && g.roundResults == old(g.roundResults)
                && nextTimer == old(nextTimer) + 1
                && questionTimers == old(questionTimers)[gameId := old(nextTimer)]
                && pendingQuestions == WithoutTimer(old(pendingQuestions), old(questionTimers), gameId)[old(nextTimer) := gameId]
                && emitted == old(emitted) + [NewQuestion(gameId, g.currentQuestion, g.currentRound)]
    {
      if gameId !in activeGames {
        return;
      }
      var game := activeGames[gameId];
      CancelTimer(gameId, Some(gameId));
      ClearAnswersOf(gameId);
      Ask(gameId, game);
    }

    /** The end of `sendNextQuestion`: the question goes out and its timer is armed. */
    method Ask(gameId: GameId, game: TriviaGame)
      requires Inv(Some(gameId)) && gameId in activeGames && activeGames[gameId] == game && game.currentQuestion.Some?
      requires forall t :: t in pendingQuestions ==> pendingQuestions[t] != gameId
      modifies this
      ensures Valid()
      ensures SameGames() && SameConnections() && SameWaiting()
      ensures pendingStarts == old(pendingStarts) && pendingReveals == old(pendingReveals)
      ensures nextTimer == old(nextTimer) + 1
      ensures questionTimers == old(questionTimers)[gameId := old(nextTimer)]
      ensures pendingQuestions == old(pendingQuestions)[old(nextTimer) := gameId]
      ensures emitted == old(emitted) + [NewQuestion(gameId, game.currentQuestion, game.currentRound)]
    {
      Emit(NewQuestion(gameId, game.currentQuestion, game.currentRound), Some(gameId));
      ArmQuestion(gameId, None);
    }

    /** The start callback: start the captured game, announce it and send its first question. */
    method StartTimerFires(t: nat)
      requires Valid() && t in pendingStarts
      modifies this, {games[pendingStarts[t]]}
      ensures Valid()
      ensures SameGames() && SameConnections() && SameWaiting() && pendingReveals == old(pendingReveals)
      ensures pendingStarts == old(pendingStarts) - {t}
      ensures var gameId := old(pendingStarts[t]);
              var g := old(games)[gameId];
              && g.status == Active && g.currentRound == 1 && g.currentQuestion == Some(g.questions[0])
              && (gameId !in old(activeGames) ==>
                    && g.players == old(g.players) && emitted == old(emitted) + [GameStarted(gameId)]
                    && questionTimers == old(questionTimers) && pendingQuestions == old(pendingQuestions)
                    && nextTimer == old(nextTimer))
              && (gameId in old(activeGames) ==>
                    && g.players == ClearAnswers(old(g.players))
                    && nextTimer == old(nextTimer) + 1
                    && questionTimers == old(questionTimers)[gameId := old(nextTimer)]
                    && pendingQuestions == WithoutTimer(old(pendingQuestions), old(questionTimers), gameId)[old(nextTimer) := gameId]
                    && emitted == old(emitted) + [GameStarted(gameId), NewQuestion(gameId, g.currentQuestion, 1)])
    {
      var gameId, game := TakeStart(t);
      Launch(gameId, game);
    }

    /** The body of the start callback, on the game it captured. */
    method Launch(gameId: GameId, game: TriviaGame)
      requires Valid() && gameId in games && games[gameId] == game
      modifies this, game
      ensures Valid()
      ensures SameGames() && SameConnections() && SameWaiting()
      ensures pendingStarts == old(pendingStarts) && pendingReveals == old(pendingReveals)
      ensures game.status == Active && game.currentRound == 1 && game.currentQuestion == Some(game.questions[0])
      ensures gameId !in activeGames ==>
                && game.players == old(game.players) && emitted == old(emitted) + [GameStarted(gameId)]
                && questionTimers == old(questionTimers) && pendingQuestions == old(pendingQuestions)
                && nextTimer == old(nextTimer)
      ensures gameId in activeGames ==>
                && game.players == ClearAnswers(old(game.players))
                && nextTimer == old(nextTimer) + 1
                && questionTimers == old(questionTimers)[gameId := old(nextTimer)]
                && pendingQuestions == WithoutTimer(old(pendingQuestions), old(questionTimers), gameId)[old(nextTimer) := gameId]
                && emitted == old(emitted) + [GameStarted(gameId), NewQuestion(gameId, game.currentQuestion, 1)]
    {
      Begin(gameId, game);
      Kickoff(gameId, game);
    }

    /** 'game_started' goes out, followed by the first question. */
    method Kickoff(gameId: GameId, game: TriviaGame)
      requires Inv(Some(gameId)) && gameId in games && games[gameId] == game && game.currentQuestion.Some?
      modifies this, game
      ensures Valid()
      ensures SameGames() && SameConnections() && SameWaiting()
      ensures pendingStarts == old(pendingStarts) && pendingReveals == old(pendingReveals)
      ensures game.status == old(game.status) && game.currentRound == old(game.currentRound)
      ensures game.currentQuestion == old(game.currentQuestion)
      ensures gameId !in activeGames ==>
                && game.players == old(game.players) && emitted == old(emitted) + [GameStarted(gameId)]
                && questionTimers == old(questionTimers) && pendingQuestions == old(pendingQuestions)
                && nextTimer == old(nextTimer)
      ensures gameId in activeGames ==>
                && game.players == ClearAnswers(old(game.players))
                && nextTimer == old(nextTimer) + 1
                && questionTimers == old(questionTimers)[gameId := old(nextTimer)]
                && pendingQuestions == WithoutTimer(old(pendingQuestions), old(questionTimers), gameId)[old(nextTimer) := gameId]
                && emitted == old(emitted) + [GameStarted(gameId), NewQuestion(gameId, game.currentQuestion, game.currentRound)]
    {
      Emit(GameStarted(gameId), Some(gameId));
      SendNextQuestion(gameId);
    }

    /**
     * The question callback. It acts only while the game is live and
     * someone has yet to answer: it fills in the missing answers, broadcasts
     * the round results, forgets the timer and arms a reveal timer.
     */
    method QuestionTimerFires(t: nat)
      requires Valid() && t in pendingQuestions
      modifies this, {games[pendingQuestions[t]]}
      ensures Valid()
      ensures SameGames() && SameConnections() && SameWaiting()
      ensures pendingStarts == old(pendingStarts)
      ensures pendingQuestions == old(pendingQuestions) - {t}
      ensures var gameId := old(pendingQuestions[t]);
              var g := old(games)[gameId];
              if gameId in old(activeGames) && !AllAnswered(old(g.players)) then
                && g.players == TimedOut(old(g.players))
                && g.currentQuestion == old(g.currentQuestion) && g.currentRound == old(g.currentRound)
                && g.status == old(g.status) && g.roundResults == old(g.roundResults)
                && questionTimers == old(questionTimers) - {gameId}
                && nextTimer == old(nextTimer) + 1 && pendingReveals == old(pendingReveals)[old(nextTimer) := gameId]
                && emitted == old(emitted) + [TimeUp(gameId), RoundResults(gameId, RoundResultOf(g.players, g.currentQuestion.value))]
              else
                && g.players == old(g.players)
                && g.currentQuestion == old(g.currentQuestion) && g.currentRound == old(g.currentRound)
                && g.status == old(g.status) && g.roundResults == old(g.roundResults)
                && questionTimers == old(questionTimers) && pendingReveals == old(pendingReveals)
                && nextTimer == old(nextTimer) && emitted == old(emitted)
    {
      var gameId, game := TakeQuestion(t);
      if gameId in activeGames && !game.AllPlayersAnswered() {
        TimeOut(gameId, game);
      }
    }

    /** The body of the question callback once it decides to act. */
    method TimeOut(gameId: GameId, game: TriviaGame)
      requires Valid() && gameId in activeGames && activeGames[gameId] == game
      requires game.currentQuestion.Some? && !AllAnswered(game.players)
      requires forall t :: t in pendingQuestions ==> pendingQuestions[t] != gameId
      modifies this, game
      ensures Valid()
      ensures game.players == TimedOut(old(game.players))
      ensures game.currentQuestion == old(game.currentQuestion) && game.currentRound == old(game.currentRound)
      ensures game.status == old(game.status) && game.roundResults == old(game.roundResults)
      ensures questionTimers == old(questionTimers) - {gameId}
      ensures nextTimer == old(nextTimer) + 1 && pendingReveals == old(pendingReveals)[old(nextTimer) := gameId]
      ensures emitted == old(emitted) + [TimeUp(gameId), RoundResults(gameId, RoundResultOf(game.players, game.currentQuestion.value))]
      ensures SameGames() && SameConnections() && SameWaiting()
      ensures pendingStarts == old(pendingStarts) && pendingQuestions == old(pendingQuestions)
    {
      Expire(gameId, game);
      Emit(TimeUp(gameId), None);
      Reveal(gameId, game);
    }

    /** The end of the question callback: the round results go out, the fired timer is forgotten and a reveal timer armed. */
    method Reveal(gameId: GameId, game: TriviaGame)
      requires Valid() && gameId in activeGames && activeGames[gameId] == game
      requires game.currentQuestion.Some? && AllAnswered(game.players) && ResultsSince(emitted, gameId) == 0
      requires forall t :: t in pendingQuestions ==> pendingQuestions[t] != gameId
      modifies this
      ensures Valid()
      ensures questionTimers == old(questionTimers) - {gameId}
      ensures nextTimer == old(nextTimer) + 1 && pendingReveals == old(pendingReveals)[old(nextTimer) := gameId]
      ensures emitted == old(emitted) + [RoundResults(gameId, RoundResultOf(game.players, game.currentQuestion.value))]
      ensures SameGames() && SameConnections() && SameWaiting()
      ensures pendingStarts == old(pendingStarts) && pendingQuestions == old(pendingQuestions)
    {
      var results := game.GetRoundResults();
      Emit(RoundResults(gameId, results), None);
      ForgetTimer(gameId);
      ArmReveal(gameId);
    }

    /**
     * The reveal callback. Once the captured game is over, it ends the game;
     * otherwise it advances the game and sends the next question.
     */
    method RevealTimerFires(t: nat)
      requires Valid() && t in pendingReveals
      modifies this, {games[pendingReveals[t]]}
      ensures Valid()
      ensures SameWaiting() && pendingStarts == old(pendingStarts) && games == old(games) && idOf == old(idOf)
      ensures pendingReveals == old(pendingReveals) - {t}
      ensures var gameId := old(pendingReveals[t]);
              var g := old(games)[gameId];
              if old(g.currentRound) > TotalRounds then
                && g.players == old(g.players)
                && g.currentQuestion == old(g.currentQuestion) && g.currentRound == old(g.currentRound)
                && g.status == old(g.status) && g.roundResults == old(g.roundResults)
                && activeGames == old(activeGames) - {gameId}
                && playerConnections == DeleteEach(old(playerConnections), IdsOf(g.players))
                && connectionOrder == OrderDeleteEach(old(connectionOrder), IdsOf(g.players))
                && emitted == old(emitted) + [GameOver(gameId, Final(g.players))]
                && questionTimers == old(questionTimers) && pendingQuestions == old(pendingQuestions)
              else
                && g.players == ClearAnswers(old(g.players))
                && g.currentRound == old(g.currentRound) + 1
                && (g.currentRound <= TotalRounds ==>
                      g.currentQuestion == Some(g.questions[g.currentRound - 1]) && g.status == old(g.status))
                && (g.currentRound > TotalRounds ==> g.currentQuestion == old(g.currentQuestion) && g.status == Completed)
                && g.roundResults == old(g.roundResults) + [RoundResultOf(old(g.players), old(g.currentQuestion).value)]
                && SameGames() && SameConnections()
                && (gameId !in old(activeGames) ==> emitted == old(emitted) && questionTimers == old(questionTimers))
                && (gameId in old(activeGames) ==>
                      && nextTimer == old(nextTimer) + 1
                      && questionTimers == old(questionTimers)[gameId := old(nextTimer)]
                      && pendingQuestions == WithoutTimer(old(pendingQuestions), old(questionTimers), gameId)[old(nextTimer) := gameId]
                      && emitted == old(emitted) + [NewQuestion(gameId, g.currentQuestion, g.currentRound)])
    {
      var gameId, game := TakeReveal(t);
      Settle(gameId, game);
    }

    /** The body of the reveal callback, on the game it captured. */
    method Settle(gameId: GameId, game: TriviaGame)
      requires Valid() && gameId in games && games[gameId] == game && game.currentQuestion.Some?
      modifies this, game
      ensures Valid()
      ensures SameWaiting() && pendingStarts == old(pendingStarts) && pendingReveals == old(pendingReveals)
      ensures games == old(games) && idOf == old(idOf)
      ensures if old(game.currentRound) > TotalRounds then
                && game.players == old(game.players)
                && game.currentQuestion == old(game.currentQuestion) && game.currentRound == old(game.currentRound)
                && game.status == old(game.status) && game.roundResults == old(game.roundResults)
                && activeGames == old(activeGames) - {gameId}
                && playerConnections == DeleteEach(old(playerConnections), IdsOf(game.players))
                && connectionOrder == OrderDeleteEach(old(connectionOrder), IdsOf(game.players))
                && emitted == old(emitted) + [GameOver(gameId, Final(game.players))]
                && questionTimers == old(questionTimers) && pendingQuestions == old(pendingQuestions)
              else
                && game.players == ClearAnswers(old(game.players))
                && game.currentRound == old(game.currentRound) + 1
                && (game.currentRound <= TotalRounds ==>
                      game.currentQuestion == Some(game.questions[game.currentRound - 1]) && game.status == old(game.status))
                && (game.currentRound > TotalRounds ==> game.currentQuestion == old(game.currentQuestion) && game.status == Completed)
                && game.roundResults == old(game.roundResults) + [RoundResultOf(old(game.players), old(game.currentQuestion).value)]
                && SameGames() && SameConnections()
                && (gameId !in old(activeGames) ==> emitted == old(emitted) && questionTimers == old(questionTimers))
                && (gameId in old(activeGames) ==>
                      && nextTimer == old(nextTimer) + 1
                      && questionTimers == old(questionTimers)[gameId := old(nextTimer)]
                      && pendingQuestions == WithoutTimer(old(pendingQuestions), old(questionTimers), gameId)[old(nextTimer) := gameId]
                      && emitted == old(emitted) + [NewQuestion(gameId, game.currentQuestion, game.currentRound)])
    {
      if game.IsGameOver() {
        Finish(gameId, game);
      } else {
        Advance(gameId, game);
        SendNextQuestion(gameId);
      }
    }

    /** The game-over branch of the reveal callback: final results, then the game and its players' connections go. */
    method Finish(gameId: GameId, game: TriviaGame)
      requires Valid() && gameId in games && games[gameId] == game && |game.players| > 0
      modifies this
      ensures Valid()
      ensures activeGames == old(activeGames) - {gameId}
      ensures playerConnections == DeleteEach(old(playerConnections), IdsOf(game.players))
      ensures connectionOrder == OrderDeleteEach(old(connectionOrder), IdsOf(game.players))
      ensures emitted == old(emitted) + [GameOver(gameId, Final(game.players))]
      ensures SameWaiting() && SameTimers() && games == old(games) && idOf == old(idOf)
    {
      var results := game.GetFinalResults();
      Emit(GameOver(gameId, results), None);
      RemoveGame(gameId);
      DropConnections(game.PlayerIds());
    }

    /**
     * 'rematch_request': for a live game, record the vote; once every player
     * has voted, create a new game for the same players and point their
     * connections at it. The old game stays live.
     */
    method RematchRequest(gameId: GameId, userId: UserId, newId: GameId)
      requires Valid() && newId !in games
      modifies this, GameAt(gameId)
      ensures Valid()
      ensures SameTimers() && SameWaiting()
      ensures gameId !in old(activeGames) ==> SameGames() && SameConnections() && emitted == old(emitted)
      ensures gameId in old(activeGames) ==>
                var g := old(activeGames)[gameId];
                var ids := IdsOf(old(g.players));
                && g.players == Vote(old(g.players), userId)
                && g.currentRound == old(g.currentRound) && g.currentQuestion == old(g.currentQuestion)
                && g.status == old(g.status) && g.roundResults == old(g.roundResults)
                && (!AllWantRematch(g.players) ==>
                      && SameGames() && SameConnections()
                      && emitted == old(emitted) + [RematchRequested(gameId, userId)])
                && (AllWantRematch(g.players) ==>
                      && Spawned(newId, ids)
                      && playerConnections == SetEach(old(playerConnections), ids, newId)
                      && connectionOrder == OrderSetEach(old(connectionOrder), ids)
                      && emitted == old(emitted) + [RematchCreated(gameId, newId)])
    {
      if gameId !in activeGames {
        return;
      }
      var game := activeGames[gameId];
      ghost var before := game.players;
      CastVote(gameId, userId);
      VoteKeepsIds(before, userId);
      Respond(gameId, game, userId, newId);
    }

    /** What 'rematch_request' does once the vote is recorded: a new game on consensus, an announcement otherwise. */
    method Respond(gameId: GameId, game: TriviaGame, userId: UserId, newId: GameId)
      requires Valid() && newId !in games && gameId in activeGames && activeGames[gameId] == game
      modifies this
      ensures Valid()
      ensures SameTimers() && SameWaiting()
      ensures !AllWantRematch(game.players) ==>
                SameGames() && SameConnections() && emitted == old(emitted) + [RematchRequested(gameId, userId)]
      ensures AllWantRematch(game.players) ==>
                && Spawned(newId, IdsOf(game.players))
                && playerConnections == SetEach(old(playerConnections), IdsOf(game.players), newId)
                && connectionOrder == OrderSetEach(old(connectionOrder), IdsOf(game.players))
                && emitted == old(emitted) + [RematchCreated(gameId, newId)]
    {
      if game.AllPlayersWantRematch() {
        Rematch(gameId, game.PlayerIds(), newId);
      } else {
        Emit(RematchRequested(gameId, userId), None);
      }
    }

    /** The consensus branch of 'rematch_request'. */
    method Rematch(gameId: GameId, ids: seq<UserId>, newId: GameId)
      requires Valid() && newId !in games && |ids| == 2
      modifies this
      ensures Valid()
      ensures Spawned(newId, ids)
      ensures playerConnections == SetEach(old(playerConnections), ids, newId)
      ensures connectionOrder == OrderSetEach(old(connectionOrder), ids)
      ensures emitted == old(emitted) + [RematchCreated(gameId, newId)]
      ensures SameTimers() && SameWaiting()
    {
      var newGame := new TriviaGame(ids);
      AddGame(newId, newGame);
      ConnectAll(ids, newId);
      Emit(RematchCreated(gameId, newId), None);
    }

    /**
     * 'disconnect', as written. The socket leaves its rooms. A waiting
     * socket drops its two entries. Otherwise the first seated user in
     * connection order (whichever socket left) is reported and that game is
     * deleted; the cleanup then looks the deleted game up, so no connection
     * is removed.
     */
    method Disconnect(socket: SocketId)
      requires Valid()
      modifies this
      ensures Valid()
      ensures SameTimers() && games == old(games) && idOf == old(idOf)
      ensures waitingRoom == OrderDelete(old(waitingRoom), socket)
      ensures socket in old(waitingPlayers) && old(waitingPlayers)[socket] != "" ==>
                var u := old(waitingPlayers)[socket];
                && waitingPlayers == old(waitingPlayers) - {socket}
                && playerConnections == old(playerConnections) - {u}
                && connectionOrder == OrderDelete(old(connectionOrder), u)
                && activeGames == old(activeGames) && emitted == old(emitted)
      ensures !(socket in old(waitingPlayers) && old(waitingPlayers)[socket] != "") ==>
                && waitingPlayers == old(waitingPlayers) && SameConnections()
                && match Departing(old(connectionOrder), old(playerConnections), old(RostersOf(activeGames)))
                   case None => activeGames == old(activeGames) && emitted == old(emitted)
                   case Some((u, gid)) =>
                     && activeGames == old(activeGames) - {gid}
                     && playerConnections == DeleteThenClear(old(RostersOf(activeGames)), old(playerConnections), gid)
                     && emitted == old(emitted) + [PlayerDisconnected(gid, u)]
    {
      ghost var rosters := RostersOf(activeGames);
      LeaveRoom(socket);
      assert RostersOf(activeGames) == rosters;
      Depart(socket);
    }

    /** The rest of 'disconnect' as written, once the socket has left the waiting room. */
    method Depart(socket: SocketId)
      requires Valid()
      modifies this
      ensures Valid()
      ensures SameTimers() && games == old(games) && idOf == old(idOf)
      ensures waitingRoom == old(waitingRoom)
      ensures socket in old(waitingPlayers) && old(waitingPlayers)[socket] != "" ==>
                var u := old(waitingPlayers)[socket];
                && waitingPlayers == old(waitingPlayers) - {socket}
                && playerConnections == old(playerConnections) - {u}
                && connectionOrder == OrderDelete(old(connectionOrder), u)
                && activeGames == old(activeGames) && emitted == old(emitted)
      ensures !(socket in old(waitingPlayers) && old(waitingPlayers)[socket] != "") ==>
                && waitingPlayers == old(waitingPlayers) && SameConnections()
                && match Departing(old(connectionOrder), old(playerConnections), old(RostersOf(activeGames)))
                   case None => activeGames == old(activeGames) && emitted == old(emitted)
                   case Some((u, gid)) =>
                     && activeGames == old(activeGames) - {gid}
                     && playerConnections == DeleteThenClear(old(RostersOf(activeGames)), old(playerConnections), gid)
                     && emitted == old(emitted) + [PlayerDisconnected(gid, u)]
    {
      if socket in waitingPlayers && waitingPlayers[socket] != "" {
        DropWaiting(socket);
      } else {
        DropSeated();
      }
    }

    /**
     * 'disconnect' with the cleanup its own comment describes: the
     * departing game's players are read before the game is deleted, so
     * their connections are removed with it.
     */
    method DisconnectIntended(socket: SocketId)
      requires Valid()
      modifies this
      ensures Valid()
      ensures SameTimers() && games == old(games) && idOf == old(idOf)
      ensures waitingRoom == OrderDelete(old(waitingRoom), socket)
      ensures socket in old(waitingPlayers) && old(waitingPlayers)[socket] != "" ==>
                var u := old(waitingPlayers)[socket];
                && waitingPlayers == old(waitingPlayers) - {socket}
                && playerConnections == old(playerConnections) - {u}
                && connectionOrder == OrderDelete(old(connectionOrder), u)
                && activeGames == old(activeGames) && emitted == old(emitted)
      ensures !(socket in old(waitingPlayers) && old(waitingPlayers)[socket] != "") ==>
                && waitingPlayers == old(waitingPlayers)
                && match Departing(old(connectionOrder), old(playerConnections), old(RostersOf(activeGames)))
                   case None => activeGames == old(activeGames) && SameConnections() && emitted == old(emitted)
                   case Some((u, gid)) =>
                     && activeGames == old(activeGames) - {gid}
                     && playerConnections == ClearThenDelete(old(RostersOf(activeGames)), old(playerConnections), gid)
                     && connectionOrder == OrderDeleteEach(old(connectionOrder), old(RostersOf(activeGames))[gid])
                     && emitted == old(emitted) + [PlayerDisconnected(gid, u)]
    {
      ghost var rosters := RostersOf(activeGames);
      LeaveRoom(socket);
      assert RostersOf(activeGames) == rosters;
      DepartIntended(socket);
    }

    /** The rest of the intended 'disconnect', once the socket has left the waiting room. */
    method DepartIntended(socket: SocketId)
      requires Valid()
      modifies this
      ensures Valid()
      ensures SameTimers() && games == old(games) && idOf == old(idOf)
      ensures waitingRoom == old(waitingRoom)
      ensures socket in old(waitingPlayers) && old(waitingPlayers)[socket] != "" ==>
                var u := old(waitingPlayers)[socket];
                && waitingPlayers == old(waitingPlayers) - {socket}
                && playerConnections == old(playerConnections) - {u}
                && connectionOrder == OrderDelete(old(connectionOrder), u)
                && activeGames == old(activeGames) && emitted == old(emitted)
      ensures !(socket in old(waitingPlayers) && old(waitingPlayers)[socket] != "") ==>
                && waitingPlayers == old(waitingPlayers)
                && match Departing(old(connectionOrder), old(playerConnections), old(RostersOf(activeGames)))
                   case None => activeGames == old(activeGames) && SameConnections() && emitted == old(emitted)
                   case Some((u, gid)) =>
                     && activeGames == old(activeGames) - {gid}
                     && playerConnections == ClearThenDelete(old(RostersOf(activeGames)), old(playerConnections), gid)
                     && connectionOrder == OrderDeleteEach(old(connectionOrder), old(RostersOf(activeGames))[gid])
                     && emitted == old(emitted) + [PlayerDisconnected(gid, u)]
    {
      if socket in waitingPlayers && waitingPlayers[socket] != "" {
        DropWaiting(socket);
      } else {
        DropSeatedIntended();
      }
    }

    /** A waiting socket's disconnect: its waiting entry and its user's connection go. */
    method DropWaiting(socket: SocketId)
      requires Valid() && socket in waitingPlayers
      modifies this
      ensures Valid()
      ensures waitingPlayers == old(waitingPlayers) - {socket} && waitingRoom == old(waitingRoom)
      ensures playerConnections == old(playerConnections) - {old(waitingPlayers)[socket]}
      ensures connectionOrder == OrderDelete(old(connectionOrder), old(waitingPlayers)[socket])
      ensures SameGames() && SameTimers() && emitted == old(emitted)
    {
      var userId := waitingPlayers[socket];
      ForgetWaiting(socket);
      DropConnection(userId);
    }

    /** A seated player's disconnect as written: report, delete the game, clean up nothing. */
    method DropSeated()
      requires Valid()
      modifies this
      ensures Valid()
      ensures SameConnections() && SameWaiting() && SameTimers() && games == old(games) && idOf == old(idOf)
      ensures match Departing(old(connectionOrder), old(playerConnections), old(RostersOf(activeGames)))
              case None => activeGames == old(activeGames) && emitted == old(emitted)
              case Some((u, gid)) =>
                && activeGames == old(activeGames) - {gid}
                && playerConnections == DeleteThenClear(old(RostersOf(activeGames)), old(playerConnections), gid)
                && emitted == old(emitted) + [PlayerDisconnected(gid, u)]
    {
      var seated := FindSeated();
      if seated.Some? && seated.value != "" && playerConnections[seated.value] != "" {
        var playerUserId := seated.value;
        var playerGameId := playerConnections[playerUserId];
        Emit(PlayerDisconnected(playerGameId, playerUserId), None);
        RemoveGame(playerGameId);
      }
    }

    /** A seated player's disconnect with the intended cleanup. */
    method DropSeatedIntended()
      requires Valid()
      modifies this
      ensures Valid()
      ensures SameWaiting() && SameTimers() && games == old(games) && idOf == old(idOf)
      ensures match Departing(old(connectionOrder), old(playerConnections), old(RostersOf(activeGames)))
              case None => activeGames == old(activeGames) && SameConnections() && emitted == old(emitted)
              case Some((u, gid)) =>
                && activeGames == old(activeGames) - {gid}
                && playerConnections == ClearThenDelete(old(RostersOf(activeGames)), old(playerConnections), gid)
                && connectionOrder == OrderDeleteEach(old(connectionOrder), old(RostersOf(activeGames))[gid])
                && emitted == old(emitted) + [PlayerDisconnected(gid, u)]
    {
      var seated := FindSeated();
      if seated.Some? && seated.value != "" && playerConnections[seated.value] != "" {
        var playerUserId := seated.value;
        var playerGameId := playerConnections[playerUserId];
        var ids := activeGames[playerGameId].PlayerIds();
        Emit(PlayerDisconnected(playerGameId, playerUserId), None);
        RemoveGame(playerGameId);
        DropConnections(ids);
      }
    }

    /** The `for...of` loop of `handleDisconnect` over the connection entries, stopping at the first seated user. */
    method FindSeated() returns (r: Option<UserId>)
      requires KeyOrder(playerConnections, connectionOrder)
      ensures r == FirstSeated(connectionOrder, playerConnections, RostersOf(activeGames))
    {
      var i := 0;
      while i < |connectionOrder|
        invariant 0 <= i <= |connectionOrder|
        invariant forall k :: 0 <= k < i ==> !Seated(connectionOrder[k], playerConnections, RostersOf(activeGames))
      {
        var id := connectionOrder[i];
        var gameId := playerConnections[id];
        if gameId != WaitingRoom && gameId in activeGames && id in activeGames[gameId].PlayerIds() {
          return Some(id);
        }
        i := i + 1;
      }
      return None;
    }
  }
}
