# brain-brawl battle engine in Dafny

This project models the server side of brain-brawl, a two-player trivia
duel, and proves properties of that model. It has three parts.

- **RoundGame** (`round_game.dfy`) is the per-game state object of
  `models/TriviaGame.js`, the version the socket server loads:
  - ten rounds over ten built-in questions;
  - score-only standings;
  - points `100 + floor(t * 5 / 1000)` for a correct answer with `t`
    milliseconds left.
- **HealthGame** (`health_game.dfy`) is the per-game state object of
  `models/TriviaGame.ts`:
  - each player starts with 1000 health;
  - a correct answer earns `100 + floor(t * 10 / 1000)` and deals that much
    damage to the opponent;
  - health is floored at 0, and the game is over as soon as a player is
    down;
  - questions cycle through the list;
  - the winner is decided by survival first and score second.
- **Dispatcher** (`socket_server.dfy`) is the session registry and event
  dispatcher of `socket.js`. It is a class `Server` over the four
  module-level maps: `activeGames`, `playerConnections`, `waitingPlayers`
  and `questionTimers`. Each socket handler is a method that updates them
  in place:
  - `join_waiting_room`, with `findMatch`;
  - `join_game`;
  - `submit_answer`;
  - `rematch_request`;
  - `disconnect`.

  Each `setTimeout` callback is a pending entry, keyed by its timer handle,
  that an event method fires later: the 3-second start, the 20-second
  question and the 5-second reveal. A callback runs on the game object it
  captured, even after `activeGames` has dropped that game. Everything the
  server broadcasts is appended to an event log.

Two shared modules support them:
- **Common** (`common.dfy`) holds the JavaScript array operations
  (`findIndex`, `find`, `filter`, `map`) and the insertion order of a
  JavaScript `Map`.
- **Ranking** (`ranking.dfy`) models `Array.prototype.sort` with a
  descending score comparator as a stable insertion sort.

In the game classes, the queries are functions over the player list. The
operations that update `gameState` in place are methods, and each method's
postcondition ties its new state to one of those functions of the old
state. Loops stay loops, with their invariants.

The server invariant `Server.Valid` is kept by every handler and every
timer event. It says:
- every live game is a registered game object, and no object is registered
  under two ids;
- the key order of `playerConnections` lists its keys once each;
- every pending callback names a created game;
- each pending question callback is the one `questionTimers` records for
  its game;
- every game is a duel with one question per round;
- a game with a pending question or reveal callback has a current question;
- the event log never holds two `round_results` for one game without a
  `new_question` for that game between them (`AtMostOnePerRound`,
  `RoundsSeparated`). This is the guard that keeps "everyone answered" and
  "time is up" from both closing the same round.

Behaviour of the code that the model keeps:
- `findMatch` pairs the new socket with the first other socket in the
  waiting room, not with the two earliest waiters.
- Deleting a game on disconnect leaves its players' reverse entries in
  place (see Findings).
- The reveal and start callbacks do not check that their game is still
  live.
- `hasAllPlayers` is already true at construction, so every `join_game`
  on a live game arms one more start timer.
- Round 11 is played on question 10. After the tenth round's reveal the
  game is not yet over, so `moveToNextQuestion` completes it but keeps the
  current question, and `sendNextQuestion` sends it again.
- `shouldMoveToNextQuestion` is `allPlayersAnswered`.
- Nothing in the server calls `applyDamage`.
- A rematch vote cast after `game_over` is ignored, because the game is
  gone. Once every player has voted, each further vote creates one more
  game.
- Duplicate entries are resolved by the first match, as `findIndex` and
  `find` do:
  - a user who fills both seats of a game can only ever vote through the
    first seat;
  - `handleDisconnect` reports the first seated user in connection order,
    whichever socket left.
- `if (userId)` and `if (!opponentId)` treat the empty string as absent.
- `submitAnswer` before `startGame` dereferences a null question. The
  handler catches the resulting TypeError and replies with its message.
  The model writes this error as `NoCurrentQuestion`.

## Model

| member | source | states |
|---|---|---|
| Common.FindIndex | brain-brawl/backend/src/models/TriviaGame.js:57 | the index returned satisfies the test and no earlier index does; None exactly when no element satisfies it |
| Common.Find | brain-brawl/backend/src/models/TriviaGame.ts:299-300 | an element is found exactly when one satisfies the test, and it is the one at the first such index |
| Common.Filter | brain-brawl/backend/src/models/TriviaGame.ts:321 | every kept element satisfies the test and comes from the input; every input element that satisfies it is kept; a non-empty result starts with the first element that satisfies it |
| Common.FilterAppend | brain-brawl/backend/src/models/TriviaGame.ts:321 | filtering keeps the input order: filtering a concatenation is the concatenation of the filtered parts |
| Common.FilterCount | brain-brawl/backend/src/models/TriviaGame.ts:321 | filtering keeps each passing element exactly as many times as the input holds it, and no failing one |
| Common.FilterFilter | brain-brawl/backend/src/socket.js:105 | filtering by one test and then another is filtering once by both |
| Common.FilterMapSeq | brain-brawl/backend/src/models/TriviaGame.js:155 | filtering the mapped list picks out the images of exactly the elements the matching test keeps, in their order |
| Common.MapSeq | brain-brawl/backend/src/models/TriviaGame.js:10-17 | same length, and each output element is the function applied to the input element at the same index |
| Common.OrderSet | brain-brawl/backend/src/socket.js:17 | `Map.set`: a new key goes last, an existing key keeps its place, and the order stays duplicate-free |
| Common.OrderDelete | brain-brawl/backend/src/socket.js:214 | `Map.delete`: the key order loses exactly the deleted key and stays duplicate-free; deleting an absent key leaves the order as it was |
| Common.OrderDeleteAt | brain-brawl/backend/src/socket.js:214 | deleting the key at position `i` of a duplicate-free order cuts out exactly position `i`, keeping the keys before and after it in place |
| Common.SetEach | brain-brawl/backend/src/socket.js:135 | after setting every listed key to a value, exactly the old keys and the listed keys are present, the listed ones holding the value |
| Common.OrderSetEach | brain-brawl/backend/src/socket.js:135 | the key order after those sets holds the old keys and the listed keys, once each: the old keys keep their places at the front, and the new keys follow in the order the list first names them |
| Common.DeleteEach | brain-brawl/backend/src/socket.js:105 | after deleting every listed key, exactly the unlisted old keys remain, with their old values |
| Common.OrderDeleteEach | brain-brawl/backend/src/socket.js:105 | the key order after those deletes is the old order with every listed key filtered out, so the remaining keys keep their relative order, once each |
| Ranking.Insert | brain-brawl/backend/src/models/TriviaGame.js:151 | inserting into a list sorted by descending key keeps it sorted, adds exactly that element, and puts it first or keeps the old head |
| Ranking.SortDesc | brain-brawl/backend/src/models/TriviaGame.js:151 | the result is sorted by descending key and is a permutation of the input |
| Ranking.MaxKeyIsMax | brain-brawl/backend/src/models/TriviaGame.js:151-153 | the largest key bounds every key and is held by some element |
| Ranking.InsertCount | brain-brawl/backend/src/models/TriviaGame.js:151-153 | inserting an element raises the count of keys at or above a bound by one exactly when the element reaches the bound |
| Ranking.InsertMax | brain-brawl/backend/src/models/TriviaGame.js:151-153 | the largest key after an insertion is the larger of the element's key and the old largest key |
| Ranking.SortCount | brain-brawl/backend/src/models/TriviaGame.js:151-153 | sorting keeps the count of keys at or above any bound |
| Ranking.SortMax | brain-brawl/backend/src/models/TriviaGame.js:151-153 | sorting keeps the largest key |
| Ranking.SortedTop | brain-brawl/backend/src/models/TriviaGame.js:151-153 | the head of the sorted list holds the largest key, and its first two keys are equal exactly when at least two elements share the largest key |
| Ranking.InsertFilter | brain-brawl/backend/src/models/TriviaGame.js:151 | inserting an element keeps, among the elements of any one key, their order, with the inserted one ahead of them when it has that key |
| Ranking.SortStable | brain-brawl/backend/src/models/TriviaGame.js:151 | the sort is stable: the elements sharing any one key appear in the sorted list in their input order |
| Ranking.SortMapStable | brain-brawl/backend/src/models/TriviaGame.js:151-155 | after sorting and mapping, the images of the elements with any one key appear in the input order of those elements |
| Ranking.InsertCommutesWithMap | brain-brawl/backend/src/models/TriviaGame.js:151-155 | inserting and then mapping equals mapping and then inserting, for a mapping that keeps the key |
| Ranking.SortCommutesWithMap | brain-brawl/backend/src/models/TriviaGame.js:151-155 | the standings built from the sorted players are the standings of the players, sorted |
| RoundGame.PointsMonotone | brain-brawl/backend/src/models/TriviaGame.js:75-78 | a correct answer earns at least 100 points and never fewer for more time left; a wrong answer earns 0 |
| RoundGame.PointsExamples | brain-brawl/backend/src/models/TriviaGame.js:76-78 | 5000 ms left earns 125 points, 2000 ms earns 110, and a wrong answer earns 0 |
| RoundGame.Submit | brain-brawl/backend/src/models/TriviaGame.js:57-88 | an unknown player gets "Player not found" and a player who already answered gets "Already answered", with 0 points and the list unchanged; otherwise the answer is accepted exactly when there is a current question, the first seat with that id records answer and time, and its score grows by exactly the reported points; no other seat changes and no score decreases |
| RoundGame.FirstAnswerWins | brain-brawl/backend/src/models/TriviaGame.js:66-70 | after an accepted answer, any later submission by the same user is rejected as "Already answered" and changes nothing |
| RoundGame.AnsweredRoundRejectsSubmissions | brain-brawl/backend/src/models/TriviaGame.js:67-70 | once every player has an answer (as after `timeUp`), every submission is rejected and changes nothing |
| RoundGame.RoundResultsRecompute | brain-brawl/backend/src/models/TriviaGame.js:132-148 | the round results give an answered player exactly the points and correctness that `submitAnswer` reported |
| RoundGame.TimedOut | brain-brawl/backend/src/models/TriviaGame.js:116-124 | only unanswered players get the empty answer and 0 ms; the others are untouched; afterwards everyone has answered |
| RoundGame.TimedOutEarnsNothing | brain-brawl/backend/src/models/TriviaGame.js:134-141 | a player filled in by `timeUp` earns 0 unless the correct answer is the empty string |
| RoundGame.ClearAnswers | brain-brawl/backend/src/models/TriviaGame.js:101-105 | every player's answer and time are reset and nothing else about them changes, so a non-empty round is open again |
| RoundGame.Vote | brain-brawl/backend/src/models/TriviaGame.js:160-165 | only the first seat with that id opts in; an unknown id changes nothing |
| RoundGame.VoteKeepsIds | brain-brawl/backend/src/models/TriviaGame.js:160-165 | a vote never changes the list of player ids |
| RoundGame.BothVotesNeeded | brain-brawl/backend/src/models/TriviaGame.js:160-168 | for two distinct players, one vote does not make every flag set and two votes do |
| RoundGame.SameUserTwiceNeverRematches | brain-brawl/backend/src/models/TriviaGame.js:160-168 | when one user fills both seats, no vote ever changes the second seat |
| RoundGame.Final | brain-brawl/backend/src/models/TriviaGame.js:149-159 | the standings are every player, as a standing, in the order of the stable descending-score sort (so sorted and a permutation); a tie exactly when at least two players share the top score; no winner exactly on a tie, otherwise the winner holds the top score |
| RoundGame.FinalStable | brain-brawl/backend/src/models/TriviaGame.js:151-155 | players with equal scores appear in the final standings in their seat order |
| RoundGame.TriviaGame.constructor | brain-brawl/backend/src/models/TriviaGame.js:5-28 | a new game is waiting at round 0 with no question, every player at score 0 with no answer, time or vote, and it loads the ten placeholder questions |
| RoundGame.TriviaGame.StartGame | brain-brawl/backend/src/models/TriviaGame.js:39-44 | status active, round 1 and the first question; the players are unchanged |
| RoundGame.TriviaGame.SubmitAnswer | brain-brawl/backend/src/models/TriviaGame.js:52-89 | the reply and the new player list are those of `Submit`; nothing else changes |
| RoundGame.TriviaGame.MoveToNextQuestion | brain-brawl/backend/src/models/TriviaGame.js:97-115 | the round's results are saved, every answer is cleared and the round advances; within 10 rounds the question is the round's entry, past it the game is completed and the question stays |
| RoundGame.TriviaGame.TimeUp | brain-brawl/backend/src/models/TriviaGame.js:116-124 | the players become `TimedOut` of the old players; nothing else changes |
| RoundGame.TriviaGame.EndGame | brain-brawl/backend/src/models/TriviaGame.js:128-131 | status completed; nothing else changes |
| RoundGame.TriviaGame.RequestRematch | brain-brawl/backend/src/models/TriviaGame.js:160-165 | the players become `Vote` of the old players; nothing else changes |
| HealthGame.PointsMonotone | brain-brawl/backend/src/models/TriviaGame.ts:184-187 | a correct answer earns at least 100 points and never fewer for more time left; a wrong answer earns 0 |
| HealthGame.Submit | brain-brawl/backend/src/models/TriviaGame.ts:166-197 | the answer guards and scoring, as in RoundGame.Submit with 10 bonus points per second; health never changes |
| HealthGame.FirstAnswerWins | brain-brawl/backend/src/models/TriviaGame.ts:175-179 | after an accepted answer, any later submission by the same user is rejected as "Already answered" and changes nothing |
| HealthGame.RoundResultsRecompute | brain-brawl/backend/src/models/TriviaGame.ts:258-284 | the round results give an answered player exactly the points `submitAnswer` awarded, and as much damage |
| HealthGame.TimedOut | brain-brawl/backend/src/models/TriviaGame.ts:238-246 | only unanswered players get the empty answer and 0 ms; afterwards everyone has answered |
| HealthGame.ClearAnswers | brain-brawl/backend/src/models/TriviaGame.ts:219-224 | every player's answer and time are reset and nothing else about them changes |
| HealthGame.AfterDamage | brain-brawl/backend/src/models/TriviaGame.ts:287-313 | with two players, each loses the damage of the first result carrying the other seat's id, floored at 0; only health changes, it never rises and stays within 0..1000; any other count is a no-op |
| HealthGame.DamageExample | brain-brawl/backend/src/models/TriviaGame.ts:287-313 | two correct answers with 5000 ms and 2000 ms left earn 150 and 120 and leave health 880 and 850 |
| HealthGame.Vote | brain-brawl/backend/src/models/TriviaGame.ts:349-354 | only the first seat with that id opts in; an unknown id changes nothing |
| HealthGame.BothVotesNeeded | brain-brawl/backend/src/models/TriviaGame.ts:349-358 | for two distinct players, one vote does not make every flag set and two votes do |
| HealthGame.AliveEmpty | brain-brawl/backend/src/models/TriviaGame.ts:321 | no player has health left exactly when every health is 0 |
| HealthGame.Final | brain-brawl/backend/src/models/TriviaGame.ts:315-347 | the standings are every player, as a standing, in the order of the stable descending-score sort (so sorted and a permutation), and there is no winner exactly on a tie |
| HealthGame.FinalTieRule | brain-brawl/backend/src/models/TriviaGame.ts:331-334 | a tie exactly when more than one player is alive, or nobody is and at least two share the top score |
| HealthGame.FinalWinnerRule | brain-brawl/backend/src/models/TriviaGame.ts:326-344 | the only survivor wins whatever the scores; when nobody survived, the winner holds the top score |
| HealthGame.DuelOutcome | brain-brawl/backend/src/models/TriviaGame.ts:331-334 | in a duel, a tie exactly when both survive, or both are down with equal scores |
| HealthGame.TriviaGame.constructor | brain-brawl/backend/src/models/TriviaGame.ts:51-73 | a new game is waiting at round 0 with no question and no questions yet; every player has score 0, health 1000, no answer or time, no vote |
| HealthGame.TriviaGame.LoadQuestions | brain-brawl/backend/src/models/TriviaGame.ts:76-94 | a non-empty batch replaces the list and, in a started game, resets the current question to the batch's entry for the round (none past its end); an empty batch loads the placeholders |
| HealthGame.TriviaGame.StartGame | brain-brawl/backend/src/models/TriviaGame.ts:138-151 | status active, round 1, the placeholders substituted for an empty list, and the first question current |
| HealthGame.TriviaGame.SubmitAnswer | brain-brawl/backend/src/models/TriviaGame.ts:161-198 | the reply and the new player list are those of `Submit`; nothing else changes |
| HealthGame.TriviaGame.MoveToNextQuestion | brain-brawl/backend/src/models/TriviaGame.ts:209-236 | the round's results are saved; with a player down the game is completed and nothing else changes; otherwise every answer is cleared, the round advances and the question is entry `(round - 1) mod length` |
| HealthGame.TriviaGame.TimeUp | brain-brawl/backend/src/models/TriviaGame.ts:238-246 | the players become `TimedOut` of the old players; nothing else changes |
| HealthGame.TriviaGame.EndGame | brain-brawl/backend/src/models/TriviaGame.ts:253-256 | status completed; nothing else changes |
| HealthGame.TriviaGame.ApplyDamage | brain-brawl/backend/src/models/TriviaGame.ts:287-313 | with two players the players become `AfterDamage` of the old players, with any other count nothing changes; health stays within 0..1000 |
| HealthGame.TriviaGame.RequestRematch | brain-brawl/backend/src/models/TriviaGame.ts:349-354 | the players become `Vote` of the old players; nothing else changes |
| Dispatcher.ResultsInAppend | brain-brawl/backend/src/socket.js:96 | appending a broadcast leaves the count of round results over every earlier prefix of the log unchanged |
| Dispatcher.Extend | brain-brawl/backend/src/socket.js:96 | a broadcast resets a game's pending result count on its question, raises it on its round results, and keeps the log free of a second result per round when none was pending |
| Dispatcher.NoResultsYet | brain-brawl/backend/src/socket.js:183 | a game id that no round result names has no result pending |
| Dispatcher.RoundsSeparated | brain-brawl/backend/src/socket.js:86-96 | between two `round_results` for the same game the server sent that game a `new_question` |
| Dispatcher.FirstSeated | brain-brawl/backend/src/socket.js:223-235 | the user found is in the connection order and seated in a live game that lists them, and no user earlier in the connection order is seated; none found means nobody is seated |
| Dispatcher.Departing | brain-brawl/backend/src/socket.js:219-237 | a user is reported exactly when the first seated user has a non-empty id and a non-empty game id, and then it is that user, seated in the reported game, which is live and lists them |
| Dispatcher.DeleteThenClearKeepsStale | brain-brawl/backend/src/socket.js:247-253 | as written, the cleanup keeps every connection, including one that points at the game just deleted |
| Dispatcher.ClearThenDeleteCleans | brain-brawl/backend/src/socket.js:247-253 | looking the game up before deleting it removes exactly its players' connections and keeps every other one |
| Dispatcher.SetAll | brain-brawl/backend/src/socket.js:135 | the `forEach` loop of sets yields `SetEach` and its key order |
| Dispatcher.DeleteAll | brain-brawl/backend/src/socket.js:105 | the `forEach` loop of deletes yields `DeleteEach` and its key order |
| Dispatcher.Opponent | brain-brawl/backend/src/socket.js:164-176 | the opponent is another socket in the waiting room with a non-empty waiting entry, and no other socket comes before it in the room; with no other socket waiting there is none; when there is a first other socket, an opponent is found exactly when that socket has a non-empty waiting entry |
| Dispatcher.WithoutTimer | brain-brawl/backend/src/socket.js:90-93 | clearing a game's recorded timer removes exactly that callback; with no timer recorded nothing changes |
| Dispatcher.Server.constructor | brain-brawl/backend/src/socket.js:6-8 | the server starts with every map empty and the invariant holding |
| Dispatcher.Server.Emit | brain-brawl/backend/src/socket.js:96 | a broadcast is appended to the log; a `round_results` is accepted only for a game whose round is complete and not yet reported, and then the invariant holds and the game's pending count rises by one |
| Dispatcher.Server.Connect | brain-brawl/backend/src/socket.js:17 | `playerConnections.set`, with its key order |
| Dispatcher.Server.ConnectAll | brain-brawl/backend/src/socket.js:135 | every listed user is pointed at the value, with the key order of those sets |
| Dispatcher.Server.DropConnection | brain-brawl/backend/src/socket.js:214 | `playerConnections.delete`, with its key order |
| Dispatcher.Server.DropConnections | brain-brawl/backend/src/socket.js:105 | every listed user's connection is deleted, with the key order of those deletes |
| Dispatcher.Server.AddWaiting | brain-brawl/backend/src/socket.js:16 | `waitingPlayers.set` |
| Dispatcher.Server.ForgetWaiting | brain-brawl/backend/src/socket.js:213 | `waitingPlayers.delete` |
| Dispatcher.Server.JoinRoom | brain-brawl/backend/src/socket.js:21 | the socket joins the waiting room once, after the sockets already there |
| Dispatcher.Server.LeaveRoom | brain-brawl/backend/src/socket.js:193-194 | the socket leaves the waiting room |
| Dispatcher.Server.Dequeue | brain-brawl/backend/src/socket.js:190-194 | a matched socket loses its waiting entry and leaves the room |
| Dispatcher.Server.AddGame | brain-brawl/backend/src/socket.js:183 | a new game is live and registered under a fresh id |
| Dispatcher.Server.Register | brain-brawl/backend/src/socket.js:182-183 | a new game is registered under a fresh id, without yet being live |
| Dispatcher.Server.RemoveGame | brain-brawl/backend/src/socket.js:104 | `activeGames.delete`; the callbacks keep the game they captured |
| Dispatcher.Server.CancelTimer | brain-brawl/backend/src/socket.js:90-93 | a game's recorded question timer is cleared and forgotten, and no question callback for that game remains |
| Dispatcher.Server.ForgetTimer | brain-brawl/backend/src/socket.js:296 | the fired timer is forgotten |
| Dispatcher.Server.ArmStart | brain-brawl/backend/src/socket.js:43-47 | one new start callback for the game, under a new handle |
| Dispatcher.Server.ArmQuestion | brain-brawl/backend/src/socket.js:284-315 | one new question callback under a new handle, recorded in `questionTimers` |
| Dispatcher.Server.ArmReveal | brain-brawl/backend/src/socket.js:99-111 | one new reveal callback for the game, under a new handle |
| Dispatcher.Server.TakeStart | brain-brawl/backend/src/socket.js:43-47 | a fired start callback is consumed and yields the game it captured |
| Dispatcher.Server.TakeQuestion | brain-brawl/backend/src/socket.js:284-288 | a fired question callback is consumed and yields its game, which has a current question and no other question callback |
| Dispatcher.Server.TakeReveal | brain-brawl/backend/src/socket.js:299-300 | a fired reveal callback is consumed and yields its game, a duel with a current question |
| Dispatcher.Server.Answer | brain-brawl/backend/src/socket.js:67 | the live game judges the answer as `Submit` does; an accepted answer finds no round results out for its round |
| Dispatcher.Server.ClearAnswersOf | brain-brawl/backend/src/socket.js:273-278 | the reset loop clears every player's answer and time |
| Dispatcher.Server.Begin | brain-brawl/backend/src/socket.js:44 | the captured game is active at round 1 on its first question, with its players unchanged |
| Dispatcher.Server.Expire | brain-brawl/backend/src/socket.js:289 | `timeUp` on a live game whose round is open leaves everyone answered |
| Dispatcher.Server.Advance | brain-brawl/backend/src/socket.js:108 | the captured game saves the round, clears every answer and advances; within 10 rounds it asks the round's question, past them it is completed and keeps its question |
| Dispatcher.Server.CastVote | brain-brawl/backend/src/socket.js:127 | `requestRematch` on the live game |
| Dispatcher.Server.JoinWaitingRoom | brain-brawl/backend/src/socket.js:13-23 | the socket is recorded as waiting for the user, the user points at 'waiting_room', the socket joins the room, and `findMatch` runs |
| Dispatcher.Server.FindMatch | brain-brawl/backend/src/socket.js:160-206 | with an opponent, one new game for the two users, both connections point at it, both sockets stop waiting, and `match_found` goes out; without one nothing changes |
| Dispatcher.Server.Pair | brain-brawl/backend/src/socket.js:180-187 | a new game for the two users is live under the fresh id and both connections point at it |
| Dispatcher.Server.JoinGame | brain-brawl/backend/src/socket.js:25-50 | the user points at the game; a live game sends its state and arms a start timer |
| Dispatcher.Server.Announce | brain-brawl/backend/src/socket.js:33-48 | a live game sends its state, and then `game_starting`, and arms a start timer |
| Dispatcher.Server.Schedule | brain-brawl/backend/src/socket.js:38-47 | `game_starting` goes out and one start callback is armed |
| Dispatcher.Server.SubmitAnswer | brain-brawl/backend/src/socket.js:52-121 | an unknown game gets "Game not found" and nothing changes; a rejected answer is replied to and nothing else happens; an accepted one is announced, and when it completes the round the question timer is cancelled, the round results go out and a reveal is armed |
| Dispatcher.Server.Reply | brain-brawl/backend/src/socket.js:67-83 | the reply goes back; an error stops there |
| Dispatcher.Server.Record | brain-brawl/backend/src/socket.js:79-96 | an accepted answer is announced, and a complete round is closed |
| Dispatcher.Server.CloseRound | brain-brawl/backend/src/socket.js:86-111 | the question timer is cancelled, the round results go out once and one reveal callback is armed |
| Dispatcher.Server.SendNextQuestion | brain-brawl/backend/src/socket.js:260-317 | for a live game, any old question timer is replaced, every answer is cleared, the question goes out and exactly one new timer is recorded; a missing game is left alone |
| Dispatcher.Server.Ask | brain-brawl/backend/src/socket.js:280-315 | the question goes out and one question timer is armed and recorded |
| Dispatcher.Server.StartTimerFires | brain-brawl/backend/src/socket.js:43-47 | the captured game is started; `game_started` goes out and, while the game is live, its first question |
| Dispatcher.Server.Launch | brain-brawl/backend/src/socket.js:44-46 | the body of the start callback on the captured game |
| Dispatcher.Server.Kickoff | brain-brawl/backend/src/socket.js:45-46 | `game_started` goes out, then the first question |
| Dispatcher.Server.QuestionTimerFires | brain-brawl/backend/src/socket.js:284-312 | the callback acts only while its game is live and someone has yet to answer: missing answers are filled in, `time_up` and the round results go out, the timer is forgotten and a reveal is armed, while the game keeps its question, round, status and saved results; otherwise nothing changes, the captured game included |
| Dispatcher.Server.TimeOut | brain-brawl/backend/src/socket.js:288-296 | missing answers are filled in, `time_up` and the round results go out, and a reveal is armed; the game keeps its question, round, status and saved results |
| Dispatcher.Server.Reveal | brain-brawl/backend/src/socket.js:293-299 | the round results go out once, the fired timer is forgotten and a reveal is armed |
| Dispatcher.Server.RevealTimerFires | brain-brawl/backend/src/socket.js:299-310 | past the last round, `game_over` goes out, the game leaves `activeGames` with its own fields unchanged, and every player's connection is deleted; otherwise the game saves the round, clears the answers and advances: within 10 rounds to that round's question, past them it is completed and keeps its question; while live it gets that question and a new timer |
| Dispatcher.Server.Settle | brain-brawl/backend/src/socket.js:300-309 | the body of the reveal callback on the captured game: game over with the game itself unchanged, or the advance with its next question and status, as in `RevealTimerFires` |
| Dispatcher.Server.Finish | brain-brawl/backend/src/socket.js:101-105 | `game_over` with the final standings, the game leaves `activeGames`, and each of its players' connections is deleted |
| Dispatcher.Server.RematchRequest | brain-brawl/backend/src/socket.js:123-150 | an unknown game is ignored; the vote is recorded and the game keeps its question, round, status and saved results; on consensus a new game with the same players is live and their connections point at it, the old game staying live; otherwise `rematch_requested` goes out |
| Dispatcher.Server.Respond | brain-brawl/backend/src/socket.js:129-148 | a new game on consensus, an announcement otherwise |
| Dispatcher.Server.Rematch | brain-brawl/backend/src/socket.js:129-141 | a new game for the same ids is live and every player's connection points at it |
| Dispatcher.Server.Disconnect | brain-brawl/backend/src/socket.js:208-254 | the socket leaves the waiting room; a waiting socket also loses its entry and its user's connection, and no game changes; otherwise the first seated user's game is reported and deleted while every connection stays |
| Dispatcher.Server.Depart | brain-brawl/backend/src/socket.js:210-254 | once the socket has left the room: a waiting socket loses its entry and its user's connection; otherwise the first seated user's game is reported and deleted while every connection stays |
| Dispatcher.Server.DisconnectIntended | brain-brawl/backend/src/socket.js:208-254 | as `Disconnect`, except the deleted game's players lose their connections and every other connection stays |
| Dispatcher.Server.DepartIntended | brain-brawl/backend/src/socket.js:210-254 | as `Depart`, except the deleted game's players lose their connections |
| Dispatcher.Server.DropWaiting | brain-brawl/backend/src/socket.js:210-216 | the waiting entry and its user's connection go |
| Dispatcher.Server.DropSeated | brain-brawl/backend/src/socket.js:218-254 | the first seated user is reported and their game deleted; no connection changes |
| Dispatcher.Server.DropSeatedIntended | brain-brawl/backend/src/socket.js:218-254 | the first seated user is reported, their game deleted, and its players' connections deleted |
| Dispatcher.Server.FindSeated | brain-brawl/backend/src/socket.js:223-235 | the `for...of` loop returns the first seated user in connection order |

## Left out

- The HTTP request for questions (`models/TriviaGame.ts:97-123`) is network
  I/O. The batch it yields is the parameter of `LoadQuestions`, and a failed
  request yields the empty batch, as the code's own `catch` does.
- Clock readings (`startTime`, `endTime`, `answeredAt`) are left out, and
  so is the game's own random `gameState.gameId`, which the server never
  reads. The server's random game ids are a parameter that must not be a
  registered id.
- `getGameState` and `getCurrentQuestion` only build payloads. The event
  log keeps the part of each payload that depends on the state. Message
  texts, logging and the recipients of each emit are left out.
- The socket.io transport is not modelled: rooms other than
  'waiting_room', and unicast versus broadcast. Leaving all rooms on
  disconnect is modelled for the waiting room only.
- `findMatch` reads the waiting room through a promise (`fetchSockets`).
  The model runs it synchronously at the end of `join_waiting_room`, so a
  handler that runs before the promise settles is not interleaved.
- Timer durations are not modelled. Any pending callback may fire next.
- `timeRemaining` is a non-negative whole number of milliseconds, and the
  bonus is exact integer division. JavaScript's floating-point rounding,
  and negative or non-numeric values sent by a client, are not modelled.
- RoundGame.Submit: the answer is a string. The code stores whatever the
  client sends (`models/TriviaGame.js:66-82`), so a `null` answer is
  accepted, scored as wrong, and leaves the seat unanswered; a second
  submission from that user is then accepted too, and `allPlayersAnswered`
  (`models/TriviaGame.js:94-95`) stays false. Non-string answers are not
  modelled.
- HealthGame.Submit: the answer is a string, as in RoundGame.Submit; a
  `null` answer (`models/TriviaGame.ts:175-193`) is not modelled.
- RoundGame.Final: requires a non-empty player list. With no players the
  code reads `userId` of `undefined` (`models/TriviaGame.js:156`) and
  throws; every server game is a duel, so the server never reaches that
  case, and the exception is not modelled.
- HealthGame.Final: requires a non-empty player list, for the same reason
  (`models/TriviaGame.ts:344`).
- HealthGame.TriviaGame.MoveToNextQuestion: requires a current question.
  When a short batch lands mid-game the question becomes `undefined`, and
  the code then throws inside `getRoundResults`. That exception is not
  modelled.
- HealthGame.TriviaGame.ApplyDamage: requires a current question in a
  two-player game. The code throws there otherwise, and that exception is
  not modelled.
- RoundGame.TriviaGame.MoveToNextQuestion: requires a current question and
  the ten-question list. These are exactly the states the server calls it
  in; the code would throw on a null question.
- `models/TriviaGame.ts` is not used by the server. HealthGame is therefore
  modelled on its own, and `Dispatcher` uses RoundGame.
- `socket.ts`, the frontend, the Express routes, the server bootstrap, the
  user model and the password script are not part of this model.

## Findings

| source | as written | input that shows it | evidently intended | confidence | as-written member | corrected member |
|---|---|---|---|---|---|---|
| brain-brawl/backend/src/socket.js:247-253 | `handleDisconnect` deletes the game from `activeGames` and only then looks it up to clear its players' connections, so the lookup always misses and no connection is cleared | a disconnect while users `a` and `b` are seated in live game `g`: afterwards `g` is gone but `playerConnections` still maps `a` and `b` to `g` | read the game's player ids before deleting it, then delete each player's connection | not executed | Dispatcher.Server.Disconnect, Dispatcher.DeleteThenClearKeepsStale | Dispatcher.Server.DisconnectIntended, Dispatcher.ClearThenDeleteCleans |
