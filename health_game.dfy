/**
 * models/TriviaGame.ts: the health-based duel version of the per-game state
 * object. Every player starts with 1000 health; each correct answer deals the
 * opponent as much damage as it earns points; the game ends as soon as some
 * player's health reaches 0.
 *
 * As in RoundGame, the queries are functions over the player list and the
 * operations that update `gameState` in place are methods of `TriviaGame`,
 * each specified by one of those functions.
 */
module HealthGame {
  import opened Common
  import opened Ranking

  const BasePoints: nat := 100
  /** Bonus points per second of time remaining. */
  const BonusPerSecond: nat := 10
  const MaxHealth: nat := 1000
  /** `gameState.totalRounds`: effectively unlimited; the game ends on health. */
  const TotalRounds: nat := 999999
  const DefaultCharacter: string := "blue"

  /** One entry of `gameState.players`; `answeredAt` is a clock reading and is left out. */
  datatype Player = Player(
    userId: UserId,
    score: nat,
    health: nat,
    currentAnswer: Option<string>,
    timeRemaining: Option<nat>,
    wantsRematch: bool,
    character: string)

  datatype PlayerResult = PlayerResult(
    userId: UserId,
    answer: Option<string>,
    isCorrect: bool,
    timeRemaining: Option<nat>,
    pointsEarned: nat,
    damageDealt: nat)

  datatype RoundResult = RoundResult(question: Question, playerResults: seq<PlayerResult>)

  datatype Standing = Standing(userId: UserId, score: nat, health: nat, character: string)

  datatype FinalResults = FinalResults(players: seq<Standing>, winner: Option<UserId>, tie: bool)

  function NewPlayer(id: UserId): Player {
    Player(id, 0, MaxHealth, None, None, false, DefaultCharacter)
  }

  /** Points for one answer, with the time remaining in whole milliseconds: `floor(t / 1000 * 10)`. */
  function Points(isCorrect: bool, timeRemaining: nat): nat {
    if isCorrect then BasePoints + timeRemaining * BonusPerSecond / 1000 else 0
  }

  /** A faster correct answer never earns fewer points, and a correct answer earns at least the base. */
  lemma {:induction false} PointsMonotone(t1: nat, t2: nat)
    requires t1 <= t2
    ensures BasePoints <= Points(true, t1) <= Points(true, t2)
    ensures Points(false, t2) == 0
  {
    assert t1 * BonusPerSecond <= t2 * BonusPerSecond;
  }

  function IndexOf(ps: seq<Player>, id: UserId): Option<nat> {
    FindIndex(ps, (p: Player) => p.userId == id)
  }

  function IdsOf(ps: seq<Player>): seq<UserId> {
    MapSeq(ps, (p: Player) => p.userId)
  }

  predicate AllAnswered(ps: seq<Player>) {
    forall k :: 0 <= k < |ps| ==> ps[k].currentAnswer.Some?
  }

  predicate AllWantRematch(ps: seq<Player>) {
    forall k :: 0 <= k < |ps| ==> ps[k].wantsRematch
  }

  /** `isGameOver`: some player has no health left. */
  predicate SomeoneDown(ps: seq<Player>) {
    exists k :: 0 <= k < |ps| && ps[k].health == 0
  }

  /** Health within 0..1000 for every player. */
  predicate HealthBounded(ps: seq<Player>) {
    forall k :: 0 <= k < |ps| ==> ps[k].health <= MaxHealth
  }

  lemma {:induction false} IndexOfSameIds(ps: seq<Player>, qs: seq<Player>, id: UserId)
    requires |ps| == |qs|
    requires forall k :: 0 <= k < |ps| ==> ps[k].userId == qs[k].userId
    ensures IndexOf(ps, id) == IndexOf(qs, id)
  {
    if ps != [] {
      IndexOfSameIds(ps[1..], qs[1..], id);
    }
  }

  /**
   * `submitAnswer` on the player list: the reply and the new list. Unknown
   * players and players who already answered are rejected and nothing
   * changes; otherwise the first player with that id records the answer and
   * the time remaining and gains exactly the points the reply reports.
   */
  function Submit(ps: seq<Player>, q: Option<Question>, id: UserId, answer: string, t: nat): (out: (AnswerResult, seq<Player>))
    ensures |out.1| == |ps|
    ensures IndexOf(ps, id).None? ==> out == (Rejection(PlayerNotFound), ps)
    ensures IndexOf(ps, id).Some? && ps[IndexOf(ps, id).value].currentAnswer.Some? ==>
              out == (Rejection(AlreadyAnswered), ps)
    ensures out.0.error.None? <==>
              IndexOf(ps, id).Some? && ps[IndexOf(ps, id).value].currentAnswer.None? && q.Some?
    ensures out.0.error.Some? ==> out.1 == ps && out.0.pointsEarned == 0 && !out.0.isCorrect
    ensures out.0.error.None? ==>
              var i := IndexOf(ps, id).value;
              && out.0.isCorrect == (answer == q.value.correctAnswer)
              && out.0.pointsEarned == Points(out.0.isCorrect, t)
              && out.1[i] == ps[i].(currentAnswer := Some(answer), timeRemaining := Some(t),
                                    score := ps[i].score + out.0.pointsEarned)
              && forall k :: 0 <= k < |ps| && k != i ==> out.1[k] == ps[k]
    ensures forall k :: 0 <= k < |ps| ==>
              && out.1[k].userId == ps[k].userId && out.1[k].score >= ps[k].score
              && out.1[k].health == ps[k].health
  {
    match IndexOf(ps, id)
    case None => (Rejection(PlayerNotFound), ps)
    case Some(i) =>
      if ps[i].currentAnswer.Some? then (Rejection(AlreadyAnswered), ps)
      else if q.None? then (Rejection(NoCurrentQuestion), ps)
      else
        var isCorrect := answer == q.value.correctAnswer;
        var pointsEarned := Points(isCorrect, t);
        var p := ps[i].(currentAnswer := Some(answer), timeRemaining := Some(t), score := ps[i].score + pointsEarned);
        (AnswerResult(isCorrect, pointsEarned, None), ps[i := p])
  }

  /** First answer wins: once a submission is accepted, any later one by the same user is rejected and changes nothing. */
  lemma FirstAnswerWins(ps: seq<Player>, q: Option<Question>, id: UserId, a1: string, t1: nat, a2: string, t2: nat)
    requires Submit(ps, q, id, a1, t1).0.error.None?
    ensures var after := Submit(ps, q, id, a1, t1).1;
            Submit(after, q, id, a2, t2) == (Rejection(AlreadyAnswered), after)
  {
    IndexOfSameIds(ps, Submit(ps, q, id, a1, t1).1, id);
  }

  /** `getRoundResults` for one player: `(timeRemaining || 0)` reads a missing time as 0; damage equals points. */
  function ResultOf(p: Player, q: Question): PlayerResult {
    var isCorrect := p.currentAnswer == Some(q.correctAnswer);
    var t := match p.timeRemaining case None => 0 case Some(t) => t;
    var pointsEarned := Points(isCorrect, t);
    PlayerResult(p.userId, p.currentAnswer, isCorrect, p.timeRemaining, pointsEarned, pointsEarned)
  }

  function RoundResultOf(ps: seq<Player>, q: Question): RoundResult {
    RoundResult(q, MapSeq(ps, (p: Player) => ResultOf(p, q)))
  }

  /** The round results give an answered player exactly the points `submitAnswer` awarded, as damage too. */
  lemma RoundResultsRecompute(ps: seq<Player>, q: Question, id: UserId, answer: string, t: nat)
    requires Submit(ps, Some(q), id, answer, t).0.error.None?
    ensures var (r, after) := Submit(ps, Some(q), id, answer, t);
            var i := IndexOf(ps, id).value;
            && RoundResultOf(after, q).playerResults[i].pointsEarned == r.pointsEarned
            && RoundResultOf(after, q).playerResults[i].damageDealt == r.pointsEarned
  {
  }

  /** `timeUp`: players without an answer get the empty answer and no time left; the others keep theirs. */
  function TimedOut(ps: seq<Player>): (r: seq<Player>)
    ensures |r| == |ps| && AllAnswered(r)
    ensures forall k :: 0 <= k < |ps| && ps[k].currentAnswer.Some? ==> r[k] == ps[k]
    ensures forall k :: 0 <= k < |ps| && ps[k].currentAnswer.None? ==>
              r[k] == ps[k].(currentAnswer := Some(""), timeRemaining := Some(0))
  {
    MapSeq(ps, (p: Player) => if p.currentAnswer.None? then p.(currentAnswer := Some(""), timeRemaining := Some(0)) else p)
  }

  function Cleared(p: Player): Player {
    p.(currentAnswer := None, timeRemaining := None)
  }

  /** The answer reset of `moveToNextQuestion`. */
  function ClearAnswers(ps: seq<Player>): (r: seq<Player>)
    ensures |r| == |ps|
    ensures forall k :: 0 <= k < |ps| ==> r[k] == Cleared(ps[k])
    ensures |ps| > 0 ==> !AllAnswered(r)
  {
    MapSeq(ps, Cleared)
  }

  /** `Math.max(0, health - damage)`. */
  function Hit(health: nat, damage: nat): nat {
    if health >= damage then health - damage else 0
  }

  /**
   * `applyDamage`: with exactly two players, each player's health drops by
   * the damage of the first round result carrying the other seat's user id,
   * floored at 0. With any other number of players nothing changes.
   */
  function AfterDamage(ps: seq<Player>, q: Question): (r: seq<Player>)
    ensures |r| == |ps|
    ensures |ps| != 2 ==> r == ps
    ensures forall k :: 0 <= k < |ps| ==> r[k] == ps[k].(health := r[k].health) && r[k].health <= ps[k].health
    ensures HealthBounded(ps) ==> HealthBounded(r)
    ensures |ps| == 2 && ps[0].userId != ps[1].userId ==>
              && r[0].health == Hit(ps[0].health, ResultOf(ps[1], q).damageDealt)
              && r[1].health == Hit(ps[1].health, ResultOf(ps[0], q).damageDealt)
    ensures |ps| == 2 && ps[0].userId == ps[1].userId ==>
              && r[0].health == Hit(ps[0].health, ResultOf(ps[0], q).damageDealt)
              && r[1].health == Hit(ps[1].health, ResultOf(ps[0], q).damageDealt)
  {
    if |ps| != 2 then ps
    else
      var results := RoundResultOf(ps, q).playerResults;
      var first := Find(results, (x: PlayerResult) => x.userId == ps[0].userId);
      var second := Find(results, (x: PlayerResult) => x.userId == ps[1].userId);
      assert results[0].userId == ps[0].userId && results[1].userId == ps[1].userId;
      if first.None? || second.None? then ps
      else
        [ps[0].(health := Hit(ps[0].health, second.value.damageDealt)),
         ps[1].(health := Hit(ps[1].health, first.value.damageDealt))]
  }

  /**
   * Two fresh players both answer correctly, with 5000 ms and 2000 ms left:
   * they earn 150 and 120 points, and each loses the other's points in health.
   */
  lemma DamageExample(a: UserId, b: UserId, q: Question)
    requires a != b
    ensures var ps := [NewPlayer(a), NewPlayer(b)];
            var (r1, ps1) := Submit(ps, Some(q), a, q.correctAnswer, 5000);
            var (r2, ps2) := Submit(ps1, Some(q), b, q.correctAnswer, 2000);
            && r1.pointsEarned == 150 && r2.pointsEarned == 120
            && AfterDamage(ps2, q)[0].health == 880 && AfterDamage(ps2, q)[1].health == 850
  {
    var ps := [NewPlayer(a), NewPlayer(b)];
    assert ps[0].userId == a && ps[1].userId == b;
    assert IndexOf(ps, a) == Some(0);
    assert IndexOf(ps, b) == Some(1);
    var ps1 := Submit(ps, Some(q), a, q.correctAnswer, 5000).1;
    IndexOfSameIds(ps, ps1, b);
  }

  /** `requestRematch`: the first player with that id opts in; an unknown id changes nothing. */
  function Vote(ps: seq<Player>, id: UserId): (r: seq<Player>)
    ensures |r| == |ps|
    ensures IndexOf(ps, id).None? ==> r == ps
    ensures IndexOf(ps, id).Some? ==> r == ps[IndexOf(ps, id).value := ps[IndexOf(ps, id).value].(wantsRematch := true)]
  {
    match IndexOf(ps, id)
    case None => ps
    case Some(i) => ps[i := ps[i].(wantsRematch := true)]
  }

  /** Two distinct players who both vote want a rematch; one vote alone is not enough. */
  lemma {:induction false} BothVotesNeeded(ps: seq<Player>)
    requires |ps| == 2 && ps[0].userId != ps[1].userId
    requires !ps[0].wantsRematch && !ps[1].wantsRematch
    ensures !AllWantRematch(Vote(ps, ps[0].userId)) && !AllWantRematch(Vote(ps, ps[1].userId))
    ensures AllWantRematch(Vote(Vote(ps, ps[0].userId), ps[1].userId))
  {
    var once := Vote(ps, ps[0].userId);
    assert IndexOf(ps, ps[0].userId) == Some(0);
    assert IndexOf(ps, ps[1].userId) == Some(1);
    assert !once[1].wantsRematch;
    assert !Vote(ps, ps[1].userId)[0].wantsRematch;
    IndexOfSameIds(ps, once, ps[1].userId);
  }

  function Score(p: Player): int { p.score }

  function StandingOf(p: Player): Standing { Standing(p.userId, p.score, p.health, p.character) }

  function StandingScore(s: Standing): int { s.score }

  function Alive(ps: seq<Player>): seq<Player> {
    Filter(ps, (p: Player) => p.health > 0)
  }

  /** `Filter` keeps exactly the players that satisfy the test, so it is empty exactly when none does. */
  lemma {:induction false} AliveEmpty(ps: seq<Player>)
    ensures |Alive(ps)| == 0 <==> forall k :: 0 <= k < |ps| ==> ps[k].health == 0
  {
    if ps != [] {
      AliveEmpty(ps[1..]);
      assert Alive(ps) == (if ps[0].health > 0 then [ps[0]] else []) + Alive(ps[1..]);
      assert forall k :: 1 <= k < |ps| ==> ps[k] == ps[1..][k - 1];
    }
  }

  /** Sorting a single player gives that player. */
  lemma SortSingle(x: Player)
    ensures SortDesc([x], Score) == [x]
  {
    assert [x][1..] == [];
  }

  /**
   * `getFinalResults`: every player, highest score first, and a tie flag
   * that is exactly the absence of a winner. The rule deciding the tie and
   * the winner is stated by `FinalTieRule` and `FinalWinnerRule`.
   */
  function Final(ps: seq<Player>): (r: FinalResults)
    requires |ps| > 0
    ensures multiset(r.players) == multiset(MapSeq(ps, StandingOf))
    ensures SortedDesc(r.players, StandingScore)
    ensures r.players == MapSeq(SortDesc(ps, Score), StandingOf)
    ensures r.winner.None? <==> r.tie
  {
    var alive := Alive(ps);
    var allSorted := SortDesc(ps, Score);
    var winnerPlayers := if |alive| > 0 then SortDesc(alive, Score) else allSorted;
    SortCommutesWithMap(ps, Score, StandingOf, StandingScore);
    var tie := (|alive| == 0 && |winnerPlayers| > 1 && winnerPlayers[0].score == winnerPlayers[1].score) || |alive| > 1;
    FinalResults(MapSeq(allSorted, StandingOf), if tie then None else Some(winnerPlayers[0].userId), tie)
  }

  /** A tie exactly when more than one player is alive, or when nobody is and at least two share the top score. */
  lemma FinalTieRule(ps: seq<Player>)
    requires |ps| > 0
    ensures Final(ps).tie <==> |Alive(ps)| > 1 || (|Alive(ps)| == 0 && TopShared(ps, Score))
  {
    SortedTop(ps, Score);
  }

  /** The only survivor wins whatever the scores; when nobody survived the winner holds the top score. */
  lemma FinalWinnerRule(ps: seq<Player>)
    requires |ps| > 0
    ensures |Alive(ps)| == 1 ==> Final(ps).winner == Some(Alive(ps)[0].userId)
    ensures |Alive(ps)| == 0 && Final(ps).winner.Some? ==>
              exists k :: 0 <= k < |ps| && ps[k].userId == Final(ps).winner.value && ps[k].score == MaxKey(ps, Score)
  {
    var alive := Alive(ps);
    if |alive| == 1 {
      assert alive == [alive[0]];
      SortSingle(alive[0]);
    }
    if |alive| == 0 {
      SortedTop(ps, Score);
      var top := SortDesc(ps, Score)[0];
      assert top in multiset(ps);
      assert top in ps;
    }
  }

  lemma AliveOfPair(ps: seq<Player>)
    requires |ps| == 2
    ensures Alive(ps) == (if ps[0].health > 0 then [ps[0]] else []) + (if ps[1].health > 0 then [ps[1]] else [])
  {
    assert ps[1..] == [ps[1]] && ps[1..][1..] == [];
    assert Alive(ps) == (if ps[0].health > 0 then [ps[0]] else []) + Alive(ps[1..]);
    assert Alive(ps[1..]) == (if ps[1].health > 0 then [ps[1]] else []) + Alive([]);
  }

  lemma TopSharedPair(ps: seq<Player>)
    requires |ps| == 2
    ensures TopShared(ps, Score) <==> ps[0].score == ps[1].score
  {
    assert ps[1..] == [ps[1]] && ps[1..][1..] == [];
    var m := MaxKey(ps, Score);
    assert MaxKey(ps[1..], Score) == ps[1].score;
    assert CountAtLeast(ps[1..], Score, m) == (if ps[1].score >= m then 1 else 0) + CountAtLeast(ps[1..][1..], Score, m);
  }

  /** For a duel: a tie exactly when both survive, or both are down with equal scores. */
  lemma DuelOutcome(ps: seq<Player>)
    requires |ps| == 2
    ensures Final(ps).tie <==> (ps[0].health > 0 && ps[1].health > 0) ||
                               (ps[0].health == 0 && ps[1].health == 0 && ps[0].score == ps[1].score)
  {
    FinalTieRule(ps);
    AliveOfPair(ps);
    TopSharedPair(ps);
  }

  /** The per-game state object. */
  class TriviaGame {
    var players: seq<Player>
    var currentRound: nat
    const totalRounds: nat := TotalRounds
    var currentQuestion: Option<Question>
    var status: Status
    /** Empty until the question fetch lands; see `LoadQuestions`. */
    var questions: seq<Question>
    /** Filled by `saveRoundResults`, never read. */
    var roundResults: seq<RoundResult>

    /** Every health stays within 0..1000, and a current question comes from a non-empty list. */
    ghost predicate Valid()
      reads this
    {
      HealthBounded(players) && (currentQuestion.Some? ==> |questions| > 0)
    }

    /** The question list starts empty; the fetch the constructor starts lands later, in `LoadQuestions`. */
    constructor (playerIds: seq<UserId>)
      ensures Valid()
      ensures players == MapSeq(playerIds, NewPlayer)
      ensures forall k :: 0 <= k < |players| ==>
                players[k].score == 0 && players[k].health == MaxHealth && players[k].currentAnswer.None?
                && players[k].timeRemaining.None? && !players[k].wantsRematch
      ensures currentRound == 0 && currentQuestion == None && status == Waiting && roundResults == []
      ensures questions == []
      ensures |playerIds| >= 2 ==> HasAllPlayers()
    {
      players := MapSeq(playerIds, NewPlayer);
      currentRound := 0;
      currentQuestion := None;
      status := Waiting;
      questions := [];
      roundResults := [];
    }

    /**
     * The completion of the question fetch, whenever it lands. A non-empty
     * batch replaces the list and, in a game already under way, the current
     * question becomes the batch's entry for the current round (`undefined`,
     * here `None`, when the batch is shorter). An empty batch, which is also
     * what a failed fetch yields, brings in the placeholders.
     */
    method LoadQuestions(fetched: seq<Question>)
      requires Valid()
      modifies this
      ensures Valid()
      ensures |fetched| > 0 ==> questions == fetched
      ensures |fetched| > 0 && status == Active && currentRound > 0 ==>
                currentQuestion == if currentRound - 1 < |fetched| then Some(fetched[currentRound - 1]) else None
      ensures |fetched| == 0 ==> questions == PlaceholderQuestions()
      ensures |fetched| == 0 || status != Active || currentRound == 0 ==> currentQuestion == old(currentQuestion)
      ensures players == old(players) && currentRound == old(currentRound)
      ensures status == old(status) && roundResults == old(roundResults)
    {
      if |fetched| > 0 {
        questions := fetched;
        if status == Active && currentRound > 0 {
          currentQuestion := if currentRound - 1 < |questions| then Some(questions[currentRound - 1]) else None;
        }
      } else {
        questions := PlaceholderQuestions();
      }
    }

    function PlayerIds(): seq<UserId>
      reads this
    {
      IdsOf(players)
    }

    predicate HasAllPlayers()
      reads this
    {
      |players| >= 2
    }

    method StartGame()
      requires Valid()
      modifies this
      ensures Valid()
      ensures status == Active && currentRound == 1
      ensures questions == (if old(questions) == [] then PlaceholderQuestions() else old(questions))
      ensures currentQuestion == Some(questions[0])
      ensures players == old(players) && roundResults == old(roundResults)
    {
      status := Active;
      currentRound := 1;
      if |questions| == 0 {
        questions := PlaceholderQuestions();
      }
      currentQuestion := Some(questions[0]);
    }

    method SubmitAnswer(userId: UserId, answer: string, timeRemaining: nat) returns (r: AnswerResult)
      requires Valid()
      modifies this
      ensures Valid()
      ensures (r, players) == Submit(old(players), old(currentQuestion), userId, answer, timeRemaining)
      ensures currentRound == old(currentRound) && currentQuestion == old(currentQuestion)
      ensures status == old(status) && questions == old(questions) && roundResults == old(roundResults)
    {
      var index := IndexOf(players, userId);
      if index.None? {
        return Rejection(PlayerNotFound);
      }
      var i := index.value;
      var player := players[i];
      if player.currentAnswer.Some? {
        return Rejection(AlreadyAnswered);
      }
      if currentQuestion.None? {
        return Rejection(NoCurrentQuestion);
      }
      var isCorrect := answer == currentQuestion.value.correctAnswer;
      var pointsEarned := Points(isCorrect, timeRemaining);
      players := players[i := player.(currentAnswer := Some(answer), timeRemaining := Some(timeRemaining),
                                      score := player.score + pointsEarned)];
      r := AnswerResult(isCorrect, pointsEarned, None);
    }

    predicate AllPlayersAnswered()
      reads this
    {
      AllAnswered(players)
    }

    /**
     * Saves the round; if some player is down the game is completed and
     * nothing else changes, otherwise every answer is cleared, the round
     * advances and the questions are cycled through.
     */
    method MoveToNextQuestion()
      requires Valid() && currentQuestion.Some?
      modifies this
      ensures Valid()
      ensures roundResults == old(roundResults) + [RoundResultOf(old(players), old(currentQuestion).value)]
      ensures questions == old(questions)
      ensures SomeoneDown(old(players)) ==>
                && status == Completed && players == old(players)
                && currentRound == old(currentRound) && currentQuestion == old(currentQuestion)
      ensures !SomeoneDown(old(players)) ==>
                && players == ClearAnswers(old(players))
                && currentRound == old(currentRound) + 1 && status == old(status)
                && currentQuestion == Some(questions[(currentRound - 1) % |questions|])
    {
      roundResults := roundResults + [GetRoundResults()];
      if IsGameOver() {
        EndGame();
        return;
      }
      var i := 0;
      while i < |players|
        invariant 0 <= i <= |players| == |old(players)|
        invariant roundResults == old(roundResults) + [RoundResultOf(old(players), old(currentQuestion).value)]
        invariant currentRound == old(currentRound) && currentQuestion == old(currentQuestion)
        invariant status == old(status) && questions == old(questions)
        invariant forall k :: 0 <= k < i ==> players[k] == Cleared(old(players)[k])
        invariant forall k :: i <= k < |players| ==> players[k] == old(players)[k]
      {
        players := players[i := Cleared(players[i])];
        i := i + 1;
      }
      currentRound := currentRound + 1;
      var questionIndex := (currentRound - 1) % |questions|;
      currentQuestion := Some(questions[questionIndex]);
    }

    method TimeUp()
      requires Valid()
      modifies this
      ensures Valid()
      ensures players == TimedOut(old(players))
      ensures currentRound == old(currentRound) && currentQuestion == old(currentQuestion)
      ensures status == old(status) && questions == old(questions) && roundResults == old(roundResults)
    {
      var i := 0;
      while i < |players|
        invariant 0 <= i <= |players| == |old(players)|
        invariant currentRound == old(currentRound) && currentQuestion == old(currentQuestion)
        invariant status == old(status) && questions == old(questions) && roundResults == old(roundResults)
        invariant forall k :: 0 <= k < i ==> players[k] == TimedOut(old(players))[k]
        invariant forall k :: i <= k < |players| ==> players[k] == old(players)[k]
      {
        if players[i].currentAnswer.None? {
          players := players[i := players[i].(currentAnswer := Some(""), timeRemaining := Some(0))];
        }
        i := i + 1;
      }
    }

    predicate IsGameOver()
      reads this
    {
      SomeoneDown(players)
    }

    method EndGame()
      modifies this
      ensures status == Completed
      ensures players == old(players) && currentRound == old(currentRound) && questions == old(questions)
      ensures currentQuestion == old(currentQuestion) && roundResults == old(roundResults)
    {
      status := Completed;
    }

    function GetRoundResults(): RoundResult
      requires currentQuestion.Some?
      reads this
    {
      RoundResultOf(players, currentQuestion.value)
    }

    /** Two-player games only; it reads the round results, so it needs a current question. */
    method ApplyDamage()
      requires Valid() && (|players| == 2 ==> currentQuestion.Some?)
      modifies this
      ensures Valid()
      ensures |old(players)| != 2 ==> players == old(players)
      ensures |old(players)| == 2 ==> players == AfterDamage(old(players), old(currentQuestion).value)
      ensures currentRound == old(currentRound) && currentQuestion == old(currentQuestion)
      ensures status == old(status) && questions == old(questions) && roundResults == old(roundResults)
    {
      if |players| != 2 {
        return;
      }
      var player1 := players[0];
      var player2 := players[1];
      var roundResult := GetRoundResults();
      var player1Result := Find(roundResult.playerResults, (x: PlayerResult) => x.userId == player1.userId);
      var player2Result := Find(roundResult.playerResults, (x: PlayerResult) => x.userId == player2.userId);
      if player1Result.Some? && player2Result.Some? {
        players := [player1.(health := Hit(player1.health, player2Result.value.damageDealt)),
                    player2.(health := Hit(player2.health, player1Result.value.damageDealt))];
      }
    }

    function GetFinalResults(): FinalResults
      requires |players| > 0
      reads this
    {
      Final(players)
    }

    method RequestRematch(userId: UserId)
      requires Valid()
      modifies this
      ensures Valid()
      ensures players == Vote(old(players), userId)
      ensures currentRound == old(currentRound) && currentQuestion == old(currentQuestion)
      ensures status == old(status) && questions == old(questions) && roundResults == old(roundResults)
    {
      var index := IndexOf(players, userId);
      if index.Some? {
        players := players[index.value := players[index.value].(wantsRematch := true)];
      }
    }

    predicate AllPlayersWantRematch()
      reads this
    {
      AllWantRematch(players)
    }
  }
}
