/**
 * models/TriviaGame.js: the compiled, round-capped, score-only version of
 * the per-game state object. This is the version socket.js loads.
 *
 * The queries (`getRoundResults`, `getFinalResults`, `allPlayersAnswered`,
 * ...) are pure functions over the player list. The operations that update
 * `gameState` in place are methods of the class `TriviaGame`, and each one
 * is specified by one of those functions of its old state.
 */
module RoundGame {
  import opened Common
  import opened Ranking

  const BasePoints: nat := 100
  /** Bonus points per second of time remaining. */
  const BonusPerSecond: nat := 5
  /** `gameState.totalRounds`. */
  const TotalRounds: nat := 10

  /** One entry of `gameState.players`; `answeredAt` is a clock reading and is left out. */
  datatype Player = Player(
    userId: UserId,
    score: nat,
    currentAnswer: Option<string>,
    timeRemaining: Option<nat>,
    wantsRematch: bool)

  datatype PlayerResult = PlayerResult(
    userId: UserId,
    answer: Option<string>,
    isCorrect: bool,
    timeRemaining: Option<nat>,
    pointsEarned: nat)

  datatype RoundResult = RoundResult(question: Question, playerResults: seq<PlayerResult>)

  datatype Standing = Standing(userId: UserId, score: nat)

  datatype FinalResults = FinalResults(players: seq<Standing>, winner: Option<UserId>, tie: bool)

  function NewPlayer(id: UserId): Player {
    Player(id, 0, None, None, false)
  }

  /** Points for one answer, with the time remaining in whole milliseconds. */
  function Points(isCorrect: bool, timeRemaining: nat): nat {
    if isCorrect then BasePoints + timeRemaining * BonusPerSecond / 1000 else 0
  }

  /** A faster correct answer never earns fewer points, and a correct answer earns at least the base. */
  lemma {:induction false} PointsMonotone(t1: nat, t2: nat)
    requires t1 <= t2
    ensures BasePoints <= Points(true, t1) <= Points(true, t2)
    ensures Points(false, t2) == 0
  {
    assert t1 * BonusPerSecond <= t2 * BonusPerSecond;
  }

  /** 5000 ms left earns 125 points and 2000 ms left earns 110. */
  lemma PointsExamples()
    ensures Points(true, 5000) == 125 && Points(true, 2000) == 110 && Points(false, 5000) == 0
  {
  }

  function IndexOf(ps: seq<Player>, id: UserId): Option<nat> {
    FindIndex(ps, (p: Player) => p.userId == id)
  }

  function IdsOf(ps: seq<Player>): seq<UserId> {
    MapSeq(ps, (p: Player) => p.userId)
  }

  predicate AllAnswered(ps: seq<Player>) {
    forall k :: 0 <= k < |ps| ==> ps[k].currentAnswer.Some?
  }

  predicate AllWantRematch(ps: seq<Player>) {
    forall k :: 0 <= k < |ps| ==> ps[k].wantsRematch
  }

  /** `findIndex` only looks at the user ids, so it is the same on two lists with the same ids. */
  lemma {:induction false} IndexOfSameIds(ps: seq<Player>, qs: seq<Player>, id: UserId)
    requires |ps| == |qs|
    requires forall k :: 0 <= k < |ps| ==> ps[k].userId == qs[k].userId
    ensures IndexOf(ps, id) == IndexOf(qs, id)
  {
    if ps != [] {
      IndexOfSameIds(ps[1..], qs[1..], id);
    }
  }

  /**
   * `submitAnswer` on the player list: the reply and the new list. Unknown
   * players and players who already answered are rejected and nothing
   * changes; otherwise the first player with that id records the answer and
   * the time remaining and gains exactly the points the reply reports.
   */
  function Submit(ps: seq<Player>, q: Option<Question>, id: UserId, answer: string, t: nat): (out: (AnswerResult, seq<Player>))
    ensures |out.1| == |ps|
    ensures IndexOf(ps, id).None? ==> out == (Rejection(PlayerNotFound), ps)
    ensures IndexOf(ps, id).Some? && ps[IndexOf(ps, id).value].currentAnswer.Some? ==>
              out == (Rejection(AlreadyAnswered), ps)
    ensures out.0.error.None? <==>
              IndexOf(ps, id).Some? && ps[IndexOf(ps, id).value].currentAnswer.None? && q.Some?
    ensures out.0.error.Some? ==> out.1 == ps && out.0.pointsEarned == 0 && !out.0.isCorrect
    ensures out.0.error.None? ==>
              var i := IndexOf(ps, id).value;
              && out.0.isCorrect == (answer == q.value.correctAnswer)
              && out.0.pointsEarned == Points(out.0.isCorrect, t)
              && out.1[i] == ps[i].(currentAnswer := Some(answer), timeRemaining := Some(t),
                                    score := ps[i].score + out.0.pointsEarned)
              && forall k :: 0 <= k < |ps| && k != i ==> out.1[k] == ps[k]
    ensures forall k :: 0 <= k < |ps| ==> out.1[k].userId == ps[k].userId && out.1[k].score >= ps[k].score
  {
    match IndexOf(ps, id)
    case None => (Rejection(PlayerNotFound), ps)
    case Some(i) =>
      if ps[i].currentAnswer.Some? then (Rejection(AlreadyAnswered), ps)
      else if q.None? then (Rejection(NoCurrentQuestion), ps)
      else
        var isCorrect := answer == q.value.correctAnswer;
        var pointsEarned := Points(isCorrect, t);
        var p := ps[i].(currentAnswer := Some(answer), timeRemaining := Some(t), score := ps[i].score + pointsEarned);
        (AnswerResult(isCorrect, pointsEarned, None), ps[i := p])
  }

  /** First answer wins: once a submission is accepted, any later one by the same user is rejected and changes nothing. */
  lemma FirstAnswerWins(ps: seq<Player>, q: Option<Question>, id: UserId, a1: string, t1: nat, a2: string, t2: nat)
    requires Submit(ps, q, id, a1, t1).0.error.None?
    ensures var after := Submit(ps, q, id, a1, t1).1;
            Submit(after, q, id, a2, t2) == (Rejection(AlreadyAnswered), after)
  {
    IndexOfSameIds(ps, Submit(ps, q, id, a1, t1).1, id);
  }

  /** Once every player has an answer (for instance after `timeUp`), every submission is rejected and changes nothing. */
  lemma {:induction false} AnsweredRoundRejectsSubmissions(ps: seq<Player>, q: Option<Question>, id: UserId, a: string, t: nat)
    requires AllAnswered(ps)
    ensures Submit(ps, q, id, a, t).0.error.Some? && Submit(ps, q, id, a, t).1 == ps
  {
    var i := IndexOf(ps, id);
    if i.Some? {
      assert ps[i.value].currentAnswer.Some?;
    }
  }

  /** `getRoundResults` for one player: `(timeRemaining || 0)` reads a missing time as 0. */
  function ResultOf(p: Player, q: Question): PlayerResult {
    var isCorrect := p.currentAnswer == Some(q.correctAnswer);
    var t := match p.timeRemaining case None => 0 case Some(t) => t;
    PlayerResult(p.userId, p.currentAnswer, isCorrect, p.timeRemaining, Points(isCorrect, t))
  }

  function RoundResultOf(ps: seq<Player>, q: Question): RoundResult {
    RoundResult(q, MapSeq(ps, (p: Player) => ResultOf(p, q)))
  }

  /** The round results give an answered player exactly the points `submitAnswer` awarded. */
  lemma RoundResultsRecompute(ps: seq<Player>, q: Question, id: UserId, answer: string, t: nat)
    requires Submit(ps, Some(q), id, answer, t).0.error.None?
    ensures var (r, after) := Submit(ps, Some(q), id, answer, t);
            var i := IndexOf(ps, id).value;
            && RoundResultOf(after, q).playerResults[i].pointsEarned == r.pointsEarned
            && RoundResultOf(after, q).playerResults[i].isCorrect == r.isCorrect
  {
  }

  /** `timeUp`: players without an answer get the empty answer and no time left; the others keep theirs. */
  function TimedOut(ps: seq<Player>): (r: seq<Player>)
    ensures |r| == |ps| && AllAnswered(r)
    ensures forall k :: 0 <= k < |ps| && ps[k].currentAnswer.Some? ==> r[k] == ps[k]
    ensures forall k :: 0 <= k < |ps| && ps[k].currentAnswer.None? ==>
              r[k] == ps[k].(currentAnswer := Some(""), timeRemaining := Some(0))
  {
    MapSeq(ps, (p: Player) => if p.currentAnswer.None? then p.(currentAnswer := Some(""), timeRemaining := Some(0)) else p)
  }

  /** A player that timed out earns nothing unless the correct answer is the empty string. */
  lemma TimedOutEarnsNothing(ps: seq<Player>, q: Question, k: nat)
    requires k < |ps| && ps[k].currentAnswer.None? && q.correctAnswer != ""
    ensures RoundResultOf(TimedOut(ps), q).playerResults[k].pointsEarned == 0
  {
  }

  function Cleared(p: Player): Player {
    p.(currentAnswer := None, timeRemaining := None)
  }

  /** The answer reset of `moveToNextQuestion` and `sendNextQuestion`. */
  function ClearAnswers(ps: seq<Player>): (r: seq<Player>)
    ensures |r| == |ps|
    ensures forall k :: 0 <= k < |ps| ==> r[k] == Cleared(ps[k])
    ensures |ps| > 0 ==> !AllAnswered(r)
  {
    MapSeq(ps, Cleared)
  }

  /** `requestRematch`: the first player with that id opts in; an unknown id changes nothing. */
  function Vote(ps: seq<Player>, id: UserId): (r: seq<Player>)
    ensures |r| == |ps|
    ensures IndexOf(ps, id).None? ==> r == ps
    ensures IndexOf(ps, id).Some? ==> r == ps[IndexOf(ps, id).value := ps[IndexOf(ps, id).value].(wantsRematch := true)]
  {
    match IndexOf(ps, id)
    case None => ps
    case Some(i) => ps[i := ps[i].(wantsRematch := true)]
  }

  /** A vote changes a flag and never the roster. */
  lemma VoteKeepsIds(ps: seq<Player>, id: UserId)
    ensures IdsOf(Vote(ps, id)) == IdsOf(ps)
  {
    var r := Vote(ps, id);
    assert forall k :: 0 <= k < |ps| ==> IdsOf(r)[k] == IdsOf(ps)[k];
  }

  /** Two distinct players who both vote want a rematch; one vote alone is not enough. */
  lemma {:induction false} BothVotesNeeded(ps: seq<Player>)
    requires |ps| == 2 && ps[0].userId != ps[1].userId
    requires !ps[0].wantsRematch && !ps[1].wantsRematch
    ensures !AllWantRematch(Vote(ps, ps[0].userId)) && !AllWantRematch(Vote(ps, ps[1].userId))
    ensures AllWantRematch(Vote(Vote(ps, ps[0].userId), ps[1].userId))
  {
    var once := Vote(ps, ps[0].userId);
    assert IndexOf(ps, ps[0].userId) == Some(0);
    assert IndexOf(ps, ps[1].userId) == Some(1);
    assert !once[1].wantsRematch;
    assert !Vote(ps, ps[1].userId)[0].wantsRematch;
    IndexOfSameIds(ps, once, ps[1].userId);
  }

  /** When one user fills both seats, only the first seat can ever opt in, so no rematch is created. */
  lemma {:induction false} SameUserTwiceNeverRematches(ps: seq<Player>, id: UserId)
    requires |ps| == 2 && ps[0].userId == ps[1].userId
    ensures Vote(ps, id)[1] == ps[1]
  {
    var i := IndexOf(ps, id);
    if i.Some? {
      assert i.value == 0;
    }
  }

  function Score(p: Player): int { p.score }

  function StandingOf(p: Player): Standing { Standing(p.userId, p.score) }

  function StandingScore(s: Standing): int { s.score }

  /**
   * `getFinalResults`: every player, highest score first; a tie exactly when
   * at least two players share the top score; otherwise the winner is a
   * player with the top score.
   */
  function Final(ps: seq<Player>): (r: FinalResults)
    requires |ps| > 0
    ensures multiset(r.players) == multiset(MapSeq(ps, StandingOf))
    ensures SortedDesc(r.players, StandingScore)
    ensures r.players == MapSeq(SortDesc(ps, Score), StandingOf)
    ensures r.tie <==> TopShared(ps, Score)
    ensures r.winner.None? <==> r.tie
    ensures r.winner.Some? ==>
              exists k :: 0 <= k < |ps| && ps[k].userId == r.winner.value && ps[k].score == MaxKey(ps, Score)
  {
    var sorted := SortDesc(ps, Score);
    SortedTop(ps, Score);
    SortCommutesWithMap(ps, Score, StandingOf, StandingScore);
    assert sorted[0] in multiset(ps);
    var tie := |sorted| > 1 && sorted[0].score == sorted[1].score;
    FinalResults(MapSeq(sorted, StandingOf), if tie then None else Some(sorted[0].userId), tie)
  }

  /** Players with equal scores appear in the final standings in their seat order. */
  lemma FinalStable(ps: seq<Player>, m: int)
    requires |ps| > 0
    ensures Filter(Final(ps).players, (st: Standing) => st.score == m) == MapSeq(Filter(ps, (p: Player) => p.score == m), StandingOf)
  {
    SortMapStable(ps, Score, StandingOf, m, (p: Player) => p.score == m, (st: Standing) => st.score == m);
  }

  /** The per-game state object. */
  class TriviaGame {
    var players: seq<Player>
    var currentRound: nat
    const totalRounds: nat := TotalRounds
    var currentQuestion: Option<Question>
    var status: Status
    /** The constructor always loads the placeholder list. */
    const questions: seq<Question>
    /** Filled by `saveRoundResults`, never read. */
    var roundResults: seq<RoundResult>

    constructor (playerIds: seq<UserId>)
      ensures questions == PlaceholderQuestions() && Loaded()
      ensures players == MapSeq(playerIds, NewPlayer)
      ensures currentRound == 0 && currentQuestion == None && status == Waiting && roundResults == []
      ensures |playerIds| >= 2 ==> HasAllPlayers()
    {
      questions := PlaceholderQuestions();
      players := MapSeq(playerIds, NewPlayer);
      currentRound := 0;
      currentQuestion := None;
      status := Waiting;
      roundResults := [];
    }

    function PlayerIds(): seq<UserId>
      reads this
    {
      IdsOf(players)
    }

    predicate HasAllPlayers()
      reads this
    {
      |players| >= 2
    }

    /** There is a question for every round: what the constructor's list guarantees. */
    predicate Loaded() {
      |questions| == TotalRounds
    }

    method StartGame()
      requires Loaded()
      modifies this
      ensures status == Active && currentRound == 1 && currentQuestion == Some(questions[0])
      ensures players == old(players) && roundResults == old(roundResults)
    {
      status := Active;
      currentRound := 1;
      currentQuestion := Some(questions[0]);
    }

    method SubmitAnswer(userId: UserId, answer: string, timeRemaining: nat) returns (r: AnswerResult)
      modifies this
      ensures (r, players) == Submit(old(players), old(currentQuestion), userId, answer, timeRemaining)
      ensures currentRound == old(currentRound) && currentQuestion == old(currentQuestion)
      ensures status == old(status) && roundResults == old(roundResults)
    {
      var index := IndexOf(players, userId);
      if index.None? {
        return Rejection(PlayerNotFound);
      }
      var i := index.value;
      var player := players[i];
      if player.currentAnswer.Some? {
        return Rejection(AlreadyAnswered);
      }
      if currentQuestion.None? {
        return Rejection(NoCurrentQuestion);
      }
      var isCorrect := answer == currentQuestion.value.correctAnswer;
      var pointsEarned := Points(isCorrect, timeRemaining);
      players := players[i := player.(currentAnswer := Some(answer), timeRemaining := Some(timeRemaining),
                                      score := player.score + pointsEarned)];
      r := AnswerResult(isCorrect, pointsEarned, None);
    }

    /** The round is over once everyone has answered; the timeout is handled by the caller. */
    predicate ShouldMoveToNextQuestion()
      reads this
    {
      AllPlayersAnswered()
    }

    predicate AllPlayersAnswered()
      reads this
    {
      AllAnswered(players)
    }

    /**
     * Saves the round, clears every answer and advances the round; past the
     * last round the game is completed and the question stays as it was.
     */
    method MoveToNextQuestion()
      requires Loaded() && currentQuestion.Some?
      modifies this
      ensures roundResults == old(roundResults) + [RoundResultOf(old(players), old(currentQuestion).value)]
      ensures players == ClearAnswers(old(players))
      ensures currentRound == old(currentRound) + 1
      ensures currentRound <= totalRounds ==> currentQuestion == Some(questions[currentRound - 1]) && status == old(status)
      ensures currentRound > totalRounds ==> currentQuestion == old(currentQuestion) && status == Completed
    {
      roundResults := roundResults + [GetRoundResults()];
      var i := 0;
      while i < |players|
        invariant 0 <= i <= |players| == |old(players)|
        invariant roundResults == old(roundResults) + [RoundResultOf(old(players), old(currentQuestion).value)]
        invariant currentRound == old(currentRound) && currentQuestion == old(currentQuestion) && status == old(status)
        invariant forall k :: 0 <= k < i ==> players[k] == Cleared(old(players)[k])
        invariant forall k :: i <= k < |players| ==> players[k] == old(players)[k]
      {
        players := players[i := Cleared(players[i])];
        i := i + 1;
      }
      currentRound := currentRound + 1;
      if currentRound <= totalRounds {
        currentQuestion := Some(questions[currentRound - 1]);
      } else {
        EndGame();
      }
    }

    method TimeUp()
      modifies this
      ensures players == TimedOut(old(players))
      ensures currentRound == old(currentRound) && currentQuestion == old(currentQuestion)
      ensures status == old(status) && roundResults == old(roundResults)
    {
      var i := 0;
      while i < |players|
        invariant 0 <= i <= |players| == |old(players)|
        invariant currentRound == old(currentRound) && currentQuestion == old(currentQuestion)
        invariant status == old(status) && roundResults == old(roundResults)
        invariant forall k :: 0 <= k < i ==> players[k] == TimedOut(old(players))[k]
        invariant forall k :: i <= k < |players| ==> players[k] == old(players)[k]
      {
        if players[i].currentAnswer.None? {
          players := players[i := players[i].(currentAnswer := Some(""), timeRemaining := Some(0))];
        }
        i := i + 1;
      }
    }

    /** The game is over once the round counter has passed the last round. */
    predicate IsGameOver()
      reads this
    {
      currentRound > totalRounds
    }

    method EndGame()
      modifies this
      ensures status == Completed
      ensures players == old(players) && currentRound == old(currentRound)
      ensures currentQuestion == old(currentQuestion) && roundResults == old(roundResults)
    {
      status := Completed;
    }

    function GetRoundResults(): RoundResult
      requires currentQuestion.Some?
      reads this
    {
      RoundResultOf(players, currentQuestion.value)
    }

    function GetFinalResults(): FinalResults
      requires |players| > 0
      reads this
    {
      Final(players)
    }

    method RequestRematch(userId: UserId)
      modifies this
      ensures players == Vote(old(players), userId)
      ensures currentRound == old(currentRound) && currentQuestion == old(currentQuestion)
      ensures status == old(status) && roundResults == old(roundResults)
    {
      var index := IndexOf(players, userId);
      if index.Some? {
        players := players[index.value := players[index.value].(wantsRematch := true)];
      }
    }

    predicate AllPlayersWantRematch()
      reads this
    {
      AllWantRematch(players)
    }
  }
}
