/** The game's state and its transitions: advancing to the next question,
    scoring a choice, and ending the game. */
module Session {
  import opened Outcomes
  import opened Randomness
  import opened Text
  import opened Catalog
  import opened Questions

  /** The most questions a game shows (`totalQuestions`). */
  const TotalQuestions: nat := 512

  /** The game ends once this many distinct answers have been tallied. */
  const AnswersToEnd: nat := 10

  /** The two counts the end-of-game summary shows. */
  datatype Score = Score(correct: nat, incorrect: nat)

  /** The script's global state. */
  datatype Game = Game(
    pool: seq<Country>,          // countries
    questionNumber: nat,         // currentQuestionNumber
    current: Option<Question>,   // currentQuestionData
    correct: set<string>,        // correctAnswers
    incorrect: set<string>,      // incorrectAnswers
    ended: bool,                 // gameEnded
    shownScore: Option<Score>)   // the summary endGame displays

  /** The number of distinct answers tallied so far. */
  function Tally(g: Game): nat {
    |g.correct| + |g.incorrect|
  }

  /** The state when the script has loaded: no pool yet, no question, empty
      tallies, game not ended. */
  function Loaded(): Game {
    Game([], 0, None, {}, {}, false, None)
  }

  /** What every reachable state satisfies: the tally never passes ten and
      is below ten while the game runs, the question counter never passes
      512, and the summary is shown exactly once the game has ended, with
      the current set sizes. */
  predicate Inv(g: Game) {
    && Tally(g) <= AnswersToEnd
    && (!g.ended ==> Tally(g) < AnswersToEnd)
    && g.questionNumber <= TotalQuestions
    && (g.ended <==> g.shownScore.Some?)
    && (g.ended ==> g.shownScore == Some(Score(|g.correct|, |g.incorrect|)))
  }

  /** A click can be scored: either the game has ended (the click is then
      ignored) or a question is on screen. The answer buttons only get a
      click listener once a question has been shown. */
  predicate Answerable(g: Game) {
    g.ended || g.current.Some?
  }

  /** Everything but the end flag and the summary stays as it was. */
  predicate SameProgress(a: Game, b: Game) {
    a.pool == b.pool && a.questionNumber == b.questionNumber && a.current == b.current
    && a.correct == b.correct && a.incorrect == b.incorrect
  }

  /** `endGame`: a no-op on an ended game; otherwise it shows the two set
      sizes and marks the game ended. */
  function EndGame(g: Game): (r: Game)
    ensures r.ended && SameProgress(r, g)
    ensures g.ended ==> r == g
    ensures !g.ended ==> r.shownScore == Some(Score(|g.correct|, |g.incorrect|))
  {
    if g.ended then g else g.(ended := true, shownScore := Some(Score(|g.correct|, |g.incorrect|)))
  }

  /** Ending an ended game changes nothing. */
  lemma EndGameIdempotent(g: Game)
    ensures EndGame(EndGame(g)) == EndGame(g)
  {
  }

  /** `nextQuestion`: below 512 questions it shows a fresh random question
      and counts it, otherwise it ends the game. It does not look at the
      end flag: after the game has ended it still shows new questions. */
  function NextQuestion(g: Game, rs: Stream): (r: Result<Drawn<Game>>)
    requires Valid(rs)
    ensures g.questionNumber >= TotalQuestions ==> r == Ok(Drawn(EndGame(g), rs))
    ensures g.questionNumber < TotalQuestions && r.Ok? ==>
      && r.value.got.questionNumber == g.questionNumber + 1
      && r.value.got.current.Some?
      && WellFormedQuestion(r.value.got.current.value)
      && (exists k :: 0 <= k < |g.pool| &&
            Describes(r.value.got.current.value, g.pool[k], r.value.got.current.value.kind))
      && r.value.got.ended == g.ended && r.value.got.shownScore == g.shownScore
    ensures r.Ok? ==> r.value.got.pool == g.pool
    ensures r.Ok? ==> r.value.got.correct == g.correct && r.value.got.incorrect == g.incorrect
    ensures r.Ok? ==> SuffixOf(r.value.rest, rs)
  {
    if g.questionNumber < TotalQuestions then
      match RandomQuestion(g.pool, rs)
      case Err(e) => Err(e)
      case Ok(Drawn(q, rest)) =>
        Ok(Drawn(g.(current := Some(q), questionNumber := g.questionNumber + 1), rest))
    else
      Ok(Drawn(EndGame(g), rs))
  }

  /** The result of scoring a click: the new state, and whether a later
      `nextQuestion` was scheduled. */
  datatype Answered = Answered(game: Game, nextScheduled: bool)

  /** `checkAnswer`: ignored once the game has ended. Otherwise the choice
      and the correct answer are compared after lower-casing, the correct
      answer (not the chosen text) goes into exactly one of the two sets,
      the game ends when the two sets together hold ten answers, and the
      next question is scheduled either way. */
  function CheckAnswer(g: Game, choice: string): (a: Answered)
    requires Answerable(g)
    ensures g.ended ==> a == Answered(g, false)
    ensures !g.ended ==> a.nextScheduled
    ensures !g.ended ==>
      var answer := g.current.value.correctAnswer;
      && (SameIgnoringCase(choice, answer) ==>
            a.game.correct == g.correct + {answer} && a.game.incorrect == g.incorrect)
      && (!SameIgnoringCase(choice, answer) ==>
            a.game.incorrect == g.incorrect + {answer} && a.game.correct == g.correct)
    ensures Tally(g) <= Tally(a.game) <= Tally(g) + 1
    ensures !g.ended ==> (a.game.ended <==> Tally(a.game) == AnswersToEnd)
    ensures a.game.pool == g.pool && a.game.questionNumber == g.questionNumber && a.game.current == g.current
    ensures !a.game.ended ==> a.game.shownScore == g.shownScore
    ensures !g.ended && a.game.ended ==> a.game.shownScore == Some(Score(|a.game.correct|, |a.game.incorrect|))
  {
    if g.ended then Answered(g, false)
    else
      var answer := g.current.value.correctAnswer;
      var scored :=
        if SameIgnoringCase(choice, answer) then g.(correct := g.correct + {answer})
        else g.(incorrect := g.incorrect + {answer});
      InsertAtMostOne(g.correct, answer);
      InsertAtMostOne(g.incorrect, answer);
      var after := if Tally(scored) == AnswersToEnd then EndGame(scored) else scored;
      Answered(after, true)
  }

  /** Adding one element grows a set by at most one. */
  lemma InsertAtMostOne(s: set<string>, x: string)
    ensures |s| <= |s + {x}| <= |s| + 1
  {
    if x in s {
      assert s + {x} == s;
    }
  }

  /** A click followed by the `nextQuestion` it scheduled, if any. The
      scheduled call runs even when the click has just ended the game. */
  function Round(g: Game, choice: string, rs: Stream): (r: Result<Drawn<Game>>)
    requires Valid(rs) && Answerable(g)
    ensures g.ended ==> r == Ok(Drawn(g, rs))
    ensures r.Ok? ==> Answerable(r.value.got) && SuffixOf(r.value.rest, rs)
    ensures r.Ok? ==> r.value.got.pool == g.pool
    ensures r.Ok? ==> g.correct <= r.value.got.correct && g.incorrect <= r.value.got.incorrect
    ensures r.Ok? ==> Tally(r.value.got) <= Tally(g) + 1
    ensures r.Ok? && Inv(g) ==> Inv(r.value.got)
  {
    var a := CheckAnswer(g, choice);
    if !a.nextScheduled then Ok(Drawn(a.game, rs))
    else
      var r := NextQuestion(a.game, rs);
      assert r.Ok? && a.game.questionNumber >= TotalQuestions ==> r.value.got.ended;
      r
  }

  /** A sequence of clicks, each followed by its scheduled `nextQuestion`.
      Over any run the invariant holds, the tallies only grow, by at most
      one per click, and after the game has ended they no longer change. */
  function Play(g: Game, choices: seq<string>, rs: Stream): (r: Result<Drawn<Game>>)
    requires Valid(rs) && Answerable(g)
    ensures r.Ok? ==> Answerable(r.value.got) && r.value.got.pool == g.pool
    ensures r.Ok? && Inv(g) ==> Inv(r.value.got)
    ensures r.Ok? ==> g.correct <= r.value.got.correct && g.incorrect <= r.value.got.incorrect
    ensures r.Ok? ==> Tally(r.value.got) <= Tally(g) + |choices|
    ensures r.Ok? && g.ended ==> r.value.got.correct == g.correct && r.value.got.incorrect == g.incorrect
    decreases |choices|
  {
    if |choices| == 0 then Ok(Drawn(g, rs))
    else
      match Round(g, choices[0], rs)
      case Err(e) => Err(e)
      case Ok(Drawn(next, rest)) =>
        ValidSuffix(rest, rs);
        Play(next, choices[1..], rest)
  }

  /** `startNewGame`: reset the question counter and the current question,
      build the pool from the fetched records and show the first question.
      The tallies and the end flag are not reset. With no qualifying record
      the first question reads a field of `undefined` and throws. */
  function StartNewGame(g: Game, data: seq<RawCountry>, rs: Stream): (r: Result<Drawn<Game>>)
    requires Valid(rs)
    ensures |rs| >= 2 && (forall x :: x in data ==> !Admissible(x)) ==> r == Err(EmptyPool)
    ensures r.Ok? ==>
      && r.value.got.pool == BuildPool(data)
      && r.value.got.questionNumber == 1
      && r.value.got.current.Some? && WellFormedQuestion(r.value.got.current.value)
      && r.value.got.correct == g.correct && r.value.got.incorrect == g.incorrect
      && r.value.got.ended == g.ended && r.value.got.shownScore == g.shownScore
    ensures r.Ok? && Inv(g) ==> Inv(r.value.got)
    ensures r.Ok? ==> Answerable(r.value.got)
  {
    EmptyPoolIff(data);
    NextQuestion(g.(pool := BuildPool(data), questionNumber := 0, current := None), rs)
  }

  /** The first question after loading comes from a state that satisfies
      the invariant. */
  lemma LoadedStartKeepsInv(data: seq<RawCountry>, rs: Stream)
    requires Valid(rs)
    ensures StartNewGame(Loaded(), data, rs).Ok? ==> Inv(StartNewGame(Loaded(), data, rs).value.got)
  {
  }

  /** Scoring the same choice twice leaves the tallies as one scoring left
      them: set insertion absorbs the repetition. */
  lemma RepeatedAnswerKeepsTallies(g: Game, choice: string)
    requires Answerable(g)
    ensures Answerable(CheckAnswer(g, choice).game)
    ensures CheckAnswer(CheckAnswer(g, choice).game, choice).game.correct == CheckAnswer(g, choice).game.correct
    ensures CheckAnswer(CheckAnswer(g, choice).game, choice).game.incorrect == CheckAnswer(g, choice).game.incorrect
  {
  }

  /** Once ended, any number of further clicks leaves the tallies and the
      summary as they are. */
  lemma {:induction false} EndedIsFinal(g: Game, choices: seq<string>, rs: Stream)
    requires Valid(rs) && g.ended
    ensures Play(g, choices, rs) == Ok(Drawn(g, rs))
    decreases |choices|
  {
    if |choices| > 0 {
      EndedIsFinal(g, choices[1..], rs);
    }
  }

  /** The click that brings the tally to ten ends the game, and the
      `nextQuestion` it scheduled still shows a new question and counts it. */
  lemma EndingClickStillAdvances(g: Game, choice: string, rs: Stream)
    requires Valid(rs) && Answerable(g) && !g.ended
    requires g.questionNumber < TotalQuestions
    ensures CheckAnswer(g, choice).game.ended && Round(g, choice, rs).Ok? ==>
      && Round(g, choice, rs).value.got.ended
      && Round(g, choice, rs).value.got.questionNumber == g.questionNumber + 1
  {
  }

  /** At 512 questions `nextQuestion` ends the game even though fewer than
      ten answers may have been tallied. */
  lemma LastQuestionEndsGame(g: Game, rs: Stream)
    requires Valid(rs) && Inv(g) && g.questionNumber == TotalQuestions
    ensures NextQuestion(g, rs).Ok? && NextQuestion(g, rs).value.got.ended
    ensures NextQuestion(g, rs).value.got.shownScore == Some(Score(|g.correct|, |g.incorrect|))
  {
  }

  /** Answering "oslo" counts as correct against "Oslo". */
  lemma CaseInsensitiveMatch()
    ensures SameIgnoringCase("oslo", "Oslo")
  {
    assert ToLower("oslo") == "oslo";
    assert ToLower("Oslo") == "oslo";
  }

  /** Clicking the option that is the correct answer always scores as
      correct, whatever its letter case. */
  lemma CorrectOptionScoresCorrect(g: Game)
    requires g.current.Some? && !g.ended
    ensures CheckAnswer(g, g.current.value.correctAnswer).game.correct == g.correct + {g.current.value.correctAnswer}
    ensures CheckAnswer(g, g.current.value.correctAnswer).game.incorrect == g.incorrect
  {
  }

  /** The state `startNewGame` leaves before drawing, on the example pool. */
  function ExampleStart(): Game {
    Loaded().(pool := ExamplePool())
  }

  /** The example's first question is shown and counted. */
  function ExampleFirst(): Game {
    ExampleStart().(questionNumber := 1, current := Some(CanadaQuestion()))
  }

  lemma ExampleFirstQuestion()
    ensures NextQuestion(ExampleStart(), ExampleStream()) == Ok(Drawn(ExampleFirst(), []))
  {
    CanadaQuestionDrawn();
  }

  /** Clicking "Ottawa" scores correct; the scheduled `nextQuestion` asks
      the same question again. */
  lemma ExampleCorrectClick()
    ensures Round(ExampleFirst(), "Ottawa", ExampleStream())
      == Ok(Drawn(ExampleFirst().(questionNumber := 2, correct := {"Ottawa"}), []))
  {
    var scored := ExampleFirst().(correct := {"Ottawa"});
    CorrectOptionScoresCorrect(ExampleFirst());
    assert Tally(scored) == 1;
    assert CheckAnswer(ExampleFirst(), "Ottawa") == Answered(scored, true);
    CanadaQuestionDrawn();
    assert NextQuestion(scored, ExampleStream())
      == Ok(Drawn(scored.(current := Some(CanadaQuestion()), questionNumber := 2), []));
  }

  /** Clicking "Lima" on the repeated question scores it incorrect. */
  lemma ExampleWrongClick()
    ensures
      var g2 := ExampleFirst().(questionNumber := 2, correct := {"Ottawa"});
      CheckAnswer(g2, "Lima").game.correct == {"Ottawa"} && CheckAnswer(g2, "Lima").game.incorrect == {"Ottawa"}
  {
    assert ToLower("Lima")[0] == 'l' && ToLower("Ottawa")[0] == 'o';
  }

  /** The same correct answer can sit in both sets. On the example pool the
      first question asks for Canada's capital; clicking "Ottawa" scores it
      correct, the scheduled `nextQuestion` draws the same question again,
      and clicking "Lima" then scores it incorrect, so the repeated question
      counts a second time. */
  lemma AnswerInBothSets()
    ensures
      var g1 := ExampleFirst();
      var g2 := g1.(questionNumber := 2, correct := {"Ottawa"});
      && NextQuestion(ExampleStart(), ExampleStream()) == Ok(Drawn(g1, []))
      && Round(g1, "Ottawa", ExampleStream()) == Ok(Drawn(g2, []))
      && "Ottawa" in CheckAnswer(g2, "Lima").game.correct
      && "Ottawa" in CheckAnswer(g2, "Lima").game.incorrect
      && Tally(CheckAnswer(g2, "Lima").game) == Tally(g2) + 1
  {
    ExampleFirstQuestion();
    ExampleCorrectClick();
    ExampleWrongClick();
  }
}
