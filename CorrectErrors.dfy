/** The error-correction page (`CorrectErrors.jsx`): it takes the questions the user got wrong
    in an exam, lets the user answer each of them once more (with a clear button and free
    navigation), keeps a running clock, and reports a tally when the user finishes. */
module CorrectErrors {
  import opened Options
  import opened JsText
  import opened Quiz

  // ---------------------------------------------------------------------------
  // Which slots of an answers array hold what

  predicate Answered(answers: seq<Option<Answer>>, i: nat) {
    i < |answers| && answers[i].Some?
  }

  predicate RightAt(answers: seq<Option<Answer>>, i: nat) {
    Answered(answers, i) && answers[i].value.isCorrect
  }

  /** `answers[i] && !answers[i].isCorrect`. */
  predicate WrongAt(answers: seq<Option<Answer>>, i: nat) {
    Answered(answers, i) && !answers[i].value.isCorrect
  }

  /** The questions among the first `n` whose answer was wrong, in their original order,
      with the index each had: `questions.filter((_, i) => answers[i] && !answers[i].isCorrect)`. */
  function WrongIndices(answers: seq<Option<Answer>>, n: nat): (r: seq<nat>)
    ensures forall i: nat :: i in r <==> i < n && WrongAt(answers, i)
    ensures forall k :: 0 <= k < |r| ==> r[k] < n
    ensures forall j, k :: 0 <= j < k < |r| ==> r[j] < r[k]
  {
    if n == 0 then []
    else WrongIndices(answers, n - 1) + (if WrongAt(answers, n - 1) then [n - 1] else [])
  }

  function IncorrectQuestions(questions: seq<Question>, answers: seq<Option<Answer>>): (r: seq<Question>)
    ensures var ix := WrongIndices(answers, |questions|);
      |r| == |ix| && forall k :: 0 <= k < |r| ==> ix[k] < |questions| && r[k] == questions[ix[k]]
  {
    if questions == [] then []
    else
      var n := |questions| - 1;
      IncorrectQuestions(questions[..n], answers) + (if WrongAt(answers, n) then [questions[n]] else [])
  }

  /** The questions to correct, from the router state (lines 28-39): none without a state
      or when it lacks answers or questions. */
  function CorrectionSet(state: Option<NavState>): seq<Question> {
    match state
    case Some(s) =>
      if s.answers.Some? && s.questions.Some? then IncorrectQuestions(s.questions.value, s.answers.value)
      else []
    case None => []
  }

  /** `Array(n).fill(null)`. */
  function NoAnswers(n: nat): (r: seq<Option<Answer>>)
    ensures |r| == n && forall i :: 0 <= i < n ==> r[i].None?
  {
    seq(n, _ => None)
  }

  // ---------------------------------------------------------------------------
  // Tallies (lines 97, 136-137)

  /** `answers.filter(a => a?.isCorrect).length`, over the first `n` slots. */
  function CountRight(answers: seq<Option<Answer>>, n: nat): nat {
    if n == 0 then 0 else CountRight(answers, n - 1) + (if RightAt(answers, n - 1) then 1 else 0)
  }

  /** `answers.filter(a => a !== null).length`, over the first `n` slots. */
  function CountAnswered(answers: seq<Option<Answer>>, n: nat): nat {
    if n == 0 then 0 else CountAnswered(answers, n - 1) + (if Answered(answers, n - 1) then 1 else 0)
  }

  /** The tallies on screen: correct <= answered <= questions, and whatever is answered is
      either right or among the wrong ones the correction filter would pick. */
  lemma {:induction false} TallyBounds(answers: seq<Option<Answer>>, n: nat)
    ensures CountRight(answers, n) <= CountAnswered(answers, n) <= n
    ensures CountAnswered(answers, n) == CountRight(answers, n) + |WrongIndices(answers, n)|
  {
    if n > 0 {
      TallyBounds(answers, n - 1);
    }
  }

  /** The record `handleAnswerSelect(i)` stores for question `q`. */
  function NewAnswer(q: Question, i: nat): (a: Answer)
    requires i < |q.options|
    ensures a.selected == i && a.questionId == q.id
    ensures a.isCorrect <==> IsCorrectOption(q, q.options[i])
    ensures -1 <= a.correctOption < |q.options|
    ensures a.correctOption >= 0 <==> q.correctOption.Some? && q.correctOption.value in q.options
    ensures a.isCorrect ==> 0 <= a.correctOption <= i && q.options[a.correctOption] == q.options[i]
    ensures a.correctOption >= 0 ==>
      && Some(q.options[a.correctOption]) == q.correctOption
      && forall j :: 0 <= j < a.correctOption ==> Some(q.options[j]) != q.correctOption
  {
    var k := IndexOf(q.options, q.correctOption);
    assert q.correctOption.Some? && q.correctOption.value in q.options ==> k >= 0 by {
      if q.correctOption.Some? && q.correctOption.value in q.options {
        var j :| 0 <= j < |q.options| && q.options[j] == q.correctOption.value;
        assert Some(q.options[j]) == q.correctOption;
      }
    }
    Answer(q.id, i, IsCorrectOption(q, q.options[i]), k)
  }

  /** The router state `handleFinish` sends to the result page: correct counts the right
      answers, incorrect is every other slot (so unanswered ones count as incorrect), total
      the number of questions. The time goes under the key `time`. */
  function FinishState(answers: seq<Option<Answer>>, questions: seq<Question>, time: nat): NavState {
    var correct := CountRight(answers, |answers|);
    NavState(
      correct := Some(correct),
      incorrect := Some(|answers| - correct),
      total := Some(|questions|),
      unanswered := None,
      timeUsed := None,
      time := Some(time),
      examType := None,
      topic := Some("Corrección de Errores"),
      origin := Some("correccion-errores"),
      answers := Some(answers),
      questions := Some(questions))
  }

  /** The state `handleFinish` evidently means to send: the same, with the time also under
      `timeUsed`, the key the result page reads. */
  function IntendedFinishState(answers: seq<Option<Answer>>, questions: seq<Question>, time: nat): NavState {
    FinishState(answers, questions, time).(timeUsed := Some(time))
  }

  /** The tally sent at finish: correct and incorrect add up to the number of slots; with one
      slot per question, correct + incorrect == total and incorrect is the wrong answers plus
      the unanswered slots. */
  lemma FinishTally(answers: seq<Option<Answer>>, questions: seq<Question>, time: nat)
    requires |answers| == |questions|
    ensures var s := FinishState(answers, questions, time);
      && s.correct.value + s.incorrect.value == s.total.value == |questions|
      && 0 <= s.incorrect.value
      && s.incorrect.value ==
           |WrongIndices(answers, |answers|)| + (|answers| - CountAnswered(answers, |answers|))
  {
    TallyBounds(answers, |answers|);
  }

  // ---------------------------------------------------------------------------
  // Clock and summary

  /** A number printed with at least two digits: `n.toString().padStart(2, '0')`. */
  function TwoDigits(n: nat): string {
    PadStart(NatToString(n), 2, '0')
  }

  lemma NumeralWidth(n: nat)
    ensures n < 10 ==> |NatToString(n)| == 1
    ensures 10 <= n < 100 ==> |NatToString(n)| == 2
  {
    if 10 <= n < 100 {
      assert n / 10 < 10;
    }
  }

  /** The field reads back as `n`, and is exactly two digits wide below 100. */
  lemma TwoDigitsReadBack(n: nat)
    ensures AllDigits(TwoDigits(n)) && |TwoDigits(n)| >= 2 && DecValue(TwoDigits(n)) == n
    ensures n < 100 ==> |TwoDigits(n)| == 2
  {
    PaddedNumeral(NatToString(n), 2);
    NumeralWidth(n);
  }

  /** `formatTime(seconds)`: "HH:MM:SS". */
  function FormatTime(seconds: nat): string {
    TwoDigits(seconds / 3600) + ":" + TwoDigits((seconds % 3600) / 60) + ":" + TwoDigits(seconds % 60)
  }

  /** Reading "h:m:s" back, for two-digit `m` and `s`. */
  predicate ReadsAsClock(r: string, seconds: nat) {
    && |r| >= 8 && r[|r| - 6] == ':' && r[|r| - 3] == ':'
    && AllDigits(r[..|r| - 6]) && AllDigits(r[|r| - 5..|r| - 3]) && AllDigits(r[|r| - 2..])
    && DecValue(r[|r| - 5..|r| - 3]) < 60 && DecValue(r[|r| - 2..]) < 60
    && DecValue(r[..|r| - 6]) * 3600 + DecValue(r[|r| - 5..|r| - 3]) * 60 + DecValue(r[|r| - 2..])
       == seconds
  }

  lemma ClockOfFields(h: string, m: string, s: string, seconds: nat)
    requires |h| >= 2 && |m| == 2 && |s| == 2 && AllDigits(h) && AllDigits(m) && AllDigits(s)
    requires DecValue(m) < 60 && DecValue(s) < 60
    requires DecValue(h) * 3600 + DecValue(m) * 60 + DecValue(s) == seconds
    ensures ReadsAsClock(h + ":" + m + ":" + s, seconds)
  {
    var r := h + ":" + m + ":" + s;
    assert r[..|r| - 6] == h && r[|r| - 5..|r| - 3] == m && r[|r| - 2..] == s;
  }

  /** The clock read back: the three colon-separated fields are numerals that give the
      seconds again, with minutes and seconds below 60 and at least two hour digits. */
  lemma FormatTimeReadBack(seconds: nat)
    ensures ReadsAsClock(FormatTime(seconds), seconds)
  {
    var hrs, mins, secs := seconds / 3600, (seconds % 3600) / 60, seconds % 60;
    ClockFields(seconds);
    TwoDigitsReadBack(hrs);
    TwoDigitsReadBack(mins);
    TwoDigitsReadBack(secs);
    ClockOfFields(TwoDigits(hrs), TwoDigits(mins), TwoDigits(secs), seconds);
  }

  lemma ClockFields(seconds: nat)
    ensures (seconds % 3600) / 60 < 60 && seconds % 60 < 60
    ensures (seconds / 3600) * 3600 + ((seconds % 3600) / 60) * 60 + seconds % 60 == seconds
  {
    var q, r := seconds / 3600, seconds % 3600;
    assert q * 3600 + r == seconds;
    assert (r / 60) * 60 + r % 60 == r;
    assert r % 60 == seconds % 60 by {
      assert seconds == (q * 60) * 60 + r;
    }
  }

  /** The summary entry for slot `i`: "{i+1}{letter}". */
  function SummaryEntry(i: nat, a: Answer): string {
    NatToString(i + 1) + [Letter(a.selected)]
  }

  /** The slots among the first `n` that hold an answer, in increasing order. */
  function AnsweredIndices(answers: seq<Option<Answer>>, n: nat): (r: seq<nat>)
    ensures forall i: nat :: i in r <==> i < n && Answered(answers, i)
    ensures forall k :: 0 <= k < |r| ==> r[k] < n
    ensures forall j, k :: 0 <= j < k < |r| ==> r[j] < r[k]
    ensures |r| == CountAnswered(answers, n)
  {
    if n == 0 then []
    else AnsweredIndices(answers, n - 1) + (if Answered(answers, n - 1) then [n - 1] else [])
  }

  /** `questions.map(...).filter(Boolean)`: one entry per answered slot below `n`, in order. */
  function SummaryEntries(answers: seq<Option<Answer>>, n: nat): (r: seq<string>)
    ensures var ix := AnsweredIndices(answers, n);
      |r| == |ix| && forall k :: 0 <= k < |r| ==> Answered(answers, ix[k]) && r[k] == SummaryEntry(ix[k], answers[ix[k]].value)
  {
    if n == 0 then []
    else
      var front := SummaryEntries(answers, n - 1);
      assert AnsweredIndices(answers, n)
        == AnsweredIndices(answers, n - 1) + (if Answered(answers, n - 1) then [n - 1] else []);
      front + (if Answered(answers, n - 1) then [SummaryEntry(n - 1, answers[n - 1].value)] else [])
  }

  /** `getAnswerSummary()`: the entries joined by ", ". */
  function AnswerSummary(questions: seq<Question>, answers: seq<Option<Answer>>): string {
    Join(SummaryEntries(answers, |questions|), ", ")
  }

  /** The summary lists as many entries as the "TOTAL RESPONDIDAS" tally counts, and is
      empty exactly when nothing is answered. */
  lemma SummaryMatchesTally(questions: seq<Question>, answers: seq<Option<Answer>>)
    requires |answers| == |questions|
    ensures |SummaryEntries(answers, |questions|)| == CountAnswered(answers, |answers|)
    ensures AnswerSummary(questions, answers) == "" <==> CountAnswered(answers, |answers|) == 0
  {
    var e := SummaryEntries(answers, |questions|);
    if |e| > 0 {
      var ix := AnsweredIndices(answers, |questions|);
      assert |e[0]| > 0;
      if |e| > 1 {
        assert Join(e, ", ") == e[0] + ", " + Join(e[1..], ", ");
      }
    }
  }

  // ---------------------------------------------------------------------------
  // The page

  /** A call of `navigate(path, {state})`. */
  datatype Navigation = Navigation(path: string, state: Option<NavState>)

  class Session {
    const questions: seq<Question>
    var answers: seq<Option<Answer>>
    var currentQuestionIndex: nat
    var selectedAnswer: Option<int>
    var showQuestionNumbers: bool
    /** Seconds on the clock. */
    var time: nat
    /** Every `navigate` call made, oldest first. */
    var navigations: seq<Navigation>

    /** One slot per question, and the index shows a question (or is 0 while there is none). */
    ghost predicate Valid()
      reads this
    {
      |answers| == |questions| && (currentQuestionIndex == 0 || currentQuestionIndex < |questions|)
    }

    /** The mount effect: the wrong questions of the exam, none of them answered yet. */
    constructor (state: Option<NavState>)
      ensures Valid()
      ensures questions == CorrectionSet(state) && answers == NoAnswers(|questions|)
      ensures currentQuestionIndex == 0 && selectedAnswer.None? && !showQuestionNumbers
      ensures time == 0 && navigations == []
    {
      questions := CorrectionSet(state);
      answers := NoAnswers(|CorrectionSet(state)|);
      currentQuestionIndex := 0;
      selectedAnswer := None;
      showQuestionNumbers := false;
      time := 0;
      navigations := [];
    }

    /** One tick of the `setInterval` clock. */
    method Tick()
      modifies this`time
      ensures time == old(time) + 1
    {
      time := time + 1;
    }

    /** `handleAnswerSelect(i)`: nothing if the current question is already answered;
        otherwise only its slot is written, and option `i` becomes the selected one. The
        page offers it only while a question is shown, for one of that question's options. */
    method HandleAnswerSelect(i: nat)
      requires Valid() && |questions| > 0 && i < |questions[currentQuestionIndex].options|
      modifies this`answers, this`selectedAnswer
      ensures Valid()
      ensures if old(answers[currentQuestionIndex]).Some? then
          answers == old(answers) && selectedAnswer == old(selectedAnswer)
        else
          && answers == old(answers)[currentQuestionIndex := Some(NewAnswer(questions[currentQuestionIndex], i))]
          && selectedAnswer == Some(i)
    {
      if answers[currentQuestionIndex].Some? {
        return;
      }
      selectedAnswer := Some(i);
      answers := answers[currentQuestionIndex := Some(NewAnswer(questions[currentQuestionIndex], i))];
    }

    /** `clearAnswer`: only the current slot is emptied, and nothing is selected. */
    method ClearAnswer()
      requires Valid() && |questions| > 0
      modifies this`answers, this`selectedAnswer
      ensures Valid()
      ensures answers == old(answers)[currentQuestionIndex := None] && selectedAnswer.None?
    {
      answers := answers[currentQuestionIndex := None];
      selectedAnswer := None;
    }

    /** `goToQuestion(index)`: shows question `index` with its recorded choice selected
        (none if unanswered) and closes the number panel. */
    method GoToQuestion(index: nat)
      requires Valid() && index < |questions|
      modifies this`currentQuestionIndex, this`selectedAnswer, this`showQuestionNumbers
      ensures Valid() && currentQuestionIndex == index && !showQuestionNumbers
      ensures selectedAnswer == match answers[index] case Some(a) => Some(a.selected) case None => None
    {
      currentQuestionIndex := index;
      selectedAnswer := match answers[index] case Some(a) => Some(a.selected) case None => None;
      showQuestionNumbers := false;
    }

    /** `goToNext`: moves on unless at the last question. */
    method GoToNext()
      requires Valid()
      modifies this`currentQuestionIndex, this`selectedAnswer, this`showQuestionNumbers
      ensures Valid()
      ensures if old(currentQuestionIndex) + 1 < |questions| then
          currentQuestionIndex == old(currentQuestionIndex) + 1 && !showQuestionNumbers
          && selectedAnswer == match answers[currentQuestionIndex] case Some(a) => Some(a.selected) case None => None
        else unchanged(this)
    {
      if currentQuestionIndex + 1 < |questions| {
        GoToQuestion(currentQuestionIndex + 1);
      }
    }

    /** `goToPrev`: moves back unless at the first question. */
    method GoToPrev()
      requires Valid()
      modifies this`currentQuestionIndex, this`selectedAnswer, this`showQuestionNumbers
      ensures Valid()
      ensures if old(currentQuestionIndex) > 0 then
          currentQuestionIndex == old(currentQuestionIndex) - 1 && !showQuestionNumbers
          && selectedAnswer == match answers[currentQuestionIndex] case Some(a) => Some(a.selected) case None => None
        else unchanged(this)
    {
      if currentQuestionIndex > 0 {
        GoToQuestion(currentQuestionIndex - 1);
      }
    }

    /** `handleFinish`, `confirmed` being the user's answer to the confirmation dialog:
        when confirmed, navigates to the result page with the tally. */
    method HandleFinish(confirmed: bool)
      modifies this`navigations
      ensures navigations == old(navigations)
        + if confirmed then [Navigation("/resultado", Some(FinishState(answers, questions, time)))] else []
    {
      if confirmed {
        navigations := navigations + [Navigation("/resultado", Some(FinishState(answers, questions, time)))];
      }
    }

    /** `resetExam`, `confirmed` being the user's answer to the confirmation dialog: when
        confirmed, every answer is cleared, the first question is shown with nothing
        selected, and the clock restarts from 0. */
    method ResetExam(confirmed: bool)
      requires Valid()
      modifies this`answers, this`currentQuestionIndex, this`selectedAnswer, this`time
      ensures Valid()
      ensures if confirmed then
          answers == NoAnswers(|questions|) && currentQuestionIndex == 0 && selectedAnswer.None? && time == 0
        else unchanged(this)
    {
      if confirmed {
        answers := NoAnswers(|questions|);
        currentQuestionIndex := 0;
        selectedAnswer := None;
        time := 0;
      }
    }
  }
}
