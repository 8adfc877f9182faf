/** What the audio page says for one question: the lines of narration, who says each
    (the voice role) and the delay before each, in the two modes the page offers. */
module Narration {
  import opened Options
  import opened JsText
  import opened Quiz
  import opened Speech

  /** `audioMode`: 'all' reads every option, 'correct' only the correct one. */
  datatype Mode = All | CorrectOnly

  /** One line of narration, spoken `delayMs` after the previous one (the first at once). */
  datatype Cue = Cue(delayMs: nat, text: string, role: Role)

  /** The `setTimeout` delay between two lines. */
  const GapMs: nat := 3000

  /** "Pregunta número {n}. {text}", n counting from 1. */
  function QuestionLine(q: Question, index: nat): string {
    "Pregunta número " + NatToString(index + 1) + ". " + q.questionText
  }

  /** "{L}. {option}" for the option at position `k`. */
  function OptionLabel(k: int, option: string): string {
    [Letter(k)] + ". " + option
  }

  function OptionLabels(options: seq<string>): (r: seq<string>)
    ensures |r| == |options|
    ensures forall k :: 0 <= k < |options| ==> r[k] == OptionLabel(k, options[k])
  {
    seq(|options|, k requires 0 <= k < |options| => OptionLabel(k, options[k]))
  }

  /** "Alternativas: A. {opt0}. B. {opt1}. ..." */
  function OptionsLine(options: seq<string>): string {
    "Alternativas: " + Join(OptionLabels(options), ". ")
  }

  /** The letter and text of the correct option; the letter comes from the first index of
      `correct_option` among the options (-1, the letter '@', when it is absent). */
  function AnswerLabel(q: Question): string {
    OptionLabel(IndexOf(q.options, q.correctOption), Show(q.correctOption))
  }

  /** The narration `playCurrentQuestion` produces for question `q` at position `index`. */
  function Script(q: Question, index: nat, mode: Mode): (r: seq<Cue>)
    ensures 2 <= |r| <= 3
  {
    [Cue(0, QuestionLine(q, index), Male)] +
    match mode
    case All =>
      [Cue(GapMs, OptionsLine(q.options), Female),
       Cue(GapMs, "Respuesta correcta: " + AnswerLabel(q), Female)]
    case CorrectOnly =>
      [Cue(GapMs, "Alternativa correcta: " + AnswerLabel(q), Female)]
  }

  /** The shape of a script: mode 'all' gives three lines and 'correct' two; the question is
      read at once by the male voice, and every later line comes 3000 ms after the previous
      one and is read by the female voice. Both modes open with the same line and close
      with the same answer label. */
  lemma ScriptShape(q: Question, index: nat, mode: Mode)
    ensures var r := Script(q, index, mode);
      && |r| == (if mode == All then 3 else 2)
      && r[0] == Cue(0, QuestionLine(q, index), Male)
      && (forall k :: 1 <= k < |r| ==> r[k].delayMs == GapMs && r[k].role == Female)
      && r[|r| - 1].text ==
           (if mode == All then "Respuesta correcta: " else "Alternativa correcta: ") + AnswerLabel(q)
      && (mode == All ==> r[1].text == OptionsLine(q.options))
  {
  }

  /** When the correct option is among the options, the answer line names it with the very
      label the options line gives it. */
  lemma AnswerMatchesOptionsLine(q: Question)
    requires q.correctOption.Some? && q.correctOption.value in q.options
    ensures var k := IndexOf(q.options, q.correctOption);
      && 0 <= k < |q.options|
      && q.options[k] == q.correctOption.value
      && AnswerLabel(q) == OptionLabels(q.options)[k]
  {
    var c := q.correctOption.value;
    var i :| 0 <= i < |q.options| && q.options[i] == c;
    assert Some(q.options[i]) == q.correctOption;
  }

  /** When the correct option is missing, or is not among the options, its letter is '@'. */
  lemma AbsentAnswerLetter(q: Question)
    requires q.correctOption.None? || q.correctOption.value !in q.options
    ensures AnswerLabel(q) == "@. " + Show(q.correctOption)
  {
    assert Letter(-1) == '@';
  }

  /** Option letters run A, B, C, ... and distinct options get distinct letters. */
  lemma LettersInOrder(j: nat, k: nat)
    requires j < k < 26
    ensures 'A' <= Letter(j) < Letter(k) <= 'Z'
  {
  }

  /** A question with the three options "a", "b" and "c", of which "b" is correct. */
  function ExampleQuestion(): Question {
    Question("q1", "Q1", ["a", "b", "c"], Some("b"), None)
  }

  /** The narration of a three-option question in both modes. */
  lemma ThreeOptionExample()
    ensures var q := ExampleQuestion();
      && Script(q, 0, All) ==
           [Cue(0, "Pregunta número 1. Q1", Male),
            Cue(3000, "Alternativas: A. a. B. b. C. c", Female),
            Cue(3000, "Respuesta correcta: B. b", Female)]
      && Script(q, 0, CorrectOnly) ==
           [Cue(0, "Pregunta número 1. Q1", Male),
            Cue(3000, "Alternativa correcta: B. b", Female)]
  {
    ExampleQuestionLine();
    ExampleOptionsLine();
    ExampleAnswerLabel();
    assert "Respuesta correcta: " + "B. b" == "Respuesta correcta: B. b";
    assert "Alternativa correcta: " + "B. b" == "Alternativa correcta: B. b";
  }

  lemma ExampleQuestionLine()
    ensures QuestionLine(ExampleQuestion(), 0) == "Pregunta número 1. Q1"
  {
    assert NatToString(1) == "1";
  }

  lemma ExampleOptionsLine()
    ensures OptionsLine(ExampleQuestion().options) == "Alternativas: A. a. B. b. C. c"
  {
    var labels := OptionLabels(["a", "b", "c"]);
    ExampleLabels();
    assert Join(["C. c"], ". ") == "C. c";
    assert Join(["B. b", "C. c"], ". ") == "B. b" + ". " + Join(["C. c"], ". ") == "B. b. C. c";
    assert Join(labels, ". ") == "A. a" + ". " + Join(["B. b", "C. c"], ". ") == "A. a. B. b. C. c";
  }

  lemma ExampleLabels()
    ensures OptionLabels(["a", "b", "c"]) == ["A. a", "B. b", "C. c"]
  {
    var labels := OptionLabels(["a", "b", "c"]);
    assert Letter(0) == 'A' && Letter(1) == 'B' && Letter(2) == 'C';
    assert labels[0] == OptionLabel(0, "a") == "A. a";
    assert labels[1] == OptionLabel(1, "b") == "B. b";
    assert labels[2] == OptionLabel(2, "c") == "C. c";
  }

  lemma ExampleAnswerLabel()
    ensures AnswerLabel(ExampleQuestion()) == "B. b"
  {
    var q := ExampleQuestion();
    assert IndexOf(q.options, q.correctOption) == 1;
    assert Letter(1) == 'B';
  }
}
