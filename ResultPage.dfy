/** The result page (`ResultPage.jsx`): from the router state an exam page sends, it shows a
    title, a score, the tallies, the time used, two buttons, and every question with each of
    its options marked as the correct one, the user's choice, or neither. Everything here
    is computed from the read-only state; nothing is updated. */
module ResultPage {
  import opened Options
  import opened JsText
  import opened Quiz
  import CorrectErrors

  // ---------------------------------------------------------------------------
  // Time and score

  /** `formatTime(seconds)`: "00:00:00" when the value is falsy (absent or 0), else the
      "HH:MM:SS" of the correction page. */
  function FormatTime(seconds: Option<nat>): string {
    match seconds
    case None => "00:00:00"
    case Some(s) => if s == 0 then "00:00:00" else CorrectErrors.FormatTime(s)
  }

  /** The falsy shortcut agrees with the general formula: the page always shows the clock
      reading of the seconds it was given, an absent value reading as 0. */
  lemma FormatTimeIsClock(seconds: Option<nat>)
    ensures FormatTime(seconds) == CorrectErrors.FormatTime(seconds.GetOr(0))
    ensures CorrectErrors.ReadsAsClock(FormatTime(seconds), seconds.GetOr(0))
  {
    if seconds.GetOr(0) == 0 {
      ZeroClock();
    }
    CorrectErrors.FormatTimeReadBack(seconds.GetOr(0));
  }

  lemma ZeroClock()
    ensures CorrectErrors.FormatTime(0) == "00:00:00"
  {
    ZeroField();
    assert 0 / 3600 == 0 && (0 % 3600) / 60 == 0 && 0 % 60 == 0;
    assert CorrectErrors.FormatTime(0) == "00" + ":" + "00" + ":" + "00";
  }

  lemma ZeroField()
    ensures CorrectErrors.TwoDigits(0) == "00"
  {
    assert NatToString(0) == "0";
  }

  /** A JavaScript number as far as the score needs one. */
  datatype Number = Finite(value: int) | NaN | Infinity | NegInfinity

  /** `a / d` rounded down, for any non-zero `d`. */
  function FloorDiv(a: int, d: int): (q: int)
    requires d != 0
    ensures d > 0 ==> d * q <= a < d * q + d
    ensures d < 0 ==> d * q >= a > d * q + d
  {
    if d > 0 then a / d else (-a) / (-d)
  }

  /** `Math.round(state.correct / state.total * 100)`, in exact arithmetic: the integer
      nearest to 100·correct/total, halves rounded up. A total of 0 divides by zero; an
      absent tally is `undefined`, and arithmetic on it is `NaN`. */
  function Score(correct: Option<int>, total: Option<int>): (r: Number)
    ensures correct.None? || total.None? ==> r.NaN?
    ensures correct.Some? && total.Some? && total.value == 0 ==>
      (r.NaN? <==> correct.value == 0) && (r.Infinity? <==> correct.value > 0)
      && (r.NegInfinity? <==> correct.value < 0)
    ensures correct.Some? && total.Some? && total.value > 0 ==>
      r.Finite? && 2 * total.value * r.value - total.value <= 200 * correct.value
                < 2 * total.value * r.value + total.value
    ensures correct.Some? && total.Some? && total.value < 0 ==>
      r.Finite? && 2 * total.value * r.value - total.value >= 200 * correct.value
                > 2 * total.value * r.value + total.value
  {
    match (correct, total)
    case (Some(c), Some(t)) =>
      if t == 0 then (if c == 0 then NaN else if c > 0 then Infinity else NegInfinity)
      else Finite(FloorDiv(200 * c + t, 2 * t))
    case _ => NaN
  }

  lemma MulMonotone(d: int, a: int, b: int)
    requires d >= 0 && a <= b
    ensures d * a <= d * b
  {
  }

  /** With at most as many right answers as questions, the score is a percentage. */
  lemma ScoreIsPercentage(correct: nat, total: nat)
    requires 0 < total && correct <= total
    ensures var r := Score(Some(correct), Some(total)); r.Finite? && 0 <= r.value <= 100
    ensures correct == 0 ==> Score(Some(correct), Some(total)) == Finite(0)
    ensures correct == total ==> Score(Some(correct), Some(total)) == Finite(100)
  {
    var d, x := 2 * total, 200 * correct + total;
    var r := Score(Some(correct), Some(total)).value;
    assert r == FloorDiv(x, d);
    assert d * r <= x < d * r + d;
    if r >= 101 {
      MulMonotone(d, 101, r);
      assert false;
    }
    if r <= -1 {
      MulMonotone(d, r, -1);
      assert false;
    }
    if correct == 0 && r >= 1 {
      MulMonotone(d, 1, r);
      assert false;
    }
    if correct == total && r <= 99 {
      MulMonotone(d, r, 99);
      assert false;
    }
  }

  // ---------------------------------------------------------------------------
  // Exam type

  predicate KnownExamType(examType: Option<string>) {
    examType == Some("balotario") || examType == Some("examen-temas") || examType == Some("siecopol")
  }

  /** `getOriginPath()`: the menu the "Volver al Menú" button returns to. */
  function OriginPath(examType: Option<string>): string {
    if examType == Some("balotario") then "/balotario"
    else if examType == Some("examen-temas") then "/examen-temas"
    else if examType == Some("siecopol") then "/siecopol"
    else "/dashboard"
  }

  /** `getExamTitle()`. */
  function ExamTitle(examType: Option<string>): string {
    if examType == Some("siecopol") then "Examen SIECOPOL Finalizado"
    else if examType == Some("examen-temas") then "Examen por Tema Finalizado"
    else if examType == Some("balotario") then "Balotario Finalizado"
    else "Examen Virtual Finalizado"
  }

  /** The two lookups agree on which exam types they know: a known type returns to the path
      of its own name under its own title, every other value to the dashboard under the
      generic title; and no two known types share a path or a title. */
  lemma ExamTypeRouting(examType: Option<string>)
    ensures KnownExamType(examType) ==> OriginPath(examType) == "/" + examType.value
    ensures OriginPath(examType) == "/dashboard" <==> !KnownExamType(examType)
    ensures ExamTitle(examType) == "Examen Virtual Finalizado" <==> !KnownExamType(examType)
  {
    assert "/" + "balotario" == "/balotario";
    assert "/" + "examen-temas" == "/examen-temas";
    assert "/" + "siecopol" == "/siecopol";
  }

  lemma ExamTypesDistinct(a: Option<string>, b: Option<string>)
    requires KnownExamType(a) && KnownExamType(b) && a != b
    ensures OriginPath(a) != OriginPath(b) && ExamTitle(a) != ExamTitle(b)
  {
    ExamTypeRouting(a);
    ExamTypeRouting(b);
  }

  // ---------------------------------------------------------------------------
  // Marking each option

  /** `answer?.selected === i`. */
  predicate Selected(answer: Option<Answer>, i: int) {
    answer.Some? && answer.value.selected == i
  }

  /** The `className` of option `i` of `q`, given the answer recorded for `q`. */
  function OptionClass(q: Question, answer: Option<Answer>, i: nat): string
    requires i < |q.options|
  {
    var base := "alternativas";
    var withCorrect := if IsCorrectOption(q, q.options[i]) then base + " correct-answer" else base;
    if Selected(answer, i) then
      withCorrect + (if answer.value.isCorrect then " user-correct" else " user-incorrect")
    else withCorrect
  }

  /** The CSS classes option `i` should carry after "alternativas", in order: the correct
      option is marked, and the selected one is marked by how the answer was graded. */
  function ClassTokens(q: Question, answer: Option<Answer>, i: nat): seq<string>
    requires i < |q.options|
  {
    (if IsCorrectOption(q, q.options[i]) then ["correct-answer"] else [])
    + (if !Selected(answer, i) then [] else if answer.value.isCorrect then ["user-correct"] else ["user-incorrect"])
  }

  /** " t0 t1 ...": the tokens, each after one space. */
  function Spaced(tokens: seq<string>): string {
    if tokens == [] then "" else " " + tokens[0] + Spaced(tokens[1..])
  }

  /** Splitting a word followed by spaced tokens at the spaces gives the word and the tokens. */
  lemma {:induction false} SplitSpaced(word: string, tokens: seq<string>)
    requires ' ' !in word && forall k :: 0 <= k < |tokens| ==> ' ' !in tokens[k]
    ensures Split(word + Spaced(tokens), ' ') == [word] + tokens
    decreases |tokens|
  {
    if tokens == [] {
      assert word + Spaced(tokens) == word;
      SplitWithoutSeparator(word, ' ');
    } else {
      var head, tail := tokens[0], tokens[1..];
      var rest := head + Spaced(tail);
      assert Spaced(tokens) == " " + head + Spaced(tail);
      assert word + Spaced(tokens) == word + [' '] + rest;
      SplitAtFirst(word, rest, ' ');
      assert forall k :: 0 <= k < |tail| ==> tail[k] == tokens[k + 1];
      SplitSpaced(head, tail);
      assert tokens == [head] + tail;
    }
  }

  lemma SpacedOne(t: string)
    ensures Spaced([t]) == " " + t
  {
    assert [t][1..] == [];
  }

  /** Spacing two lists of tokens in a row is spacing their concatenation. */
  lemma {:induction false} SpacedAppend(a: seq<string>, b: seq<string>)
    ensures Spaced(a + b) == Spaced(a) + Spaced(b)
    decreases |a|
  {
    if a == [] {
      assert a + b == b;
    } else {
      assert (a + b)[0] == a[0] && (a + b)[1..] == a[1..] + b;
      SpacedAppend(a[1..], b);
    }
  }

  /** The class string built from a base class and optional classes, each written after a
      space, is the base followed by the spaced list of the classes present. */
  lemma SpelledClasses(base: string, ca: string, uc: string, ui: string, c: bool, sel: bool, ok: bool)
    ensures var w := if c then base + (" " + ca) else base;
      (if sel then w + (if ok then " " + uc else " " + ui) else w)
      == base + Spaced((if c then [ca] else []) + (if sel then [if ok then uc else ui] else []))
  {
    var first: seq<string> := if c then [ca] else [];
    var second: seq<string> := if sel then [if ok then uc else ui] else [];
    if c {
      SpacedOne(ca);
    }
    if sel {
      SpacedOne(if ok then uc else ui);
    }
    SpacedAppend(first, second);
  }

  /** The class string is "alternativas" followed by its tokens, each after a space. */
  lemma OptionClassSpelling(q: Question, answer: Option<Answer>, i: nat)
    requires i < |q.options|
    ensures OptionClass(q, answer, i) == "alternativas" + Spaced(ClassTokens(q, answer, i))
  {
    assert " correct-answer" == " " + "correct-answer";
    assert " user-correct" == " " + "user-correct";
    assert " user-incorrect" == " " + "user-incorrect";
    SpelledClasses("alternativas", "correct-answer", "user-correct", "user-incorrect",
      IsCorrectOption(q, q.options[i]), Selected(answer, i), Selected(answer, i) && answer.value.isCorrect);
  }

  /** The class attribute, read as the browser reads it (split at spaces), is "alternativas"
      followed by exactly the classes the marking rules call for. */
  lemma OptionClassTokens(q: Question, answer: Option<Answer>, i: nat)
    requires i < |q.options|
    ensures Split(OptionClass(q, answer, i), ' ') == ["alternativas"] + ClassTokens(q, answer, i)
  {
    var ts := ClassTokens(q, answer, i);
    OptionClassSpelling(q, answer, i);
    assert forall k :: 0 <= k < |ts| ==> ts[k] in ["correct-answer", "user-correct", "user-incorrect"];
    assert ' ' !in "alternativas" && ' ' !in "correct-answer" && ' ' !in "user-correct" && ' ' !in "user-incorrect";
    SplitSpaced("alternativas", ts);
  }

  /** Which classes an option carries: "correct-answer" exactly on the correct option;
      "user-correct" / "user-incorrect" exactly on the selected option, by its grading. */
  lemma OptionClassMarks(q: Question, answer: Option<Answer>, i: nat)
    requires i < |q.options|
    ensures var classes := Split(OptionClass(q, answer, i), ' ');
      && classes[0] == "alternativas"
      && ("correct-answer" in classes <==> IsCorrectOption(q, q.options[i]))
      && ("user-correct" in classes <==> Selected(answer, i) && answer.value.isCorrect)
      && ("user-incorrect" in classes <==> Selected(answer, i) && !answer.value.isCorrect)
  {
    OptionClassTokens(q, answer, i);
    ClassTokenMarks(q, answer, i);
  }

  /** The same, on the token list. */
  lemma ClassTokenMarks(q: Question, answer: Option<Answer>, i: nat)
    requires i < |q.options|
    ensures var classes := ["alternativas"] + ClassTokens(q, answer, i);
      && classes[0] == "alternativas"
      && ("correct-answer" in classes <==> IsCorrectOption(q, q.options[i]))
      && ("user-correct" in classes <==> Selected(answer, i) && answer.value.isCorrect)
      && ("user-incorrect" in classes <==> Selected(answer, i) && !answer.value.isCorrect)
  {
    ClassNamesDistinct();
    var first := if IsCorrectOption(q, q.options[i]) then ["correct-answer"] else [];
    var second := if !Selected(answer, i) then [] else if answer.value.isCorrect then ["user-correct"] else ["user-incorrect"];
    assert ClassTokens(q, answer, i) == first + second;
    assert forall x :: x in ["alternativas"] + (first + second) <==> x == "alternativas" || x in first || x in second;
  }

  lemma ClassNamesDistinct()
    ensures "alternativas" != "correct-answer" && "alternativas" != "user-correct"
    ensures "alternativas" != "user-incorrect" && "correct-answer" != "user-correct"
    ensures "correct-answer" != "user-incorrect" && "user-correct" != "user-incorrect"
  {
    var a, c, u, w := "alternativas", "correct-answer", "user-correct", "user-incorrect";
    assert a[0] != c[0] && a[0] != u[0] && a[0] != w[0] && c[0] != u[0] && c[0] != w[0];
    assert |u| != |w|;
  }

  /** The feedback icon beside an option. */
  datatype Icon = Check | Cross | NoIcon

  /** ✓ on a correct selected option, ✗ on a wrong selected one, nothing elsewhere. */
  function FeedbackIcon(q: Question, answer: Option<Answer>, i: nat): Icon
    requires i < |q.options|
  {
    var isCorrect := IsCorrectOption(q, q.options[i]);
    if isCorrect && Selected(answer, i) then Check
    else if !isCorrect && Selected(answer, i) then Cross
    else NoIcon
  }

  /** The icon and the class agree when the answer was graded against this very question
      (as the exam and correction pages record it): ✓ exactly where the class says
      "user-correct", ✗ exactly where it says "user-incorrect", and at most one option of a
      question carries an icon. The icon itself compares the option with the correct one,
      while the class trusts the recorded grade. */
  lemma IconMatchesClass(q: Question, j: nat, i: nat)
    requires j < |q.options| && i < |q.options|
    ensures var answer := Some(CorrectErrors.NewAnswer(q, j));
      var classes := Split(OptionClass(q, answer, i), ' ');
      && (FeedbackIcon(q, answer, i) == Check <==> "user-correct" in classes)
      && (FeedbackIcon(q, answer, i) == Cross <==> "user-incorrect" in classes)
      && (FeedbackIcon(q, answer, i) != NoIcon <==> i == j)
  {
    OptionClassMarks(q, Some(CorrectErrors.NewAnswer(q, j)), i);
  }

  // ---------------------------------------------------------------------------
  // What the page shows

  /** `state.unanswered > 0`: `undefined > 0` is false. */
  predicate ShowsUnanswered(state: NavState) {
    state.unanswered.Some? && state.unanswered.value > 0
  }

  /** `question.tips && ...`: an absent or empty tip shows nothing. */
  predicate ShowsTips(q: Question) {
    q.tips.Some? && q.tips.value != ""
  }

  /** Which questions of the list show a "Sugerencia" box, in order. */
  function TipsShown(questions: seq<Question>): (r: seq<bool>)
    ensures |r| == |questions|
    ensures forall k :: 0 <= k < |questions| ==>
      (r[k] <==> questions[k].tips.Some? && questions[k].tips.value != "")
  {
    seq(|questions|, k requires 0 <= k < |questions| => ShowsTips(questions[k]))
  }

  /** The page for a router state: without one it redirects to "/"; with one it shows the
      headline figures, the targets of its two buttons and, per question of the list, whether
      a tip is shown. `Crash` is a render that throws a TypeError and shows nothing. */
  datatype View =
    | Redirect(path: string)
    | Crash
    | Results(
        title: string,
        score: Number,
        unansweredShown: bool,
        timeShown: string,
        correctErrors: CorrectErrors.Navigation,
        backPath: string,
        tipsShown: seq<bool>)

  /** The render throws when the state has no question list (`state.questions.map`), or has
      questions but no answers (`state.answers[index]` inside the map). */
  predicate RenderThrows(s: NavState) {
    s.questions.None? || (s.questions.value != [] && s.answers.None?)
  }

  function Render(state: Option<NavState>): (v: View)
    ensures state.None? <==> v == Redirect("/")
    ensures state.Some? ==>
      (v.Crash? <==> state.value.questions.None?
                     || (|state.value.questions.value| > 0 && state.value.answers.None?))
    ensures v.Results? ==> state.Some? && state.value.questions.Some?
    ensures v.Results? ==>
      var s := state.value;
      && v.title == ExamTitle(s.examType)
      && v.score == Score(s.correct, s.total)
      && v.unansweredShown == (s.unanswered.Some? && s.unanswered.value > 0)
      && v.timeShown == FormatTime(s.timeUsed)
      && v.correctErrors == CorrectErrors.Navigation("/corregir-errores", state)
      && v.backPath == OriginPath(s.examType)
      && v.tipsShown == TipsShown(s.questions.value)
  {
    match state
    case None => Redirect("/")
    case Some(s) =>
      if RenderThrows(s) then Crash
      else
        Results(
          ExamTitle(s.examType),
          Score(s.correct, s.total),
          ShowsUnanswered(s),
          FormatTime(s.timeUsed),
          CorrectErrors.Navigation("/corregir-errores", Some(s)),
          OriginPath(s.examType),
          TipsShown(s.questions.value))
  }

  /** Two states the render throws on, and one it does not. */
  lemma RenderCrashes(q: Question)
    ensures var bare := NavState(Some(0), Some(1), Some(1), None, None, None, None, None, None, None, None);
      && Render(Some(bare)) == Crash
      && Render(Some(bare.(questions := Some([q])))) == Crash
      && Render(Some(bare.(questions := Some([])))).Results?
  {
  }

  /** The page the correction session finishes on. Its state names no exam type, so the page
      has the generic title and returns to the dashboard; it names no unanswered count; and
      since the time travels under `time` while the page reads `timeUsed`, the time shown is
      "00:00:00" whatever the clock said. The score is the percentage of right answers, and
      correcting again offers exactly the questions still answered wrongly. */
  lemma AfterCorrection(answers: seq<Option<Answer>>, questions: seq<Question>, time: nat)
    requires |answers| == |questions| > 0
    ensures var v := Render(Some(CorrectErrors.FinishState(answers, questions, time)));
      && v.Results?
      && v.title == "Examen Virtual Finalizado" && v.backPath == "/dashboard"
      && !v.unansweredShown
      && v.timeShown == "00:00:00"
      && v.score.Finite? && 0 <= v.score.value <= 100
      && CorrectErrors.CorrectionSet(v.correctErrors.state)
         == CorrectErrors.IncorrectQuestions(questions, answers)
  {
    CorrectErrors.TallyBounds(answers, |answers|);
    ScoreIsPercentage(CorrectErrors.CountRight(answers, |answers|), |questions|);
  }

  /** With the time sent under `timeUsed`, the page shows the session's own clock: the
      HH:MM:SS reading of the seconds counted. */
  lemma CorrectedFinishShowsTime(answers: seq<Option<Answer>>, questions: seq<Question>, time: nat)
    ensures var v := Render(Some(CorrectErrors.IntendedFinishState(answers, questions, time)));
      && v.Results?
      && v.timeShown == CorrectErrors.FormatTime(time)
      && CorrectErrors.ReadsAsClock(v.timeShown, time)
  {
    var s := CorrectErrors.IntendedFinishState(answers, questions, time);
    assert s.timeUsed == Some(time);
    assert Render(Some(s)).timeShown == FormatTime(Some(time));
    FormatTimeIsClock(Some(time));
  }
}
