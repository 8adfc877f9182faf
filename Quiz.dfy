/** The data the exam pages share: a question as the API delivers it, an answer as the exam
    pages record it, and the state object the router carries from one page to the next. */
module Quiz {
  import opened Options
  import opened JsText

  /** `{_id, question_text, options, correct_option, tips}`; the last two may be absent. */
  datatype Question = Question(
    id: string,
    questionText: string,
    options: seq<string>,
    correctOption: Option<string>,
    tips: Option<string>)

  /** `{questionId, selected, isCorrect, correctOption}`: `selected` is the index of the chosen
      option and `correctOption` the index of the correct one (-1 when it is not among them). */
  datatype Answer = Answer(questionId: string, selected: int, isCorrect: bool, correctOption: int)

  /** The router's `state` object; a key the sender did not set is `None`. */
  datatype NavState = NavState(
    correct: Option<int>,
    incorrect: Option<int>,
    total: Option<int>,
    unanswered: Option<int>,
    timeUsed: Option<nat>,
    time: Option<nat>,
    examType: Option<string>,
    topic: Option<string>,
    origin: Option<string>,
    answers: Option<seq<Option<Answer>>>,
    questions: Option<seq<Question>>)

  /** `option === question.correct_option`. */
  predicate IsCorrectOption(q: Question, option: string) {
    q.correctOption == Some(option)
  }

  /** `options.indexOf(target)`: the first index holding `target`, or -1. */
  function IndexOf(options: seq<string>, target: Option<string>): (r: int)
    ensures -1 <= r < |options|
    ensures r >= 0 ==> Some(options[r]) == target
    ensures forall j :: 0 <= j < |options| && (r < 0 || j < r) ==> Some(options[j]) != target
  {
    if options == [] then -1
    else if Some(options[0]) == target then 0
    else
      var k := IndexOf(options[1..], target);
      if k < 0 then -1 else k + 1
  }

  /** The letter shown beside option `k`: `String.fromCharCode(65 + k)`. */
  function Letter(k: int): (c: char)
    ensures -65 <= k < 0xD800 - 65 ==> c as int == 65 + k
  {
    FromCharCode(65 + k)
  }

  /** A string interpolated into a template literal: `undefined` prints as "undefined". */
  function Show(x: Option<string>): string {
    match x
    case Some(s) => s
    case None => "undefined"
  }
}
