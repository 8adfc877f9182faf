# Estudio Estratégico Policial — a Dafny model of its exam and audio logic

This project models the four pieces of sequential logic in a police-promotion study
application. It states and proves what that logic does.

- **The audio page** (`AudioPage.jsx`) reads a topic's questions aloud through the
  browser's speech engine.
  - Voice choice: the first voice in list order that suits the speaker role.
  - The script of one question: in mode 'all', the question (male voice), then the options
    and then the answer (female voice), 3000 ms apart. In mode 'correct', only the question
    and the answer.
  - The transport handlers: play, stop, next, previous and mode change. They keep the
    question index within the list and never leave more than one utterance live in the
    engine.
  - React gives each handler the values of its own render. So a handler narrates from the
    index and mode the page had before its update. The model does the same: PLAY with start
    number s narrates the question shown before, not question s.
  - Pending `setTimeout` callbacks are a list of timers. Stopping does not clear them.
- **The correction page** (`CorrectErrors.jsx`) is a session over an `answers` array.
  - It keeps the questions of an exam that were answered wrongly.
  - It records each new answer once; an answer can be cleared.
  - Navigation stays within bounds. Reset clears the answers, the position, the selection and
    the clock.
  - On finish it sends the tallies to the result page.
  - It has a running clock, an `HH:MM:SS` formatter and an answer summary.
- **The result page** (`ResultPage.jsx`) computes:
  - the time line and the rounded percentage score;
  - the menu path and title for each exam type;
  - the CSS classes and feedback icon of every option.
- **The user model** (`User.js`) normalises the name and mail. Its pre-save hook gives a new
  user the next id of the form `usuario_NNNN`.

The JavaScript built-ins the code relies on are modelled in `JsText`:

- `parseInt` (white space, sign, `0x`, longest digit prefix, `NaN`);
- `toString` and `padStart`;
- `join` and `split`;
- `includes`;
- `trim` and `toLowerCase`;
- `String.fromCharCode`;
- MongoDB's default string order, by code point (the order of the UTF-8 bytes), which the
  `sort: {_id: -1}` of the user query uses.

One inconsistency between the pages is modelled as written. The correction page sends its
time under the key `time`, but the result page reads `timeUsed`. A finished correction
session therefore shows `00:00:00` (`ResultPage.AfterCorrection`); see "## Findings".

Modules: `Options`, `JsText`, `Quiz` (the shared question/answer/router-state data),
`Speech`, `Narration`, `Audio`, `CorrectErrors`, `ResultPage`, `UserModel`.

## Model

| member | source | states |
|---|---|---|
| JsText.ParseInt | frontend/src/pages/Audio/AudioPage.jsx:222 | `parseInt` with no radix: skips leading white space, reads a sign and a `0x` prefix, and returns `NaN` (None) exactly when no digit follows |
| JsText.ParseIntOfIntToString | backend/models/User.js:29-30 | `parseInt(n.toString())` gives back every integer n |
| JsText.NatToString | backend/models/User.js:30 | `toString` of a natural is a non-empty numeral with no leading zero, whose value is n |
| JsText.PadStart | backend/models/User.js:30 | `padStart` keeps the whole string as a suffix, never truncates, and fills the front to the width |
| JsText.PaddedNumeral | frontend/src/pages/Result/CorrectErrors.jsx:143 | a numeral padded with '0' is still a numeral, of the same value |
| JsText.NumeralFits | backend/models/User.js:30 | below 10^k a numeral has at most k digits |
| JsText.SameWidthOrder | backend/models/User.js:27 | numerals of equal width compare as strings exactly as their values compare |
| JsText.LexCommonPrefix | backend/models/User.js:27 | a shared prefix does not change the string order |
| JsText.LexTotal | backend/models/User.js:27 | the string order is total on distinct strings |
| JsText.LexTransitive | backend/models/User.js:27 | the string order is transitive |
| JsText.LexAsymmetric | backend/models/User.js:27 | the string order is asymmetric |
| JsText.SplitAtFirst | backend/models/User.js:29 | `split` at a separator yields the text before the first separator, then the rest split |
| JsText.SplitWithoutSeparator | backend/models/User.js:29 | a string without the separator splits into itself alone |
| JsText.TrimStart | backend/models/User.js:4-15 | removes exactly the leading white space |
| JsText.TrimEnd | backend/models/User.js:4-15 | removes exactly the trailing white space |
| JsText.ToLower | backend/models/User.js:14 | lower-cases each character in place, keeping the length |
| JsText.TrimEmptyIffBlank | backend/models/User.js:4-15 | trimming leaves nothing exactly when the string is white space only |
| JsText.TrimIdempotent | backend/models/User.js:7 | trimming twice is trimming once |
| JsText.FromCharCode | frontend/src/pages/Audio/AudioPage.jsx:98 | `String.fromCharCode` gives the code unit itself below the surrogate range |
| Quiz.IndexOf | frontend/src/pages/Audio/AudioPage.jsx:102 | `indexOf`: the first index holding the value, or -1 when none does |
| Quiz.Letter | frontend/src/pages/Audio/AudioPage.jsx:98 | the letter of option k is the character with code 65+k |
| Speech.FirstSuitable | frontend/src/pages/Audio/AudioPage.jsx:66-73 | the first position whose voice suits the role; no earlier voice suits it; -1 when none does |
| Speech.Suits | frontend/src/pages/Audio/AudioPage.jsx:66-73 | male: a name containing 'Male' or a language containing 'es-MX' or 'es-ES'; female: 'Female' or 'es-US'. `FirstSuitable` and `SelectVoice` state that the chosen voice is the first one for which it holds |
| Speech.SelectVoice | frontend/src/pages/Audio/AudioPage.jsx:66-77 | no voice exactly when no voice in the list suits the role; otherwise the FIRST listed voice that suits it (no earlier voice suits) |
| Speech.SpeechEngine.Cancel | frontend/src/pages/Audio/AudioPage.jsx:61 | `cancel()` empties the engine and logs the call |
| Speech.SpeechEngine.Speak | frontend/src/pages/Audio/AudioPage.jsx:83 | `speak(u)` queues u behind what is live and logs the call |
| Narration.Script | frontend/src/pages/Audio/AudioPage.jsx:86-113 | two or three timed lines per question |
| Narration.QuestionLine | frontend/src/pages/Audio/AudioPage.jsx:92 | "Pregunta número {index+1}. {text}": `ScriptShape` states it is the first, male line, and `ExampleQuestionLine` gives its exact text for a sample question |
| Narration.OptionsLine | frontend/src/pages/Audio/AudioPage.jsx:97-98 | "Alternativas: " and the options as "{letter}. {option}", joined by ". ": `LettersInOrder` states the letters run A, B, C, … and `ExampleOptionsLine` gives an exact text |
| Narration.AnswerLabel | frontend/src/pages/Audio/AudioPage.jsx:102-103 | the letter at `indexOf` of the correct option, then its text: `AnswerMatchesOptionsLine` states it repeats the options line's label for that option, `AbsentAnswerLetter` the '@' case |
| Narration.ScriptShape | frontend/src/pages/Audio/AudioPage.jsx:92-112 | 'all' gives three lines and 'correct' two; the male question line comes at 0 ms, then female lines 3000 ms apart; the last line is the answer, in each mode's wording |
| Narration.AnswerMatchesOptionsLine | frontend/src/pages/Audio/AudioPage.jsx:97-103 | when the correct option is listed, the answer line's label is the label the options line gives that option (first occurrence) |
| Narration.AbsentAnswerLetter | frontend/src/pages/Audio/AudioPage.jsx:102-103 | an absent or unlisted correct option is read with the letter '@' |
| Narration.LettersInOrder | frontend/src/pages/Audio/AudioPage.jsx:97-98 | options get the letters A, B, C, … in order, distinct options distinct letters |
| Narration.ThreeOptionExample | frontend/src/pages/Audio/AudioPage.jsx:92-112 | the exact texts and delays for a three-option question in both modes |
| Audio.StartNumber | frontend/src/pages/Audio/AudioPage.jsx:222 | the start input stores `parseInt(v)`, or 1 when that is NaN or 0; never 0 |
| Audio.StartNumberOfNumeral | frontend/src/pages/Audio/AudioPage.jsx:222 | typing the numeral of n stores n, or 1 for n = 0 |
| Audio.IndexAfterPlay | frontend/src/pages/Audio/AudioPage.jsx:115-122 | a start number outside 1..length keeps the index; otherwise it becomes s-1, in range |
| Audio.IndexAfterNext | frontend/src/pages/Audio/AudioPage.jsx:133-145 | NEXT increments exactly when the index is below length-1, and stays in range |
| Audio.IndexAfterPrev | frontend/src/pages/Audio/AudioPage.jsx:147-157 | PREVIOUS gives index − 1 when the index is above 0, and leaves 0 at 0 |
| Audio.NavigationStaysInRange | frontend/src/pages/Audio/AudioPage.jsx:115-157 | any run of PLAY, NEXT and PREVIOUS keeps the index in [0, length) |
| Audio.AudioPage.Speak | frontend/src/pages/Audio/AudioPage.jsx:57-84 | no-op without an engine; otherwise cancel, then exactly one utterance ('es-ES', rate 0.9, pitch 1.0, the selected voice), so at most one is live |
| Audio.AudioPage.PlayQuestion | frontend/src/pages/Audio/AudioPage.jsx:86-113 | nothing past the end of the list; otherwise the question line is spoken now and one timer is armed for the rest of the script |
| Audio.AudioPage.SetStartInput | frontend/src/pages/Audio/AudioPage.jsx:222 | stores the start number of the typed value |
| Audio.AudioPage.HandlePlay | frontend/src/pages/Audio/AudioPage.jsx:115-124 | out-of-range start: no change, nothing said; otherwise index s-1, playing, and the question shown before is narrated |
| Audio.AudioPage.HandleStop | frontend/src/pages/Audio/AudioPage.jsx:126-131 | cancels the live utterance, stops playing, and leaves the armed timers armed |
| Audio.AudioPage.HandleNext | frontend/src/pages/Audio/AudioPage.jsx:133-145 | moves on before the last question, narrating the question being left if playing; at the last it stops |
| Audio.AudioPage.HandlePrev | frontend/src/pages/Audio/AudioPage.jsx:147-157 | moves back after the first question, narrating the question being left if playing |
| Audio.AudioPage.HandleModeChange | frontend/src/pages/Audio/AudioPage.jsx:159-164 | sets the mode; if playing, narrates the current question in the previous mode |
| Audio.AudioPage.FireTimer | frontend/src/pages/Audio/AudioPage.jsx:96-111 | a pending timer speaks its line and arms the next one of its chain, playing or not |
| Audio.AudioPage.constructor | frontend/src/pages/Audio/AudioPage.jsx:11-20 | the page state starts at question index 0, not playing, mode 'all', start number 1, no pending timer, and satisfies the page invariant |
| CorrectErrors.WrongIndices | frontend/src/pages/Result/CorrectErrors.jsx:33-35 | exactly the indices whose answer is present and not correct, in increasing order |
| CorrectErrors.IncorrectQuestions | frontend/src/pages/Result/CorrectErrors.jsx:32-37 | the questions at exactly those indices, in their original order |
| CorrectErrors.CorrectionSet | frontend/src/pages/Result/CorrectErrors.jsx:28-39 | the wrongly answered questions of the router state, none when it lacks answers or questions: `IncorrectQuestions` states which, `ResultPage.AfterCorrection` that its size is the total sent on |
| CorrectErrors.NoAnswers | frontend/src/pages/Result/CorrectErrors.jsx:40 | a fresh answers array: one empty slot per question |
| CorrectErrors.Session.constructor | frontend/src/pages/Result/CorrectErrors.jsx:27-40 | the correction set (empty without a router state or when it lacks answers or questions), all-empty answers of its length, and the clock at 0 |
| CorrectErrors.Session.Tick | frontend/src/pages/Result/CorrectErrors.jsx:45-47 | the clock advances by one second |
| CorrectErrors.NewAnswer | frontend/src/pages/Result/CorrectErrors.jsx:56-66 | the record for option i: graded correct exactly when option i is the correct option; `correctOption` is the FIRST index holding the correct option (no earlier option equals it), or -1 when it is not listed, whatever option was chosen |
| CorrectErrors.Session.HandleAnswerSelect | frontend/src/pages/Result/CorrectErrors.jsx:52-68 | nothing when the slot is already answered; otherwise only the current slot is written, and option i is selected |
| CorrectErrors.Session.ClearAnswer | frontend/src/pages/Result/CorrectErrors.jsx:70-75 | only the current slot is emptied, and nothing is selected |
| CorrectErrors.Session.GoToQuestion | frontend/src/pages/Result/CorrectErrors.jsx:77-81 | shows question index with its recorded choice selected (or none) and closes the number panel |
| CorrectErrors.Session.GoToNext | frontend/src/pages/Result/CorrectErrors.jsx:83-87 | moves on only before the last question; the index stays in range |
| CorrectErrors.Session.GoToPrev | frontend/src/pages/Result/CorrectErrors.jsx:89-93 | moves back only after the first question; the index stays in range |
| CorrectErrors.Session.HandleFinish | frontend/src/pages/Result/CorrectErrors.jsx:95-111 | when confirmed, one navigation to `/resultado` with the tallies; otherwise none |
| CorrectErrors.FinishState | frontend/src/pages/Result/CorrectErrors.jsx:95-111 | the state sent to `/resultado`: `FinishTally` states its tallies add up and count wrong plus unanswered as incorrect; `ResultPage.AfterCorrection` what the result page then shows |
| CorrectErrors.FinishTally | frontend/src/pages/Result/CorrectErrors.jsx:97-102 | correct + incorrect = total, and incorrect counts the wrong answers plus the unanswered slots |
| CorrectErrors.Session.ResetExam | frontend/src/pages/Result/CorrectErrors.jsx:113-120 | when confirmed, every slot empty, index 0, nothing selected, clock 0; otherwise no change |
| CorrectErrors.TallyBounds | frontend/src/pages/Result/CorrectErrors.jsx:136-137 | correct ≤ answered ≤ questions, and answered = correct + wrong |
| CorrectErrors.CountRight | frontend/src/pages/Result/CorrectErrors.jsx:136 | the number of slots graded correct: `TallyBounds` states it never exceeds the answered tally |
| CorrectErrors.CountAnswered | frontend/src/pages/Result/CorrectErrors.jsx:137 | the number of non-empty slots: `TallyBounds` states it is at most the number of questions and equals right plus wrong |
| CorrectErrors.TwoDigitsReadBack | frontend/src/pages/Result/CorrectErrors.jsx:143 | a padded field is a numeral of at least two digits, exactly two below 100, with the value it prints |
| CorrectErrors.FormatTime | frontend/src/pages/Result/CorrectErrors.jsx:139-144 | `HH:MM:SS` of the clock: `FormatTimeReadBack` states the fields read back to the seconds, minutes and seconds below 60 |
| CorrectErrors.FormatTimeReadBack | frontend/src/pages/Result/CorrectErrors.jsx:139-144 | `HH:MM:SS`: each field at least two digits, minutes and seconds below 60, hrs·3600 + mins·60 + secs = the seconds |
| CorrectErrors.AnsweredIndices | frontend/src/pages/Result/CorrectErrors.jsx:147-149 | exactly the answered slots, in increasing order, as many as the answered tally |
| CorrectErrors.SummaryEntries | frontend/src/pages/Result/CorrectErrors.jsx:146-151 | one entry "{i+1}{letter}" per answered slot, in increasing i |
| CorrectErrors.AnswerSummary | frontend/src/pages/Result/CorrectErrors.jsx:146-152 | the entries joined by ", ": `SummaryMatchesTally` states it has as many entries as the answered tally |
| CorrectErrors.SummaryMatchesTally | frontend/src/pages/Result/CorrectErrors.jsx:137-151 | the summary has as many entries as the answered tally, and is empty exactly when nothing is answered |
| ResultPage.FormatTimeIsClock | frontend/src/pages/Result/ResultPage.jsx:13-19 | the falsy shortcut gives exactly the clock of 0, so the page always shows the `HH:MM:SS` reading of its input (absent read as 0) |
| ResultPage.FormatTime | frontend/src/pages/Result/ResultPage.jsx:13-19 | "00:00:00" for an absent or zero time, else `HH:MM:SS`: `FormatTimeIsClock` states it always reads back to its input |
| ResultPage.FloorDiv | frontend/src/pages/Result/ResultPage.jsx:23 | division rounded down, for either sign of divisor |
| ResultPage.Score | frontend/src/pages/Result/ResultPage.jsx:21-24 | the integer nearest to 100·correct/total, halves rounded up; NaN for 0/0 or an absent tally, ±Infinity for a non-zero count over 0 |
| ResultPage.ScoreIsPercentage | frontend/src/pages/Result/ResultPage.jsx:21-24 | for 0 ≤ correct ≤ total > 0 the score is in [0, 100]: 0 for none right, 100 for all right |
| ResultPage.OriginPath | frontend/src/pages/Result/ResultPage.jsx:26-31 | the path of the exam type, '/dashboard' otherwise: `ExamTypeRouting` states which type goes where, `ExamTypesDistinct` that known types get distinct paths |
| ResultPage.ExamTitle | frontend/src/pages/Result/ResultPage.jsx:33-44 | the title of the exam type, the generic one otherwise: `ExamTypeRouting` and `ExamTypesDistinct` state it agrees with the path and separates the known types |
| ResultPage.ExamTypeRouting | frontend/src/pages/Result/ResultPage.jsx:26-44 | 'balotario', 'examen-temas' and 'siecopol' go to the path of the same name; all else goes to '/dashboard', exactly when the title is the generic 'Examen Virtual Finalizado' |
| ResultPage.ExamTypesDistinct | frontend/src/pages/Result/ResultPage.jsx:26-44 | distinct known exam types get distinct paths and titles |
| ResultPage.SplitSpaced | frontend/src/pages/Result/ResultPage.jsx:95-103 | a class attribute built by appending " token"s splits back into its tokens |
| ResultPage.OptionClass | frontend/src/pages/Result/ResultPage.jsx:92-103 | the option's class attribute: `OptionClassSpelling`, `OptionClassTokens` and `OptionClassMarks` state its tokens and when each is present |
| ResultPage.OptionClassSpelling | frontend/src/pages/Result/ResultPage.jsx:95-103 | the class string is "alternativas" followed by its marking tokens, each after one space |
| ResultPage.OptionClassTokens | frontend/src/pages/Result/ResultPage.jsx:95-103 | read at its spaces, the class is "alternativas" then exactly the marking tokens |
| ResultPage.OptionClassMarks | frontend/src/pages/Result/ResultPage.jsx:92-103 | 'correct-answer' exactly on the correct option; 'user-correct'/'user-incorrect', by the recorded grade, exactly on the selected option |
| ResultPage.IconMatchesClass | frontend/src/pages/Result/ResultPage.jsx:92-116 | for an answer graded against its own question: ✓ exactly where the class says user-correct, ✗ exactly where it says user-incorrect, and an icon only on the selected option |
| ResultPage.FeedbackIcon | frontend/src/pages/Result/ResultPage.jsx:111-116 | ✓ on the selected correct option, ✗ on a selected wrong one, nothing else: `IconMatchesClass` states it agrees with the class attribute |
| ResultPage.ShowsUnanswered | frontend/src/pages/Result/ResultPage.jsx:57 | the unanswered line appears exactly when the count is present and positive: `Render` states it is the flag shown, `AfterCorrection` that a correction session never shows it |
| ResultPage.Render | frontend/src/pages/Result/ResultPage.jsx:8-124 | without a router state the page redirects to '/', and only then; it throws (`Crash`) exactly when the state has no question list, or a non-empty list and no answers; otherwise it shows `ExamTitle`, `Score`, the unanswered flag, `FormatTime` of `timeUsed`, the correction link with the state, `OriginPath` and the tip flags of the list |
| ResultPage.TipsShown | frontend/src/pages/Result/ResultPage.jsx:120-124 | one flag per question, in order: a tip box exactly when the question has a non-empty tip |
| ResultPage.CorrectedFinishShowsTime | frontend/src/pages/Result/CorrectErrors.jsx:95-111 | with the time sent under `timeUsed`, the result page shows the HH:MM:SS reading of the seconds the session counted |
| ResultPage.AfterCorrection | frontend/src/pages/Result/ResultPage.jsx:57-72 | after a correction session: generic title, '/dashboard', no unanswered line, '00:00:00' whatever the clock said, a score in [0, 100], and correcting again offers exactly the questions still wrong |
| UserModel.FormatId | backend/models/User.js:30 | "usuario_" and the number's numeral padded to four digits: `IdShape` states its exact shape and `IdInjective` that distinct numbers give distinct ids |
| UserModel.IdNumber | backend/models/User.js:29 | `parseInt` of the text after the first '_', none without one: `IdRoundTrip` states it reads back the number of every formatted id |
| UserModel.NextId | backend/models/User.js:28-33 | 'usuario_0001' without a last user, else the id after the last one's number: `FirstId` and `NextIdIncrements` state both cases |
| UserModel.IdShape | backend/models/User.js:30 | an id is "usuario_" then at least four digits ending in the whole numeral of n, zero-filled in front |
| UserModel.IdRoundTrip | backend/models/User.js:29-30 | parsing the number after the first '_' of a formatted id gives n back, for every n ≥ 0 |
| UserModel.IdInjective | backend/models/User.js:30 | distinct numbers give distinct ids |
| UserModel.FirstId | backend/models/User.js:31-32 | with no previous user the id is 'usuario_0001', number 1 |
| UserModel.NextIdIncrements | backend/models/User.js:28-30 | after a well-formed id the next number is exactly one more |
| UserModel.IdOrder | backend/models/User.js:27-30 | below 10000, ids compare as strings exactly as their numbers do |
| UserModel.NormalizationIdempotent | backend/models/User.js:4-15 | storing a stored name or mail again changes nothing |
| UserModel.StoredMailShape | backend/models/User.js:9-15 | a stored mail has no capital letter and no white space at either end |
| UserModel.UserDocument.constructor | backend/models/User.js:4-15 | the name is stored trimmed, the mail trimmed and lower-cased |
| UserModel.UserDocument.PreSave | backend/models/User.js:25-36 | a new document gets the next id after the last user; any other keeps its id |
| UserModel.LatestId | backend/models/User.js:27 | the query's last user: a stored id at least as great, in string order, as every other; none when nothing is stored |
| UserModel.QueryRepeatsAnId | backend/models/User.js:27-30 | with usuario_9999 and usuario_10000 stored, the query returns usuario_9999 and the next id is usuario_10000 again |
| UserModel.LatestIdByNumber | backend/models/User.js:27 | the stored id with the greatest number; none when no id has a number |
| UserModel.NextIdByNumberIsFresh | backend/models/User.js:27-32 | with the last user chosen by number, the next id is never one already stored |
| UserModel.QueriesAgreeBelow10000 | backend/models/User.js:27 | while all numbers are below 10000 the two queries pick the same user |
| UserModel.UserDocument.PreSaveAmong | backend/models/User.js:25-36 | the hook fed by the by-number query gives a new document an id no stored user has |
| UserModel.RequiredOfSubmitted | backend/models/User.js:4-19 | after normalisation the required fields are present exactly when the name and the mail are not white space only and the password is not empty |
| UserModel.UserDocument.Save | backend/models/User.js:3-36 | a document missing a required field is refused before the hook runs and keeps its id; otherwise the hook sets the id, and a new document is saved exactly when neither its id nor its mail is already stored |
| UserModel.UserDocument.SaveAmong | backend/models/User.js:9-36 | with the last user found by number over well-formed ids, a new document is refused only for a missing field or a stored mail, never for its id |

## Left out

- Data fetching, the login check and its redirect, `alert`, and the "loading" and "no errors" screens are left out. They are I/O or markup.
- `window.confirm` is a boolean parameter. `navigate` calls are recorded, not followed.
- The database query behind `lastUser` is a parameter of `PreSave`. `LatestId` states what the query returns when given the stored ids.
- The audio itself and real timer timing are left out. A `setTimeout` is a pending timer with its delay as a tag. The firing of a timer is an explicit step (`FireTimer`), in any order the caller chooses. `setInterval` is an explicit `Tick`.
- The audio page's `selectedAnswer`, `answers`, `user` and `topic` state feed nothing the model covers. The correction page's unused `prevAnswers` is left out too.
- React's re-render plumbing is left out. Each handler runs on the state the previous one left, with the closure values of the latest render. Under StrictMode an updater function may run twice in development; that is not modelled.
- Audio.AudioPage.Valid: the handlers are specified for a page whose engine has at most one queued utterance when they start. The browser's own end-of-speech events are `FinishCurrent`, which the page never calls.
- The `handleAnswerSelect`, `clearAnswer` and `goToQuestion` preconditions require a shown question and a listed option. The page offers these controls only then.
- Speech.Rate and Speech.Pitch: 0.9 and 1.0 are exact reals standing for the browser's floating-point values.
- ResultPage.Score: the rounding is exact. JavaScript divides in floating point, so a ratio such as 29/200 can round one point lower than the exact half-up result.
- JsText.ParseInt: numbers are unbounded. `parseInt` above 2^53 loses precision; that is not modelled.
- JsText.IsSpace: the common white-space characters only. Other Unicode space separators are not modelled, and `TrimStart`, `TrimEnd` and `Blank` inherit this set.
- JsText.ToLower: ASCII case only. Non-ASCII case mappings, some of which change the length in JavaScript, are not modelled.
- JsText.FromCharCode: a surrogate code unit is a lone code unit in JavaScript. Dafny characters are scalar values, so it is U+FFFD here.
- UserModel.UserDocument.constructor: it accepts every string, as Mongoose does when a document is built. The `required` validators are `RequiredFields`, checked by `Save`. The `unique` index on mail is modelled only as a check against the mails passed to `Save`.
- UserModel.UserDocument.PreSave: the hook reads the last user, and the document is inserted later. Two registrations saved at the same time can read the same last user and compute the same `_id`. The model runs one save at a time against one snapshot of the stored ids, and `NextIdByNumberIsFresh`, `PreSaveAmong` and `SaveAmong` hold only then.
- UserModel.UserDocument.Save: saving an existing document does not check its mail against the `unique` index again, because its mail is the one already stored.
- UserModel: `_id` is taken as a string. The schema declares no `_id` type, and how Mongoose would cast the value is not modelled. Password hashing and timestamps belong to other files and are not part of this model.
- The CSS, the JSX layout, and the correction page's per-option markup are left out.

## Findings

| source | as written | input that shows it | evidently intended | confidence | as-written member | corrected member |
|---|---|---|---|---|---|---|
| backend/models/User.js:27 | the last user is the one with the greatest `_id` in string order | stored ids usuario_9999 and usuario_10000: the query returns usuario_9999, so the next id is usuario_10000, which already exists | the last user is the one with the greatest number, so the next id is usuario_10001 | not executed | UserModel.QueryRepeatsAnId | UserModel.NextIdByNumberIsFresh |
| frontend/src/pages/Result/CorrectErrors.jsx:95-111 | the finished correction session sends its time under `time`, while the result page reads `timeUsed` | any session that counted 75 seconds: the result page shows 00:00:00 instead of 00:01:15 | the time goes under `timeUsed`, so the page shows the session's clock | not executed | ResultPage.AfterCorrection | ResultPage.CorrectedFinishShowsTime |
