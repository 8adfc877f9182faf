/** The audio page (`AudioPage.jsx`): it reads a topic's questions aloud, one question at a
    time, through the browser's speech engine, and offers play, stop, next, previous, a
    choice of mode and a start number.

    React hands every event handler the values of the render it was created in. The
    handlers here therefore narrate from the index and mode the page had when the event
    arrived; the update they make to the index or mode takes effect afterwards. So PLAY
    with start number s narrates the question the page showed before, not question s, and
    NEXT/PREVIOUS while playing narrate the question being left. */
module Audio {
  import opened Options
  import opened JsText
  import opened Quiz
  import opened Speech
  import opened Narration

  /** A pending `setTimeout`: when it fires it speaks `cue` and, if `rest` is not empty, arms
      the next timer for `rest` (the nested `setTimeout` of mode 'all'). Its delay is
      `cue.delayMs`. */
  datatype Timer = Timer(cue: Cue, rest: seq<Cue>)

  /** The utterance `speak(text, voiceType)` builds while the engine reports `voices`. */
  function UtteranceFor(text: string, role: Role, voices: seq<Voice>): Utterance {
    Utterance(text, SelectVoice(voices, role), Lang, Rate, Pitch)
  }

  /** The calls one `speak` makes on the engine: cancel, then exactly one utterance. */
  function SpeakCalls(text: string, role: Role, voices: seq<Voice>): seq<Call> {
    [Cancelled, Spoke(UtteranceFor(text, role, voices))]
  }

  /** The start number the input stores for `value`: `parseInt(value) || 1`, so a value with
      no digits, or one that reads as 0, gives 1. */
  function StartNumber(value: string): (n: int)
    ensures n != 0
    ensures ParseInt(value).None? ==> n == 1
    ensures ParseInt(value) == Some(0) ==> n == 1
    ensures ParseInt(value).Some? && ParseInt(value).value != 0 ==> n == ParseInt(value).value
  {
    match ParseInt(value)
    case None => 1
    case Some(v) => if v == 0 then 1 else v
  }

  /** Typing the numeral of a non-zero n stores n; typing a numeral of 0 stores 1. */
  lemma StartNumberOfNumeral(n: int)
    ensures StartNumber(IntToString(n)) == if n == 0 then 1 else n
  {
    ParseIntOfIntToString(n);
  }

  /** The new index and PLAY's guard (lines 115-122) as values: a start number outside
      1..|questions| leaves the index where it was. */
  function IndexAfterPlay(start: int, count: nat, index: nat): (r: nat)
    ensures start < 1 || start > count ==> r == index
    ensures 1 <= start <= count ==> r == start - 1 && r < count
  {
    if start < 1 || start > count then index else start - 1
  }

  /** The new index after NEXT and after PREVIOUS (lines 133-157). */
  function IndexAfterNext(count: nat, index: nat): (r: nat)
    ensures index < count ==> r < count
    ensures r == index || r == index + 1
    ensures r == index + 1 <==> index + 1 < count
  {
    if index + 1 < count then index + 1 else index
  }

  function IndexAfterPrev(index: nat): (r: nat)
    ensures r <= index && (r == index <==> index == 0)
    ensures index > 0 ==> r == index - 1
  {
    if index > 0 then index - 1 else index
  }

  /** A transport command as it moves the index. */
  datatype Move = Next | Prev | Play(start: int)

  function Navigate(count: nat, index: nat, move: Move): nat {
    match move
    case Next => IndexAfterNext(count, index)
    case Prev => IndexAfterPrev(index)
    case Play(start) => IndexAfterPlay(start, count, index)
  }

  function NavigateAll(count: nat, index: nat, moves: seq<Move>): nat
    decreases |moves|
  {
    if moves == [] then index else NavigateAll(count, Navigate(count, index, moves[0]), moves[1..])
  }

  /** Any run of PLAY, NEXT and PREVIOUS keeps the index within the questions. */
  lemma {:induction false} NavigationStaysInRange(count: nat, index: nat, moves: seq<Move>)
    requires index < count
    ensures NavigateAll(count, index, moves) < count
    decreases |moves|
  {
    if moves != [] {
      NavigationStaysInRange(count, Navigate(count, index, moves[0]), moves[1..]);
    }
  }

  class AudioPage {
    /** `speechSynthesis`: null when the browser has no speech synthesis. */
    const synth: SpeechEngine?
    /** The topic's questions, as fetched. */
    const questions: seq<Question>
    var currentQuestionIndex: nat
    var isPlaying: bool
    var audioMode: Mode
    var startQuestion: int
    /** The `setTimeout` callbacks not yet run; nothing ever clears them. */
    var timers: seq<Timer>

    /** The index shows a question (or is 0 while there is none), and the engine never has
        more than one utterance live. */
    ghost predicate Valid()
      reads this, synth
    {
      && (currentQuestionIndex == 0 || currentQuestionIndex < |questions|)
      && (synth != null ==> |synth.queue| <= 1)
    }

    /** What one `speak(text, role)` did to the engine. */
    twostate predicate Spoken(text: string, role: Role)
      reads this, synth
    {
      synth != null ==>
        && synth.voices == old(synth.voices)
        && synth.calls == old(synth.calls) + SpeakCalls(text, role, old(synth.voices))
        && synth.queue == [UtteranceFor(text, role, old(synth.voices))]
    }

    twostate predicate Silent()
      reads this, synth
    {
      synth != null ==> unchanged(synth)
    }

    /** What `playCurrentQuestion` did, run from a render whose index and mode were `index`
        and `mode`: nothing past the end of the list; otherwise the first line is spoken at
        once and a timer is armed for the rest. */
    twostate predicate Narrated(index: nat, mode: Mode)
      reads this, synth
    {
      if index >= |questions| then
        timers == old(timers) && Silent()
      else
        var cues := Script(questions[index], index, mode);
        && timers == old(timers) + [Timer(cues[1], cues[2..])]
        && Spoken(cues[0].text, cues[0].role)
    }

    /** The page once the questions have arrived. */
    constructor (synth: SpeechEngine?, questions: seq<Question>)
      requires synth != null ==> |synth.queue| <= 1
      ensures Valid()
      ensures this.synth == synth && this.questions == questions
      ensures currentQuestionIndex == 0 && !isPlaying && audioMode == All
      ensures startQuestion == 1 && timers == []
    {
      this.synth := synth;
      this.questions := questions;
      currentQuestionIndex := 0;
      isPlaying := false;
      audioMode := All;
      startQuestion := 1;
      timers := [];
    }

    /** `speak(text, voiceType)`: a no-op without an engine; otherwise cancel, then one
        utterance in Spanish (Spain) at rate 0.9 and pitch 1.0 with the first suitable voice. */
    method Speak(text: string, role: Role)
      requires Valid()
      modifies synth
      ensures Valid() && Spoken(text, role)
    {
      if synth == null {
        return;
      }
      synth.Cancel();
      var voices := synth.voices;
      synth.Speak(UtteranceFor(text, role, voices));
    }

    /** `playCurrentQuestion()` from a render whose index and mode were `index` and `mode`. */
    method PlayQuestion(index: nat, mode: Mode)
      requires Valid()
      modifies this`timers, synth
      ensures Valid() && Narrated(index, mode)
    {
      if |questions| == 0 || index >= |questions| {
        return;
      }
      var cues := Script(questions[index], index, mode);
      Speak(cues[0].text, cues[0].role);
      timers := timers + [Timer(cues[1], cues[2..])];
    }

    /** The start-number input (line 222). */
    method SetStartInput(value: string)
      modifies this`startQuestion
      ensures startQuestion == StartNumber(value)
    {
      startQuestion := StartNumber(value);
    }

    /** `handlePlay`: a start number outside 1..|questions| changes nothing and says nothing;
        otherwise the index moves to the start question, the page is playing, and the
        question shown before is narrated. */
    method HandlePlay()
      requires Valid()
      modifies this`currentQuestionIndex, this`isPlaying, this`timers, synth
      ensures Valid()
      ensures currentQuestionIndex == IndexAfterPlay(startQuestion, |questions|, old(currentQuestionIndex))
      ensures if startQuestion < 1 || startQuestion > |questions| then
          isPlaying == old(isPlaying) && timers == old(timers) && Silent()
        else
          isPlaying && Narrated(old(currentQuestionIndex), audioMode)
    {
      if startQuestion < 1 || startQuestion > |questions| {
        return;
      }
      var index, mode := currentQuestionIndex, audioMode;
      currentQuestionIndex := startQuestion - 1;
      isPlaying := true;
      PlayQuestion(index, mode);
    }

    /** `handleStop` (also the PAUSE button): cancels what is being spoken and stops
        playing; the timers already armed stay armed. */
    method HandleStop()
      requires Valid()
      modifies this`isPlaying, synth
      ensures Valid() && !isPlaying
      ensures synth != null ==>
        synth.queue == [] && synth.calls == old(synth.calls) + [Cancelled] && synth.voices == old(synth.voices)
    {
      if synth != null {
        synth.Cancel();
      }
      isPlaying := false;
    }

    /** `handleNext`: before the last question it moves on, narrating the question being
        left if playing; at the last question it stops. */
    method HandleNext()
      requires Valid()
      modifies this`currentQuestionIndex, this`isPlaying, this`timers, synth
      ensures Valid()
      ensures currentQuestionIndex == IndexAfterNext(|questions|, old(currentQuestionIndex))
      ensures if old(currentQuestionIndex) + 1 < |questions| then
          && isPlaying == old(isPlaying)
          && (if old(isPlaying) then Narrated(old(currentQuestionIndex), audioMode)
              else timers == old(timers) && Silent())
        else
          && !isPlaying && timers == old(timers)
          && (synth != null ==> synth.queue == [] && synth.calls == old(synth.calls) + [Cancelled]
                                && synth.voices == old(synth.voices))
    {
      if currentQuestionIndex + 1 < |questions| {
        var index := currentQuestionIndex;
        currentQuestionIndex := index + 1;
        if isPlaying {
          PlayQuestion(index, audioMode);
        }
      } else {
        HandleStop();
      }
    }

    /** `handlePrev`: after the first question it moves back, narrating the question being
        left if playing; at the first question it does nothing. */
    method HandlePrev()
      requires Valid()
      modifies this`currentQuestionIndex, this`timers, synth
      ensures Valid()
      ensures currentQuestionIndex == IndexAfterPrev(old(currentQuestionIndex))
      ensures if old(currentQuestionIndex) > 0 && isPlaying then Narrated(old(currentQuestionIndex), audioMode)
        else timers == old(timers) && Silent()
    {
      if currentQuestionIndex > 0 {
        var index := currentQuestionIndex;
        currentQuestionIndex := index - 1;
        if isPlaying {
          PlayQuestion(index, audioMode);
        }
      }
    }

    /** `handleModeChange(mode)`: the mode changes; if playing, the current question is
        narrated again in the mode the page had before the change. */
    method HandleModeChange(mode: Mode)
      requires Valid()
      modifies this`audioMode, this`timers, synth
      ensures Valid() && audioMode == mode
      ensures if isPlaying then Narrated(currentQuestionIndex, old(audioMode))
        else timers == old(timers) && Silent()
    {
      var previous := audioMode;
      audioMode := mode;
      if isPlaying {
        PlayQuestion(currentQuestionIndex, previous);
      }
    }

    /** The browser runs pending timer `k`, whether or not the page is still playing. */
    method FireTimer(k: nat)
      requires Valid() && k < |timers|
      modifies this`timers, synth
      ensures Valid()
      ensures var t := old(timers[k]);
        && timers == old(timers[..k] + timers[k + 1..])
                     + (if t.rest == [] then [] else [Timer(t.rest[0], t.rest[1..])])
        && Spoken(t.cue.text, t.cue.role)
    {
      var t := timers[k];
      timers := timers[..k] + timers[k + 1..];
      Speak(t.cue.text, t.cue.role);
      if t.rest != [] {
        timers := timers + [Timer(t.rest[0], t.rest[1..])];
      }
    }
  }
}
