/** The speech side of the audio page: the voice list the browser reports, the choice of a
    voice for a speaker role, and the speech engine (`window.speechSynthesis`) as a port
    whose calls are recorded. */
module Speech {
  import opened Options
  import opened JsText

  /** A voice as `getVoices()` lists it. */
  datatype Voice = Voice(name: string, lang: string)

  /** The `voiceType` argument of `speak`: 'male' or anything else (the code passes 'female'). */
  datatype Role = Male | Female

  /** The predicate handed to `voices.find` for a role. */
  predicate Suits(v: Voice, role: Role) {
    match role
    case Male => Contains(v.name, "Male") || Contains(v.lang, "es-MX") || Contains(v.lang, "es-ES")
    case Female => Contains(v.name, "Female") || Contains(v.lang, "es-US")
  }

  /** The position `voices.find` stops at: the first voice that suits the role, or -1. */
  function FirstSuitable(voices: seq<Voice>, role: Role): (k: int)
    ensures -1 <= k < |voices|
    ensures k >= 0 ==> Suits(voices[k], role)
    ensures forall j :: 0 <= j < |voices| && (k < 0 || j < k) ==> !Suits(voices[j], role)
  {
    if voices == [] then -1
    else if Suits(voices[0], role) then 0
    else
      var k := FirstSuitable(voices[1..], role);
      if k < 0 then -1 else k + 1
  }

  /** `voices.find(...)`: the first voice, in list order, that suits the role; `None` when
      no voice does. */
  function SelectVoice(voices: seq<Voice>, role: Role): (r: Option<Voice>)
    ensures r.None? <==> forall j :: 0 <= j < |voices| ==> !Suits(voices[j], role)
    ensures r.Some? ==> r.value in voices && Suits(r.value, role)
    ensures r.Some? ==> exists k :: 0 <= k < |voices| && voices[k] == r.value
                          && forall j :: 0 <= j < k ==> !Suits(voices[j], role)
  {
    var k := FirstSuitable(voices, role);
    if k < 0 then None else Some(voices[k])
  }

  /** The fixed settings of every utterance. The rate 0.9 and pitch 1.0 are floating-point
      numbers in the browser; here they are exact constants. */
  const Lang: string := "es-ES"
  const Rate: real := 0.9
  const Pitch: real := 1.0

  /** A `SpeechSynthesisUtterance`; `voice` is `None` when none was assigned, in which case
      the engine uses its default voice. */
  datatype Utterance = Utterance(text: string, voice: Option<Voice>, lang: string, rate: real, pitch: real)

  /** One call the page makes on the engine. */
  datatype Call = Cancelled | Spoke(utterance: Utterance)

  /** `window.speechSynthesis`. Like the browser's, `Speak` queues: an utterance submitted
      while another is being spoken waits behind it. `queue[0]` is the one being spoken. */
  class SpeechEngine {
    var voices: seq<Voice>
    var queue: seq<Utterance>
    /** Every call made on the engine, oldest first. */
    var calls: seq<Call>

    constructor (voices: seq<Voice>)
      ensures this.voices == voices && queue == [] && calls == []
    {
      this.voices := voices;
      queue := [];
      calls := [];
    }

    /** `cancel()`: drops the utterance being spoken and every queued one. */
    method Cancel()
      modifies this
      ensures voices == old(voices) && queue == [] && calls == old(calls) + [Cancelled]
    {
      queue := [];
      calls := calls + [Cancelled];
    }

    /** `speak(u)`: queues `u`. */
    method Speak(u: Utterance)
      modifies this
      ensures voices == old(voices) && queue == old(queue) + [u] && calls == old(calls) + [Spoke(u)]
    {
      queue := queue + [u];
      calls := calls + [Spoke(u)];
    }

    /** The utterance being spoken comes to its end (an event of the engine, not a call). */
    method FinishCurrent()
      modifies this
      ensures voices == old(voices) && calls == old(calls)
      ensures queue == if old(queue) == [] then [] else old(queue)[1..]
    {
      if queue != [] {
        queue := queue[1..];
      }
    }

    /** The browser finishes loading its voices, which it may do after the page starts. */
    method LoadVoices(vs: seq<Voice>)
      modifies this
      ensures voices == vs && queue == old(queue) && calls == old(calls)
    {
      voices := vs;
    }
  }
}
