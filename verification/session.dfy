/** The chat session of the LYLA client: the six pieces of component state,
    the open stream's running total, and one pure transition per callback
    that mutates them. Each event is
    applied atomically to the current state. */
module Chat {
  import opened Text

  datatype Option<T> = None | Some(value: T)

  datatype Role = User | Assistant

  /** One transcript entry, `{ role, content }`. */
  datatype Message = Message(role: Role, content: string)

  /** The component state: transcript, draft input, the streamed partial
      reply, the busy flag, the microphone flag and the mood name. The last
      field, `received`, is not component state: it is the running total the
      open stream's reader loop keeps in its local variable. */
  datatype Session = Session(
    messages: seq<Message>,
    input: string,
    streaming: string,
    loading: bool,
    listening: bool,
    expression: string,
    received: string)

  /** The one mood the component ever assigns. */
  const Neutral: string := "neutral"

  /** The fixed assistant text substituted when the request cannot be sent. */
  const FailureText: string := "Oops! Something glitched. Wanna try again? \U{1F481}\U{200D}\U{2640}\U{FE0F}"

  /** Background classes per mood, and the class used for any other name. */
  const MoodColors: map<string, string> := map[
    "playful" := "bg-pink-500",
    "sassy" := "bg-purple-600",
    "caring" := "bg-rose-400",
    "confident" := "bg-indigo-700",
    "happy" := "bg-emerald-500",
    "neutral" := "bg-gray-700"]
  const FallbackColor: string := "bg-gray-800"

  /** The events that drive the component, one per callback. */
  datatype Event =
    | Type(text: string)          // the input's change handler
    | SubmitEnter                 // Enter pressed in the input
    | SubmitButton                // the send button clicked
    | VoiceResult(transcript: string)
    | RecStart
    | RecError
    | RecEnd
    | StreamOpen                  // the response arrives and its reader loop starts
    | Chunk(chunk: string)        // one decoded piece of the streamed reply
    | StreamDone                  // the reader reports the end of the body
    | FetchFailed                 // the request promise rejected

  /** A fresh component: the given initial transcript, everything else idle. */
  function Init(initial: seq<Message>): (s: Session)
    ensures s.messages == initial && s.input == [] && s.streaming == []
    ensures !s.loading && !s.listening && s.expression == Neutral && s.received == []
  {
    Session(initial, "", "", false, false, Neutral, "")
  }

  /** The background class for a mood name: the mapped class for the six
      known moods, and the fallback class for every other name. */
  function MoodColor(expression: string): (c: string)
    ensures c == FallbackColor <==> expression !in MoodColors
    ensures expression in MoodColors ==> c == MoodColors[expression]
  {
    if expression in MoodColors then MoodColors[expression] else FallbackColor
  }

  /** `voiceMessage || inputMessage`: a voice transcript counts only when it
      is a non-empty string, otherwise the draft is used, so the selection is
      empty only when both are. */
  function SelectText(draft: string, voice: Option<string>): (text: string)
    ensures voice.Some? && voice.value != [] ==> text == voice.value
    ensures voice.None? || voice.value == [] ==> text == draft
    ensures text == [] <==> draft == [] && (voice.None? || voice.value == [])
  {
    match voice
    case Some(t) => if t != [] then t else draft
    case None => draft
  }

  /** What `sendMessage` leaves behind: the next state and, when the send was
      accepted, the message list posted as the request body. */
  datatype SendOutcome = SendOutcome(next: Session, request: Option<seq<Message>>)

  /** `sendMessage(voice)` run against state `s`, where `draft` is the value of
      the draft input the handler reads. A blank text changes nothing; any
      other text is appended untrimmed as a user message, the draft is
      cleared and the session turns busy, and the request carries the earlier
      transcript followed by the new message. */
  function SendMessage(s: Session, draft: string, voice: Option<string>): (o: SendOutcome)
    ensures var text := SelectText(draft, voice);
      && (Blank(text) <==> o.request.None?)
      && (Blank(text) ==> o.next == s)
      && (!Blank(text) ==>
            && o.next.messages == s.messages + [Message(User, text)]
            && o.next.input == [] && o.next.loading
            && o.next.streaming == s.streaming && o.next.listening == s.listening
            && o.next.expression == s.expression && o.next.received == s.received
            && o.request == Some(o.next.messages))
  {
    var text := SelectText(draft, voice);
    TrimEmptyIffBlank(text);
    if Trim(text) == [] then
      SendOutcome(s, None)
    else
      var user := Message(User, text);
      var request := s.messages + [user];
      SendOutcome(s.(messages := s.messages + [user], input := "", loading := true), Some(request))
  }

  /** `handleFinish(text)`: the streamed text moves into the transcript as
      one assistant message and the session returns to idle and neutral. */
  function Finish(s: Session, text: string): (r: Session)
    ensures r.messages == s.messages + [Message(Assistant, text)]
    ensures r.streaming == [] && !r.loading && r.expression == Neutral
    ensures r.input == s.input && r.listening == s.listening && r.received == s.received
  {
    s.(messages := s.messages + [Message(Assistant, text)], streaming := "", loading := false,
       expression := Neutral)
  }

  /** The send button is enabled exactly when the session is not loading and
      the draft is not blank. */
  predicate ButtonEnabled(s: Session): (enabled: bool)
    ensures enabled <==> !s.loading && !Blank(s.input)
  {
    TrimEmptyIffBlank(s.input);
    !s.loading && Trim(s.input) != []
  }

  /** The request an event posts, if any: only the three send paths post,
      and a posted body is the transcript before the event followed by one
      user message. */
  function Request(s: Session, e: Event): (rq: Option<seq<Message>>)
    ensures rq.Some? ==> e.SubmitEnter? || e.SubmitButton? || e.VoiceResult?
    ensures rq.Some? ==>
      && |rq.value| == |s.messages| + 1 && rq.value[..|s.messages|] == s.messages
      && rq.value[|s.messages|].role == User
  {
    match e
    case SubmitEnter => SendMessage(s, s.input, None).request
    case SubmitButton => if ButtonEnabled(s) then SendMessage(s, s.input, None).request else None
    case VoiceResult(t) => SendMessage(s.(input := t), s.input, Some(t)).request
    case _ => None
  }

  /** One callback applied to the session. The transcript only ever grows by
      one message at its end, and the mood only ever becomes neutral. Typing
      only edits the draft; the recognition callbacks only switch the
      microphone flag, on at start and off on error or end; a rejected
      request only appends the failure text and ends loading. */
  function Step(s: Session, e: Event): (r: Session)
    ensures r.messages == s.messages
         || (|r.messages| == |s.messages| + 1 && r.messages[..|s.messages|] == s.messages)
    ensures r.expression == s.expression || r.expression == Neutral
    ensures r.listening != s.listening ==> e.RecStart? || e.RecError? || e.RecEnd?
    ensures e.Type? ==> r == s.(input := e.text)
    ensures e.RecStart? ==> r == s.(listening := true)
    ensures e.RecError? || e.RecEnd? ==> r == s.(listening := false)
    ensures e.FetchFailed? ==>
      r == s.(messages := s.messages + [Message(Assistant, FailureText)], loading := false)
    ensures e.StreamOpen? ==> r == s.(received := [])
    ensures e.Chunk? ==> r == s.(received := s.received + e.chunk, streaming := s.received + e.chunk)
  {
    match e
    case Type(t) => s.(input := t)
    case SubmitEnter => SendMessage(s, s.input, None).next
    case SubmitButton => if ButtonEnabled(s) then SendMessage(s, s.input, None).next else s
    case VoiceResult(t) => SendMessage(s.(input := t), s.input, Some(t)).next
    case RecStart => s.(listening := true)
    case RecError => s.(listening := false)
    case RecEnd => s.(listening := false)
    case StreamOpen => s.(received := "")
    case Chunk(c) => s.(received := s.received + c, streaming := s.received + c)
    case StreamDone => Finish(s, s.received)
    case FetchFailed =>
      s.(messages := s.messages + [Message(Assistant, FailureText)], loading := false)
  }

  /** The session after the events `es`, applied in order. */
  function Run(s: Session, es: seq<Event>): Session
    decreases |es|
  {
    if es == [] then s else Run(Step(s, es[0]), es[1..])
  }
}
