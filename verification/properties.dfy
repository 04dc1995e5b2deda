/** Properties of the chat session over single events and over arbitrary
    event sequences. */
module ChatProperties {
  import opened Text
  import opened Chat

  /** The concatenation of the chunks in arrival order. */
  function Concat(cs: seq<string>): string {
    if cs == [] then "" else cs[0] + Concat(cs[1..])
  }

  /** One `Chunk` event per element of `cs`, in order. */
  function Chunks(cs: seq<string>): seq<Event> {
    seq(|cs|, i requires 0 <= i < |cs| => Chunk(cs[i]))
  }

  /** A session with no exchange in flight and nothing streamed. */
  predicate Idle(s: Session) {
    !s.loading && s.streaming == []
  }

  // ---------------------------------------------------------------------
  // Event sequences

  lemma RunOne(s: Session, e: Event)
    ensures Run(s, [e]) == Step(s, e)
  {
    assert [e][1..] == [];
  }

  lemma RunTwo(s: Session, e1: Event, e2: Event)
    ensures Run(s, [e1, e2]) == Step(Step(s, e1), e2)
  {
    assert [e1, e2][1..] == [e2];
    RunOne(Step(s, e1), e2);
  }

  /** `sendMessage` depends on the draft and the voice argument only through
      the text they select. */
  lemma SameSelection(s: Session, d1: string, v1: Option<string>, d2: string, v2: Option<string>)
    requires SelectText(d1, v1) == SelectText(d2, v2)
    ensures SendMessage(s, d1, v1) == SendMessage(s, d2, v2)
  {
  }

  /** Running `a` then `b` is running `a + b`. */
  lemma {:induction false} RunAppend(s: Session, a: seq<Event>, b: seq<Event>)
    ensures Run(s, a + b) == Run(Run(s, a), b)
    decreases |a|
  {
    if a == [] {
      assert a + b == b;
    } else {
      assert (a + b)[1..] == a[1..] + b;
      RunAppend(Step(s, a[0]), a[1..], b);
    }
  }

  /** The transcript is append-only: over any event sequence the earlier
      messages stay in place and at most one message is added per event. */
  lemma {:induction false} TranscriptAppendOnly(s: Session, es: seq<Event>)
    ensures var r := Run(s, es);
      && |s.messages| <= |r.messages| <= |s.messages| + |es|
      && r.messages[..|s.messages|] == s.messages
    decreases |es|
  {
    if es != [] {
      var t := Step(s, es[0]);
      TranscriptAppendOnly(t, es[1..]);
      var r := Run(s, es);
      assert r.messages[..|t.messages|][..|s.messages|] == r.messages[..|s.messages|];
    }
  }

  /** The mood never leaves neutral once it is neutral. */
  lemma {:induction false} StaysNeutral(s: Session, es: seq<Event>)
    requires s.expression == Neutral
    ensures Run(s, es).expression == Neutral
    decreases |es|
  {
    if es != [] {
      StaysNeutral(Step(s, es[0]), es[1..]);
    }
  }

  /** From a fresh component, whatever happens, the mood is neutral and the
      background is the neutral class. */
  lemma AlwaysNeutral(initial: seq<Message>, es: seq<Event>)
    ensures Run(Init(initial), es).expression == Neutral
    ensures MoodColor(Run(Init(initial), es).expression) == "bg-gray-700"
  {
    StaysNeutral(Init(initial), es);
  }

  // ---------------------------------------------------------------------
  // Sending

  /** A blank selection is a no-op: Enter and the button change nothing and
      post nothing; a voice result only leaves its transcript in the draft. */
  lemma BlankSendIsNoOp(s: Session, t: string)
    ensures Blank(s.input) ==> Step(s, SubmitEnter) == s && Request(s, SubmitEnter) == None
    ensures Blank(s.input) ==> Step(s, SubmitButton) == s && Request(s, SubmitButton) == None
    ensures Blank(SelectText(s.input, Some(t))) ==>
      Step(s, VoiceResult(t)) == s.(input := t) && Request(s, VoiceResult(t)) == None
  {
  }

  /** The request posted by an event is the transcript before the event
      followed by one new user message, and it is exactly the transcript the
      event leaves behind. */
  lemma RequestIsTranscriptAfterSend(s: Session, e: Event)
    ensures Request(s, e).Some? ==>
      && |Request(s, e).value| == |s.messages| + 1
      && Request(s, e).value[..|s.messages|] == s.messages
      && Request(s, e).value[|s.messages|].role == User
      && Step(s, e).messages == Request(s, e).value
    ensures Request(s, e).Some? <==>
      (|Step(s, e).messages| == |s.messages| + 1 && Step(s, e).messages[|s.messages|].role == User)
  {
  }

  /** A voice transcript that is not blank is sent verbatim, draft cleared,
      exactly as if it had been typed and sent with Enter. */
  lemma VoiceActsLikeTyping(s: Session, t: string)
    requires !Blank(t)
    ensures Step(s, VoiceResult(t)) == Run(s, [Type(t), SubmitEnter])
    ensures Request(s, VoiceResult(t)) == Request(s.(input := t), SubmitEnter)
    ensures Step(s, VoiceResult(t)).messages == s.messages + [Message(User, t)]
    ensures Step(s, VoiceResult(t)).input == [] && Step(s, VoiceResult(t)).loading
  {
    var s' := s.(input := t);
    RunTwo(s, Type(t), SubmitEnter);
    assert Request(s, VoiceResult(t)) == SendMessage(s', s.input, Some(t)).request;
    assert Request(s', SubmitEnter) == SendMessage(s', t, None).request;
    SameSelection(s', s.input, Some(t), t, None);
  }

  /** An empty voice transcript falls back to the draft: with a draft that
      is not blank it behaves exactly like pressing Enter. */
  lemma EmptyVoiceFallsBackToDraft(s: Session)
    requires !Blank(s.input)
    ensures Step(s, VoiceResult("")) == Step(s, SubmitEnter)
    ensures Request(s, VoiceResult("")) == Request(s, SubmitEnter)
    ensures Step(s, VoiceResult("")).messages == s.messages + [Message(User, s.input)]
  {
  }

  /** The button is enabled exactly when the session is idle and the draft is
      not blank; enabled it acts like Enter, disabled it does nothing. */
  lemma SendButtonGuard(s: Session)
    ensures ButtonEnabled(s) <==> !s.loading && !Blank(s.input)
    ensures ButtonEnabled(s) ==> Step(s, SubmitButton) == Step(s, SubmitEnter)
    ensures !ButtonEnabled(s) ==> Step(s, SubmitButton) == s && Request(s, SubmitButton) == None
    ensures Step(s, SubmitButton) != s <==> ButtonEnabled(s)
  {
  }

  /** Enter has no busy guard: while a reply is still in flight a draft that
      is not blank is sent anyway, and a second request goes out. */
  lemma EnterIgnoresBusy(s: Session)
    requires s.loading && !Blank(s.input)
    ensures Step(s, SubmitEnter).messages == s.messages + [Message(User, s.input)]
    ensures Request(s, SubmitEnter) == Some(s.messages + [Message(User, s.input)])
    ensures Step(s, SubmitButton) == s
  {
  }

  // ---------------------------------------------------------------------
  // Streaming and finishing

  /** Chunks are concatenated in arrival order onto the stream's running
      total, the last total is what is published, and nothing else in the
      session changes. */
  lemma {:induction false} ChunksAccumulate(s: Session, cs: seq<string>)
    ensures Run(s, Chunks(cs))
         == s.(received := s.received + Concat(cs),
               streaming := if cs == [] then s.streaming else s.received + Concat(cs))
    decreases |cs|
  {
    if cs == [] {
      assert s.received + "" == s.received;
    } else {
      var t := Step(s, Chunk(cs[0]));
      assert Chunks(cs) == [Chunk(cs[0])] + Chunks(cs[1..]);
      assert Chunks(cs)[1..] == Chunks(cs[1..]);
      ChunksAccumulate(t, cs[1..]);
      assert t.received + Concat(cs[1..]) == s.received + Concat(cs);
    }
  }

  /** Every chunk publishes the running total: after the first `k` chunks of
      a freshly opened stream, `k` at least one, the published text is the
      concatenation of exactly those `k` chunks. */
  lemma RunningTotal(s: Session, cs: seq<string>, k: nat)
    requires 0 < k <= |cs|
    ensures Run(s, [StreamOpen] + Chunks(cs)[..k]).streaming == Concat(cs[..k])
  {
    assert Chunks(cs)[..k] == Chunks(cs[..k]);
    RunAppend(s, [StreamOpen], Chunks(cs[..k]));
    RunOne(s, StreamOpen);
    ChunksAccumulate(Step(s, StreamOpen), cs[..k]);
  }

  /** A stream that opens, delivers its chunks and ends moves the whole
      concatenation into the transcript as one assistant message and clears
      the published text, whatever an earlier, abandoned stream left behind. */
  lemma StreamThenFinish(s: Session, cs: seq<string>)
    ensures var r := Run(s, [StreamOpen] + Chunks(cs) + [StreamDone]);
      && r.messages == s.messages + [Message(Assistant, Concat(cs))]
      && r.streaming == [] && !r.loading && r.expression == Neutral
      && r.input == s.input && r.listening == s.listening
  {
    var t := Step(s, StreamOpen);
    assert [StreamOpen] + Chunks(cs) + [StreamDone] == [StreamOpen] + (Chunks(cs) + [StreamDone]);
    RunAppend(s, [StreamOpen], Chunks(cs) + [StreamDone]);
    RunOne(s, StreamOpen);
    RunAppend(t, Chunks(cs), [StreamDone]);
    ChunksAccumulate(t, cs);
    RunOne(Run(t, Chunks(cs)), StreamDone);
    assert t.received + Concat(cs) == Concat(cs);
  }

  /** A successful exchange started from the button while not loading ends
      with the transcript extended by exactly the user message and the full
      reply, and the session idle. */
  lemma SuccessfulExchange(s: Session, cs: seq<string>)
    requires !s.loading && !Blank(s.input)
    ensures var r := Run(s, [SubmitButton, StreamOpen] + Chunks(cs) + [StreamDone]);
      && r.messages == s.messages + [Message(User, s.input), Message(Assistant, Concat(cs))]
      && Idle(r) && r.input == [] && r.expression == Neutral && r.listening == s.listening
  {
    var es := [SubmitButton, StreamOpen] + Chunks(cs) + [StreamDone];
    assert es == [SubmitButton] + ([StreamOpen] + Chunks(cs) + [StreamDone]);
    RunAppend(s, [SubmitButton], [StreamOpen] + Chunks(cs) + [StreamDone]);
    var t := Step(s, SubmitButton);
    RunOne(s, SubmitButton);
    StreamThenFinish(t, cs);
  }

  /** A failed request appends the fixed failure text as the reply and ends
      the busy state, leaving the streamed text and the mood alone. */
  lemma FailedExchange(s: Session)
    requires !Blank(s.input)
    ensures var r := Run(s, [SubmitEnter, FetchFailed]);
      && r.messages == s.messages + [Message(User, s.input), Message(Assistant, FailureText)]
      && !r.loading && r.input == []
      && r.streaming == s.streaming && r.expression == s.expression
  {
  }

  // ---------------------------------------------------------------------
  // Whole conversations

  /** How a request ends: a stream of chunks, or a rejected fetch. */
  datatype Reply = Streamed(chunks: seq<string>) | Failed

  /** One exchange: a typed text sent with the button, and its reply. */
  datatype Exchange = Exchange(text: string, reply: Reply)

  function ReplyText(r: Reply): string {
    match r
    case Streamed(cs) => Concat(cs)
    case Failed => FailureText
  }

  function ReplyEvents(r: Reply): seq<Event> {
    match r
    case Streamed(cs) => [StreamOpen] + Chunks(cs) + [StreamDone]
    case Failed => [FetchFailed]
  }

  function ExchangeEvents(x: Exchange): seq<Event> {
    [Type(x.text), SubmitButton] + ReplyEvents(x.reply)
  }

  function ConversationEvents(xs: seq<Exchange>): seq<Event> {
    if xs == [] then [] else ExchangeEvents(xs[0]) + ConversationEvents(xs[1..])
  }

  /** The transcript a conversation should leave: each text, then its reply. */
  function Expected(xs: seq<Exchange>): seq<Message> {
    if xs == [] then []
    else [Message(User, xs[0].text), Message(Assistant, ReplyText(xs[0].reply))] + Expected(xs[1..])
  }

  /** The expected transcript has two messages per exchange, user and
      assistant in strict alternation. */
  lemma {:induction false} ExpectedAlternates(xs: seq<Exchange>)
    ensures |Expected(xs)| == 2 * |xs|
    ensures forall i :: 0 <= i < |Expected(xs)| ==>
      Expected(xs)[i].role == (if i % 2 == 0 then User else Assistant)
    decreases |xs|
  {
    if xs != [] {
      ExpectedAlternates(xs[1..]);
      var e := Expected(xs);
      var rest := Expected(xs[1..]);
      forall i | 2 <= i < |e|
        ensures e[i].role == (if i % 2 == 0 then User else Assistant)
      {
        assert e[i] == rest[i - 2];
      }
    }
  }

  /** One exchange from an idle session appends its text and its reply and
      leaves the session idle. */
  lemma OneExchange(s: Session, x: Exchange)
    requires Idle(s) && !Blank(x.text)
    ensures var r := Run(s, ExchangeEvents(x));
      && r.messages == s.messages + [Message(User, x.text), Message(Assistant, ReplyText(x.reply))]
      && Idle(r) && r.input == [] && r.listening == s.listening
  {
    var t := Step(s, Type(x.text));
    assert ExchangeEvents(x) == [Type(x.text)] + ([SubmitButton] + ReplyEvents(x.reply));
    RunAppend(s, [Type(x.text)], [SubmitButton] + ReplyEvents(x.reply));
    assert Run(s, [Type(x.text)]) == t;
    match x.reply
    case Streamed(cs) =>
      assert [SubmitButton] + ReplyEvents(x.reply)
          == [SubmitButton, StreamOpen] + Chunks(cs) + [StreamDone];
      SuccessfulExchange(t, cs);
    case Failed =>
      FailedExchange(t);
      TrimEmptyIffBlank(x.text);
  }

  /** Any conversation of exchanges with texts that are not blank, started
      idle, leaves the transcript extended by exactly the expected messages
      and the session idle: 2N messages for N exchanges, in order. */
  lemma {:induction false} Conversation(s: Session, xs: seq<Exchange>)
    requires Idle(s)
    requires forall i :: 0 <= i < |xs| ==> !Blank(xs[i].text)
    ensures var r := Run(s, ConversationEvents(xs));
      && r.messages == s.messages + Expected(xs)
      && Idle(r) && r.listening == s.listening
    decreases |xs|
  {
    if xs == [] {
      assert s.messages + [] == s.messages;
    } else {
      RunAppend(s, ExchangeEvents(xs[0]), ConversationEvents(xs[1..]));
      OneExchange(s, xs[0]);
      var t := Run(s, ExchangeEvents(xs[0]));
      Conversation(t, xs[1..]);
      assert s.messages + Expected(xs)
          == (s.messages + [Message(User, xs[0].text), Message(Assistant, ReplyText(xs[0].reply))])
             + Expected(xs[1..]);
    }
  }

  /** The worked example: "hi" sent from a new component, answered in the
      chunks "He", "llo", "!", leaves exactly the two expected messages. */
  lemma HelloScenario()
    ensures var r := Run(Init([]), [Type("hi"), SubmitButton, StreamOpen,
                                    Chunk("He"), Chunk("llo"), Chunk("!"), StreamDone]);
      && r.messages == [Message(User, "hi"), Message(Assistant, "Hello!")]
      && !r.loading && r.streaming == [] && r.input == []
  {
    var x := Exchange("hi", Streamed(["He", "llo", "!"]));
    assert !Blank(x.text) by {
      assert !IsWhitespace(x.text[0]);
    }
    assert Chunks(["He", "llo", "!"]) == [Chunk("He"), Chunk("llo"), Chunk("!")];
    assert ExchangeEvents(x)
        == [Type("hi"), SubmitButton, StreamOpen, Chunk("He"), Chunk("llo"), Chunk("!"), StreamDone];
    OneExchange(Init([]), x);
    assert Concat(["He", "llo", "!"]) == "Hello!" by {
      assert ["He", "llo", "!"][1..] == ["llo", "!"];
      assert ["llo", "!"][1..] == ["!"];
      assert ["!"][1..] == [];
    }
  }
}
