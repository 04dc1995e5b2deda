# LYLA chat session — a Dafny model

LYLA is a browser chat client built as one React component, `MainComponent`.
It keeps a transcript of user and assistant messages and a draft input. It
posts the transcript to an assistant endpoint and shows the reply while it
streams in. When the stream ends, the reply becomes a permanent assistant
message. It can also take one spoken utterance and send it as a message.

This project models the component's state machine as pure Dafny functions.

- `Text` (`text.dfy`): the whitespace test behind `text.trim()`. It has
  `Trim` itself and the fact that the trimmed text is empty exactly when the
  text is blank.
- `Chat` (`session.dfy`): the six pieces of component state, plus the open
  stream's running total, as a `Session` value, and one `Event` per callback
  that changes them.
  - `SendMessage` is `sendMessage`. It returns the next state and, when the
    send is accepted, the message list posted as the request body.
  - `Finish` is `handleFinish`.
  - `Step` applies one event, and `Run` applies a sequence of events.
  - `MoodColor` is the mood-to-background lookup.
- `ChatProperties` (`properties.dfy`): properties of single events and of
  arbitrary event sequences:
  - the transcript is append-only;
  - the mood is always neutral;
  - chunks accumulate in arrival order;
  - a successful or failed exchange leaves exactly two new messages;
  - N exchanges leave 2N messages that alternate user/assistant.

Modelling choices:

- Each callback is one atomic `Step` on the current state. React's batching,
  scheduling and stale closures are not modelled.
- Two values in `sendMessage` come from the handler's closure. One is the
  draft it falls back to (`inputMessage`). The other is the transcript it
  posts (`messages`). Both are taken from the state before the event. On a
  voice result, `setInputMessage(transcript)` runs first. `sendMessage` still
  reads the earlier draft. So `Step` on `VoiceResult(t)` is
  `SendMessage(s.(input := t), s.input, Some(t))`.
- `handleStreamResponse` keeps a local running total `chunk`, starting at
  `""` (line 39), and publishes it as `streamingMessage` after each read. The
  model keeps that local in the extra `Session` field `received`. The event
  `StreamOpen` is the response arriving and the reader loop starting: it
  resets `received` and leaves the published text alone. `Chunk(c)` appends
  `c` to `received` and publishes the total. `StreamDone` finishes with
  `received`. So a stream that died part-way cannot leak its text into the
  next reply.
- The mood is a string, as in the source. The component only ever stores
  `"neutral"`. `MoodColor` keeps the `"bg-gray-800"` fallback that line 100
  uses for names missing from the map.
- `Text.IsWhitespace` is the set of characters ECMAScript's `trim` removes.
  That is the WhiteSpace production plus the LineTerminator production, with
  the Unicode space separators of current Unicode.
- Strings are sequences of Unicode scalar values. JavaScript strings are
  UTF-16 code units. The one non-ASCII constant, the failure text's emoji, is
  written here as its four code points.
- One might expect a busy guard that rejects every new send. The code
  guards only the send button. Enter sends a non-blank draft even while
  a reply is streaming. The model follows the code, and
  `ChatProperties.EnterIgnoresBusy` states the behaviour. Likewise the
  failure path neither resets the streamed text nor touches the mood, and the
  model follows the code there too.

## Model

| member | source | states |
|---|---|---|
| `Text.TrimStartSpec` | MainComponent.jsx:74 | Trimming the start leaves a suffix that does not begin with whitespace; everything dropped was whitespace. |
| `Text.TrimEndSpec` | MainComponent.jsx:74 | Trimming the end leaves a prefix that does not end with whitespace; everything dropped was whitespace. |
| `Text.TrimSpec` | MainComponent.jsx:74 | `trim()` keeps the contiguous piece between the leading and trailing whitespace. That piece neither starts nor ends with whitespace, and both cut-off sides are blank. |
| `Text.TrimEmptyIffBlank` | MainComponent.jsx:74 | The guard `!text.trim()` holds exactly when every character of the text is whitespace (both directions). |
| `Chat.Init` | MainComponent.jsx:6-12 | A new component starts from the given initial transcript. The draft and streamed text are empty, it is neither loading nor listening, and the mood is `"neutral"`. No stream total exists yet. |
| `Chat.MoodColor` | MainComponent.jsx:14-21 | The background is the fallback class exactly when the mood name is not one of the six mapped moods. Otherwise it is that mood's class. The fallback is applied at line 100. |
| `Chat.SelectText` | MainComponent.jsx:73 | The or-expression of `voiceMessage` and `inputMessage`: a non-empty voice transcript is used, otherwise the draft. The selection is empty only when both are. Its effect on sends is stated by `ChatProperties.VoiceActsLikeTyping` and `ChatProperties.EmptyVoiceFallsBackToDraft`. |
| `Chat.SendMessage` | MainComponent.jsx:72-97 | A blank selected text changes nothing and posts nothing, and the send is accepted exactly when the text is not blank. An accepted send appends exactly one untrimmed user message and keeps all earlier messages. It clears the draft and sets loading, and leaves the streamed text, microphone flag and mood alone. The posted body equals the transcript after the append. |
| `Chat.Finish` | MainComponent.jsx:23-28 | Finishing appends exactly one assistant message with the given text and keeps the earlier messages. It clears the streamed text, ends loading and sets the mood to neutral. The draft and microphone flag are untouched. |
| `Chat.ButtonEnabled` | MainComponent.jsx:136 | The button's `disabled` expression negated: enabled exactly when not loading and the draft is not blank. Its effect on clicks is stated by `ChatProperties.SendButtonGuard`. |
| `Chat.Request` | MainComponent.jsx:84-88 | Only Enter, the button and a voice result post. A posted body is the transcript before the event followed by one user message. `ChatProperties.RequestIsTranscriptAfterSend` ties it to the transcript the event leaves. |
| `Chat.Step` | MainComponent.jsx:23-136 | Every callback either leaves the transcript alone or appends one message at its end. The mood only ever stays or becomes neutral. Only the recognition callbacks change the microphone flag: start sets it, error and end clear it, nothing else changes (lines 57, 64, 65). Typing only replaces the draft (line 130). A rejected request only appends the failure text and ends loading (lines 90-95). Opening a stream only resets its running total (line 39). A chunk only extends that total and publishes it (lines 44-45). |
| `ChatProperties.TranscriptAppendOnly` | MainComponent.jsx:23-96 | Over any event sequence the earlier transcript stays as a prefix, and it grows by at most one message per event. |
| `ChatProperties.StaysNeutral` | MainComponent.jsx:12-27 | Once the mood is neutral, no event sequence changes it. |
| `ChatProperties.AlwaysNeutral` | MainComponent.jsx:12-27 | From a new component, after any events, the mood is `"neutral"` and the background class is `"bg-gray-700"`. |
| `ChatProperties.BlankSendIsNoOp` | MainComponent.jsx:72-74 | With a blank draft, Enter and the button change nothing and post nothing. A voice result whose selected text is blank only leaves its transcript in the draft. |
| `ChatProperties.RequestIsTranscriptAfterSend` | MainComponent.jsx:75-87 | A posted request is the earlier transcript followed by one user message, and equals the transcript the event leaves. A request is posted exactly when the event appends a user message. |
| `ChatProperties.VoiceActsLikeTyping` | MainComponent.jsx:58-62 | A voice transcript that is not blank is sent verbatim and the draft ends empty. The state and request are the same as typing the text and pressing Enter. |
| `ChatProperties.EmptyVoiceFallsBackToDraft` | MainComponent.jsx:72-73 | An empty voice transcript is not truthy, so the draft is sent instead. With a draft that is not blank this is exactly Enter. |
| `ChatProperties.SendButtonGuard` | MainComponent.jsx:136 | The button is enabled exactly when not loading and the draft is not blank. Enabled, it acts as Enter. Disabled, it changes nothing and posts nothing. |
| `ChatProperties.EnterIgnoresBusy` | MainComponent.jsx:131-136 | While loading, Enter with a draft that is not blank still appends the user message and posts a second request. The disabled button does nothing. |
| `ChatProperties.ChunksAccumulate` | MainComponent.jsx:39-46 | After chunks c1..ck the stream's running total is the earlier total followed by c1+…+ck in arrival order, and (for k > 0) that total is what is published. Nothing else in the session changes. |
| `ChatProperties.RunningTotal` | MainComponent.jsx:39-45 | After a stream opens, the first k ≥ 1 chunks publish exactly the concatenation of those k chunks. |
| `ChatProperties.StreamThenFinish` | MainComponent.jsx:36-47 | From any state, a stream that opens, delivers its chunks and ends adds exactly one assistant message holding the whole concatenation, whatever an abandoned earlier stream left behind. It then clears the published text, ends loading and sets the mood to neutral. |
| `ChatProperties.SuccessfulExchange` | MainComponent.jsx:23-89 | From a session that is not loading, with a draft that is not blank: button, stream open, chunks, end. The transcript is extended by exactly the user message and the full reply, and the session is idle. |
| `ChatProperties.FailedExchange` | MainComponent.jsx:83-96 | A send followed by a failed request extends the transcript by exactly the user message and the fixed failure text. It ends loading and leaves the streamed text and mood as they were. |
| `ChatProperties.ExpectedAlternates` | MainComponent.jsx:75-93 | The transcript expected from N exchanges has 2N messages, user and assistant in strict alternation. |
| `ChatProperties.OneExchange` | MainComponent.jsx:23-96 | Typing a text that is not blank and sending it from an idle session, then a streamed or failed reply, appends exactly that text and its reply. The session is left idle with an empty draft. |
| `ChatProperties.Conversation` | MainComponent.jsx:23-96 | Any sequence of such exchanges from an idle session extends the transcript by exactly the expected user/reply pairs, in order. The session is left idle. |
| `ChatProperties.HelloScenario` | MainComponent.jsx:23-89 | Sending "hi" from a new component, answered in the chunks "He", "llo", "!", leaves exactly `[user "hi", assistant "Hello!"]`, not loading, with nothing streamed and an empty draft. |

## Left out

- Network: `fetch`, the request method, headers, JSON encoding and the endpoint path are not modelled. The request is the message list `SendMessage` returns.
- Response body: the body reader and the streaming UTF-8 `TextDecoder` are not modelled. Chunks arrive as already-decoded strings in `Chunk` events.
- Stream errors: `handleStreamResponse` is not awaited (line 89), so an error while reading the stream never reaches the `catch`. No event models it: the stream simply delivers no more events. A stream that fails or never ends leaves `loading` true and its last published text on screen, as in the code.
- Speech recognition: creating and configuring the recognizer, the capability check and its `alert` (lines 51-56, 66-69) are platform calls. Only their callbacks are modelled, as `RecStart`, `VoiceResult`, `RecError` and `RecEnd`.
- Speech synthesis and clipboard (lines 30-34): fire-and-forget platform calls that do not touch the session state.
- The `onMessageSend` callback (line 81): a foreign call whose effect cannot be seen here.
- Rendering (lines 99-142), apart from the send button's enable condition and the mood background lookup.
- React: scheduling, batching, stale closures, and interleaved overlapping exchanges. Events are applied one at a time, each to the current state.
- `Chat.Step`: models one open stream at a time. Two reader loops running at once, each with its own local total, are not modelled.
- `Chat.MoodColor`: does not model JavaScript property lookup through the object prototype (for example the name `"toString"`). Only the six own keys map to a class. Nothing in the component can set such a name.
- `Text.TrimStart`, `Text.TrimEnd`, `Text.Trim`: their own contracts state only that the result is no longer than the input. Their full meaning is stated by `Text.TrimStartSpec`, `Text.TrimEndSpec` and `Text.TrimSpec`.
