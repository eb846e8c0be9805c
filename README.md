# Chat page core: turn state, audio queue, markdown clean-up

A verified Dafny model of the logic inside the chat page of the `ai-agent-js`
chat widget (`app/chat/page.jsx`). The page streams an answer from a chat
endpoint into a message history, speaks each increment of the answer through
a text-to-speech service and a playback queue, and cleans up message text
before it is rendered as markdown. Three pieces are modelled:

- **A chat turn** (`chat.dfy`, module `Chat`): submitting a question
  appends a user message and an empty assistant placeholder. The answer is
  then read frame by frame. Each decoded increment is appended to a running
  buffer, and the placeholder shows the whole buffer. The increment's
  synthesized clip goes to the audio queue. Reading stops at the first
  closing increment, at the end of the stream, or at the first failure. A
  failure (non-success status, an undecodable frame or failed read, or a
  failed synthesis) appends exactly one fixed error message and keeps the
  text already shown. `ChatSession` holds the page state: the history, the
  input box, the started flag and the audio queue.
- **The audio queue** (`audio.dfy`, module `Audio`): `AudioQueue` holds the
  clips waiting to be played and the page's "is playing" flag. Clips are
  pushed at the tail. A playback step on an empty queue clears the flag.
  Otherwise it sets the flag and takes out exactly the head. Ghost fields
  record every clip pushed and every clip taken out. The invariant `Valid()`
  says that the clips taken out, followed by those still waiting, are
  exactly the clips pushed, in push order.
- **Markdown clean-up** (`markdown.dfy`, module `Markdown`): the chain of
  eight global replacements run over a message's content. Four are literal
  patterns: an escaped newline, an escaped asterisk, an escaped quote, and
  a `##""##` artifact. Four are regular expressions. Each regular expression
  is modelled as a precise left-to-right matcher with JavaScript's greedy
  and backtracking behaviour written out. The proofs show three things.
  The last two replacements never change a string. Content with no
  backslash, `#` or quote passes the whole chain unchanged. No
  backslash-`n` pair is left after the first step.

The network and the speech service are given as data. `StartChat` takes
`ok`, whether the endpoint answered with a success status. It also takes the
sequence of events the response reader delivers: `Frame(text, isLast,
speech)` is a decoded increment together with what synthesizing its text
yields (`None` when synthesis fails), and `BadFrame` is a frame that does not
decode or a read that fails. The end of the sequence is the end of the
stream. Clips are a type parameter `C`. Starting playback of a clip is the
value `PlayNext` returns.

Where the widget's intended design and its code differ, the model follows
the code:

- There is no guard against an empty question. A turn always appends the
  two messages.
- A failed synthesis is not skipped. The page awaits the synthesis of each
  increment inside the same `try`, so the failure ends the turn with the
  error message (`SynthesisFailureEndsTurn`).
- Each frame is decoded on its own. Nothing is buffered across frames.
- Synthesis is awaited before the next frame is read. So clips reach the
  queue in the order of the increments (`SpokenOfApplied`).
- With a non-success status the history gains the question, an empty
  assistant placeholder and the error message.
- The "is playing" value checked before a playback step
  (`playingAtRender`) is fixed for the whole turn. It is the value of the
  render that was current when the turn began, for a question from the
  form or an option button. For a spoken question it is always `false`:
  the recognition handler is installed once, on the first render, and calls
  that render's `startChat`. Re-renders during the turn do not change it.
  So clips are not guaranteed to play one at a time.

## Model

| member | source | states |
|---|---|---|
| `Markdown.MatchLiteral` | app/chat/page.jsx:23-26 | a literal pattern matches at `i` exactly when it occurs there; the match spans the pattern and yields the replacement |
| `Markdown.MatchBoldLabel` | app/chat/page.jsx:27 | a match starts with two quotes, ends with colon and two asterisks at the first colon after them; the capture is non-empty, preceded only by white space, and begins where the greedy white space stops (giving back one character when needed); the replacement frames it as bold quoted label |
| `Markdown.BoldLabelFound` | app/chat/page.jsx:27 | conversely, two quotes followed by a colon-free run and a colon with two asterisks are always matched, up to the asterisks |
| `Markdown.MatchDoubledQuotes` | app/chat/page.jsx:28 | a match is two quotes, a non-empty quote-free run and two quotes; it is replaced by the run between single quotes |
| `Markdown.DoubledQuotesFound` | app/chat/page.jsx:28 | conversely, every such occurrence at `i` is matched and rewritten to the run between single quotes |
| `Markdown.MatchLabelQuote` | app/chat/page.jsx:29 | a match is a run of word characters, a colon and a quote, and it is replaced by exactly the matched text |
| `Markdown.LabelQuoteFound` | app/chat/page.jsx:29 | conversely, every such occurrence at `i` is matched |
| `Markdown.MatchBoldQuote` | app/chat/page.jsx:30 | a match is two asterisks and a quote, a quote-free run, a quote and two asterisks, and it is replaced by exactly the matched text |
| `Markdown.BoldQuoteFound` | app/chat/page.jsx:30 | conversely, every such occurrence at `i` is matched |
| `Markdown.UnmatchedCopied` | app/chat/page.jsx:23-30 | the global replacement scans left to right: characters at which no match starts are copied as they are and the scan resumes after them |
| `Markdown.ReplaceAll` | app/chat/page.jsx:23-30 | a global replacement returns a string that the pattern matches nowhere unchanged |
| `Markdown.ApplyAllAppend` | app/chat/page.jsx:22-30 | the replacements are chained: running two chains in turn is running their concatenation, each output feeding the next step |
| `Markdown.Preprocess` | app/chat/page.jsx:22-30 | the rendered content is what the eight replacements give in order, and equally what the first six give, since the last two change nothing |
| `Markdown.MatchAt` | app/chat/page.jsx:22-30 | every match consumes at least one character, lies within the string and contains the rewrite's key character; the last two rewrites replace a match by itself |
| `Markdown.Span` | app/chat/page.jsx:27-30 | the greedy run of a character class: everything before the returned index is in the class and the character at it is not |
| `Markdown.CopyingRewriteFrom` | app/chat/page.jsx:29-30 | a replacement that copies its match reproduces the rest of the string from any index |
| `Markdown.CopyingRewritesAreIdentity` | app/chat/page.jsx:29-30 | the replacements at lines 29 and 30 leave every string unchanged |
| `Markdown.KeyFreeFrom` | app/chat/page.jsx:23-30 | a rewrite leaves the string unchanged from any index past which its key character does not occur |
| `Markdown.KeyFreeApplyAll` | app/chat/page.jsx:22-30 | a chain of rewrites none of whose key characters occurs leaves the string unchanged |
| `Markdown.PlainContentUnchanged` | app/chat/page.jsx:22-30 | content without backslash, `#` or quote passes the whole chain unchanged |
| `Markdown.UnescapeNewlineFrom` | app/chat/page.jsx:23 | the first step's output from any index has no backslash-`n` pair, is empty only at the end, and starts with a newline or the copied character |
| `Markdown.NoEscapedNewlineAfterFirstStep` | app/chat/page.jsx:23 | after the first step no backslash-`n` pair remains |
| `Audio.AudioQueue.constructor` | app/chat/page.jsx:84-86 | the queue starts empty and not playing, with the FIFO invariant |
| `Audio.AudioQueue.Push` | app/chat/page.jsx:164 | a clip is appended at the tail; the flag and the clips taken out are unchanged; FIFO is kept |
| `Audio.AudioQueue.PlayNext` | app/chat/page.jsx:173-180 | on an empty queue the flag is cleared, nothing starts and the queue stays empty; otherwise the flag is set, exactly the head is started and the queue becomes its tail; FIFO is kept |
| `Audio.AudioQueue.Add` | app/chat/page.jsx:164-169 | the clip is pushed; with the captured flag set nothing else happens, otherwise the head of the grown queue is started and removed |
| `Chat.Begin` | app/chat/page.jsx:222-226 | submitting appends exactly a user message with the question and then an empty assistant message, and leaves every earlier message unchanged |
| `Chat.ShowBuffer` | app/chat/page.jsx:255-262 | the per-increment update keeps the length and every message but the last; the last shows the buffer if it is an assistant message, and nothing changes otherwise |
| `Chat.FirstStop` | app/chat/page.jsx:245-268 | the index where the loop exits (the failed read or parse, the closing increment at 267, the failed synthesis at 265, or the end of the stream at 247): every event before it keeps the loop going and the event at it, if any, stops it |
| `Chat.Fails` | app/chat/page.jsx:241-277 | the turn reaches the error handler exactly when the event it stops at is undecodable or its synthesis failed; a closing increment or the end of the stream ends it without error |
| `Chat.JoinedSplit` | app/chat/page.jsx:243-252 | the buffer after all increments is the buffer after any first `k` followed by the texts of the rest, so text once shown is never taken back |
| `Chat.SpokenOfApplied` | app/chat/page.jsx:245-268 | of the increments a turn applies, each has its clip pushed onto the queue (line 164), in stream order, except a last one whose synthesis failed |
| `Chat.Applied` | app/chat/page.jsx:245-268 | the increments shown form a prefix of the stream, are all decoded frames, and none but the last closes the answer or failed synthesis |
| `Chat.StopsAtFirstStop` | app/chat/page.jsx:245-277 | reading stops at the first undecodable, closing or unsynthesizable event (or the end of the stream): the frames before it are applied, plus the stopping frame if it decoded, and the turn fails exactly when it stopped on a bad frame or a failed synthesis; nothing after the first closing increment is applied |
| `Chat.JoinedAppend` | app/chat/page.jsx:252 | the buffer grows by concatenation: one more increment appends its text at the end |
| `Chat.SpokenAppend` | app/chat/page.jsx:264-265 | one more increment adds its clip at the end of the clips sent to the queue, or nothing when its synthesis failed |
| `Chat.SpokenMatchesApplied` | app/chat/page.jsx:264-265 | one clip is queued per applied increment, in stream order, except a last increment whose synthesis failed |
| `Chat.ThreeIncrementTurn` | app/chat/page.jsx:245-268 | increments "Hel", "lo", " world" (the last closing) leave "Hello world" in the placeholder, queue the three clips in order, and do not fail |
| `Chat.SynthesisFailureEndsTurn` | app/chat/page.jsx:252-277 | a synthesis failure on the second of three increments keeps its text, never reads the third, queues only the first clip and fails the turn |
| `Chat.ChatSession.constructor` | app/chat/page.jsx:80-82 | the page starts with an empty history, an empty input and the chat not started |
| `Chat.ChatSession.ApplyIncrement` | app/chat/page.jsx:252-265 | the buffer grows by the increment's text, the placeholder shows the grown buffer, and the increment's clip (if synthesized) is added to the audio queue |
| `Chat.ChatSession.ReadIncrements` | app/chat/page.jsx:245-268 | the loop applies every event before the first stopping one; afterwards the buffer is the concatenation of their texts, the placeholder shows it, and the queue has received their clips in order |
| `Chat.ChatSession.ReadAnswer` | app/chat/page.jsx:241-268 | after reading, the placeholder shows the concatenation of all applied increments, the failure flag is exactly `Fails`, and the queue has received the applied increments' clips in order |
| `Chat.ChatSession.StartChat` | app/chat/page.jsx:218-279 | the chat is started and the input cleared; with a failure status the history is the prior history, the question, an empty placeholder and the error message; otherwise it is the prior history, the question, the placeholder holding the applied text and, if the turn failed, one error message; the queue receives the applied clips as `Add` prescribes |

## Left out

- React rendering, JSX, the markdown renderer and its component overrides,
  animations and scrolling: user interface only.
- `fetch`, the response body reader, `TextDecoder` and `JSON.parse`: the
  model receives their results as `ok` and a sequence of events. A rejected
  `fetch` has the same effect as a failure status and is covered by `ok`. The
  model takes the `text` of every decoded frame to be a string. A frame
  whose `text` is missing, `null` or a number is not modelled: `buffer +=
  text` would coerce it and append "undefined", "null" or the number's
  digits.
- The speech service, `arrayBuffer`, `decodeAudioData`, the audio context,
  the analyser and the waveform drawing: foreign libraries and the DOM. A
  clip is opaque, and a failed synthesis is the `None` carried by its frame.
- Audio.AudioQueue.PlayNext: models the step up to taking the head out.
  Decoding and starting the clip come after that, and so does arranging for
  the step to run again when the clip ends. A decoding failure at that
  point, after the head was already removed, is not modelled.
- Asynchronous interleaving: when a clip ends and the next playback step
  runs, and turns submitted while another is still streaming. The model
  runs one turn at a time, and nothing else touches the queue during it.
  It does not claim that at most one clip plays at a time, and the code
  does not ensure it either.
- Chat.ShowBuffer: requires a non-empty history, because the page's update
  reads the type of the last message and would throw on an empty one. After
  `Begin` the history is never empty.
- Chat.ShowBuffer: models the history update on values. The code assigns
  the new content to the last message object, which the previous history
  array shares since the copy is shallow. That aliasing is not modelled.
- Speech recognition and the listening toggle, the form submit handler
  (which only calls `startChat`), and the "is playing" toggle buttons (a
  bare flag flip with no effect on the queue): browser glue.
- JavaScript strings are sequences of UTF-16 code units. The model uses
  sequences of Unicode characters. None of the patterns splits a character
  outside the Basic Multilingual Plane, so the results agree.
