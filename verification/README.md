# Honeypot-Scam client core in Dafny

This project models the client logic of the SHIELD-AI scam honeypot. The
agent talks to a suspected scammer through a persona, reads its own hidden
analysis out of each model reply, and ends the engagement with a JSON
intelligence report. The model has six parts:

- `Types.dfy`: the records of `types.ts` and the static data of `constants.tsx`.
- `Session.dfy`: each `setSession(prev => ...)` updater of `App.tsx` as a
  function from one `SessionState` to the next. These are `startSession`,
  `resetSession`, the state part of `stopCall`, the `toggleCall` guard,
  `sendMessage` and the live text append.
- `Parser.dfy`: the body of `handleAgentResponse`. It covers:
  - the history filter;
  - the terminal report branch;
  - the `INTERNAL_ANALYSIS:` split;
  - the two label regular expressions, as a hand-written greedy matcher;
  - the label updaters and the appended messages.
- `Playback.dfy`: the live call's playback scheduler as a class. It holds
  the playback cursor, the tracked sources and the connection and capture
  handles. `onmessage` (its parts in order, each part's audio and text,
  then the barge-in interruption), `onended` and `stopCall` are its
  methods.
- `Codec.dfy`: `encode`, `decode` and `decodeAudioData` as methods with
  loops over arrays. They are proved against `btoa`/`atob`, which are
  specified as base64 (section 4 of RFC 4648) and the HTML standard's
  forgiving base64 decode. The module also covers 16-bit little-endian
  PCM.
- `Gateway.dfy`: the request `processMessage` builds and the soft-failure
  contract of `generateSpeech` (`services/geminiService.ts`).
- `Text.dfy` and `Wrappers.dfy`: supporting definitions.
  - `Text.dfy` models the JavaScript string operations the handlers use: `trim`, `\s`, `indexOf`, `split`, first-occurrence `replace`, number-to-text and `parseInt`.
  - `Wrappers.dfy` defines `Option` and `Result`.

The following are parameters: the clock (`Date.now()`), the random persona
draw, the audio clock, `JSON.parse`, the remote completion call and speech
synthesis, and JavaScript's number-to-string conversion of the speech
speed.

Behaviour of the code worth knowing:

- An interruption and `stopCall` put the playback cursor back to 0. The
  next buffer then starts at `max(0, now) = now`.
- The risk score read from `CURRENT_RISK:` is any natural number; it is not
  clamped to 0-100.
- The persona timeline is not seeded with the persona chosen at start, so
  right after `startSession` the current persona is not on the timeline.
- A terminal report that arrives during a live call ends the session but
  leaves the call flag raised, so the call flag can be set on an inactive
  session (`Parser.ReportDuringCall`).
- `sendMessage` builds the new message list from the render it closed
  over and writes it over the latest state. An agent message that the live
  call appended after that render is lost (`Session.SendAfterLiveText`).
- An audio part that fails to decode rejects the whole `onmessage`
  handler: the rest of the message, and its interruption, are skipped.
- `startSession` keeps the previous `finalReport` through `...prev`. It is
  only reachable from the idle state, where there is none.

## Model

| member | source | states |
|---|---|---|
| Types.PersonaNames | constants.tsx:42-51 | the persona names are the library's names, in library order |
| Session.PersonaIndex | App.tsx:128 | `Math.floor(random * length)` for a draw in [0, 1) is a valid index into the persona library |
| Session.StartSession | App.tsx:112-136 | the session becomes active, not terminated, with no call. Messages are empty, or one scammer message holding the template's opening text. Risk is 40 with a template and 0 without. The persona is a library name. Timeline and entities are empty. Voice settings, behavioural signals and the report are carried over. A cycle is started on the opening history exactly when there is a template |
| Session.StopCall | App.tsx:166 | the call flag is cleared and nothing else changes |
| Session.StopCallIdempotent | App.tsx:154-167 | a second teardown changes nothing |
| Session.ResetSession | App.tsx:138-152 | the state is the initial state except that the voice configuration is kept; the report is gone |
| Session.ToggleCall | App.tsx:180-193 | the guards read the render the handler closed over, and the updates apply to the latest state. Nothing happens when the render shows no active session. When it shows an open call, the call is hung up through `stopCall`. Otherwise the call flag is raised and the connection is dialled. Only the call flag changes |
| Session.ToggleFlips | App.tsx:180-193 | when the render is the latest state, toggling an active session flips the call flag, and toggling an inactive one leaves it alone |
| Session.SendMessage | App.tsx:298-305 | input that trims to nothing leaves the state alone and starts no cycle. Otherwise the new message list is the render's messages followed by exactly one scammer message with the untrimmed input. It replaces the latest state's messages, nothing else changes, and a cycle starts on that list |
| Session.SendAfterLiveText | App.tsx:261-265 | an agent message appended by the live call after the render is overwritten by a send made from that render: the sent list has the scammer message where the agent message stood |
| Session.AppendLiveText | App.tsx:261-265 | a non-empty text part appends one agent message with that text at the end; nothing else changes |
| Session.UpdatersKeepConsistency | App.tsx:112-166 | the initial state and a reset state satisfy the invariants: a report exists exactly when terminated, never both active and terminated, a timeline without duplicates. Start from idle, stop, toggle, send and live text keep them |
| Parser.StartsWithBrace | App.tsx:315 | the trimmed reply opens with `{` exactly when the first character that is not white space is `{` |
| Parser.Terminal | App.tsx:315-317 | a reply ends the session when it opens with `{` and decodes; the effect is stated by `Parser.HandleResponse` |
| Parser.ModelHistory | App.tsx:311 | the history sent to the model has no internal turn, and every turn is a non-internal message's role and content |
| Parser.ModelHistoryAppend | App.tsx:311 | a new message adds its turn at the end of what the model sees, unless it is internal |
| Parser.SanitizedEntities | App.tsx:318-324 | each of the five entity lists is the reported one, or empty when it or the whole object is missing |
| Parser.ApplyReport | App.tsx:325-332 | the session is terminated and inactive with the report. Risk is the report's when present and non-zero, otherwise the previous risk. Entities are replaced. Messages, persona, timeline, call flag, voice and signals are unchanged |
| Parser.HandleResponse | App.tsx:315-335 | a reply whose trimmed text opens with `{` and decodes ends the session with the report and plays nothing. Any other reply, including one that fails to decode, is handled as a persona reply |
| Parser.AnalysisText | App.tsx:337-338 | without the marker there is no analysis, and the analysis holds neither a marker nor a blank line |
| Parser.PersonaText | App.tsx:339 | the reply is no longer than the response and neither starts nor ends with white space |
| Parser.AnalysisAfterMarker | App.tsx:337-338 | after the first marker, the analysis is the text up to the first later marker or blank line, or to the end when there is neither |
| Parser.NoMarkerReply | App.tsx:337-339 | without the marker there is no analysis and the reply is the whole response, trimmed |
| Parser.ReplyWithoutAnalysis | App.tsx:339 | with the first marker at `i`, the reply is the text before it joined to the text after the analysis, trimmed |
| Parser.Find | App.tsx:344 | the matcher returns the leftmost greedy match of `LABEL\s*(X+)`, and none exactly when no position matches |
| Parser.FindFrom | App.tsx:344 | the first greedy match at or after a position, or a proof that there is none |
| Parser.MatchHereCorrect | App.tsx:344 | at a label occurrence, the match taken is the one with the longest white-space run followed by the longest class run |
| Parser.FindWholeRun | App.tsx:344 | a match at the first label occurrence, with maximal white space and maximal group, is the one reported |
| Parser.CurrentRisk | App.tsx:344-345 | the risk read from the analysis; `Parser.RiskIsFirstMatch` states which match it is |
| Parser.TargetPersona | App.tsx:346-348 | the persona read from the analysis; `Parser.PersonaIsFirstMatch` states which match it is |
| Parser.RiskIsFirstMatch | App.tsx:344-345 | the risk read is the `parseInt` value of the first match's digits, and is absent exactly when nothing matches |
| Parser.RiskAcrossLineBreak | App.tsx:344-345 | `\s*` crosses a line break and the whole digit run is read, unclamped (250) |
| Parser.PersonaIsFirstMatch | App.tsx:346-348 | the persona read is the first match's rest of line, trimmed, and is absent exactly when nothing matches |
| Parser.PersonaCanBeEmpty | App.tsx:346-348 | when only spaces follow the label, the backtracking engine gives one space to the group, so the persona read is empty |
| Parser.NoLabelsWithoutAnalysis | App.tsx:342-351 | an empty analysis yields neither label, so skipping the updaters for it changes nothing |
| Parser.ApplyPersona | App.tsx:349 | the persona becomes current and joins the timeline at the end only if absent. Earlier entries are kept, no duplicate is added, and nothing else changes |
| Parser.ApplyPersonaIdempotent | App.tsx:349 | naming the same persona twice has the effect of naming it once |
| Parser.AnalysisUpdates | App.tsx:344-350 | a found risk replaces the score and a found persona goes through the persona updater. A missing label leaves its fields alone, and nothing else changes |
| Parser.ReplyAudio | App.tsx:353-356 | speech is requested only when call mode is on and no live call is open, judged on the state the cycle started from |
| Parser.ReplyMessages | App.tsx:341-343 | an internal message with the trimmed analysis comes first exactly when the analysis is non-empty. The last message is always the agent message with the reply and its audio |
| Parser.HandleReply | App.tsx:337-360 | the new state is the label updates followed by the reply messages appended at the end. A payload is played exactly when the audio is present and non-empty |
| Parser.HandleAgentResponse | App.tsx:307-364 | the filtered history goes to the gateway with the starting state's voice settings. A transport failure changes nothing; a reply is handled as above |
| Parser.PlainReply | App.tsx:337-359 | a reply without the marker appends exactly one agent message with the trimmed reply and changes nothing else |
| Parser.NormalReplyExample | App.tsx:315-359 | a plain sentence becomes one agent message with that sentence |
| Parser.MarkedReply | App.tsx:337-359 | with the marker at `i`, the last new message holds the text before the marker joined to the text after the analysis, trimmed |
| Parser.ReplyKeepsConsistency | App.tsx:337-359 | a persona reply keeps the session invariants |
| Parser.CycleKeepsConsistency | App.tsx:307-364 | every response cycle keeps the session invariants |
| Parser.ReportDuringCall | App.tsx:325-332 | a report during a live call leaves the call flag raised on an inactive session, and `toggleCall` then ignores the hang-up |
| Playback.Duration | App.tsx:256 | a buffer's duration at 24000 frames per second is non-negative, zero exactly for zero frames and positive for a whole frame |
| Playback.NextStart | App.tsx:252 | `Math.max(cursor, now)` is at least both and is one of them |
| Playback.Starts | App.tsx:251-257 | every buffer starts no earlier than it arrived |
| Playback.CursorAdvances | App.tsx:252-257 | the cursor never moves back, and every scheduled buffer has ended by the cursor |
| Playback.InOrderWithoutOverlap | App.tsx:252-257 | consecutive buffers do not overlap. A buffer either follows the previous one back to back or starts when it arrived |
| Playback.ScheduleOneMore | App.tsx:252-257 | one more buffer starts at the later of the cursor and its arrival, and moves the cursor by its duration |
| Playback.LiveCall.OnAudio | App.tsx:251-258 | for a decoded buffer of positive duration, the new source starts at `max(cursor, now)`, which is its start in the schedule. The cursor becomes its end and never moves back. The source takes the next id, which no tracked source holds, and is added to the tracked set; the handles are unchanged |
| Playback.AudioFrames | App.tsx:250 | a payload yields frames exactly when it decodes to an even number of at least two bytes, and then it yields half the byte count |
| Playback.Handled | App.tsx:248-266 | the parts handled are those before the first part whose audio throws; none of them throws, and the next one does |
| Playback.HandledAt | App.tsx:248-266 | among the parts up to the first that throws, the next part is handled exactly when it does not throw |
| Playback.PartArrivals | App.tsx:249-257 | a part that does not throw schedules one buffer when it carries audio and none otherwise |
| Playback.Scheduled | App.tsx:248-258 | parts that do not throw schedule at most one buffer each |
| Playback.LiveTexts | App.tsx:261-265 | at most one text per part, and none empty |
| Playback.ScheduledLength | App.tsx:249-258 | handled parts schedule exactly one buffer for each part that carries audio |
| Playback.TrackNewSource | App.tsx:249-258 | a part that tracks at most the next id adds exactly the ids handed out, and the sources keep every id handed out since the start of the message |
| Playback.PrefixStep | App.tsx:248-266 | one more handled part extends the texts and the schedule by its own text and buffer |
| Playback.LiveCall.OnPart | App.tsx:249-265 | a part is handled exactly when its audio does not throw. A throwing part changes nothing. A handled part with audio schedules its buffer at the end and returns its new source, which takes the next id and is added to the tracked set; a part without audio leaves the sources and the id counter alone |
| Playback.LiveCall.HandlePart | App.tsx:248-266 | after the parts before it, the next part is handled exactly when it comes before the first throwing part, and the schedule and the texts then cover it too. The id counter moves by one exactly for a handled part with audio, and the sources gain exactly the ids handed out |
| Playback.LiveCall.OnMessage | App.tsx:247-273 | the parts are handled in order up to the first whose audio throws. The texts returned are those of the handled parts, and the schedule gains their buffers in order. One id is handed out per handled part with audio, and without an interruption the sources gain exactly those ids. A signalled interruption is applied only when no part threw, and then stops every source and puts the cursor back to 0 |
| Playback.LiveCall.OnEnded | App.tsx:259 | the ended source is no longer tracked and nothing else changes, the id counter included |
| Playback.LiveCall.Interrupt | App.tsx:269-273 | every tracked source is stopped, the set is emptied and the cursor is 0; the call stays up and ids are not reused |
| Playback.LiveCall.StopCall | App.tsx:154-165 | the connection is closed and the capture released when held. Every tracked source is stopped, the cursor is 0, and apart from the id counter, which is kept, the state reached does not depend on the state found |
| Playback.LiveCall.AttachCapture | App.tsx:205-206 | the capture handle is held and nothing else changes |
| Playback.LiveCall.AttachConnection | App.tsx:291 | the connection handle is held and nothing else changes |
| Playback.BackToBack | App.tsx:251-257 | three buffers arriving together play back to back |
| Playback.InterruptedThird | App.tsx:251-273 | an interruption stops exactly the two tracked buffers, and the next buffer starts on arrival |
| Playback.LateEnded | App.tsx:258-273 | the end of a source stopped by an interruption, reported after a new buffer was scheduled, leaves the new source tracked |
| Codec.AlphabetBijection | App.tsx:23 | the base64 alphabet's character and value maps are inverse |
| Codec.SextetsLength | App.tsx:23 | four sextets per three bytes and two or three for a short last group, never one more than a multiple of four |
| Codec.EncodeBase64 | App.tsx:23 | `btoa` output has four characters per started group of three bytes |
| Codec.DecodedLength | App.tsx:27 | decoding gives three bytes per four sextets, rounded down |
| Codec.DecodeSextetsInverse | App.tsx:23-27 | the bytes come back from their sextets |
| Codec.StripWhitespace | App.tsx:27 | the forgiving decode's first step leaves no white space, never lengthens the text, and leaves text without white space alone |
| Codec.StripPadding | App.tsx:27 | its second step keeps a prefix and drops at most `==` from the end, and drops something exactly when the length is a multiple of four and the text ends with `=` |
| Codec.DecodeBase64 | App.tsx:27 | the forgiving decode fails exactly when the stripped text's length is one more than a multiple of four or holds a character outside the alphabet |
| Codec.DecodeIgnoresWhitespace | App.tsx:27 | white space anywhere in the text is ignored |
| Codec.StripEncoded | App.tsx:23-27 | encoded text has no white space, and dropping its padding leaves exactly the alphabet characters |
| Codec.DecodeEncode | App.tsx:17-34 | decoding the encoding gives back the bytes |
| Codec.Rfc4648ShortVectors | App.tsx:23 | the RFC 4648 vectors "", "f" and "fo" |
| Codec.Rfc4648LongVectors | App.tsx:23 | the RFC 4648 vectors "foo" and "foob" |
| Codec.WholeGroupVector | App.tsx:27 | "Zm9v" decodes to "foo" |
| Codec.WhiteSpaceVector | App.tsx:27 | "Zm 9v" followed by a line break decodes to "foo" |
| Codec.StripAppend | App.tsx:27 | white space is removed piece by piece |
| Codec.UnpaddedVector | App.tsx:27 | "Zg" without padding decodes to "f" |
| Codec.RefusedVectors | App.tsx:27 | a lone character and a character outside the alphabet are refused |
| Codec.Latin1 | App.tsx:20-22 | the binary string has one character per byte, with that byte as its code |
| Codec.Btoa | App.tsx:23 | `btoa` fails exactly when some character is above U+00FF |
| Codec.Atob | App.tsx:27 | `atob` fails exactly when the decode does, and otherwise gives the binary string of the bytes |
| Codec.BinaryRoundTrip | App.tsx:17-34 | `btoa` never fails on a binary string, and `atob` undoes it |
| Codec.Encode | App.tsx:17-24 | the loop builds the binary string, and the result is the base64 encoding of the bytes |
| Codec.Decode | App.tsx:26-34 | a text `atob` refuses gives no array. Otherwise a new array holds exactly the decoded bytes |
| Codec.StoreCodes | App.tsx:29-32 | a new array of the text's length holds each character code modulo 256 |
| Codec.DecodeAfterEncode | App.tsx:17-34 | `decode(encode(bytes))` is a copy of the bytes |
| Codec.Int16At | App.tsx:42 | a little-endian 16-bit sample is in [-32768, 32768) |
| Codec.Int16RoundTrip | App.tsx:42 | reading and writing a sample are inverse |
| Codec.Samples | App.tsx:42 | the samples of the data, two bytes each |
| Codec.Normalize | App.tsx:48 | `sample / 32768.0` lies in [-1, 1) and keeps the sign |
| Codec.Channel | App.tsx:43-48 | a channel has `samples / channels` frames |
| Codec.EverySampleOnce | App.tsx:43-48 | every sample of a whole frame is frame `k / n` of channel `k % n`, and only a partial last frame is dropped |
| Codec.SampleOfFrame | App.tsx:48 | frame `i` of channel `c` is sample `i * n + c` |
| Codec.DecodeAudioData | App.tsx:36-52 | an odd byte count fails. No channel or no whole frame fails. Otherwise a new buffer of `channels x frames` holds the normalized sample `i * n + c` at channel `c`, frame `i` |
| Codec.ExtremeSamples | App.tsx:42-48 | the most negative and most positive samples map to -1 and 32767/32768 |
| Gateway.RoleTag | services/geminiService.ts:44 | a role maps to `user` exactly when it is the scammer's, and to `model` otherwise |
| Gateway.VoiceContext | services/geminiService.ts:47 | the settings line is the voice, speed, accent and call-mode labels in that order, each followed by its value: the voice name, the speed as text, the accent, and `true` or `false` |
| Gateway.LayoutFields | services/geminiService.ts:47 | a line laid out from labels and values holds each label followed by its value, in order |
| Gateway.VoiceNameFirst | services/geminiService.ts:47 | the voice name stands right after the opening label |
| Gateway.VoiceContextIgnoresLanguageStyle | services/geminiService.ts:47 | the language style does not appear in the settings line |
| Gateway.BuildRequest | services/geminiService.ts:42-59 | the model name is fixed, the temperature is 0.8 and top-p is 0.95, and there are two more contents than history entries. The first is the user configuration turn with the system directive and the settings line, and the second is the model acknowledgement. Content `k + 2` carries entry `k`'s text, with role `user` exactly for the scammer |
| Gateway.ProcessMessage | services/geminiService.ts:40-63 | a transport failure reaches the caller, and a success carries the reply text of the completion call made with the built request |
| Gateway.GenerateSpeech | services/geminiService.ts:65-86 | a failure yields no payload instead of an error; otherwise the reply's payload, if any |
| Text.TrimStart | App.tsx:299 | `trimStart` drops exactly the leading white space |
| Text.TrimEnd | App.tsx:299 | `trimEnd` drops exactly the trailing white space |
| Text.Trim | App.tsx:299 | `trim` leaves the infix that neither starts nor ends with white space, flanked only by white space |
| Text.TrimEmpty | App.tsx:299 | trimming leaves nothing exactly when the text is all white space |
| Text.IndexOfFrom | App.tsx:337 | `indexOf` finds the first occurrence at or after the start, or reports that there is none |
| Text.Split | App.tsx:337 | `split` gives at least one piece, and no piece holds the separator |
| Text.JoinSplit | App.tsx:337 | joining the pieces of `split` with the separator gives back the text |
| Text.SplitFirstPiece | App.tsx:337-338 | the first piece of `split` is the text up to the first separator, and there is a second piece exactly when the separator occurs |
| Text.ReplaceFirst | App.tsx:339 | without an occurrence the text is unchanged. Otherwise the text before the first occurrence is kept, the replacement follows it, and putting the pattern back in its place gives the text |
| Text.DigitsValue | App.tsx:345 | `parseInt` of a run of digits is zero exactly when every digit is `0` |
| Text.NatText | App.tsx:116 | `toString` of a natural number is a non-empty run of digits without a leading zero |
| Text.DigitsValueOfNatText | App.tsx:345 | `parseInt` reads back what `toString` wrote |

## Left out

- The React rendering, scrolling and the API-key dialog: user interface, not logic.
- The live connection setup and microphone capture, including the float to 16-bit conversion of captured audio. These are device and network calls; the scheduler only sees their outcomes through `AttachCapture` and `AttachConnection`.
- `JSON.parse`, the remote completion and speech calls, and the number-to-string conversion of the speed are oracles passed in as functions. Their internals are not modelled.
- The regular-expression engine is replaced by a hand-written matcher for the two patterns used. It is proved to find the leftmost greedy match.
- Concurrency:
  - overlapping response cycles and the ordering of queued updaters across awaits are not modelled;
  - the state a cycle reads (`session` in the handler) is a separate `view` parameter standing for the render the handler closed over;
  - each handler other than `onmessage` reads the clock once.
- The `isProcessing` flag and `setInput('')`: UI state.
- Playback.LiveCall.OnAudio: a playing source is an `AudioBufferSourceNode` object; the model names it by a counter that hands out a new id each time, which stands for object identity.
- Playback.LiveCall.OnMessage: the texts of the handled parts are returned for `Session.AppendLiveText` instead of being queued as updaters, and the audio clock is a parameter read once per part.
- `api/honeypot.js` is not part of this model.
- Strings are sequences of Unicode scalar values, not UTF-16 code units.
- Codec.Int16At: the byte order of an `Int16Array` view is that of the platform; the model fixes little-endian.
- Codec.DecodeAudioData: the browser's limits on sample rate and channel count in `createBuffer` are not modelled. Only the two failures that do not depend on the platform are.
- Text.DigitsValue: `parseInt` rounds above 2^53; the model reads the exact natural number.
- Types.SessionReport: a non-integer or non-numeric `risk_score` is not modelled; the field is an optional integer.
- Gateway.ProcessMessage: a reply whose `text` is undefined is folded into the transport failure, which the handler catches in the same way.
- Codec.DecodeSextets: a lone final sextet yields no byte. `DecodeBase64` refuses such input before it is reached, so its behaviour there is not part of the contract.
