# Chat, debugging and document-parsing front end: a Dafny model

The system is a React front end for a retrieval-augmented chat assistant.
The front end has four parts:

- A chat page. It streams answers over Server-Sent Events from `/chat`,
  retries failed requests, and rebuilds a debug record for every exchange.
- A debug panel. It groups those records by conversation.
- A samples page. Saved exchanges are selected there and sent off for training.
- A document-parsing workspace: a table of uploaded documents with filters,
  a date-range picker, an upload dialog, and a detail view with a section
  sidebar and type filters.

Two notification channels report version, training and optimisation
progress: an SSE service and a WebSocket service.

This project models the logic behind those parts as pure Dafny functions over
immutable datatypes, and proves what each step promises:

- the framing of the byte stream into events, and the round trip from an
  event to its wire text;
- that read boundaries do not change what the stream produces;
- that the accumulated answer is always the latest one received;
- the heartbeat and stall timers, and the bound on retries;
- the reconstruction of the debug record from a snapshot;
- the connection bookkeeping of both channels;
- the chat, debug and sample page state changes;
- filtering, paging, the calendar grid, and the sidebar tree.

Things the code gets from the runtime are parameters of the model:

- `parse: string -> Option<Json>` stands for `JSON.parse`, where `None` means it threw;
- `scan` stands for the tool-call regular expression;
- `decode` stands for `decodeURIComponent`;
- `day`/`format` convert date strings to and from day numbers;
- clock readings are plain integers.

Modules:

| module | file | what it covers |
|---|---|---|
| `Wrappers`, `Json`, `Text` | wrappers.dfy, json.dfy, text.dfy | `Option`; JSON values with JavaScript truthiness; trim, split, join, search, lower-casing, `slice`, decimal printing |
| `SseFrame` | sse_frame.dfy | `parseSSEData`: `data:` lines, continuation lines, `[DONE]`; the `\n\n` frame buffer |
| `Sections` | sections.dfy | `parseContent` / `extractSection`: the `[[ ## reasoning ## ]]`, `[[ ## answer ## ]]` and `[[ ## completed ## ]]` markers |
| `History`, `Records` | history.dfy, records.dfy | prompt-history truncation, token estimates, recall extraction, `parseWebSocketMessage`, the full-snapshot record |
| `Stream`, `ReadLoop`, `Retry` | stream.dfy, read_loop.dfy, retry.dfy | the `sendMessage` generator: frame fold, heartbeat, read loop, completion, retries |
| `Channel`, `SseService`, `WsService` | channel.dfy, sse_service.dfy, ws_service.dfy | the two notification services |
| `ChatApp`, `ChatPanel` | chat_app.dfy, chat_panel.dfy | the chat state in `App.jsx` and what the chat panel renders |
| `DebugPanel`, `SamplesPage` | debug_panel.dfy, samples_page.dfy | debug grouping, sorting, expansion, collapsing and saving; sample paging, selection, deletion and training |
| `DocFilter`, `DateRange`, `DocTable`, `DocParsing`, `NewDocModal` | doc_filter.dfy, date_range.dfy, doc_table.dfy, doc_parsing.dfy, new_doc_modal.dfy | the document list page |
| `Pager` | pager.dfy | the back/forward buttons both pagers share |
| `DocSidebar`, `DocDetails`, `Toggles` | doc_sidebar.dfy, doc_details.dfy, toggles.dfy | the document detail view |

## Model

| member | source | states |
|---|---|---|
| Json.Get | src/api.js:115-186 | a field lookup succeeds exactly on an object that has the key, and then yields that field's value |
| Json.FieldOr | src/api.js:115-186 | `obj.key \|\| fallback`: the field when it is truthy, otherwise the fallback |
| Json.TextFieldOr | src/api.js:115-186 | a string field is used only when it is a non-empty string, otherwise the fallback |
| Text.Trim | src/api.js:189-199 | the trimmed text is a slice of the input with only white space cut from either end, and it neither starts nor ends with white space |
| Text.TrimEmptyIffBlank | src/App.jsx:154 | trimming gives the empty string exactly when the text is all white space |
| Text.IndexOf | src/api.js:201-212 | a reported position is at or after the start and the pattern occurs there |
| Text.IndexOfFirst | src/api.js:201-212 | the reported position is the first occurrence, and no position matches when none is reported |
| Text.ContainsIff | src/components/DocumentParsingPage.jsx:113-133 | `includes` holds exactly when the pattern occurs at some position |
| Text.Split | src/App.jsx:154 | `split` always yields at least one piece |
| Text.SplitPiecesFree | src/App.jsx:154 | no piece of a split contains the separator |
| Text.JoinSplit | src/App.jsx:154 | joining the pieces of a split with the same separator gives back the text |
| Text.SplitJoin | src/App.jsx:154 | splitting a join of separator-free pieces gives back the pieces |
| Text.ToLower | src/components/DocumentParsingPage.jsx:113-133 | lower-casing keeps the length and maps every character |
| Text.NatToString | src/components/DocumentDetails.jsx:29-34 | the decimal text of a number is non-empty and made of digits |
| Text.NatToStringRoundTrip | src/components/DocumentDetails.jsx:29-34 | reading the printed digits back gives the number |
| Text.NatToStringInjective | src/components/DocumentDetails.jsx:29-34 | different numbers print differently |
| Text.ExtensionNotLe | src/components/DocumentParsingPage.jsx:113-133 | a string with a non-empty extension never compares `<=` to its prefix |
| Text.JsSliceInRange | src/components/DocumentParsingPage.jsx:107-111 | with both ends in range, `slice` is the plain sub-sequence between them |
| Text.JsSliceEndClamped | src/components/DocumentParsingPage.jsx:107-111 | an end past the length is clamped: the slice runs to the end of the sequence |
| Text.JsSliceFromEnd | src/components/DocumentParsingPage.jsx:107-111 | a negative start counts from the end, and one reaching past the start takes everything |
| Text.JsSliceAdjacent | src/components/DocumentParsingPage.jsx:107-111 | two adjacent slices together are the slice spanning both, so consecutive pages tile the list |
| Text.NonBlank | src/App.jsx:152-158 | the filter keeps only non-blank pieces of the input and keeps every non-blank piece |
| Text.NonBlankAppend | src/App.jsx:152-158 | filtering distributes over concatenation, so the kept pieces stay in their order and keep their multiplicity |
| Text.NonBlankOne | src/App.jsx:152-158 | a single piece is kept exactly when it is not blank |
| Text.SplitJoinSepFree | src/components/ChatPanel.jsx:68 | splitting a join gives back the pieces, for separators of any length, when no separator starts inside a piece even with the separator after it |
| SseFrame.ScanLines | src/api.js:14-80 | the collected payloads extend those collected so far and are never empty |
| SseFrame.DecodePayload | src/api.js:14-80 | a payload decodes exactly when it parses to a non-null value; a non-empty string `prompt_history` that parses is replaced by its parsed value, and otherwise the parsed value is kept as it is |
| SseFrame.DecodeAllAppend | src/api.js:14-80 | decoding a list of payloads distributes over concatenation, so the decoded messages keep the payloads' order |
| SseFrame.DecodeAllOne | src/api.js:14-80 | a single payload contributes its decoding, or nothing when it does not decode |
| SseFrame.FirstDecoded | src/api.js:14-80 | the first decoded message is the decoding of the first payload that decodes |
| SseFrame.ParseEvent | src/api.js:14-80 | `[DONE]` gives the done marker; otherwise the event is the decoding of the first payload that decodes when that is truthy, and none when it is falsy or nothing decodes |
| SseFrame.NoDataNoEvent | src/api.js:14-80 | a chunk without `data:` lines gives no event |
| SseFrame.ContinuationAppends | src/api.js:46-52 | non-blank lines after a `data:` line are appended to its payload |
| SseFrame.DecodeEncode | src/api.js:14-80 | an event written as a `data:` line plus continuation lines parses back to the decoding of its payload |
| SseFrame.FeedFacts | src/api.js:690-725 | the complete frames plus the kept remainder rejoin to buffer plus chunk, and none of them contains the frame separator |
| SseFrame.FeedAllIsSplit | src/api.js:690-725 | feeding chunks one at a time, starting from a buffer without a separator, yields the same frames and remainder as one receive step on the whole text |
| SseFrame.ChunkingInvariant | src/api.js:690-725 | the frames do not depend on where the reads cut the byte stream |
| Sections.ExtractSection | src/api.js:201-212 | a missing start marker gives the empty string; the result is never longer than the content |
| Sections.ParseContent | src/api.js:189-199 | falsy content parses to empty answer and reasoning; strings always parse; parsing throws exactly for truthy numbers, booleans, objects and arrays holding a marker |
| Sections.ParseRender | src/api.js:189-212 | content laid out as reasoning marker, reasoning, answer marker, answer, completed marker parses back to the trimmed answer and reasoning |
| History.OfRole | src/api.js:136-153 | the messages kept for a role are messages of the input with that role, and every message with that role is kept |
| History.OfRoleAppend | src/api.js:136-153 | filtering by role distributes over concatenation, so kept messages stay in order |
| History.OfRoleOne | src/api.js:136-153 | a single message is kept exactly when it has the role |
| History.LastOfRole | src/api.js:136-153 | the last message of a role is one of the input with that role, and there is none exactly when no message has the role |
| History.Truncate | src/api.js:136-153 | a truncated history holds only input messages and the placeholder |
| History.RoleCounts | src/api.js:136-153 | every message is a system message, a user message or another message |
| History.PlaceholderIffDropped | src/api.js:136-153 | messages are dropped exactly when there is a message of another role or at least two user messages |
| History.TruncatedSystem | src/api.js:136-153 | truncation keeps all system messages |
| History.TruncatedLastUser | src/api.js:136-153 | truncation keeps the last user message |
| History.TruncateIdempotent | src/api.js:136-153 | truncating twice is truncating once |
| Records.EstimateTokens | src/api.js:83-85 | the estimate is the length divided by four, rounded up |
| Records.CountTokens | src/api.js:157-166 | each reported non-zero count is used, missing ones are estimated from the text, and a missing total is the sum of the other two; without any report the total is within rounding of a quarter of the prompt and content lengths |
| Records.ExtractRecalls | src/api.js:214-247 | recalls come from the last user message only, and there are none without a user message, with empty content, or with content that is not a string |
| Records.RecallsFromLastUserOnly | src/api.js:214-247 | messages before the last user message, and non-user messages after it, do not affect the recalls |
| Records.ParseMessage | src/api.js:115-186 | parsing fails exactly for null, a truthy non-array `messages`, or content that `parseContent` rejects; otherwise model, version and id take the payload's values or their defaults, answer and reasoning come from the parsed content, tokens from the counts, the messages are the truncated history, and the recalls come from those messages |
| Records.FromSnapshot | src/api.js:760-816 | a full snapshot yields a record exactly when its content parses, carrying the snapshot's tokens and question |
| Records.BuildersAgreeButTokens | src/api.js:757-820 | both record builders agree on everything but the token counts |
| Records.EmptyPayloadDefaults | src/api.js:115-186 | an empty payload yields the all-default record |
| Stream.Classify | src/api.js:690-725 | blank frames are ignored, and a kept prompt history is truthy |
| Stream.Apply | src/api.js:690-725 | a non-empty answer is never replaced by an empty one; every frame that decodes to neither a done marker nor a snapshot produces one update carrying the new state, even when it holds no answer or reasoning |
| Stream.ApplyAllAppend | src/api.js:690-725 | folding two runs of frames is folding the first and then the second |
| Stream.OnData | src/api.js:690-725 | after a read the buffer holds no frame separator and only updates are produced |
| Stream.OnDataAllFrames | src/api.js:690-725 | reading chunks is framing their concatenation and then folding the frames |
| Stream.ReadBoundariesInvisible | src/api.js:690-725 | many reads produce the same events and state as one read of the concatenated text |
| Stream.ApplyAllIsLatest | src/api.js:690-725 | the streamed answer, reasoning and history are the latest ones any frame carried |
| Stream.EventsAreUpdates | src/api.js:690-725 | every event the frames of one chunk yield is a `stream` update |
| Stream.NoEventsWithoutText | src/api.js:690-725 | a chunk yields no update exactly when every one of its frames is blank, undecodable, a done marker or a snapshot |
| Stream.LastEventIsFinal | src/api.js:690-725 | when the last frame is an ordinary one, the last update shows the answer and reasoning as they stand after the chunk |
| Stream.EventsOfFrames | src/api.js:690-725 | only updates are produced, the last one showing the final state when the last frame is an ordinary one, and none exactly when no frame is ordinary (neither blank, undecodable, done nor a snapshot) |
| ReadLoop.HeartbeatTick | src/api.js:594-631 | the stall timer stops exactly when more than 600 s passed without activity, and then queues the stall notice; a progress notice is queued exactly when more than 30 s passed without activity and more than 15 s since the previous notice, reporting the current answer or the waiting text; otherwise nothing changes |
| ReadLoop.ProgressNoticesSpaced | src/api.js:603-631 | two consecutive progress notices are more than 15 s apart |
| ReadLoop.Loop | src/api.js:637-727 | corrected loop: a stall notice is emitted only as the last event of a stalled loop; everything else is a progress notice that is not a retry notice, or an update |
| ReadLoop.LoopAsWritten | src/api.js:637-676 | the loop as written, with abandoned reads counted: it keeps the same event discipline as the corrected loop |
| ReadLoop.AsWrittenWithoutTimeouts | src/api.js:657-676 | when no read times out or rejects, the loop as written and the corrected loop agree |
| ReadLoop.TimeoutLosesNextChunk | src/api.js:657-676 | as written, the chunk delivered after a read timeout is dropped: the reader state is unchanged |
| ReadLoop.TimeoutKeepsNextChunk | src/api.js:657-676 | corrected: the chunk delivered after a read timeout is handled as if no timeout had happened |
| ReadLoop.FailedReadsNeverEnd | src/api.js:667-676 | as written, a stream whose reads keep rejecting never leaves the loop |
| ReadLoop.FirstReadFails | src/api.js:657-676 | corrected: a rejected read before anything was streamed throws the attempt on to the retry logic with no event |
| ReadLoop.NoStallWhileReadsReturn | src/api.js:658-675 | while every timer firing comes within 600 s of the last delivered or timed-out read, the stall timer never fires |
| ReadLoop.Drain | src/api.js:729-749 | an empty final buffer leaves the state as it was, and a received answer or history is never lost |
| ReadLoop.DrainIsOneMoreFrame | src/api.js:729-749 | draining folds the leftover buffer exactly as one more frame would be folded, without its event |
| ReadLoop.Completion | src/api.js:751-849 | the completion carries a record exactly when no parse error is reported, and a rejected full snapshot is reported as such; with a record, its non-empty answer and reasoning replace the streamed ones, which are kept when the record's are empty; without a record the streamed answer and reasoning are sent |
| ReadLoop.Attend | src/api.js:637-858 | a finished attempt ends in exactly one final event, preceded only by the stall notice in the timeout case; an unfinished one has no final event; no progress notice of an attempt is a retry notice |
| ReadLoop.AttendOutcome | src/api.js:637-858 | an attempt is still pending exactly when its loop is waiting, is thrown on with the loop's error exactly when it crashed before any answer arrived, and after a crash with a partial answer ends with the `error` event keeping that answer |
| ReadLoop.LoopWithoutTimer | src/api.js:637-727 | without timer steps the loop is the plain fold of the chunks |
| ReadLoop.UninterruptedAttempt | src/api.js:637-849 | an attempt whose reads deliver or time out, with no timer firing, yields the updates of the whole text followed by its completion |
| Retry.EarlyFailureRetried | src/api.js:900-914 | with a retry left, an early failure adds one retry notice and one pause of `2000 * n` ms in front of what the next request gives |
| Retry.EarlyFailureReported | src/api.js:915-922 | with no retry left, an early failure ends the run with one `error` event reporting three retries after a 500 and two otherwise, with no further request, pause or notice |
| Retry.SendRetried | src/api.js:535-583 | a request that fails early with a retry left is one request, one pause and one notice in front of the run that follows |
| Retry.SendReported | src/api.js:535-583 | a request that fails early with no retry left is the last request, and the run ends with that failure's `error` event |
| Retry.FailingRun | src/api.js:535-924 | when every remaining attempt fails early, the run makes one request per remaining attempt, pauses by the rest of the 2 s, 4 s schedule, and ends with the last failure's `error` event |
| Retry.RetriedStep | src/api.js:900-914 | a retried request in front of a failing run is again a failing run, one count earlier |
| Retry.AllAttemptsFail | src/api.js:535-924 | when all three attempts fail early: three requests, two retry notices, pauses of 2 s then 4 s, and the run ends with the third failure's `error` event |
| Retry.CrashAfterContent | src/api.js:637-924 | an attempt that throws after part of the answer arrived is not retried: no further request, and the run ends with the `error` event keeping that part |
| Retry.Bounded | src/api.js:535-583 | any response sequence makes at most three requests, pauses at most 2 s then 4 s, and once the run finishes its last action is a final event |
| Retry.ThreeServerErrors | src/api.js:556-569 | three 500 responses give three requests, two retry notices and an error counting three retries |
| Retry.ThreeFetchFailures | src/api.js:900-924 | three failed fetches give three requests, two retry notices and an error counting two retries |
| Channel.Backoff | src/services/sse.js:166-175 | each of the first three failures schedules a reconnect after `1000 * n` ms; after that only the alert is raised |
| Channel.Failures | src/services/websocket.js:85-94 | from a count `a` of at most three, failure `k` of a run schedules a reconnect after `a + k + 1` seconds while `a + k` is below three and only alerts after that; the count ends at the smaller of `a + n` and three |
| Channel.VersionUpdateEffects | src/services/sse.js:181-230 | a version update toasts and reaches every subscriber exactly when both texts decode; the note carries the empty string for a falsy text and the decoded text for a truthy one |
| Channel.StatusReaction | src/services/sse.js:231-264 | trainers always get the note; a `failed` status also toasts and completes the training with a failed status |
| Channel.TrainingStatusReaction | src/services/sse.js:231-264 | nothing happens for null data or an undecodable message, and only a `failed` status completes training |
| Channel.OptimizationStatusReaction | src/services/sse.js:347-384 | nothing happens for null data or an undecodable message, and only a `failed` status completes training |
| SseService.Connect | src/services/sse.js:33-50 | an open source is kept; otherwise a new one starts connecting and nothing else changes |
| SseService.Opened | src/services/sse.js:51-54 | opening resets the attempt counter |
| SseService.Failed | src/services/sse.js:155-175 | an error records the source state and backs off |
| SseService.Message | src/services/sse.js:56-66 | a message that parses rearms the idle timer, and one that does not changes nothing |
| SseService.ConnectForReason | src/services/sse.js:385-390 | the reason is recorded, the idle timer is disarmed, and subscribers are untouched |
| SseService.RemoveReason | src/services/sse.js:393-400 | the reason is dropped, and the idle timer is armed once no reason remains |
| SseService.Disconnect | src/services/sse.js:329-345 | everything is cleared: source, subscribers, reasons, timer, attempts |
| SseService.IdleFires | src/services/sse.js:411-423 | the idle timer disconnects only when armed |
| SseService.Unsubscribe | src/services/sse.js:319-327 | removing the last subscriber disconnects |
| SseService.SubscribeThenUnsubscribe | src/services/sse.js:319-327 | subscribing a new callback and then calling the function returned leaves the service unchanged while others remain subscribed |
| SseService.NotifyTrainingCompleted | src/services/sse.js:265-279 | trainers are told, and the training reason is dropped |
| SseService.ChatStreamNote | src/services/sse.js:426-448 | a non-null chat-stream payload is forwarded with its defaults |
| SseService.ChatCompleted | src/services/sse.js:450-468 | chat subscribers are told, and the chat reason is dropped |
| SseService.NamedEvent | src/services/sse.js:79-153 | unparsable data is ignored; a named event drops at most its own reason and changes nothing but reasons and the timer |
| SseService.RunValid | src/services/sse.js:33-423 | whatever happens, an armed idle timer implies no registered reason, and attempts never exceed three |
| SseService.CompletionsDropTheirReason | src/services/sse.js:265-279 | each completion drops only its own reason |
| WsService.Connect | src/services/websocket.js:14-31 | an open socket is kept; otherwise a fresh socket replaces the old one |
| WsService.Disconnect | src/services/websocket.js:245-253 | the socket, subscribers and attempts are cleared |
| WsService.Unsubscribe | src/services/websocket.js:235-243 | removing the last subscriber disconnects |
| WsService.SubscribeThenUnsubscribe | src/services/websocket.js:235-243 | subscribing a new callback and then calling the function returned leaves the service unchanged while others remain subscribed |
| WsService.ConnectionError | src/services/websocket.js:85-94 | an error only advances the backoff |
| WsService.React | src/services/websocket.js:150-183 | a failed training status additionally completes training for the trainers |
| WsService.Dispatch | src/services/websocket.js:37-68 | unparsable messages and messages without data do nothing; only the three known types have effects |
| WsService.OnSocketEvent | src/services/websocket.js:32-78 | as written: `open` resets attempts, `error` and `close` both back off, messages leave the state alone, even for a socket already replaced |
| WsService.OnCurrentSocketEvent | src/services/websocket.js:32-78 | corrected: events of a socket that is no longer current are ignored |
| WsService.LastUnsubscribeReconnects | src/services/websocket.js:235-253 | as written, dropping the last subscriber closes the socket, and its `close` event schedules a reconnect 1 s later |
| WsService.DisconnectIsQuiet | src/services/websocket.js:245-253 | with the correction, no socket event after a disconnect has any effect |
| WsService.ReplacedSocketIsQuiet | src/services/websocket.js:14-21 | with the correction, the replaced socket's events have no effect |
| WsService.FailureCountsTwice | src/services/websocket.js:70-78 | an `error` followed by `close` counts two attempts and schedules reconnects after 1 s and 2 s |
| WsService.StaysDisconnected | src/services/websocket.js:245-253 | with the correction, a disconnected service stays disconnected and schedules no reconnect until `connect` is called |
| ChatApp.SendMessage | src/App.jsx:275-286 | sending appends the user's message and clears the streaming state |
| ChatApp.OnEvent | src/App.jsx:296-335 | updates replace the streaming text; a completion appends the reply and its debug record; an error appends an error reply |
| ChatApp.OnThrow | src/App.jsx:337-350 | a thrown error appends an error reply |
| ChatApp.OneReplyPerFinal | src/App.jsx:296-335 | one assistant reply per final event, each remembering the question for retry, and earlier messages kept |
| ChatApp.LastFinalIsLastMessage | src/App.jsx:296-335 | the last message is the reply to the last final event |
| ChatApp.ExchangeEndsWithReply | src/App.jsx:275-353 | a finished exchange leaves the question followed, at the end, by the reply to the last final event |
| ChatApp.ReplyAfterFinal | src/App.jsx:275-353 | events ending in a final one leave the sent message in place and the final event's content, marked as an error or not, as the last message |
| ChatApp.BatchLines | src/App.jsx:152-158 | batch lines are non-blank pieces of the input without a line break, and every non-blank line of the input is one |
| ChatApp.BatchOfLines | src/App.jsx:152-158 | line-break-free lines joined by line breaks give back exactly their non-blank lines, in order |
| ChatApp.BatchLinesOfRows | src/App.jsx:152-158 | non-blank single-line rows joined by line breaks come back as the same rows |
| ChatApp.Batch | src/App.jsx:355-359 | a batch appends at least one message per line |
| ChatApp.EditDebug | src/App.jsx:361-369 | a successful edit replaces the records with the edited id, and a failed one changes nothing |
| ChatApp.EditIdempotent | src/App.jsx:361-369 | applying the same edit twice is applying it once |
| ChatApp.Preselect | src/App.jsx:50-63 | the first loaded version is selected when there is one |
| ChatApp.SubmitVersion | src/App.jsx:65-72 | the dialog closes, and a version is reported exactly when a non-empty one is selected |
| ChatPanel.ReasoningSteps | src/components/ChatPanel.jsx:68 | the steps are non-blank pieces between blank lines, none containing a blank-line separator, and every non-blank piece is a step |
| ChatPanel.StepsOfPieces | src/components/ChatPanel.jsx:68 | reasoning made of pieces separated by blank lines, each piece possibly several lines long but holding no blank line and not ending with a line break, has exactly its non-blank pieces as steps, in order |
| ChatPanel.StepsRejoin | src/components/ChatPanel.jsx:68 | non-blank steps joined back give the reasoning |
| ChatPanel.Render | src/components/ChatPanel.jsx:154-177 | one bubble per message; the thinking indicator or the streaming bubble appears only after an unanswered user message, depending on whether anything has streamed |
| ChatPanel.StepTypeStaysEmpty | src/components/ChatPanel.jsx:94-98 | the step type stays empty during a stream, so the streamed answer is not displayed |
| ChatPanel.StreamedAnswerNeverShown | src/components/ChatPanel.jsx:94-98 | the streaming bubble never shows the answer text during an exchange |
| ChatPanel.Submit | src/components/ChatPanel.jsx:239-245 | input is sent and cleared exactly when it is not blank |
| ChatPanel.RetryText | src/components/ChatPanel.jsx:18-22 | retry resends the remembered question, or the content, and nothing when both are empty |
| ChatPanel.RetryResends | src/components/ChatPanel.jsx:18-22 | retrying a reply resends the question that produced it |
| ChatPanel.CopyText | src/components/ChatPanel.jsx:9 | copying puts the reasoning, a blank line and then the content; the message list never passes a reasoning (src/components/ChatPanel.jsx:148-155), so in the app only the content is copied |
| Toggles.Toggle | src/components/DocumentSidebar.jsx:8-16 | toggling flips one id and leaves the others |
| Toggles.ToggleTwice | src/components/DocumentDetails.jsx:44-52 | toggling twice restores the set |
| DebugPanel.GroupIds | src/components/DebugPanel.jsx:518-525 | every record with an id has its group, every group comes from a record, and groups are distinct |
| DebugPanel.Group | src/components/DebugPanel.jsx:518-525 | a group holds the records with its id and is empty only when there are none |
| DebugPanel.GroupAppendAux | src/components/DebugPanel.jsx:518-525 | grouping distributes over concatenation |
| DebugPanel.SortIds | src/components/DebugPanel.jsx:527-531 | sorting permutes the groups into ascending order of their key |
| DebugPanel.SortedGroupIds | src/components/DebugPanel.jsx:527-531 | the groups are listed oldest latest-record first, all of them |
| DebugPanel.EveryEntryShown | src/components/DebugPanel.jsx:518-531 | every record with an id appears in a listed group |
| DebugPanel.ShownGroupsHaveIds | src/components/DebugPanel.jsx:518-531 | no listed group is empty |
| DebugPanel.ExpandOnGrowth | src/components/DebugPanel.jsx:533-546 | when records are added, only the last group is expanded |
| DebugPanel.ExpandedIsLatest | src/components/DebugPanel.jsx:533-546 | the group expanded after new records holds the most recent record |
| DebugPanel.Collapsed | src/components/DebugPanel.jsx:43-48 | short content is shown whole; long content is a prefix followed by an ellipsis line |
| DebugPanel.CollapsedKeepsFirstLines | src/components/DebugPanel.jsx:43-48 | collapsed content shows exactly the first five lines |
| DebugPanel.SaveAll | src/components/DebugPanel.jsx:408-417 | only an unsaved record is saved, and it is marked saved only on success |
| DebugPanel.SaveField | src/components/DebugPanel.jsx:152-198 | an invalid recall edit is rejected; otherwise an unsaved record is saved first and the field edit follows with the parsed or raw value |
| SamplesPage.WindowSize | src/components/SamplesPage.jsx:149-159 | at most five page buttons, fewer only when there are fewer pages |
| SamplesPage.Pages | src/components/SamplesPage.jsx:149-159 | one button per window position |
| SamplesPage.PagesWindow | src/components/SamplesPage.jsx:149-159 | the buttons are consecutive, in range and include the current page |
| SamplesPage.SelectAll | src/components/SamplesPage.jsx:226-239 | checking selects exactly the page's samples and unchecking deselects them, others untouched; the box is checked exactly then |
| SamplesPage.SelectOne | src/components/SamplesPage.jsx:241-250 | one sample changes, and the header box reflects whether the whole page is selected |
| SamplesPage.SelectOneUndo | src/components/SamplesPage.jsx:241-250 | checking then unchecking a sample restores the selection |
| SamplesPage.SelectEachChecksAll | src/components/SamplesPage.jsx:226-250 | selecting each sample of a page checks the header box |
| SamplesPage.ChangeVersion | src/components/SamplesPage.jsx:631-634 | changing version returns to page one |
| SamplesPage.Without | src/components/SamplesPage.jsx:612-624 | deletion keeps only samples without that id, and every such sample |
| SamplesPage.WithoutAppend | src/components/SamplesPage.jsx:612-624 | deletion distributes over concatenation, so the remaining rows keep their order |
| SamplesPage.WithoutOne | src/components/SamplesPage.jsx:612-624 | a single row is dropped exactly when it carries the id |
| SamplesPage.Delete | src/components/SamplesPage.jsx:612-624 | a failed deletion changes nothing |
| SamplesPage.WithoutIdempotent | src/components/SamplesPage.jsx:612-624 | deleting twice is deleting once |
| SamplesPage.Train | src/components/SamplesPage.jsx:661-686 | training is requested exactly with a selection, and on success the page enters training with the selection cleared |
| SamplesPage.TrainingNote | src/components/SamplesPage.jsx:640-651 | a training-completed note, or a version update naming training ids, ends training; other notes change nothing |
| SamplesPage.TrainThenComplete | src/components/SamplesPage.jsx:640-686 | training then completion leaves the page idle with nothing selected |
| DocFilter.InputChange | src/components/DocumentFilter.jsx:8-11 | one field changes and the others keep their values |
| DocFilter.InputChangeLaws | src/components/DocumentFilter.jsx:8-11 | writing a field's own value changes nothing, and the last write wins |
| DocFilter.DateRangeChange | src/components/DocumentFilter.jsx:13-16 | only the two dates change |
| DocFilter.OnPress | src/components/DocumentFilter.jsx:18-32 | the trash button asks, cancel closes the question, and only confirming resets the filters to their defaults |
| DocFilter.ClearedFields | src/components/DocumentFilter.jsx:18-28 | the defaults are empty text and `全部` |
| DocFilter.AskThenCancel | src/components/DocumentFilter.jsx:18-32 | asking and cancelling leaves the filters alone |
| DateRange.MonthCells | src/components/DateRangePicker.jsx:25-51 | the grid holds consecutive days, starts on the right weekday, marks exactly the month's days as current, and is filled to 42 cells |
| DateRange.RealMonth | src/components/DateRangePicker.jsx:25-51 | for a real month the grid has 42 cells and its current cells are the month's days |
| DateRange.Click | src/components/DateRangePicker.jsx:83-98 | the first click starts a range; the second completes it in order and closes the picker |
| DateRange.TwoClicksOrdered | src/components/DateRangePicker.jsx:83-98 | two clicks give an ordered range of the two days |
| DateRange.HoverPreviewsClick | src/components/DateRangePicker.jsx:69-98 | the hover band is the range the next click would make, and a completed range has no hover band |
| DateRange.Clear | src/components/DateRangePicker.jsx:211-214 | clearing empties the range and closes the picker |
| DateRange.DisplayText | src/components/DateRangePicker.jsx:101-108 | the field shows start and end, or start and the end placeholder, or the placeholder |
| DocTable.RowNumber | src/components/DocumentTable.jsx:111 | rows are numbered from one after the page offset |
| DocTable.RowNumbersConsecutive | src/components/DocumentTable.jsx:111 | page `p` starts at `10p - 9`, and numbers increase by one |
| DocTable.ShowStatus | src/components/DocumentTable.jsx:10-47 | the three known statuses have their icon, label and colours, and everything else gets the fallback |
| DocTable.ShownPages | src/components/DocumentTable.jsx:184-194 | the buttons are exactly the first, last and neighbouring pages, in order |
| DocTable.AtMostFive | src/components/DocumentTable.jsx:184-194 | at most five page buttons are shown |
| DocTable.EllipsisMarksGap | src/components/DocumentTable.jsx:184-194 | an ellipsis appears exactly where a page is skipped |
| Pager.NeighbourExists | src/components/DocumentTable.jsx:174-212 | on a real page, back is enabled exactly when a previous page exists and forward exactly when a next page exists |
| Pager.NoPagesForwardEnabled | src/components/DocumentTable.jsx:174-212 | with zero pages the pager sits on page 1 with back disabled and forward still enabled |
| DocTable.ConfirmDelete | src/components/DocumentTable.jsx:63-65 | the dialog opens on the document |
| DocTable.HandleDelete | src/components/DocumentTable.jsx:67-73 | confirming closes the dialog |
| DocTable.CancelDelete | src/components/DocumentTable.jsx:75-77 | cancelling closes the dialog |
| DocTable.OpenThenClose | src/components/DocumentTable.jsx:63-77 | opening then confirming or cancelling returns to the closed dialog |
| DocParsing.Filter | src/components/DocumentParsingPage.jsx:113-133 | the filtered list holds exactly the matching documents |
| DocParsing.FilterAppend | src/components/DocumentParsingPage.jsx:113-133 | filtering distributes over concatenation |
| DocParsing.DefaultsKeepAll | src/components/DocumentParsingPage.jsx:99-133 | the default filters keep every document |
| DocParsing.EndDayExcluded | src/components/DocumentParsingPage.jsx:113-133 | documents created during the end day, after midnight, are excluded |
| DocParsing.FilenameCaseInsensitive | src/components/DocumentParsingPage.jsx:113-133 | the filename filter ignores letter case |
| DocParsing.TotalPages | src/components/DocumentParsingPage.jsx:107-111 | the page count is the number of documents divided by ten, rounded up |
| DocParsing.PageOf | src/components/DocumentParsingPage.jsx:107-111 | a page shows at most ten documents, in order, from its offset |
| DocParsing.EveryDocOnItsPage | src/components/DocumentParsingPage.jsx:107-111 | every document appears on an existing page |
| DocParsing.FilterChange | src/components/DocumentParsingPage.jsx:113-133 | a filter change stores the filters, returns to page one and shows exactly the matching documents |
| DocParsing.NewDocument | src/components/DocumentParsingPage.jsx:136-149 | a new upload is put first as pending, and the filtered list becomes the full list |
| NewDocModal.FileChange | src/components/NewDocumentModal.jsx:12-20 | choosing a file takes its name, and cancelling the chooser keeps the form |
| NewDocModal.ReselectKeepsFile | src/components/NewDocumentModal.jsx:113-116 | cancelling the chooser keeps the chosen file |
| NewDocModal.Drop | src/components/NewDocumentModal.jsx:22-29 | a drop acts as choosing its first file |
| NewDocModal.DropUsesFirst | src/components/NewDocumentModal.jsx:22-29 | files after the first are ignored |
| NewDocModal.EditFilename | src/components/NewDocumentModal.jsx:154 | only the filename changes |
| NewDocModal.EditParseType | src/components/NewDocumentModal.jsx:167 | only the parse type changes |
| NewDocModal.Submit | src/components/NewDocumentModal.jsx:41-57 | the form is submitted exactly when file, filename and type are present, and then reset and closed |
| NewDocModal.Close | src/components/NewDocumentModal.jsx:59-70 | closing resets the form |
| NewDocModal.ChooseThenSubmit | src/components/NewDocumentModal.jsx:5-57 | choosing a named file and submitting uploads it under its own name with the default type |
| NewDocModal.EmptyNotSubmitted | src/components/NewDocumentModal.jsx:41-57 | an empty form is not submitted |
| DocSidebar.Filtered | src/components/DocumentSidebar.jsx:76-88 | a search keeps only sections matching within two levels, and every such section; an empty search keeps all |
| DocSidebar.FilteredAppend | src/components/DocumentSidebar.jsx:76-88 | the search distributes over concatenation, so kept sections stay in order |
| DocSidebar.FilteredOne | src/components/DocumentSidebar.jsx:76-88 | a single section is kept exactly when it matches |
| DocSidebar.Render | src/components/DocumentSidebar.jsx:29-71 | a kept section heads its rows, a filtered-out one shows nothing, and a collapsed one shows one row |
| DocSidebar.CollapsedShowsOneRow | src/components/DocumentSidebar.jsx:29-71 | a collapsed kept section shows just its own row |
| DocSidebar.KeptHasMatch | src/components/DocumentSidebar.jsx:29-39 | a kept section contains a match |
| DocSidebar.DeepMatchIgnored | src/components/DocumentSidebar.jsx:29-39 | a match three levels down does not keep the section |
| DocSidebar.Click | src/components/DocumentSidebar.jsx:8-16 | clicking a section with children toggles it, and clicking a leaf selects it |
| DocSidebar.CountAtMostSize | src/components/DocumentSidebar.jsx:133-139 | the chapter count never exceeds the number of sections and equals it for trees at most three levels deep |
| DocDetails.InitialFilters | src/components/DocumentDetails.jsx:20 | all nine type buttons start active |
| DocDetails.ItemId | src/components/DocumentDetails.jsx:29-34 | item ids are `item-` followed by the index |
| DocDetails.Process | src/components/DocumentDetails.jsx:29-34 | a `null` item fails (reading its `type` throws); any other item gets its id, level-one text becomes a title, and other fields are kept |
| DocDetails.ProcessAll | src/components/DocumentDetails.jsx:29-34 | the map fails exactly when some item is `null`; otherwise every item is processed with its index |
| DocDetails.IdsDistinct | src/components/DocumentDetails.jsx:29-34 | processed items have distinct ids |
| DocDetails.ActiveTypes | src/components/DocumentDetails.jsx:54-58 | the active types are the active buttons |
| DocDetails.ShownItems | src/components/DocumentDetails.jsx:54-58 | only items of an active type are shown, and every such item |
| DocDetails.ShownItemsAppend | src/components/DocumentDetails.jsx:54-58 | the type filter distributes over concatenation, so shown items stay in order |
| DocDetails.ShownItemsOne | src/components/DocumentDetails.jsx:54-58 | a single item is shown exactly when its type is active |
| DocDetails.AllActiveShowsKnownTypes | src/components/DocumentDetails.jsx:20-58 | initially exactly the items of a known type are shown |
| DocDetails.ToggleOffHidesType | src/components/DocumentDetails.jsx:44-58 | switching a type off hides exactly that type |
| DocDetails.AfterLoad | src/components/DocumentDetails.jsx:22-42 | loading ends; there is no error exactly when the data loaded with no `null` item, and then the items are the processed data; a `null` item gives the `TypeError` message; on any failure there are no items and a non-empty error message |

## Left out

- The network is not modelled: `fetch`, `EventSource`, `WebSocket`, and the sample, version, document and debug CRUD endpoints. Their outcomes are inputs, such as the `Response` sequence for the retry loop or the `success` flags.
- Timers and clocks become explicit steps with integer times: `setInterval`, `setTimeout`, `Promise.race` and the scroll timer.
- `TextDecoder` is not modelled: chunks are already decoded strings.
- React rendering, toasts, `localStorage`, focus and scrolling are not modelled. Only the state and the rows or items a component would show are.
- JavaScript `Date`, time zones and the `toISOString` shift are not modelled. Dates are day numbers converted by the `day`/`format` parameters. Invalid dates, and therefore `NaN` comparisons, are not modelled.
- DateRange.TwoClicksOrdered: assumes `day(format(x)) == x`. The picker formats a local-midnight `Date` with `toISOString` (src/components/DateRangePicker.jsx:54-57), which east of UTC gives the previous day, so the stored days are shifted by one and the ordering is only promised for the days as formatted.
- DateRange.HoverPreviewsClick: rests on the same assumption `day(format(x)) == x`, and so does not cover the one-day `toISOString` shift east of UTC.
- Numbers are unbounded integers. Floating-point JSON numbers are not represented.
- String lengths count characters, not UTF-16 code units.
- Lower-casing covers ASCII letters only.
- `undefined` and `null` are one missing value.
- `Object.keys` ordering is not modelled.
- A non-string `prompt_history` is kept as it is, where the code would `JSON.parse(String(v))` it.
- Non-string `answer` and `reasoning` fields are treated as absent.
- Constructors of `EventSource` and `WebSocket` that throw are not modelled.
- The spread of a string payload in the optimisation-failed handler is not modelled.
- Version toast texts are not modelled.
- The chat page's own SSE `onMessage` push into the debug list is not modelled.
- Spreading a string or array item in `DocumentDetails` copies its indexed elements as fields; the model spreads them to no fields. JSON data that is not an array is not modelled. The `TypeError` text for a `null` item is V8's wording.
- `TypeTag.jsx`, `DetailCard.jsx`, `DocumentPreview.jsx`, `DocumentViewPage.jsx` and `vite.config.js` are not part of this model: they only render or configure.
- Sections.ExtractSection: its own contract states only the missing-marker case and a length bound. The full behaviour on laid-out content is `Sections.ParseRender`.
- Retry.Send: the mutually recursive retry functions carry no contract of their own. Their properties are `Retry.Bounded`, `Retry.FailingRun`, `Retry.AllAttemptsFail`, `Retry.CrashAfterContent`, `Retry.ThreeServerErrors` and `Retry.ThreeFetchFailures`.
- Records.CountTokens: a truthy reported count that is not a number, such as the string `"12"`, is taken by `||` in the code and then joined by `+` as a string (src/api.js:158-166). The model uses only numbers as reported counts and estimates the others from the text.
- Records.ExtractRecalls: truthy message content that is not a string is converted to a string by `regex.exec` in the code (src/api.js:223-230). The model finds no recalls in it.
- ReadLoop.LoopAsWritten: the stream's queue of pending reads is modelled as a count of abandoned reads that take the next deliveries in order. A timer firing while several reads are queued, and cancellation of those reads, are not modelled.
- ChatApp.Batch: states only that at least one message per line is appended. The replies themselves come from `ChatApp.OnEvent`.
- DebugPanel.Collapsed: states the shape "prefix plus ellipsis line". Which lines are kept is `DebugPanel.CollapsedKeepsFirstLines`.
- SamplesPage.ChangeVersion: the sample reload that follows is network I/O and is not modelled.
- ReadLoop.ProgressNoticesSpaced: states only the 15 s spacing between notices, not their content. The content is in `ReadLoop.HeartbeatTick`.
- WsService.OnSocketEvent: the socket's readyState printed to the console is not modelled.

## Findings

| source | as written | input that shows it | evidently intended | confidence | as-written member | corrected member |
|---|---|---|---|---|---|---|
| src/api.js:657-676 | when the 60 s timeout wins the `Promise.race`, the loop calls `reader.read()` again while the first read is still queued; the stream serves queued reads in order, so the next chunk goes to the abandoned read and never reaches the buffer | a read that takes more than 60 s, after which the chunk `data: {"answer":"x"}` plus a blank line arrives: the answer `x` is never shown | the chunk that arrives after a read timeout is handled as if no timeout had happened | not executed | ReadLoop.TimeoutLosesNextChunk | ReadLoop.TimeoutKeepsNextChunk |
| src/api.js:667-676 | the `catch` around the read treats every rejection as a read timeout, including `reader.read()` rejecting because the stream failed; it refreshes the activity time and reads again, which rejects again | a connection that drops mid-stream, so that every later `read()` rejects: the loop never ends, the stall timer never fires, and the attempt neither completes nor is retried | a failed read ends the attempt with its error, which the retry logic then handles | not executed | ReadLoop.FailedReadsNeverEnd | ReadLoop.FirstReadFails |
| src/services/websocket.js:70-94, 245-253 | `disconnect()` and `connect()` close or replace the socket without detaching its `onclose`/`onerror` handlers, so the old socket's `close` event runs `handleConnectionError` and schedules a reconnect | an open socket with one subscriber; that subscriber unsubscribes, `disconnect()` closes the socket, the `close` event arrives, and a reconnect is scheduled 1 s later although nobody listens | events of a socket that is no longer current are ignored, so a disconnected service stays disconnected | not executed | WsService.LastUnsubscribeReconnects | WsService.StaysDisconnected |
