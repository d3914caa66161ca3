# A verified model of the adapter's protocol client and evidence checkers

The adapter talks to an App Server over JSON-RPC and, afterwards, judges retained evidence offline.
This project models the parts of it whose correctness is an argument rather than a comparison:

- **The client** (`ClientState`, `ClientRuns`, `ClientTheorems`, `ClientFailures`, `ClientProgress`, `Deliveries`,
  `AppServerClient`).  Callers, a stdout reader and a stderr reader share a table of one-shot queues, a list of
  events and a sticky error.  A run is any sequence of atomic actions: one section under one lock, or one queue
  operation.  The theorems hold in every run of one start of the client.
- **The History** (`Json`, `Scanner`, `ScannerTheorems`, `MemberLoops`, `LooseObjects`, `Unambiguous`, `Decimals`,
  `History`, `HistoryTheorems`, `HistoryFields`, `Canonical`, `Dialects`, `FrameFormat`, `McpHistory`,
  `HtmlEscapes`, `Writer`).  A byte scanner cuts the exact encoding of one member out of a JSON object, a hash
  chain is replayed over those bytes, and an anchor pins the head.  JSON texts are printed from a syntax tree with
  arbitrary blanks and escapes; the standard decoder is any function that accepts exactly those texts, without
  repeated keys and not nested too deeply (there is exactly one).  A sibling checker hashes a re-encoding instead;
  where the two agree and where they differ is proved both ways.  The runtime's writer is modelled too: it lets
  more text through than the checker can read, and when writing and replaying is a round trip is proved both ways.
  `Witness` shows that what these theorems suppose of encoders, decoders and digest can be met.
- **Observation keys** (`CanonicalJson`, `Observations`, `Renaming`, `NormalForms`, `ObservationTheorems`,
  `ObservedFields`, `Fibers`, `MemberOrder`).  Identifiers are renamed by namespace in the order they are met; the
  keys are a normal form up to renaming.
- **Counting in the checkers** (`Counting`, `Egress*`, `Results*`, `Qmp`, `Heartbeats`) and the texts that
  identities are made of (`Identities`).

Every loop is proved against a function.  What that function accepts is then said once more, of the fields of the
input alone and as an equivalence: `HistoryFields.HistoryIsAcceptedIff` for a file, `LooseObjects.CutIff` for the
scanner on any bytes, `EgressFields.AcceptedIff` for the comparison, `ResultsFields.PassesIff` for the results,
`Qmp.AcceptedIff` for a trace, and `ObservedFields.EqualKeysByField` for the keys.

SHA-256 is an arbitrary function.  Nothing is proved under the assumption that it is injective, which no
function with 64-digit values is; where two digests agree, the conclusion is that the inputs agree or
that two different inputs with the same digest are at hand.

Five promises that one might expect turn out not to hold of the code.  Each has a concrete input on which
it fails and the exact condition under which it holds:

- A duplicate response is not always fatal.  `ClientTheorems.SecondAnswerAbsorbed` and
  `ClientTheorems.OrphanAnswerAbsorbed` are runs in which nobody is told: a second answer comes between
  `get` and the `finally` clause, or an answer is looked up before its caller times out and leaves.
  `ClientTheorems.HeldResponseIsPutIff` says, for every interleaving, that a response is refused exactly
  when the queue is full, and `ClientTheorems.AbsorbedIsLost` that one put too late is never delivered.
- The two styles of chain checker do not accept the same frames.  The re-encoding checker accepts a first
  frame with `"sequence":true` (`McpHistory.SequenceTrueDiffers`), `NaN` as data
  (`McpHistory.ConstantDiffers`) and files of up to 64 MiB.  `McpHistory.CheckersAgreeIff`,
  `McpHistory.ScannedIff` and `McpHistory.ReencodedIff` say that they differ in nothing else.
- What the runtime appends is not always readable afterwards.  `Writer.WrittenIsReadIff` gives the exact
  condition for a frame: the checker can read the data (it is text for the checker as well, repeats no key
  and is not nested too deeply), and neither the operation nor the data is changed after it was hashed.
  `Writer.EventAppended` gives it for the file, which must also stay within 32 MiB; a frame that fails the
  condition makes the whole file unreadable from then on.  `Writer.LessThanIsRefused` (data in which `<` is
  escaped after hashing), `Writer.NotUtf8IsRefused` (data that is not UTF-8) and
  `Writer.NameNotUtf8IsRefused` (an operation that is not) are inputs that fail for different reasons.
- Observation keys depend on the order in which members are listed, although their text sorts them.
  `MemberOrder.OrderMatters` gives, for any two branches, records holding equal dictionaries whose keys
  agree at O1 and differ at O0.  `ObservationTheorems.EqualKeysIff` says exactly when keys agree,
  `ObservationTheorems.CoarserKeysAgreeIff` exactly when equal keys at one level stay equal at the next
  coarser one, and `ObservationTheorems.CoarserKeysAgree` that records in the same order always do.
- The NUL-separated preimages of operation ids and gateway requests are ambiguous.
  `Identities.NulIsAmbiguous` and `Identities.HeadersInBodyAreAmbiguous` give different parts with the same
  bytes; `Identities.UniquePreimageIff`, `Identities.UniqueSandboxIff` and `Identities.UniqueRequestIff` say
  exactly for which parts there are no others.

## Model

| member | source | states |
|---|---|---|
| `AppServerClient.Client.constructor` | adapter/app_server.py:209-297 | a new client is in the start state of every run: first id 1, nothing pending, no events, no error |
| `AppServerClient.Client.Register` | adapter/app_server.py:597-604 | one step under the lock draws the next id and registers a fresh empty queue under it, and changes nothing else |
| `AppServerClient.Client.PutNowait` | adapter/app_server.py:497-504 | fills an empty queue, reports a full one and then keeps what is in it |
| `AppServerClient.Client.Take` | adapter/app_server.py:610-610 | takes exactly what the queue holds and leaves it empty but registered |
| `AppServerClient.Client.Forget` | adapter/app_server.py:630-632 | removes one entry of the table and leaves the queues alone |
| `AppServerClient.Client.SetFatal` | adapter/app_server.py:526-544 | the first error is kept and reaches every pending queue that was empty, full queues and queues that are not pending keep what they have; later errors change nothing |
| `AppServerClient.Client.RouteMessage` | adapter/app_server.py:484-524 | when routing raises, when it fails, where a response goes, and that an event joins the end of the list; nothing else changes |
| `AppServerClient.Client.TakeFirst` | adapter/app_server.py:643-664 | returns the earliest queued message that is wanted, if there is one, and removes that one only |
| `ClientState.FirstMatch` | adapter/app_server.py:656-658 | the earliest match: it is wanted and nothing before it is |
| `ClientState.FilterRemoveFirst` | adapter/app_server.py:656-658 | taking the first match takes the head of the messages of one kind, or leaves that kind alone, for waiters that want that kind or none of it |
| `ClientState.ProtectedCallsDisjoint` | adapter/app_server.py:899-908 | two protected-call waiters compete for a message if and only if thread, turn and tool all agree |
| `ClientState.TurnCompletedDisjoint` | adapter/app_server.py:955-964 | two turn-completed waiters compete for a message if and only if thread and turn agree |
| `ClientState.NamesIff` | adapter/app_server.py:484-490 | a request is named by its number as an integer or a float, and 0 and 1 by truth values too, and by nothing else |
| `ClientState.CallAndCompletionDisjoint` | adapter/app_server.py:899-964 | protected-call and turn-completed waiters never compete |
| `ClientTheorems.StepKeeps` | adapter/app_server.py:433-664 | every atomic action of every thread keeps the invariant that ties table, queues, callers, readers, fan-out, wire and mailbox together |
| `ClientTheorems.BlockedCallersAreWoken` | adapter/app_server.py:526-632 | in every run, once the first error's fan-out is finished, every caller still waiting has something in its queue, cannot time out, and gets its own response or that error |
| `ClientTheorems.FanOutFinishes` | adapter/app_server.py:535-544 | from any state in which the fan-out has started, its own steps alone finish it, with the error in every outstanding queue that was empty |
| `ClientTheorems.SetFatalIsARun` | adapter/app_server.py:526-544 | `_set_fatal` undisturbed is a run of its steps and leaves the queues that the client's method leaves |
| `ClientFailures.EndIsReported` | adapter/app_server.py:433-470 | in every run, once the stdout reader has ended the fatal error is set, unless the client was stopped |
| `ClientFailures.FanHasOwner` | adapter/app_server.py:526-544 | in every run, while the error is being put into the queues one reader and only one is at it: `_set_fatal` does not return before |
| `ClientFailures.TroubleIsKept` | adapter/app_server.py:433-524 | in every run that does not stop the client, once the stdout reader has met a bad line, a read error, the end of its input or a message that cannot be routed, the error is set or the reader still has it to report, whatever other threads do |
| `ClientFailures.OwedIsReported` | adapter/app_server.py:433-544 | from every reachable state of a client that is not stopping, a reader with a failure to report sets the first error by its own steps, finishes the fan-out, wakes every waiting caller, and reads on or ends as it should |
| `ClientFailures.TroubleIsReported` | adapter/app_server.py:433-544 | from every reachable state of a client that is not stopping, whatever trouble the stdout reader meets is reported by its own steps, and every waiting caller has something to take |
| `ClientFailures.StderrErrorIsReported` | adapter/app_server.py:472-482 | a read error of the stderr reader is reported in the same way, the mere end of stderr is not |
| `ClientFailures.StoppingIsQuiet` | adapter/app_server.py:460-482 | once the client is stopping, the end of its input, read errors and ids that cannot be looked up end the readers in silence |
| `ClientFailures.UnroutableWhileStopping` | adapter/app_server.py:484-512 | any other message that cannot be routed is reported even then |
| `ClientTheorems.LateRequestsAreNeverSent` | adapter/app_server.py:546-584 | the first error stays, and a request registered once it is set is never written to the server |
| `ClientProgress.OnlyCheckedIsSent` | adapter/app_server.py:546-584 | once the error is set, in every continuation, only requests and notices that had passed the check before it are written |
| `ClientProgress.NoticesAreGiven` | adapter/app_server.py:634-641 | in every run, only notices that were handed to `notify` or `respond` are written |
| `ClientProgress.NoticeStays` | adapter/app_server.py:568-641 | until its own thread checks or writes it, a notice stays as it was given, whatever any other thread does |
| `ClientProgress.UndisturbedIsSent` | adapter/app_server.py:568-641 | without an error, a notice and a request that meet no obstacle are written, each once, and nothing else is |
| `ClientProgress.CheckRefuses` | adapter/app_server.py:546-574 | a call that finds the error when it checks is refused with that error |
| `ClientProgress.WriteFails` | adapter/app_server.py:568-584 | a call whose line cannot be written is refused with the reason, and nothing is written |
| `ClientProgress.CallsReturn` | adapter/app_server.py:586-632 | from every state that keeps the invariant every call returns by its own steps, and the table has forgotten it |
| `ClientTheorems.IdsAreFresh` | adapter/app_server.py:597-632 | ids are never reused, no id is written twice, the table holds exactly the calls that have not returned |
| `ClientTheorems.ResponsesReachTheirRequest` | adapter/app_server.py:484-504 | a queue only ever holds a response bearing its own id or the error, and no response is delivered to two requests, however late it comes |
| `ClientTheorems.AbsorbedIffQueueEmpty` | adapter/app_server.py:484-504 | a response to a pending request is absorbed silently if and only if the queue is empty, otherwise it is fatal |
| `ClientTheorems.GetEmptiesQueue` | adapter/app_server.py:610-632 | after `get` the request is still pending and its queue empty |
| `ClientTheorems.HeldResponseIsPutIff` | adapter/app_server.py:495-504 | in every interleaving, a response that was looked up is refused as a duplicate if and only if the queue of its own request is full, and is put there in silence otherwise |
| `ClientTheorems.AbsorbedIsLost` | adapter/app_server.py:495-632 | a response put once its request has its outcome changes that outcome in no continuation, and no error is reported |
| `ClientTheorems.SecondAnswerAbsorbed` | adapter/app_server.py:484-632 | a run from the start in which a second answer to one request is absorbed |
| `ClientTheorems.OrphanAnswerAbsorbed` | adapter/app_server.py:484-632 | a run from the start in which an answer goes into the queue of a request that has timed out and left |
| `ClientTheorems.NoMissedWakeUp` | adapter/app_server.py:526-534 | no waiter sleeps through the error or through a queued message it wants |
| `ClientProgress.WaiterIsAwake` | adapter/app_server.py:643-664 | in every run, whoever waits is awake as soon as there is an error or an event that is wanted |
| `ClientProgress.LookFinds` | adapter/app_server.py:653-664 | a waiter that looks finds the error, or exactly one event that it wants, or nothing, and then sleeps or gives up |
| `ClientProgress.WaitersEnd` | adapter/app_server.py:653-664 | a waiter whose time is up wakes, looks, and is handed something or gives up, from whatever state |
| `ClientProgress.NothingHandedAfterError` | adapter/app_server.py:653-655 | once the error is set, no waiter is handed an event any more |
| `ClientProgress.EventArrives` | adapter/app_server.py:514-524 | a message with a method joins the end of the queue, and the reader reads on |
| `ClientTheorems.EventsAreConserved` | adapter/app_server.py:514-524 | every event that arrived is still queued or was handed to exactly one waiter |
| `ClientTheorems.QueueKeepsArrivalOrder` | adapter/app_server.py:514-658 | the event list is the arrival sequence minus the consumed messages, in arrival order |
| `Deliveries.EarliestMatchIsHanded` | adapter/app_server.py:643-664 | in every run, an event handed out was wanted by its waiter and had gone to nobody before, and every earlier event that this waiter wanted had gone to somebody |
| `Deliveries.CompletionIsOwn` | adapter/app_server.py:945-968 | in every run, what a turn-completed waiter is handed is a completion of its own thread and turn, wanted by no waiter for another |
| `Deliveries.CallIsOwn` | adapter/app_server.py:885-915 | in every run, what a protected-call waiter is handed is a call of its own thread, turn and tool that can be answered, wanted by no waiter for another |
| `Deliveries.QueuedIffNotHanded` | adapter/app_server.py:514-664 | in every run, an event that arrived is queued if and only if it was handed to nobody |
| `ClientTheorems.FirstComeFirstServed` | adapter/app_server.py:643-664 | for waiters that want all or none of a kind of message, those messages are handed out in order of arrival |
| `Scanner.ScanSpace` | adapter/check_codex_isolated_evidence.py:126-129 | the loop stops at the first byte that is not a blank |
| `Scanner.ScanString` | adapter/check_codex_isolated_evidence.py:132-145 | the loop ends just past the closing quote, with an escape taking the next byte along |
| `Scanner.ScanComposite` | adapter/check_codex_isolated_evidence.py:153-169 | the stack loop ends where the delimiters balance, or refuses |
| `Scanner.ScanValue` | adapter/check_codex_isolated_evidence.py:148-172 | the end of a string, composite or scalar |
| `Scanner.ScanMember` | adapter/check_codex_isolated_evidence.py:183-200 | the name, value span and following byte of one member |
| `Scanner.CutMember` | adapter/check_codex_isolated_evidence.py:175-209 | the loop over the members, with a repeated or missing name refused |
| `ScannerTheorems.ValueEndsHere` | adapter/check_codex_isolated_evidence.py:148-172 | for every legal value, however nested, spaced and escaped, `_value_end` stops just past its last byte |
| `ScannerTheorems.CutsExactBytes` | adapter/check_codex_isolated_evidence.py:175-209 | for every legal object text the cut is exactly the printed bytes of the wanted member |
| `ScannerTheorems.RefusesMissingOrRepeated` | adapter/check_codex_isolated_evidence.py:200-209 | a legal object is refused if and only if the member is missing or comes more than once |
| `LooseObjects.SkipSpaceIff` | adapter/check_codex_isolated_evidence.py:126-129 | on any bytes: the loop stops at the first byte that is none of the four blanks |
| `LooseObjects.StringEndIff` | adapter/check_codex_isolated_evidence.py:132-145 | on any bytes: the end that is found is just past a quote that closes a whole body |
| `LooseObjects.CompositeIff` | adapter/check_codex_isolated_evidence.py:153-169 | on any bytes: the stack loop ends at `q` if and only if an object or array with matched delimiters stands there |
| `LooseObjects.ValueEndIff` | adapter/check_codex_isolated_evidence.py:148-172 | on any bytes: the end of a string, of an object or array, or of a bare token |
| `LooseObjects.CutIff` | adapter/check_codex_isolated_evidence.py:175-209 | on any bytes, legal JSON or not: a member is cut out if and only if an object with readable names stands at the start, exactly one of them wanted, and what is cut is its value |
| `Unambiguous.OneReading` | adapter/check_codex_isolated_evidence.py:61-71 | a JSON text has one reading: blanks, escapes, order and all |
| `Unambiguous.DecoderIsDetermined` | adapter/check_codex_isolated_evidence.py:48-71 | the contract of the standard decoder can be met, and by one function only |
| `History.EventHash` | adapter/check_codex_isolated_evidence.py:216-223 | the running digest is the digest of tag, sequence and three length-prefixed parts |
| `HistoryTheorems.FrameOpens` | adapter/check_codex_isolated_evidence.py:231-243 | a frame before anything else is read as exactly its payload, and what follows is the rest |
| `HistoryTheorems.FrameCloses` | adapter/check_codex_isolated_evidence.py:231-243 | bytes from which a first frame is read are that frame and the rest |
| `History.VerifyFrame` | adapter/check_codex_isolated_evidence.py:241-266 | one frame is judged by its fields, its place and the hash over the bytes of its data; a version may be written as anything that equals 1 |
| `History.NextFrame` | adapter/check_codex_isolated_evidence.py:230-278 | one turn of the loop takes exactly one frame off the rest of the file, or the whole file is refused |
| `History.ReplayHistory` | adapter/check_codex_isolated_evidence.py:226-279 | the loop returns the events of the chain read from the first frame to the last, or refuses |
| `HistoryTheorems.FramedIsAccepted` | adapter/check_codex_isolated_evidence.py:226-279 | framing any chain of accepted payloads gives a file that is accepted with exactly its links, unless it is empty or larger than 32 MiB |
| `HistoryTheorems.AcceptedIff` | adapter/check_codex_isolated_evidence.py:226-279 | a file is accepted with these links if and only if it is the frames of payloads accepted in turn, not empty and within 32 MiB |
| `HistoryFields.FrameIsAcceptedIff` | adapter/check_codex_isolated_evidence.py:241-276 | a frame is accepted as an event if and only if it decodes to the six fields, each as spelled out, and its hash is that of tag, sequence and three length-prefixed parts |
| `HistoryFields.HistoryIsAcceptedIff` | adapter/check_codex_isolated_evidence.py:226-279 | a file is accepted if and only if it has from one byte to 32 MiB and is frames of at most 16 MiB with marker and length, numbered from one, each after the hash before it, the first after zeroes |
| `HistoryTheorems.ReplayedIsFramed` | adapter/check_codex_isolated_evidence.py:226-279 | an accepted file is nothing but the frames of payloads accepted in turn |
| `HistoryTheorems.PrefixReplays` | adapter/check_codex_isolated_evidence.py:226-279 | a prefix of the bytes is refused or replays to a prefix of the links, a strict one if the bytes are |
| `HistoryTheorems.AnchorPins` | adapter/check_codex_isolated_evidence.py:282-310 | the anchor's bytes determine the length and the last hash |
| `HistoryFields.AnchorIsAcceptedIff` | adapter/check_codex_isolated_evidence.py:282-310 | the one anchor that is accepted, spelled out: length, last hash, and as its checksum the digest of both |
| `HistoryFields.ChecksumPins` | adapter/check_codex_isolated_evidence.py:295-300 | the checksum alone determines the length and the last hash, or two heads collide |
| `HistoryFields.HashedApart` | adapter/check_codex_isolated_evidence.py:216-300 | no bytes are hashed for an event that could be hashed for an anchor |
| `HistoryTheorems.TruncationDetected` | adapter/check_codex_isolated_evidence.py:226-310 | cutting an anchored History short at any byte is refused by replay or by the anchor |
| `HistoryTheorems.PreimageInjective` | adapter/check_codex_isolated_evidence.py:212-223 | the hashed bytes determine the sequence, the previous hash, the operation and the data |
| `HistoryFields.BigEndianByte` | adapter/check_codex_isolated_evidence.py:212-219 | each of the eight bytes of a length or sequence has the weight of its place, the most significant first |
| `HistoryTheorems.CutDecodes` | adapter/check_codex_isolated_evidence.py:241-262 | on every payload that decodes to an object with the member, the scanner succeeds and the cut bytes decode to the member's value |
| `HistoryTheorems.ReplayedIsChained` | adapter/check_codex_isolated_evidence.py:226-279 | every accepted event has its place as sequence, continues the hash before it, and carries the hash of its own parts |
| `HistoryTheorems.SameHeadSameChain` | adapter/check_codex_isolated_evidence.py:212-279 | two chains of one length with the same last hash are equal, link by link, or collide at some place |
| `HistoryTheorems.AnchorPinsEvents` | adapter/check_codex_isolated_evidence.py:226-310 | two files accepted under one anchor replay to the same events, whatever their blanks and member order, or exhibit a collision |
| `Canonical.CompactRoundTrip` | adapter/check_claude_mcp_evidence.py:173-181 | decoding undoes compact encoding |
| `Canonical.CompactSpelled` | adapter/check_claude_mcp_evidence.py:173-181 | compact text has no blanks and lists items and members in the order in which they are held |
| `Canonical.CutIsReencoding` | adapter/check_codex_isolated_evidence.py:262-266 | in a compact frame the cut member is the compact encoding of the member's value |
| `Canonical.DigestsAgree` | adapter/check_qemu_agent_restore_evidence.py:105-127 | on every canonical frame with a `data` member the digest over the bytes in the file equals the digest over the re-encoded value |
| `McpHistory.McpVerifyFrame` | adapter/check_claude_mcp_evidence.py:173-201 | one frame is judged by its re-encoding, its fields and the hash over the re-encoded data |
| `McpHistory.ReadHistory` | adapter/check_claude_mcp_evidence.py:160-204 | the events of the chain if the loop accepts the file, within its own limit of 64 MiB, and there are exactly seven; otherwise refused |
| `McpHistory.StrictDecodesIff` | adapter/check_codex_isolated_evidence.py:57-71 | on a canonical text the decoder that refuses constants agrees with the one that does not, if and only if no constant occurs |
| `McpHistory.CheckersAgreeIff` | adapter/check_claude_mcp_evidence.py:173-201 | a frame accepted by scanning is accepted by re-encoding iff it is canonical; one accepted by re-encoding is accepted by scanning iff its sequence is written as an integer and it holds no constant; then event, hashed bytes and hash are the same |
| `McpHistory.ScannedIff` | adapter/check_claude_mcp_evidence.py:160-204 | a History accepted by re-encoding is accepted by scanning, with the same links, if and only if that holds of every frame and the file is within 32 MiB |
| `McpHistory.ReencodedIff` | adapter/check_claude_mcp_evidence.py:160-204 | a History accepted by scanning is accepted by re-encoding, with the same links, if and only if every frame is canonical |
| `McpHistory.FrameAcceptedIff` | adapter/check_claude_mcp_evidence.py:173-201 | every well-linked frame, with any data and any number equal to its place, is accepted by re-encoding, and by scanning iff the number is the integer and the data is finite |
| `McpHistory.SequenceTrueDiffers` | adapter/check_claude_mcp_evidence.py:194-194 | a first frame with `"sequence":true` is accepted by re-encoding and refused by scanning |
| `McpHistory.ConstantDiffers` | adapter/check_claude_mcp_evidence.py:52-56 | a first frame with `NaN` as data is accepted by re-encoding and refused by scanning |
| `HtmlEscapes.UnchangedIff` | runtime/internal/history/history.go:172-195 | escaping leaves a text as it is if and only if it holds none of the escaped characters |
| `HtmlEscapes.EscapesSpelled` | runtime/internal/history/history.go:187-195 | what is escaped and as what: three characters and two line separators, and nothing else |
| `HtmlEscapes.StoredIsEscaped` | runtime/internal/history/history.go:172-195 | the data as the frame stores it is the compact data that was hashed, escaped byte for byte |
| `Dialects.ForeignDecodes` | adapter/check_codex_isolated_evidence.py:61-71 | a decoder reads text that a wider reader admits if and only if it is text for itself, repeats no key and is not nested too deeply |
| `FrameFormat.EventDecodes` | runtime/internal/history/history.go:187-195 | a stored event decodes to its six fields if and only if the decoder admits its data, and the scanner then cuts exactly the stored data |
| `FrameFormat.EventSpelled` | runtime/internal/history/history.go:187-195 | the text of a stored event: its six fields in their order, with no blanks |
| `FrameFormat.EventChecked` | adapter/check_codex_isolated_evidence.py:241-266 | a stored event in its place is accepted if and only if its data can be read and its hash is that of the stored data and of the operation as it is read back |
| `Writer.WrittenIsReadIff` | runtime/internal/history/history.go:163-199 | the checker reads back what was written if and only if it can read the data and neither operation nor data is changed after hashing, or the digest collides |
| `Writer.LessThanIsRefused` | runtime/internal/history/history.go:160-199 | data handed over as the text `"<"` makes a frame that the checker refuses, unless the digest collides |
| `Writer.NotUtf8IsRefused` | runtime/internal/history/history.go:167-199 | data that is valid for the writer, but not UTF-8, makes a frame that the checker refuses, although no key is repeated and nothing escaped |
| `Writer.NameNotUtf8IsRefused` | runtime/internal/history/history.go:182-199 | an operation that is not UTF-8 makes a frame that the checker refuses, whatever the data, unless the digest collides |
| `Writer.FrameAppended` | runtime/internal/history/history.go:205-214 | a frame put after an accepted History is read after it |
| `Writer.FrameRefused` | adapter/check_codex_isolated_evidence.py:226-279 | a refused frame makes everything before it unreadable too |
| `Writer.EventAppended` | runtime/internal/history/history.go:160-226 | after appending, the checker accepts the file if and only if the event survives and the file is within 32 MiB; it then reads every event back, and its loop refuses the file if the event does not survive |
| `Writer.HistoryFile.constructor` | runtime/internal/history/history.go:85-144 | a new History is empty and replays to nothing |
| `Writer.HistoryFile.AppendJson` | runtime/internal/history/history.go:160-226 | what is refused and leaves everything as it was, the whole new state, and exactly when the checker accepts the file |
| `Writer.HistoryFile.Append` | runtime/internal/history/history.go:146-226 | the same for a value that the runtime encodes; it is read back if the checker admits its text and the operation is written as it is |
| `Writer.HeldIsAccepted` | adapter/check_codex_isolated_evidence.py:226-310 | within the size limit such a file is accepted, and its head is the anchor that is asked for |
| `Witness.WriterAgrees` | runtime/internal/history/history.go:146-226 | there are a writer, a reader and a digest related as the theorems about the writer suppose, with texts on which they differ |
| `Witness.CheckersAreSiblings` | adapter/check_claude_mcp_evidence.py:160-204 | there are two decoders, an encoder and a digest related as the theorems about the two checkers suppose |
| `CanonicalJson.SortedKeeps` | adapter/observations.py:36-37 | sorting the keys orders every object strictly and keeps the value up to the order of members |
| `CanonicalJson.OrderedByTree` | adapter/observations.py:36-37 | a sorted value is determined by its content without regard to order |
| `CanonicalJson.SameTextIffSameTree` | adapter/observations.py:36-37 | two values have the same canonical text if and only if they differ at most in the order of members |
| `Observations.AlphaNormalizer.constructor` | adapter/observations.py:43-44 | a fresh normaliser knows no aliases |
| `Observations.AlphaNormalizer.Rename` | adapter/observations.py:46-50 | a known identifier keeps its alias, a new one gets the next number of its namespace |
| `Observations.AlphaNormalizer.Normalize` | adapter/observations.py:52-68 | result and new aliases are those of the threaded walk |
| `Observations.AlphaNormalizer.NormalizeMembers` | adapter/observations.py:55-63 | the loop over a dictionary skips timestamps, drops nulls and keeps the order |
| `Observations.AlphaNormalizer.NormalizeItems` | adapter/observations.py:64-65 | a list is normalised item by item under the key of the list |
| `Observations.ObservationKey` | adapter/observations.py:112-122 | one normaliser is threaded through workspace, events and action; unknown levels are refused |
| `Renaming.NormSplits` | adapter/observations.py:46-68 | the threaded walk equals erasing, collecting the identifiers in order, and renaming by any later state |
| `Renaming.LearnNumbers` | adapter/observations.py:46-50 | the aliases of a namespace number its identifiers from one in the order first met |
| `Renaming.CarriesTree` | adapter/observations.py:52-68 | trees with the same renamed form are carried to each other by any map that agrees with it |
| `NormalForms.SameFormIff` | adapter/observations.py:40-68 | normal forms are equal, up to the order of members, if and only if a renaming carries one erased value to the other and meets every namespace in the same order |
| `NormalForms.CarriesOneToOne` | adapter/observations.py:46-50 | such a renaming is a bijection of the identifiers of every namespace |
| `NormalForms.RenamingKeepsForm` | adapter/observations.py:40-68 | any renaming that is injective per namespace on the kept identifiers leaves the normal form unchanged |
| `NormalForms.NormalisingTwice` | adapter/observations.py:43-68 | normalising a normalised value with a fresh normaliser returns it unchanged |
| `ObservationTheorems.KeyShowsForm` | adapter/observations.py:112-122 | the text of a key determines the normal form of everything observed at that level, and is determined by it |
| `ObservationTheorems.EqualKeysIff` | adapter/observations.py:40-122 | keys are equal if and only if a renaming carries what is kept of one record to what is kept of the other, in the order of meeting |
| `ObservedFields.EqualKeysByField` | adapter/observations.py:112-122 | which fields a level observes: keys are equal if and only if one renaming carries workspace and selected action, from O1 on the provider events and at O2 the trusted events, and first meetings correspond |
| `ObservedFields.KeysIgnore` | adapter/observations.py:112-122 | which fields it ignores: case and decision always, trusted events below O2, provider events at O0 |
| `ObservedFields.SelectedMembers` | adapter/observations.py:71-99 | the selected action has the thirteen allowed members as they are, the digest of arguments that are not null, and no other member |
| `ObservedFields.OthersIgnored` | adapter/observations.py:80-99 | members of the action with any other name make no difference |
| `ObservedFields.ErasedMembers` | adapter/observations.py:55-63 | of every object without repeated names, exactly the members that are neither timestamps nor null are left |
| `ObservedFields.TwoIdentifiers` | adapter/observations.py:16-68 | which names hold identifiers of which namespace, and that identifiers are numbered from one in each |
| `ObservationTheorems.KeysAreSound` | adapter/observations.py:40-122 | equal keys: per-namespace bijections carry one kept record to the other |
| `ObservationTheorems.KeysPinArguments` | adapter/observations.py:71-99 | equal keys: the arguments are equal up to the order of members, or their digests collide |
| `ObservationTheorems.RenamingKeepsKey` | adapter/observations.py:80-122 | renaming identifiers injectively everywhere but inside `arguments` leaves the key unchanged |
| `ObservationTheorems.EqualKeysInOrderIff` | adapter/observations.py:40-122 | for records listed in the same order, keys are equal if and only if an injective renaming turns one into the other |
| `ObservationTheorems.CoarserKeysAgree` | adapter/observations.py:112-122 | for records listed in the same order, equal O2 keys imply equal O1 keys and equal O1 keys imply equal O0 keys |
| `ObservationTheorems.CoarserKeysAgreeIff` | adapter/observations.py:112-122 | for any records, in any order: if a renaming carries one to the other at one level, their keys agree at the next coarser one if and only if the first meetings left there correspond under it |
| `MemberOrder.OrderMatters` | adapter/observations.py:52-122 | without the same order both fail: equal dictionaries, equal O1 keys, different O0 keys |
| `Fibers.GroupByKey` | adapter/observations.py:126-128 | the dictionary holds, for every key met and in insertion order, exactly the records with that key |
| `Fibers.MixedLabelFibers` | adapter/observations.py:125-140 | the mixed fibers in the order their keys are first met: each shows the digest of its key, each case as often as records with the key have it, and exactly their labels; an unknown level is refused when there are records |
| `Fibers.MixedIff` | adapter/observations.py:130-132 | a key is mixed if and only if two records have it and different labels |
| `Fibers.ListsMixedFibers` | adapter/observations.py:129-140 | the result lists exactly the fibers of the mixed keys |
| `Fibers.FibersByRecord` | adapter/observations.py:125-140 | said of the records alone: there is one fiber for each record that is the first with a mixed key, in this order, and it describes the records with that key |
| `Fibers.NoMixedFibersIff` | adapter/observations.py:125-140 | there are no mixed fibers if and only if some function of the key gives every label |
| `Fibers.LevelsRefine` | adapter/observations.py:112-128 | on records listed in the same order, every level refines the next coarser one |
| `Fibers.MixedInsideCoarser` | adapter/observations.py:112-140 | every mixed fiber lies inside a mixed fiber of the next coarser level |
| `Fibers.CoarsestDecides` | adapter/observations.py:112-140 | if O0 leaves no label open, no finer level does |
| `Egress.CheckRuns` | adapter/check_firecracker_deathstar_egress_evidence.py:435-483 | the two loops over the runs check keys, operation ids, generations and fresh VMM identities |
| `Egress.CheckComparison` | adapter/check_firecracker_deathstar_egress_evidence.py:432-501 | acceptance of the runs, with all keys and all cells distinct |
| `Egress.GroupDeliveries` | adapter/check_firecracker_deathstar_egress_evidence.py:503-519 | the audit is numbered, has 3n + 1 records and is grouped by operation |
| `Egress.CheckDeliveries` | adapter/check_firecracker_deathstar_egress_evidence.py:503-524 | the groups have exactly the expected sizes and there are no others |
| `Egress.ExpectObservations` | adapter/check_firecracker_deathstar_egress_evidence.py:553-572 | the expected observations, four per protected run, two per raw run and one |
| `EgressTheorems.OperationsAreDistinct` | adapter/check_firecracker_deathstar_egress_evidence.py:501-524 | the n protected operation ids are pairwise distinct and distinct from all raw keys and the stopped key, by counting alone |
| `EgressTheorems.DeliveredExactly` | adapter/check_firecracker_deathstar_egress_evidence.py:503-524 | each protected id was delivered once, each raw key twice, the stopped key once, and every delivery is attributed |
| `EgressTheorems.PreparedAndSucceededOnce` | adapter/check_firecracker_deathstar_egress_evidence.py:526-533 | each protected id was prepared exactly once and succeeded exactly once, and nothing else was |
| `EgressTheorems.CellsAreDistinct` | adapter/check_firecracker_deathstar_egress_evidence.py:434-501 | the 4n + 1 cells are numbered in turn and share no VMM identity |
| `EgressTheorems.ObservationsOfTheirRun` | adapter/check_firecracker_deathstar_egress_evidence.py:553-648 | the offsets select exactly the observations of their own run, out of 6n + 1 |
| `EgressTheorems.OutcomesCounted` | adapter/check_firecracker_deathstar_egress_evidence.py:553-605 | 5n + 1 observations succeeded and n are inconclusive |
| `EgressTheorems.EventsOfTheirRun` | adapter/check_firecracker_deathstar_egress_evidence.py:613-645 | the offsets into the 6n + 1 timeline entries select commits and ends by name |
| `EgressCheck.TimelineOfTheirRun` | adapter/check_firecracker_deathstar_egress_evidence.py:627-645 | the entry at 4i is about protected run i and no other run, and the entry at 4n + 2i about raw run i and no other run, both ways |
| `EgressCheck.CheckObservations` | adapter/check_firecracker_deathstar_egress_evidence.py:573-611 | every observation is the expected one and their times increase strictly |
| `EgressCheck.ExpectEvents` | adapter/check_firecracker_deathstar_egress_evidence.py:614-619 | the expected events of n protected runs, n raw runs and the stop |
| `EgressCheck.CheckTimeline` | adapter/check_firecracker_deathstar_egress_evidence.py:613-626 | the timeline has the expected events, is numbered and in order |
| `EgressCheck.CountedIsReady` | adapter/check_firecracker_deathstar_egress_evidence.py:503-665 | after the counts no lookup of the barriers can fail |
| `EgressCheck.CheckBarriers` | adapter/check_firecracker_deathstar_egress_evidence.py:627-665 | the loops decide the commit barriers of every run |
| `EgressCheck.Check` | adapter/check_firecracker_deathstar_egress_evidence.py:432-665 | acceptance of the modelled evidence, both ways |
| `EgressFields.AcceptedIff` | adapter/check_firecracker_deathstar_egress_evidence.py:432-665 | exactly which evidence is accepted, place by place of its fields: runs, keys and cells, deliveries, operations, observations, timeline, and the times of every barrier |
| `EgressCheck.ProtectedRunInOrder` | adapter/check_firecracker_deathstar_egress_evidence.py:627-634 | in every accepted protected run the only commit precedes every observation of the run, and the first of them precedes the source's stop |
| `EgressCheck.RawRunInOrder` | adapter/check_firecracker_deathstar_egress_evidence.py:635-654 | in every accepted raw run the first commit is seen before the source's stop, and the second is seen as the second |
| `EgressCheck.StoppedRunInOrder` | adapter/check_firecracker_deathstar_egress_evidence.py:655-665 | the stopped run's only commit precedes its only observation, which precedes the source's stop |
| `Results.SummariseRuns` | adapter/check_results.py:334-354 | the expected calls and histories, over all runs |
| `Results.CheckRawProtocol` | adapter/check_results.py:334-421 | no failures if and only if the raw log agrees with the summaries, and the count of raw calls |
| `Results.IndexRuns` | adapter/check_results.py:635-644 | the dictionary of runs, and no failure if and only if no run comes twice |
| `Results.CheckRun` | adapter/check_results.py:707-734 | no failures if and only if no effect comes twice, every outcome is mediated, and accepted dispatches have calls |
| `Results.CheckDocument` | adapter/check_results.py:622-771 | no failures if and only if all the modelled gates hold; outcomes without an effect are a format error |
| `ResultsFields.PassesIff` | adapter/check_results.py:334-771 | exactly which documents pass, said of fields: calls, answers, histories and forks in the log, one run of every case under every policy, and the outcomes of every run |
| `ResultsFields.MalformedIff` | adapter/check_results.py:680-771 | the format error is raised if and only if a run that is looked at records an outcome without an effect |
| `ResultsTheorems.OutcomesAtMostCallbacks` | adapter/check_results.py:707-771 | over all runs there are at most as many sink outcomes as raw `item/tool/call` callbacks |
| `ResultsTheorems.EveryOutcomeHasCallback` | adapter/check_results.py:707-726 | every outcome has a raw callback that agrees in all five fields with a call of the same run, which went through the App Server and names the effect |
| `ResultsTheorems.EveryCallbackAnswered` | adapter/check_results.py:356-402 | every raw callback with a request id has a response with that id |
| `ResultsTheorems.CallsCorrespond` | adapter/check_results.py:334-385 | each combination of thread, turn, call, tool and effect comes as often among the raw callbacks as among the summarised calls |
| `ResultsTheorems.SignatureShowsFields` | adapter/check_results.py:334-385 | a summarised call and a raw callback count as the same if and only if all five fields agree |
| `ResultsTheorems.EveryHistoryStarted` | adapter/check_results.py:346-410 | every history that a run names was started, as the log shows |
| `ResultsTheorems.ForksCounted` | adapter/check_results.py:346-421 | as many forks were asked for as different histories are named |
| `ResultsTheorems.RunsAreTheSuite` | adapter/check_results.py:622-668 | every case of the suite was run once under each of the four policies, and nothing else was run |
| `ResultsTheorems.OutcomesAreSingle` | adapter/check_results.py:707-734 | no run records two outcomes of one effect, and a run that dispatched has tool calls |
| `Qmp.QmpCommands` | adapter/check_qemu_agent_restore_evidence.py:331-362 | the loop accepts exactly the traces whose commands are all returned; it returns the statuses, and for the k-th command of the client its name, its time, and its command line if it addresses the monitor |
| `Qmp.AcceptedIff` | adapter/check_qemu_agent_restore_evidence.py:331-362 | exactly which traces are accepted: commands are well formed and have identities of their own, and each has one response, later and successful, with a status if one was asked for |
| `Qmp.CommandsInOrder` | adapter/check_qemu_agent_restore_evidence.py:336-348 | said of the records alone: one command and one time for each record of the client, in order |
| `Qmp.OneToOne` | adapter/check_qemu_agent_restore_evidence.py:336-361 | commands and identified responses correspond one to one, each response later than its command and successful |
| `Qmp.StatusesInOrder` | adapter/check_qemu_agent_restore_evidence.py:356-360 | the statuses are exactly those of `query-status`, in response order |
| `Heartbeats.CheckHeartbeats` | adapter/check_qemu_agent_restore_evidence.py:760-778 | at least two heartbeats, both ends covered, and every interval at most 35 seconds |
| `Heartbeats.EveryWindowIsHit` | adapter/check_qemu_agent_restore_evidence.py:772-778 | every closed 35-second window inside the execution holds a heartbeat |
| `Heartbeats.DurationBounded` | adapter/check_qemu_agent_restore_evidence.py:772-778 | n heartbeats bound the duration by 35(n + 1) seconds from above and by n - 1 nanoseconds from below |
| `Heartbeats.DurationBoundIsTight` | adapter/check_qemu_agent_restore_evidence.py:772-778 | for every n that bound is reached |
| `Heartbeats.ShortestIsTight` | adapter/check_qemu_agent_restore_evidence.py:772-778 | for every n the lower bound is reached too |
| `Identities.CallIdV1Injective` | adapter/check_codex_mcp_evidence.py:180-182 | a version 1 call id determines execution id and sequence, colons or not |
| `Identities.CallIdV2Injective` | adapter/check_codex_mcp_evidence.py:183-184 | a version 2 call id determines execution id and key |
| `Identities.CallIdVersionsApart` | adapter/check_codex_mcp_evidence.py:180-184 | the two versions never give the same call id |
| `Identities.OperationPreimageInjective` | adapter/check_codex_integrated_evidence.py:83-89 | the hashed bytes determine a NUL-free domain and the call id |
| `Identities.SandboxPreimageInjective` | adapter/check_codex_integrated_evidence.py:92-100 | the hashed bytes determine a NUL-free domain, a NUL-free sandbox id and the call id |
| `Identities.TagsApart` | adapter/check_codex_integrated_evidence.py:83-100 | the two kinds of operation id never hash the same bytes |
| `Identities.UniquePreimageIff` | adapter/check_codex_integrated_evidence.py:83-89 | no other parts give the same bytes if and only if neither part contains a NUL |
| `Identities.UniqueSandboxIff` | adapter/check_codex_integrated_evidence.py:92-100 | no other three parts give the same bytes if and only if none of them contains a NUL |
| `Identities.NulIsAmbiguous` | adapter/check_codex_integrated_evidence.py:83-100 | a domain with a NUL and another one give the same bytes, with either kind of id |
| `Identities.HeadersAreSorted` | adapter/check_codex_integrated_evidence.py:431-441 | the headers are listed in the order of their names |
| `Identities.GatewayRequest` | adapter/check_codex_integrated_evidence.py:428-444 | the loop over the sorted headers feeds the digest the bytes of the whole request |
| `Identities.RequestSpelled` | adapter/check_codex_integrated_evidence.py:428-444 | the bytes that are hashed for a request, one header after the other |
| `Identities.RequestPreimageInjective` | adapter/check_codex_integrated_evidence.py:428-444 | for a NUL-free url and operation id, the hashed bytes determine url, content-type flag, operation id and body |
| `Identities.UniqueRequestIff` | adapter/check_codex_integrated_evidence.py:428-444 | among NUL-free operation ids, no other request gives the same bytes if and only if no block of headers stands in the url or in the body |
| `Identities.HeadersInBodyAreAmbiguous` | adapter/check_codex_integrated_evidence.py:428-444 | a body that starts with the headers gives the same bytes as a shorter body with a longer url |

## Left out

- The raw log of the client (`_record_raw`), the lists of MCP startup events, and how `request` turns a response into a result or an exception.
- AppServerClient.Client.RouteMessage and AppServerClient.Client.SetFatal are one thread's methods undisturbed by others; the runs in ClientRuns interleave their steps.
- Restarting a client object: the theorems are about one start.  Response ids that are not finite numbers are not modelled.
- The lexical layer of JSON: which bare tokens are numbers or literals, what they are worth, and what text a string literal denotes, are parameters.  Byte strings are written as strings, so the detection of UTF-8 is not modelled.
- Operation names with lone surrogates, which the checker decodes and cannot encode again; the runtime does not write them.
- How deeply a decoder lets values be nested is a number of its own; that of the interpreter varies.
- McpHistory.McpVerifyFrame: a sequence of seventeen digits or more, which does not fit the file, would also equal floating-point numbers in exponent form.
- The History loops of the restore and egress checkers, which have no frame limit, demand an object as data and do not compare the set of fields: Canonical.DigestsAgree covers their event hash.
- Writer.HistoryFile.constructor: a new file; opening an existing one, failed writes and their rollback, the writer lock, and more than 2^64 events are not modelled.
- Writer.HistoryFile.AppendJson: the text is handed over as its syntax, if it is valid JSON.
- Writer.HistoryFile.Append: what `json.Marshal` makes of a value is a parameter, of which it is supposed that it is valid JSON with nothing left to escape.
- Keys of dictionaries that are not strings, which `normalize` turns into strings.
- Fibers.MixedLabelFibers: does not model the sorting of cases, labels and fibers, which only affects presentation; cases are a multiset and labels a set.
- Egress.CheckRuns: without row counts, stale probes, and the fixed checks of a cell other than its generation, its identity and its times.
- Egress.CheckComparison: without the comparison matrix and the fixed fields of the runs.
- Egress.GroupDeliveries: without the status, drop and delay fields of an audit record, which are compared with constants.
- EgressCheck.CheckObservations: without the facts and hashes inside an observation.
- EgressCheck.Check: without artifact hashes, graph provenance, relay records, request contracts and model requests, which are fixed comparisons.
- Results.CheckDocument: without the gates for oracle agreement, fault and adapter correspondence, replay, controls and fiber comparison, which can only add failures.
- Qmp.QmpCommands: without the greeting and payloads that are not objects.
- Heartbeats.CheckHeartbeats: without stage names, the record schema and the duration fields beside the clock endpoints.
- Call keys and configuration digests of the MCP journal, whose four records are compared field by field.
- The controller, replay, oracle, compiler and the rest of the Go runtime; process, Docker, file-mode and certificate checks: operating-system facts and fixed comparisons that would only add easy members.
