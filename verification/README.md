# A verified model of hostit

hostit runs small apps on a cluster: a control process owns the registry, nodes run the
apps' containers, proxies route to them, and a built-in coding assistant works on an app
from the browser. This project models the parts of it where a whole run has to come out
right, and proves what they promise.

- **The assistant's transcript** (`Transcript`, `Repair`, `PairingLaws`, `CloseLaws`,
  `DisplayLaws`, `Accumulator`, `Window`, `ModelLoop`, `TurnLaws`, `PublishLaws`, `Redaction`): the display
  fold, the two repair passes, the accumulator for streamed turns, the context window, the
  loop that calls the model and runs tools, and credential redaction.
- **The assistant's sessions** (`Session`, `RunLimits`, `RunProtocol`): fan-out to watchers,
  per-user limits, one run per session object.
- **The in-container agent** (`Supervisor`, `LineWriter`, `AppLog`): the supervisor's loop
  and signals, the crash back-off, the line-stamping writer, the rotating log.
- **Control's replication** (`StringOrder`, `RouteBuild`, `RouteTable`, `Mirror`,
  `SessionRegistry`): routing
  tables and how they are built and numbered for proxies, and registry mirrors for nodes, under
  reordering, redials and restarts.
- **Control's allocators and schedules** (`Ports`, `SnapshotSchedule`).
- **Text and tokens** (`YamlText`, `HostitYaml`, `HostitConfig`, `Description`,
  `TokenCache`, `KeyRotation`): line surgery on hostit.yml, the access-token cache, and the
  rotation of the key that credentials are sealed under.

Code that works step by step is a method or a class proved against a specification
function; what the code promises is proved about that function. Protocols are step systems:
a `Step` is what happens while one lock is held, `Next` its effect, and the main lemmas
range over every sequence of steps. Check the project with `dafny verify dfyconfig.toml`.

## Where a promise needs a condition

The model follows the code. Where a promise in a comment or in the documentation does not
hold for every input or every interleaving, there is a lemma with a concrete case and one with
the condition under which it does hold; the condition is exact where a lemma says so.

- The two repair passes pair results first-in-first-out over the whole history, so a call
  that was never answered shifts every later result. They succeed exactly when calls and
  results are aligned by count (`PairingLaws.RepairSucceedsIff`).
- The window "keeps tool_use/tool_result pairs intact" exactly when it is not cut at a
  message that mixes results and text; the closing pass makes such messages
  (`Window.WindowPairedIff`, `Window.WindowBreaksRepairedHistory`).
- `yamlScalar` quotes "only when a plain scalar would not survive"; values that end in a
  colon, hold a colon or a hash next to a tab, or spell null are left plain and do not
  survive (`YamlText.ScalarRoundTripIff`).
- `SetDescription` and `SetSnapshotConfig` are idempotent exactly for one-line descriptions
  and for blocks without repeated lines of a removed key (`Description.LastWriteWinsIff`,
  `HostitConfig.IdempotentIff`).
- The snapshot loop waits a tick and then sweeps, so its gaps are a tick and the time a sweep
  took. Whether such gaps can miss an app's slot for ever depends on the interval and the longest
  sweep, and so does how long the slot takes to be met (`SnapshotSchedule.MissableIff`,
  `SnapshotSchedule.LoopFires`); for the default of three hours it is never missed while sweeps
  take less than an eleventh of a tick (`SnapshotSchedule.DefaultInterval`). An interval below a
  second stops the sweep (`SnapshotSchedule.PanicsIff`, `SnapshotSchedule.AutoSnapshotSweep`).
- The route loop's comment says that a missed push is self-correcting on its next tick. It is
  exactly when the number has moved since (`RouteTable.TickSettlesIff`, `RouteTable.StaysStale`);
  otherwise it is the reconcile timer that repairs it (`RouteTable.PushSettles`).
- The number is documented to move exactly when the content changes. It does exactly for
  registries in which no two reachable apps share a host, as the store's keys see to
  (`RouteBuild.OneTableIff`, `RouteBuild.SameRegistrySameTable`).
- Proxies and nodes check a number and store the payload in two steps, so pushes that overlap can
  leave an older one (`RouteTable.OverlappingPushesGoBack`, `Mirror.OverlappingSyncsKeepOlder`).
  They do exactly when a handler stores after a newer one was stored since its comparison
  (`RouteTable.NeverBackIff`, `Mirror.NeverBackIff`). At a node, which forgets its number on a
  redial, also when something newer was in place before its comparison; that takes a redial
  between sending and admission (`Mirror.BehindTakesRedial`, `Mirror.LateHandlerKeepsOlder`).
  Without one, rows move back exactly when they are not replaced in the order of admission
  (`Mirror.InOrderIff`).
- `allocatePort` is documented as returning the lowest free port; the code rotates. Two apps come
  to hold one port exactly when it is granted while its app is exposed (`Ports.AlwaysUniqueIff`),
  which happens in three ways (`Ports.DeleteWindowSharesPort`,
  `Ports.DeleteDuringCreateFreesPort`, `Ports.StaleRowsGrantTwice`).
- A refresh that overlaps a reconnect can bring the old credential back
  (`TokenCache.OverlapRevertsReconnect`), and nothing else can (`TokenCache.AlwaysCurrentIff`).
- A key rotation that fails part-way is documented to leave the old key correct for what has not
  been rewritten; what has been rewritten is then lost (`KeyRotation.LostIff`,
  `KeyRotation.LosingRotation`). The previous key is documented as the way back from a process
  that dies; it is none (`KeyRotation.DeathLosesIff`, `KeyRotation.PreviousIsNoWayBack`).
- One turn runs per session object. One runs per app exactly when no run claims an object beside a
  run of the app that holds another (`RunProtocol.NeverTwoIff`), so when sessions are not dropped
  from under a run (`RunProtocol.OneTurnPerApp`); otherwise two can
  (`RunProtocol.DroppedSessionRunsTwice`).
- The hourly limit holds for hours without their end. With it, an hour holds at most the limit
  exactly when no start comes an hour to the moment after the one that many places before
  (`RunLimits.ClosedHourIff`), and otherwise up to twice the limit
  (`RunLimits.ClosedHourHoldsTwice`).

## Modelling choices

- Minted tool ids are `mint(k)`, the k-th random id; that they do not repeat and do not
  occur in the history is a hypothesis, as is that the model service's ids are fresh.
- What the model service and the tools answer in a turn is a parameter indexed by the call,
  so a statement for all such parameters covers every reaction to what was asked.
- Clocks, name hashes and content hashes are parameters; the routing table's hash is taken to be
  collision-free. A seal is a fresh number.
- Failing writes, renames, pushes and persistence are parameters of the steps, and the
  theorems say which they assume to succeed.
- A channel is a sequence of at most its capacity and a closed flag; a mutex-protected
  section is one step.
- The YAML reader covers what is written: keys on their own lines, plain and double-quoted
  scalars (sections 7.3.1 and 7.3.3 of YAML 1.2.2).

## Model

| member | source | states |
|---|---|---|
| `Transcript.ToItems` | assistant/transcript.go:35-62 | The display fold with its index map and overwriting gives, for every stored transcript, the look-ahead reading: each call shows the last result addressed to it before its id is used again, and nothing shows a result that no call precedes |
| `Transcript.AddBlock` | assistant/transcript.go:38-60 | One block keeps items and index map in step with the reading of everything so far |
| `Transcript.ItemsSnoc` | assistant/transcript.go:41-58 | One more block changes the reading in one place: a result overwrites the newest call with its id, anything else appends |
| `DisplayLaws.ItemAt` | assistant/transcript.go:35-62 | By position: user texts but for the upload note show as the user's, assistant texts as the reply with its model and time, calls with their name, input and result; in the order of the blocks, and nothing else shows |
| `DisplayLaws.AnswerIff` | assistant/transcript.go:53-57 | A call's result is the last one addressed to it before its id is used again, if there is one |
| `DisplayLaws.FlattenAt` | assistant/transcript.go:38-39 | Blocks are taken message by message, with their message's role, model and time |
| `Repair.DedupeToolIDs` | assistant/claude.go:188-210 | The pass with its queue re-mints every call id in order and hands the oldest unanswered one to each result; results beyond the calls keep their id |
| `Repair.CloseDanglingToolUses` | assistant/claude.go:225-274 | The index loop that may emit two messages at once answers exactly the calls the next message leaves open, in that message or in a new one |
| `Repair.EmitFor` | assistant/claude.go:227-271 | What one iteration emits and whether it consumes the next message |
| `Repair.CloseStep` | assistant/claude.go:227-271 | The loop's iteration and the recursive reading of the pass agree |
| `PairingLaws.StrictlyPairedIff` | assistant/claude.go:182-187 | The API's rule stated by index (every call answered exactly once in the next message, every result answering one, ids distinct) is the rule read from the front |
| `PairingLaws.RewriteCalls` | assistant/claude.go:196-200 | A message's calls get the next minted ids in order |
| `PairingLaws.RewriteResults` | assistant/claude.go:201-204 | A message's results get the oldest queued ids, then keep their own |
| `PairingLaws.OneMessage` | assistant/claude.go:188-274 | A user message right after a message that made calls ends up answering exactly those calls if and only if it has no more results than they and nothing older is queued |
| `PairingLaws.RepairSucceedsIff` | assistant/claude.go:188-274 | Both passes together make a history acceptable if and only if its calls and results are aligned by count, for every history |
| `CloseLaws.CloseIdempotent` | assistant/claude.go:225-274 | Closing twice is closing once |
| `CloseLaws.CloseUnchangedIff` | assistant/claude.go:216-224 | Closing changes nothing if and only if every call already has its answer in the next user message |
| `CloseLaws.PairedIsAnswered` | assistant/claude.go:216-224 | An acceptable history is left as it is |
| `CloseLaws.DedupeKeepsRest` | assistant/claude.go:188-210 | Re-minting changes ids and nothing else |
| `CloseLaws.CloseAddsOnlyNotes` | assistant/claude.go:225-274 | Closing adds interruption notes and nothing else: without them the history is what it was |
| `CloseLaws.AlignedBehindPaired` | assistant/claude.go:188-274 | An acceptable prefix never decides whether the repair succeeds |
| `CloseLaws.InterruptedTurnHeals` | assistant/claude.go:212-224 | A turn cut off between a reply and its results is healed when the owner's next message arrives |
| `CloseLaws.InterruptedThenAnsweredFails` | assistant/claude.go:182-210 | A transcript where a later turn was answered after an interrupted one is not healed: results shift onto older calls |
| `DisplayLaws.DedupeKeepsDisplay` | assistant/claude.go:188-210 | Re-minting does not change the display of a transcript whose results come first-in-first-out |
| `DisplayLaws.CloseMarksInterrupted` | assistant/claude.go:225-274 | Closing changes the display only by giving calls that were never answered the interrupted note and the error flag |
| `Redaction.ScanIsReading` | assistant/tools.go:276-295 | The leftmost, non-overlapping scan equals a reading over the pieces between quotes |
| `Redaction.KeyIsLiteral` | assistant/tools.go:276-276 | The key part of the expression matches exactly where one of the two quoted names stands |
| `Redaction.ColonIff` | assistant/tools.go:276-276 | The middle part is a colon with any white space around it |
| `Redaction.MatchIff` | assistant/tools.go:276-276 | The expression matches exactly where a quoted name, such a colon and a quoted value stand |
| `Redaction.ValueReplaced` | assistant/tools.go:276-295 | The leftmost match of any text: what precedes it stays, its value is replaced, the rest is redacted in turn |
| `Redaction.NothingReplaced` | assistant/tools.go:276-295 | A text without one stays as it is |
| `Redaction.RedactionLaw` | assistant/tools.go:276-295 | Piece by piece: matched values become the mark, everything else is kept, and a second scan matches at the same places |
| `Redaction.RedactIdempotent` | assistant/claude.go:54-58 | Redacting again changes nothing, for every string |
| `Accumulator.ClaudeAccumulator.Add` | assistant/claude.go:140-160 | One event moves the accumulator as the maximal-run reading of the stream moves |
| `Accumulator.ClaudeAccumulator.Flush` | assistant/claude.go:177-180 | What is pending becomes messages |
| `Accumulator.Accumulate` | assistant/claude.go:133-180 | For every event stream, the flushed messages are the maximal one-sided runs of its blocks |
| `Accumulator.RunsLaw` | assistant/claude.go:133-180 | Those messages alternate in role, are not empty, and their blocks concatenate to the stream's |
| `Accumulator.RunsUnique` | assistant/claude.go:133-180 | There is only one such list of messages |
| `Accumulator.ResultsFollowCalls` | assistant/claude.go:143-158 | If results never outnumber calls, the k-th result carries the k-th call's id |
| `Accumulator.AccumulatedTurn` | assistant/claude.go:133-180 | The same as one statement about the method's output |
| `Accumulator.StreamBlockAt` | assistant/claude.go:140-160 | By position: every text, call and result of the stream has its block with its content, and nothing else has |
| `Accumulator.SideIs` | assistant/claude.go:162-175 | Results stand on the user's side, everything else on the assistant's |
| `Accumulator.StrayResult` | assistant/claude.go:149-158 | A result that no call precedes is stored under no id |
| `Window.HasTextBlock` | assistant/service.go:493-500 | Whether a message carries human text |
| `Window.RecentHistory` | assistant/service.go:444-455 | The window is the whole history, or the suffix that begins with a turn start and has exactly the allowed number of them |
| `Window.WindowIs` | assistant/service.go:444-455 | In plain terms: from a message on in which the user speaks, with exactly the allowed number of them, or everything |
| `Window.CutUnique` | assistant/service.go:444-455 | There is only one such window |
| `Window.SuffixPairedIff` | assistant/service.go:438-443 | A suffix of an acceptable history is acceptable if and only if its first message carries no results |
| `Window.WindowPairedIff` | assistant/service.go:438-455 | The window keeps pairs intact if and only if it is not cut at a message that mixes text and results |
| `Window.UnmixedWindowPaired` | assistant/service.go:438-455 | So it does for histories without such messages |
| `Window.ClosedInterrupted` | assistant/claude.go:256-266 | Closing an interrupted call in front of the owner's message makes exactly such a message |
| `Window.WindowBreaksRepairedHistory` | assistant/service.go:438-455 | A repaired history whose window is not acceptable, for every window size |
| `ModelLoop.PublishReply` | assistant/service.go:517-531 | The events of a reply, block by block, and its tool calls in order |
| `PublishLaws.ReplyEventAt` | assistant/service.go:517-531 | By position: every text, thinking and call of a reply is announced for what it is, in order, and nothing else is |
| `PublishLaws.ToolCallAt` | assistant/service.go:526-528 | By position: the calls to run are the reply's calls |
| `ModelLoop.DropThinking` | assistant/service.go:504-513 | The reply without its thinking blocks |
| `PublishLaws.KeptAt` | assistant/service.go:504-513 | By position: everything but thinking is kept |
| `ModelLoop.APIRequestMessages` | assistant/service.go:428-436 | A request is the window of the history without our tags (the cache mark aside) |
| `PublishLaws.RequestIsBare` | assistant/service.go:428-436 | Each message is sent without model and time and otherwise as it is |
| `ModelLoop.RunTools` | assistant/service.go:402-417 | One redacted result and one event per call, in order, each with its call's id |
| `ModelLoop.KeepReply` | assistant/service.go:370-420 | One answer of the model service: totals, events, transcript and saves |
| `ModelLoop.RunAPILoop` | assistant/service.go:336-422 | The whole turn, for every history and every behaviour of the model service and the tools: at most forty calls, which stop at the first answer without tool calls or failure; events, saves, requests and the final history |
| `PublishLaws.AnswerSpan` | assistant/service.go:350-422 | How many events each answer of a turn publishes, and the model event before them |
| `PublishLaws.BlockIsPublished` | assistant/service.go:370-392 | In a whole turn, every visible block of every answer is announced at its place |
| `PublishLaws.ResultIsPublished` | assistant/service.go:402-412 | And so is the result of every call, redacted |
| `PublishLaws.AnswerIsStored` | assistant/service.go:392-420 | What each answer adds to the history, with which role, model and time |
| `PublishLaws.BlockIsStored` | assistant/service.go:392-420 | Block by block: the reply without its thinking, and the redacted result of each call under its id |
| `PublishLaws.AnswerIsSaved` | assistant/service.go:393-420 | The reply is saved before its tools run, and the results with it |
| `PublishLaws.TotalsAddUp` | assistant/service.go:370-386 | Each of the four token counts is added up on its own |
| `TurnLaws.ResultsAnswerReply` | assistant/service.go:392-419 | The results message answers exactly the reply's calls, in their order |
| `TurnLaws.HistoryPaired` | assistant/service.go:336-422 | If the ids of the answers given so far are fresh and distinct, the history after them is fully paired |
| `TurnLaws.EveryCallAcceptable` | assistant/service.go:336-422 | From a history the repair accepts, every call sees a fully paired history that ends in a user message, and the turn leaves one that is fully paired |
| `TurnLaws.RequestAcceptableIff` | assistant/service.go:424-455 | A request is acceptable if and only if its window is cut at a message without results |
| `TurnLaws.OneEnding` | assistant/service.go:360-422 | The turn's last event is its only done, error or paused event, which one it is, and the error's text |
| `TurnLaws.TotalIsSum` | assistant/service.go:370-388 | The running total is the sum of the answers' token counts, and each answer publishes it before anything else |
| `TurnLaws.SharedIsRedacted` | assistant/service.go:405-416 | Of what a tool returned, exactly the credential values are replaced before it is published or stored |
| `TurnLaws.SavedShape` | assistant/service.go:392-420 | Everything handed to the store is a fully paired history, perhaps followed by the one reply whose tools are running |
| `TurnLaws.InterruptionHeals` | assistant/claude.go:212-224 | If the process dies after any save, the next turn's repair succeeds |
| `Session.Session.Publish` | assistant/session.go:52-63 | The fan-out loop, in any order of subscribers, offers the event to each and drops the full ones |
| `Session.Session.Subscribe` | assistant/session.go:66-77 | A new id and channel, refused at the cap |
| `Session.Session.Unsubscribe` | assistant/session.go:79-86 | Closes the channel only if it is still registered |
| `Session.Session.Begin` | assistant/session.go:89-97 | Claims the session, or says that it is taken |
| `Session.Session.End` | assistant/session.go:99-104 | Frees the session and forgets its cancel function |
| `Session.Session.SetCancel` | assistant/session.go:113-117 | Records the cancel function |
| `Session.Session.Stop` | assistant/session.go:120-128 | Calls the recorded cancel function of a running session, once, and says whether it did |
| `Session.Apply` | assistant/session.go:52-86 | Every operation keeps: at most 64 watchers, ids never reused, exactly the unregistered channels closed, every watcher's events a slice of the log; so nothing is closed twice or sent to after close |
| `Session.SubscribeIff` | assistant/session.go:66-77 | A watcher is registered exactly when there are fewer than 64 |
| `Session.PublishReaches` | assistant/session.go:52-63 | A watcher with fewer than 256 events waiting gets the event at the end, one with more is closed and dropped, nobody else gets it |
| `Session.UnsubscribeCloses` | assistant/session.go:79-86 | Leaving closes the channel, once |
| `Session.ReceiveOldest` | assistant/session.go:66-77 | Events are read in the order they were published |
| `Session.EveryRunSound` | assistant/session.go:52-86 | Over every run, a watcher's received and buffered events are a gap-free slice of what was published since it joined, complete while its channel is open |
| `Session.WatcherOnlyGrows` | assistant/session.go:52-86 | Over every run, what a watcher has stays and only grows at the end, and not at all once it is dropped |
| `RunLimits.Manager.ReserveRun` | assistant/service.go:101-129 | Prunes the recorded starts, then decides by concurrency and by rate; the empty user id is not limited |
| `RunLimits.Manager.ReleaseRun` | assistant/service.go:131-140 | Gives one reservation back, never below zero |
| `RunLimits.ReserveInRate` | assistant/service.go:112-127 | Every attempt keeps the record equal to the newest grants and any perHour + 1 grants in a row at least an hour apart |
| `RunLimits.GrantedIff` | assistant/service.go:111-127 | A turn is granted exactly when a slot is free and fewer than the limit were granted in the last hour, of all that ever were |
| `RunLimits.WindowBound` | assistant/service.go:38-43 | So any hour, its end excluded, holds at most perHour starts |
| `RunLimits.ClosedHourIff` | assistant/service.go:111-127 | For sorted and so spaced starts, every hour with its end holds at most the limit if and only if none comes exactly an hour after the one that many places before it |
| `RunLimits.ClosedHourAtMostTwice` | assistant/service.go:111-127 | It never holds more than twice the limit |
| `RunLimits.ClosedHourHoldsTwice` | assistant/service.go:111-127 | For every limit it can hold that many: so many turns at one moment and as many exactly an hour later are all granted |
| `RunProtocol.UserNeverExceeds` | assistant/service.go:101-140 | For every interleaving of the locked steps: `active` equals the reservations not given back, never exceeds the cap, and an hour holds at most the limit, or twice the limit with its end |
| `RunProtocol.ReserveIff` | assistant/service.go:101-130 | The same over every run |
| `RunProtocol.StartsIff` | assistant/service.go:177-189 | In every run, a turn gets its app's session unless another run holds it, and is refused exactly then |
| `RunProtocol.UserClosedHourIff` | assistant/service.go:101-127 | The exact condition for hours with their end, for the starts of every run |
| `RunProtocol.OneRunPerSession` | assistant/service.go:177-208 | For every interleaving: a session object is marked running if and only if some run holds it, no two runs hold it at once, and a recorded cancel function is its holder's |
| `RunProtocol.NeverTwoIff` | assistant/session.go:22-25 | For every interleaving: no two runs of an app hold a session at once if and only if none claims a free object while another run of the app holds a different one |
| `RunProtocol.OneTurnPerApp` | assistant/service.go:174-189 | That is so if an app's session is only dropped while none of its runs has looked it up or holds it |
| `RunProtocol.StepInv` | assistant/service.go:177-239 | Every locked step of Send, runLoop, Reset and DropSession keeps the invariant |
| `RunProtocol.DroppedSessionRunsTwice` | assistant/service.go:212-217 | A run in which DropSession comes in between and two turns of one app run side by side: exclusion is per object |
| `Supervisor.BackoffLaw` | agent/service.go:413-432 | For every list of exits: the plan gives up at every fifth rapid exit in a row and at no other, and waits 2, 4, 8 and 16 seconds before; the sixty-second cap is never reached |
| `Supervisor.GivesUpIff` | agent/service.go:122-158 | For every interleaving of the loop and its callers: the crash counter is the number of rapid exits in a row since a child was last killed, modulo five; the loop gives up exactly when an exit makes that a multiple of five, and else waits 2, 4, 8 or 16 seconds; a wake during the back-off does not start the count over |
| `Supervisor.RunsOnlyWhatStarts` | agent/service.go:81-168 | In every run, a child is up only if its configuration had something to run, was prepared and was started, the loop idles only if it had not, and ends only when told to |
| `Supervisor.StartsUp` | agent/service.go:88-126 | With the flag clear, four steps of the loop run what hostit.yml says; without a command it idles, and what fails is tried again later |
| `Supervisor.FlagIsLastCall` | agent/service.go:184-210 | In every run, the pause flag is what was stored last, and a reload is about the file as it was when it was sent |
| `Supervisor.CallersCounted` | agent/service.go:184-210 | Who is between storing the flag and sending the token |
| `Supervisor.CallersNeverBlock` | agent/service.go:184-210 | Callers are never held up |
| `Supervisor.StepInv` | agent/service.go:81-210 | Every step of the loop, and of callers between their flag store and their send, keeps the invariant |
| `Supervisor.NoActionLost` | agent/service.go:171-210 | For every interleaving, no Pause, Resume or Reload is lost |
| `Supervisor.SettledIsRight` | agent/service.go:81-210 | In a wait without tokens the supervisor is paused exactly when the flag says so, and runs nothing older than the last Reload |
| `Supervisor.PauseTakesEffect` | agent/service.go:194-210 | After Pause has returned, at most eleven of the loop's own steps, whichever they are, lead to the paused wait; in every other wait on the way the token is there to be taken |
| `Supervisor.ReloadTakesEffect` | agent/service.go:184-190 | After Reload has returned, at most four of the loop's own steps later nothing older is running, being killed or about to run; while it runs, the reload is there to be taken |
| `LineWriter.TimestampWriter.Write` | agent/service.go:489-511 | Whatever the chunk and whatever the log does, short writes included: lines passed on and bytes held are exactly the bytes received, and a line of which the log took only a part is still held; it succeeds when the log takes everything, and then the buffer has no newline and at most 64 KiB |
| `LineWriter.TimestampWriter.Emit` | agent/service.go:514-521 | One stamped line is taken by the log, or the log fails after some of its bytes |
| `LineWriter.HeldBackComesFirst` | agent/service.go:493-502 | A complete line that failed is the first one offered again, whatever arrives next |
| `LineWriter.LinesConcat` | agent/service.go:492-502 | Cutting a stream anywhere: what was unfinished joins what follows |
| `LineWriter.ChunkIndependentIff` | agent/service.go:468-511 | What is passed on is the stream's lines for every chunking if and only if every line fits the buffer |
| `AppLog.AppLogFile.Open` | agent/service.go:533-548 | Attaches to the file, rotating one that is already too big |
| `AppLog.AppLogFile.Write` | agent/service.go:551-569 | Rotation, failing operations and short writes; what is counted is what the file took |
| `AppLog.AppLogFile.Close` | agent/service.go:572-581 | Further writes are discarded |
| `AppLog.EveryRunSound` | agent/service.go:524-569 | Over every run, failing or not: the old file and the current one are the newest part of everything accepted, and an open log knows its file's length |
| `AppLog.WriteBound` | agent/service.go:551-569 | No write leaves a file larger than the cap, except one that is larger itself |
| `AppLog.FlawlessTaken` | agent/service.go:551-569 | A live log takes a write whole when nothing fails: behind what is there, or in a fresh file after a rotation |
| `AppLog.OpenBound` | agent/service.go:533-548 | Opening rotates a file exactly when it is larger than the cap |
| `AppLog.ClosedDiscards` | agent/service.go:572-581 | A closed log leaves its files alone |
| `AppLog.RecentOutputKept` | agent/service.go:433-436 | With successful operations, rotation never leaves less than the last 10 MiB |
| `AppLog.FailedReopenIsFinal` | agent/service.go:557-565 | If reopening fails after a rotation, no later write is accepted until the log is opened again |
| `Ports.PortAllocator.AllocatePort` | control/manager.go:590-627 | The next free port in rotation; fails exactly when every port is busy; moves and persists the rotation point |
| `Ports.PortAllocator.ReleasePort` | control/manager.go:632-636 | Ends a reservation |
| `Ports.StepUniqueIff` | control/manager.go:356-363 | Every step of create, delete, teardown and restart keeps the ports unique and the reservations equal to the ports of the apps that reserve, except exactly the grant of an exposed app's port |
| `Ports.GrantSharesIff` | control/manager.go:590-627 | A port that is granted belongs to another app if and only if that app is between its row's removal and its reservation, was registered and returned since the rows were read, or is being created and deleted at once with one of the two ended |
| `Ports.AlwaysUniqueIff` | control/manager.go:453-491 | Over every run, however creates, deletes, reads of the rows and restarts interleave: no two apps ever hold the same port if and only if no such port is granted |
| `Ports.PortsUnique` | control/manager.go:453-491 | So they do not in any run where nothing registers between an allocation's read and its lock, nothing allocates between a delete's two writes, and deletes follow their creates |
| `Ports.FailsIffAllHeld` | control/manager.go:590-627 | An allocation that has just read the rows fails if and only if every port is that of an app that is registered or reserves it |
| `Ports.FailedCreateFrees` | control/manager.go:360-363 | A create that fails gives its port back |
| `Ports.DeleteFrees` | control/manager.go:474-491 | A delete that runs to its end frees the port, and it is reserved until then |
| `Ports.RestartKeepsRows` | control/manager.go:590-627 | A restart keeps what is registered and forgets every reservation |
| `Ports.RotationFair` | control/manager.go:600-625 | A port is not granted again while some other port has stayed free since, to the rows, the reservations and the pending reads, restarts included |
| `Ports.DeleteWindowSharesPort` | control/manager.go:474-483 | A run in which the port is granted again between the removal of its row and its reservation |
| `Ports.DeleteDuringCreateFreesPort` | control/manager.go:360-363 | A run in which a delete starts before its create has returned, whose release ends the teardown's reservation |
| `Ports.StaleRowsGrantTwice` | control/manager.go:591-600 | A run in which an allocation has read the rows before another app registered and returned, and the scan wraps |
| `SnapshotSchedule.PanicsIff` | control/snapshotsched.go:60-64 | Exactly when the division by the interval's whole seconds is by zero |
| `SnapshotSchedule.DueIff` | control/snapshotsched.go:30-47 | For every last snapshot: due if it is two intervals old; in the app's slot if it is one interval old or there is none; never before. The slot is one tick in every period, at a fixed place from the epoch |
| `SnapshotSchedule.SlotSweepFires` | control/snapshotsched.go:30-47 | So the next sweep in the slot after an interval takes a snapshot, and one outside of it does not |
| `SnapshotSchedule.SlotsRoundRobin` | control/snapshotsched.go:49-58 | Which slot a hash picks |
| `SnapshotSchedule.SlotCountIs` | control/snapshotsched.go:66-74 | How many slots an interval has |
| `SnapshotSchedule.LastAutoSnapshot` | control/snapshot.go:128-140 | The newest automatic snapshot, or the zero time |
| `SnapshotSchedule.AutoSnapshotSweep` | control/snapshot.go:77-99 | The sweep snapshots exactly the apps that are due and reachable, in order, up to the first one whose interval panics |
| `SnapshotSchedule.SweepTakesAt` | control/snapshot.go:77-99 | By position: one snapshot of every app that is not archived, due and reachable, in the order of the list, and no other |
| `SnapshotSchedule.PanicsOnlyIf` | control/snapshot.go:83-91 | Archived apps never stop it |
| `SnapshotSchedule.TakenSnoc` | control/snapshot.go:121-140 | Deploys count as automatic snapshots |
| `SnapshotSchedule.ScheduledSpacing` | control/snapshotsched.go:30-45 | Over every run, a scheduled snapshot comes at least one interval after the automatic one before it |
| `SnapshotSchedule.AgeBound` | control/snapshotsched.go:18-45 | With successful sweeps at most G apart, the newest automatic snapshot is younger than two intervals and G |
| `SnapshotSchedule.InSlotIff` | control/snapshotsched.go:51-74 | Where in its round a slot is on: one tick from its start, for intervals that need not be multiples of the tick |
| `SnapshotSchedule.NeverSnapshottedFires` | control/snapshotsched.go:30-74 | The slots alone: whatever asks at least once a tick meets every app's slot within an interval and a tick (the loop asks less often, see below) |
| `SnapshotSchedule.LoopFires` | control/snapshot.go:61-71 | The loop, whose gaps are a tick and what a sweep took: an app without a snapshot gets one within a number of intervals and a tick that depends on the interval and the longest sweep, if the sweeps that fit between two of its slots do not add up to an interval |
| `SnapshotSchedule.TwoRounds` | control/snapshot.go:61-71 | Two intervals and a tick, if what is left of the interval is at least the longest sweep |
| `SnapshotSchedule.MissableIff` | control/snapshot.go:61-71 | Some endless run of the loop never snapshots an app that has none, if and only if they do add up to an interval; for every interval, slot and longest sweep |
| `SnapshotSchedule.DefaultInterval` | control/snapshotsched.go:9-28 | For three hours: no run misses it for ever if and only if sweeps take less than an eleventh of a tick, and it is met within six hours and a tick if they take at most a twelfth |
| `YamlText.QuoteRoundTrip` | app/config.go:172-176 | Quoting is undone by reading a double-quoted scalar, for every text |
| `YamlText.TwoPassesEscape` | app/config.go:172-176 | Escaping backslashes and then quotes is one pass of escaping |
| `YamlText.ScalarRoundTripIff` | app/snapshotwrite.go:111-125 | A value survives the round trip if and only if it is not one of the plain scalars that YAML reads differently |
| `YamlText.QuotedOnlyIfNeeded` | app/snapshotwrite.go:111-125 | A value is quoted only if it would not read back plain |
| `YamlText.ColonCommandLost` | app/snapshotwrite.go:111-125 | A command that ends in a colon is one |
| `HostitConfig.SnapshotBlock` | app/snapshotwrite.go:64-89 | The header and the end of the block, blank lines at its end left out |
| `HostitConfig.SetBlockKey` | app/snapshotwrite.go:93-109 | Sets, removes or appends one key's line |
| `HostitConfig.SetSnapshotConfig` | app/snapshotwrite.go:18-59 | The three keys set in the block that is there, or in a new one, or the block removed |
| `HostitConfig.NewBlockText` | app/snapshotwrite.go:38-59 | The text of a new block behind the document |
| `HostitYaml.KeyLineIff` | app/snapshotwrite.go:96-97 | Which lines are a key's |
| `HostitYaml.SetSettles` | app/snapshotwrite.go:93-109 | Setting a value always sticks; removing one sticks if and only if it had at most one line |
| `HostitYaml.FieldsSettleIff` | app/snapshotwrite.go:33-37 | The same for all fields at once |
| `HostitYaml.BlockFound` | app/snapshotwrite.go:64-89 | A written block is found again |
| `HostitConfig.IdempotentIff` | app/snapshotwrite.go:15-59 | For documents with one block, writing the same settings again changes nothing if and only if no setting to be removed has two lines |
| `HostitConfig.ReadBackIff` | app/snapshotwrite.go:15-59 | A line-level reader gets back exactly the non-empty settings, each if and only if it survives the round trip |
| `HostitConfig.HooksIdempotentIff` | app/snapshotwrite.go:15-59 | The first for the three settings that are written |
| `HostitConfig.HooksReadBackIff` | app/snapshotwrite.go:15-59 | The second for each of the three: it reads back as given if and only if it is empty or no plain scalar that YAML reads differently |
| `HostitConfig.OutsideKept` | app/snapshotwrite.go:15-59 | A document with a block is some lines, the header, the block and some lines, and after the edit it is the same lines around the new block or around nothing |
| `HostitConfig.OtherLinesKept` | app/snapshotwrite.go:93-109 | Lines of the block that are not the key's stay, in order |
| `Description.SetDescription` | app/config.go:156-169 | Replaces the first description line or puts one in front |
| `Description.DescriptionText` | app/config.go:156-176 | The text that is written, where, and how it is escaped |
| `Description.LastWriteWinsIff` | app/config.go:153-169 | A second description replaces the first without trace if and only if the first is one line long |
| `Description.IdempotentIff` | app/config.go:153-169 | Writing the same description twice is writing it once, if and only if it is one line long |
| `Description.ReadBack` | app/config.go:153-176 | Every one-line description is read back as it was given |
| `TokenCache.Cache.CachedTokenFor` | control/connections.go:559-567 | Only an entry cached against the stored ciphertext and not yet expired is served |
| `TokenCache.Cache.Remember` | control/connections.go:571-589 | Keeps a token until two minutes before it expires, dropping dead entries |
| `TokenCache.Cache.ExpireCachedFor` | control/connections.go:647-651 | Drops a connection's token |
| `TokenCache.StepInv` | control/connections.go:188-337 | Every step of connecting, reconnecting, refreshing and re-sealing, with failing writes, keeps the cache consistent |
| `TokenCache.ServedIsCurrent` | control/connections.go:293-298 | For every interleaving, a token served from the cache comes from the same consent as the stored credential and has at least two minutes to live |
| `TokenCache.RefreshIsServed` | control/connections.go:303-337 | After a refresh, rotated or not, whose token is good for more than two minutes, that token is served |
| `TokenCache.ServedUntilExpiry` | control/connections.go:559-589 | And stays served whatever happens to other connections, until two minutes before it expires |
| `TokenCache.ServedForSoLong` | control/connections.go:559-567 | For exactly that long |
| `TokenCache.ShortLivedNotKept` | control/connections.go:571-579 | A token good for less, or without an expiry, is not kept |
| `TokenCache.NoLongerServed` | control/connections.go:188-214 | A reconnect, a disconnect and a purge end it |
| `TokenCache.RowAfterRefresh` | control/connections.go:316-331 | What a refresh leaves in the row |
| `TokenCache.AlwaysCurrentIff` | control/connections.go:188-337 | Over every run, the stored credential always descends from the last consent if and only if no rotated or re-sealed credential that was read before a reconnect is written after it |
| `TokenCache.ReconnectCutsOff` | control/connections.go:188-214 | Without such a write, nothing minted before a stored reconnect is served after it |
| `TokenCache.SerialNeverReverts` | control/connections.go:188-337 | There is none when work on a connection does not overlap its reconnects |
| `TokenCache.ReconnectIsNew` | control/connections.go:188-214 | A stored reconnect's consent is newer than that of every cached token |
| `TokenCache.OverlapRevertsReconnect` | control/connections.go:316-331 | A run in which a refresh under way during a reconnect writes the old consent's credential over the new one |
| `KeyRotation.Manager.OpenAll` | control/connections.go:615-623 | Opens the rows in order up to the first that does not open, binding old ones to their row |
| `KeyRotation.Manager.WriteAll` | control/connections.go:625-629 | Writes the rows in order up to the first write that fails |
| `KeyRotation.Manager.ReplaceKey` | control/connections/crypto.go:178-191 | The key file and its two neighbours after each possible failure |
| `KeyRotation.Manager.RotateKey` | control/connections.go:603-643 | The rotation as a whole: which way it ends and what it leaves, decided by what opens and which writes succeed |
| `KeyRotation.OneEnding` | control/connections.go:603-643 | It can end in one way only |
| `KeyRotation.PlaintextsKept` | control/connections.go:591-602 | However it ends, no credential itself changes |
| `KeyRotation.BoundAfter` | control/connections.go:534-556 | Which rows are bound to themselves afterwards |
| `KeyRotation.ReplacedStepwise` | control/connections/crypto.go:178-191 | What is in the key files after each write that succeeds |
| `KeyRotation.AllOpenAfterIff` | control/connections.go:591-602 | Afterwards the manager opens everything if and only if it did before and either all writes succeeded or not even the first one of a row; after success its key is the one in the file |
| `KeyRotation.LostIff` | control/connections.go:625-636 | A credential is left that no key in memory or on disk opens, if and only if the first row is written and a later write of a row, of the previous key or of the new key fails |
| `KeyRotation.LosingRotation` | control/connections.go:625-629 | Two credentials and a failing second write: the first is lost |
| `KeyRotation.PartWayTouchesNoFile` | control/connections.go:625-629 | A rotation that fails part-way has touched no key file, although its error says that the previous key was kept in one |
| `KeyRotation.DeathLosesIff` | control/connections/crypto.go:170-191 | If the process dies, a credential is left that no key on disk opens if and only if a row was written and the new key was not in a file yet |
| `KeyRotation.PreviousIsNoWayBack` | control/connections/crypto.go:175-177 | The previous key, documented as the only way back, opens nothing that the key file does not |
| `RouteBuild.ListApps` | control/proxies.go:211-225 | One row per app whose node has an address, under the app's own name; its access list sorted, and only if it is private |
| `RouteBuild.AccessIsSorted` | control/proxies.go:219-223 | A private app's access list is exactly who may open it, in ascending order, and two rows agree if and only if the same people are listed, in whatever order the store lists them |
| `StringOrder.SortForgetsOrder` | control/proxies.go:219-223 | Sorting strings forgets the order in which they came and nothing else |
| `StringOrder.LessIff` | control/proxies.go:237-237 | The order: the first place where two strings differ decides, and a prefix comes first |
| `RouteBuild.ListDomains` | control/proxies.go:226-236 | One row per custom domain of an app that is in the table |
| `RouteBuild.BuildRows` | control/proxies.go:207-236 | Both, for whatever order the domain map is walked in |
| `RouteBuild.BuiltIffWanted` | control/proxies.go:207-236 | Whatever the order, exactly the wanted rows: every reachable app under its own name and each of its custom domains, nothing for a node without an address |
| `RouteBuild.RowsAreApps` | control/proxies.go:207-236 | Field by field, for whatever walk: the rows are exactly those of the reachable apps on each of their names, at the node's address and the app's port, private if the app is, and then with exactly the listed people in order |
| `RouteBuild.OneRowPerHost` | control/proxies.go:207-236 | In a registry the store can hold, every host has one row |
| `RouteBuild.DecimalReads` | control/proxies.go:216-216 | The printed port reads as the port |
| `RouteBuild.SameOnEveryName` | control/proxies.go:231-234 | An app has the same target, privacy and access list on every name it answers to |
| `RouteBuild.SameRegistrySameTable` | control/proxies.go:185-187 | Two builds of a registry the store can hold (names and domains are keys, no domain under the base domain) give the same table, whatever the order of the walk and however equal hosts are sorted |
| `RouteBuild.OneTableIff` | control/proxies.go:226-237 | For every registry with unique names: all sorts of all walks give the same table if and only if no two reachable apps answer to the same name |
| `RouteTable.RouteServer.Routes` | control/proxies.go:247-266 | The number moves exactly when the content differs from the last one numbered |
| `RouteTable.StepInv` | control/proxies.go:101-266 | Every step of builders, pushes that reach some proxies, overlapping handlers, the loop, connects, mutations and restarts keeps the invariant |
| `RouteTable.SameNumberSameContent` | control/proxies.go:254-266 | Under every interleaving, with pushes and writes of the number failing, if every restart finds the last number stored: tables with the same number have the same content |
| `RouteTable.PersistingIsSafe` | control/proxies.go:254-266 | It does when the writes succeed |
| `RouteTable.TickSettlesIff` | control/proxies.go:114-137 | In every reachable state, lost pushes included: one tick of the loop that reaches a connected proxy brings it to the current table if and only if the number differs from the one last pushed or the proxy has it already |
| `RouteTable.ConvergesAndStays` | control/proxies.go:114-137 | After any run, once the registry is quiet, such a tick brings the proxy to the current table, and late deliveries and restarts do not displace it as long as no handler stores after being overtaken so |
| `RouteTable.StaysStale` | control/proxies.go:101-137 | A run in which one push of the loop is lost; the connected proxy then serves the old table under any number of ticks |
| `RouteTable.TicksDoNothing` | control/proxies.go:114-137 | Once a number has been pushed, further ticks change nothing |
| `RouteTable.PushSettles` | cmd/control/serve.go:245-248 | The reconcile timer's push brings every connected proxy it reaches to the current table, whatever was lost before |
| `RouteTable.ConnectSettles` | control/proxies.go:97-112 | A proxy that connects and is reached has the current table at once |
| `RouteTable.TakesOnlyNewer` | proxy/service.go:120-136 | A proxy takes what is newer than what it serves and discards everything else |
| `RouteTable.UnreachedKeeps` | control/proxies.go:101-112 | One that is not reached keeps what it has |
| `RouteTable.DisconnectedIsUnreached` | control/proxies.go:101-112 | After a disconnect, or a restart of control, no push reaches a proxy until it connects |
| `RouteTable.StaleBuildPossible` | control/proxies.go:188-266 | A builder that began before a change may come out with anything |
| `RouteTable.RestartReusesIff` | control/service.go:156-163 | After any run, a restart can use a number again for other content if and only if the last one had not reached the store |
| `RouteTable.NeverBackIff` | proxy/service.go:120-136 | Over every run, a proxy never goes back to a lower number if and only if no handler stores after a newer table was stored between its comparison and its store |
| `RouteTable.FirstConnect` | proxy/service.go:120-136 | A proxy that connects for the first time is a start for such runs |
| `RouteTable.OneAtATimeForward` | proxy/service.go:120-136 | A proxy that handles one push at a time never does |
| `RouteTable.OneAtATimeKeepsNewest` | proxy/service.go:120-136 | Pushes handled one after the other, in any order, leave the proxy on the highest number and never take it back |
| `RouteTable.AloneIsKeep` | proxy/service.go:120-136 | The handler's check and store, alone, are that rule |
| `RouteTable.OverlappingPushesGoBack` | proxy/service.go:120-136 | A run in which two handlers overlap and the older table is stored over the newer one |
| `Mirror.SyncRows` | control/sync.go:146-156 | The payload's rows are the node's slice of the registry, without owners, in order |
| `Mirror.SlicesPartition` | control/registry.go:144-149 | Every app is in exactly one node's slice |
| `Mirror.RowAt` | control/sync.go:146-156 | By position: the rows of a node's apps in the registry's order, each as it is but for its owner; an app without a host is the local node's |
| `Mirror.StepInv` | control/sync.go:132-164 | Every mutation, push, admission, replacement, failure, redial and restart keeps the invariant |
| `Mirror.HigherNumberNewerRows` | control/sync.go:133-145 | On one connection, a higher number carries app rows at least as new |
| `Mirror.NeverBackIff` | node/machine_sync.go:22-42 | Over every run (overlapping and late handlers, redials, restarts): a node's rows are never replaced with rows sent earlier if and only if no handler replaces them after rows sent later were put in place, between its check and its replacement or before its check |
| `Mirror.BehindTakesRedial` | node/machine_sync.go:27-35 | The latter takes a redial: in every run, a payload that passes the check although rows sent later are in place was sent before the node's last redial |
| `Mirror.InOrderIff` | node/machine_sync.go:22-42 | Over every run in which no redial falls between a payload's sending and its admission: they are not if and only if payloads are replaced in the order of their admission |
| `Mirror.FirstConnect` | node/machine_sync.go:44-52 | A node that connects for the first time is a start for all these runs |
| `Mirror.NodeNeverMovesBack` | node/machine_sync.go:22-42 | If its rows are never replaced with rows sent earlier, a node's rows are always its slice of the registry at some moment, and that moment never moves back |
| `Mirror.CurrentStays` | control/sync.go:18-54 | Once a node holds a payload built after the last mutation, it equals its slice and stays so in every run in which its rows are not replaced with rows sent earlier |
| `Mirror.PushAppliesIff` | node/machine_sync.go:22-42 | A payload sent now and handled alone is applied if and only if the node has seen no higher number on its connection, and then the node has its slice of the registry as it is |
| `Mirror.OnTimePushApplies` | node/machine_sync.go:22-42 | It is, after every run without a redial between sending and admission |
| `Mirror.AbandonedIsGone` | node/machine_sync.go:36-38 | A payload that could not be put in place is gone, and its number stays |
| `Mirror.OneAtATimeOrderly` | node/machine_sync.go:22-42 | One handler at a time replaces in the order of admission |
| `Mirror.OneAtATimeNeverBack` | node/machine_sync.go:22-42 | So a node that handles one payload at a time, without a redial between sending and admission, never moves back |
| `Mirror.AloneIsSync` | node/machine_sync.go:22-42 | The handler's two steps, alone, are the keep-the-highest rule |
| `Mirror.OverlappingSyncsKeepOlder` | node/machine_sync.go:27-38 | A run in which two handlers overlap and leave the older rows under the newer number, and repeating the newer push then changes nothing |
| `Mirror.LateHandlerKeepsOlder` | node/server.go:206-206 | A run in which a handler of the old connection admits its payload after the redial has reset the number |
| `SessionRegistry.Registry.Register` | control/registry.go:33-37 | A redial replaces the entry; the proxies' registry has the same rule |
| `SessionRegistry.Registry.Unregister` | control/registry.go:41-47 | The end of a connection removes only its own entry |
| `SessionRegistry.Registry.Agent` | control/registry.go:50-54 | The live connection of a member, if any |
| `SessionRegistry.RegistryHoldsNewest` | control/registry.go:19-47 | Over every run of dial-ins and disconnects, the registry holds a member exactly while its newest connection lives, and holds that one |

## Left out

- HTTP handlers, cookies, OAuth and MCP calls, the websocket terminal, the command line, prompts and guide texts: plumbing over libraries.
- Containers, btrfs, nftables, systemd, Unix users and archives: calls whose effect is not visible in the repository.
- Cryptography, JSON and the full YAML grammar; control characters in scalars are not treated.
- Prompt caching: the marks that `cacheConversation` and its neighbours put on a request are not modelled.
- Choosing a backend, falling back from the subscription to the API, and the notices shown on the way: single branches.
- Certificates, and the administrators and grant key in a routing table: to the numbering they are part of an opaque content.
- Snapshot rows of the mirror: they are read outside its lock, and nothing is claimed about them.
- Retention, archiving, limits and the node's reconcile: not part of this model.
- Removing a node or proxy while it is connected, which unregisters a live connection.
- Ports.StepUniqueIff: a restart ends every teardown, because reservations are kept in memory only; uniqueness for an app that is still being torn down is claimed within one process.
- TokenCache.StepInv: one row of a key rotation is one unit of work there; the rotation as a whole is in KeyRotation, without other requests in between.
- KeyRotation.Manager.ReplaceKey: a file write that fails leaves the file as it was; truncated files are not modelled.
- RouteTable.StepInv: a connect and the push it triggers are one step.
- SnapshotSchedule.NeverSnapshottedFires: assumes that the slots are asked about at least once a tick, which the loop does not do; the loop's own case is LoopFires and MissableIff.
- ModelLoop.APIRequestMessages: the cache mark on the last block of a request is not modelled.
- Supervisor.StepInv: a kill ends the child; kill timeouts, zombie reaping and the prepare step's process are not modelled.
- ModelLoop.RunAPILoop: the text of the paused notice and failures of the usage record and of saving are not modelled.
- Session.Session.Stop: calling a cancel function is recorded, its effect on the run is not modelled.
