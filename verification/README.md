# CrossPuck verification model

A Dafny model of the parts of CrossPuck whose behaviour depends on interleavings, on
parsing or on unbounded histories, with proofs of what those parts promise. CrossPuck lets a
game inside a Windows bottle use a controller puck plugged into the Mac: a host application
owns the device, a guest driver inside the bottle presents virtual devices, and the two talk
over two loopback channels.

`dafny verify dfyconfig.toml` checks the whole project.

## What is modelled

**Guest connection worker** (`connection_*.dfy`, `guest_driver_runtime.dfy`, `identity.dfy`).
The lock-protected state of the guest driver runtime, with one step per lock-held region, an
explicit reference count for every bridge, and a world in which worker iterations, operations,
disconnects, clears and the stop request interleave freely. `GuestDriverRuntime` is the object
with those fields; each method is proved equal to the function on values that the results about
all runs use. Ownership, coherence, pacing and shutdown are invariants of every run, and so is
when an attempt begins; a due attempt always comes.

**Bottle configuration editor** (`bottle_config*.dfy`, `text.dfy`, `lists.dfy`). The parser with
all its refusals, the validation of the device list, and the edit of one setting in place. The
loop over lines and the edit of the copied text are methods. Which files are accepted is stated
without the parser, by the parts of ordinary and of defective lines; the results on edits say that
one takes effect, is idempotent, undoes itself exactly when it can, and leaves the rest of the file
alone.

**Bridge queues** (`input_queue*.dfy`, `host_bridge_input.dfy`, `command_*.dfy`,
`host_bridge_commands.dfy`). Latest-wins input delivery with wireless rerouting and late
statistics; and the command queue with every look at the running flag, lock, push, pop, store and
drain as a step of its own.

**Two-channel protocol** (`handshake*.dfy`, `control_requests.dfy`, `wrapping_ids.dfy`,
`frame*.dfy`, `codec*.dfy`, `wire.dfy`, `bytes.dfy`). Any number of guest attempts against one
host, with connections left over from abandoned sessions; request ids; framing and payload
fields, where reading is shown to be the exact inverse of writing.

**Virtual device naming and enumeration** (`profile_*.dfy`, `sdl_*.dfy`). How
device paths are built and classified back by substring search, with the exact condition for the
two to agree for every serial number; and the augmented copy of SDL's heap list.

**Release feed** (`appcast*.dfy`). The items of one publication and the feed over every history
of publications, cut to twenty items each time.

Some stronger claims one might expect are false of the code; the model keeps the code and states
exactly when they hold:

- Reports to one interface are not always in the order of arrival: `InOrderForIff` gives the
  condition, with an overtaking run for every other case.
- Hiding and showing again does not always restore a configuration: `UndoIffSet`.
- A bridge cleared during its connection attempt can still be published, after a multiple of
  2^64 clears: `PublishedIffUndisturbed` and the run in `ClearedResultStillPublished`.
- A path is not always classified as its own profile: `RoundTripIff`.
- Without a bridge there may still be a catalog, the built-in fallback one: `CatalogWithoutBridgeIff`
  says exactly when, and in the run of `OverrideOutlivesSession` only a session that has ended had
  allowed it.
- A leftover input connection can be taken for the session's own, once session ids have wrapped:
  `MixedUpIff` gives the number of sessions from which on that happens.

Modelling decisions. A mutex-held region is one step, taken when the lock is held; the return of
`connect` and the locked region behind it are one step, since nothing in between is shared. The
identity state is a value inside the runtime's state. A catalog is represented by the identity and
the permission it was built from, and its descriptors are computed from them. Positions in texts
count characters, as the source's byte offsets always fall on character boundaries. History fields
(logs, counters, arrival numbers, session numbers in frames) are read by no step. Events that are
not possible in a state leave it unchanged, so every list of events is a run.

## Model

| member | source | states |
|---|---|---|
| ConnectionOwnership.ExactlyOnePlace | crates/crosspuck-core/src/guest_driver/runtime.rs:238-349 | In every run every bridge ever connected is in exactly one of slot, retired list, worker cleanup and destroyed, and nothing else is in any of them. |
| ConnectionOwnership.OnlyWorkerDestroys | crates/crosspuck-core/src/guest_driver/runtime.rs:508-545 | Bridges are destroyed by the worker only, outside the lock; an operation that drops its clone is never the last owner. |
| ConnectionOwnership.OneWorkerOneAttempt | crates/crosspuck-core/src/guest_driver/runtime.rs:257-303 | At most one worker ever enters, at most one attempt is in flight, and only while the slot is empty. |
| ConnectionState.SweepContents | crates/crosspuck-core/src/guest_driver/runtime.rs:268-278 | The sweep with swap removal moves exactly the bridges that nothing else references and loses none. |
| ConnectionCoherence.PublishedStateAgrees | crates/crosspuck-core/src/guest_driver/runtime.rs:238-335 | A bridge is published iff the identity is live; the catalog is then that session's, otherwise the built-in fallback one or absent as the latest session's overrides (or, before any, the configuration) say, and absent in required mode; the generation is odd exactly while a bridge is published, wrap included. |
| ConnectionCoherence.CatalogWithoutBridgeIff | crates/crosspuck-core/src/guest_driver/runtime.rs:238-335 | In every run, without a bridge there is a catalog iff the latest published session's overrides, or before any the configuration, allow the fallback devices. |
| ConnectionCoherence.OverrideOutlivesSession | crates/crosspuck-core/src/guest_driver/runtime.rs:238-335 | The run in which only a session's override allows them: their catalog stays after the session is cleared, although the configuration alone shows none. |
| ConnectionCoherence.GenerationCounts | crates/crosspuck-core/src/guest_driver/runtime.rs:220-249 | The generation is the number of publishes and retirements modulo 2^32. |
| ConnectionCoherence.OperationRoutesMatch | crates/crosspuck-core/src/guest_driver/runtime.rs:508-545 | An operation gets a healthy bridge with an interface number of that same session, or one of the two errors exactly when due. |
| ConnectionRoutes.RoutedByTheSession | crates/crosspuck-core/src/guest_driver/runtime.rs:508-530 | In every run an operation goes to the healthy bridge and to the interface of the first collection of its session with the profile's role, else to the built-in interface where the session's override or the configuration allows fallbacks, else nowhere, with the error that says why. |
| ConnectionCoherence.IdentityInUse | crates/crosspuck-core/src/guest_driver/identity.rs:62-78 | In every run the identity in use is the published session's, else the built-in one where fallbacks are allowed; it can be advertised in the same cases. |
| ConnectionCoherence.AdvertisedCatalog | crates/crosspuck-core/src/guest_driver/runtime.rs:169-184 | Enumeration in required mode shows a catalog iff a healthy bridge is published, and then that bridge's own; outside it, also the fallback one, exactly while the latest session's overrides or the configuration allow it. |
| ConnectionPacing.PublishedIffUndisturbed | crates/crosspuck-core/src/guest_driver/runtime.rs:295-335 | A successful attempt is published iff the worker is not stopping and a multiple of 2^64 clears and stops happened during it; short of that many, iff none did. |
| ConnectionPacing.ClearedResultStillPublished | crates/crosspuck-core/src/guest_driver/runtime.rs:212-218 | The run in which the epoch wraps during an attempt and the cleared result is published. |
| ConnectionPacing.AttemptsArePaced | crates/crosspuck-core/src/guest_driver/runtime.rs:42-62 | After an attempt that failed or was discarded the next starts no earlier than its end plus the interval then in force, whatever requests arrive. |
| ConnectionPacing.OverrideLastsOneFailure | crates/crosspuck-core/src/guest_driver/runtime.rs:294-340 | In every run a session's interval override is the wait given to each attempt that follows, while results are discarded, up to and including the first failed one; every later attempt gets the configured interval until another session is published. |
| ConnectionPacing.ErrorShownIff | crates/crosspuck-core/src/guest_driver/runtime.rs:304-340 | In every run an error is shown iff the latest attempt that was not discarded failed. |
| ConnectionProgress.AttemptBeginsIff | crates/crosspuck-core/src/guest_driver/runtime.rs:290-303 | In every run a worker at the top of its loop, not stopping, begins an attempt with its next step iff there is no healthy bridge and it is the first attempt, follows a published one, or the wait after the last one is over; a healthy bridge stays published and a failed one does not. |
| ConnectionProgress.EntryConnects | crates/crosspuck-core/src/guest_driver/runtime.rs:257-303 | The worker's entry begins the first attempt at once iff bridges are enabled and no stop came before. |
| ConnectionProgress.AttemptComes | crates/crosspuck-core/src/guest_driver/runtime.rs:265-346 | In every run, once a due attempt is wanted, enough worker steps put one in flight, whatever operations, disconnects and clears come in between, short of a stop. |
| ConnectionShutdown.NoAttemptAfterStop | crates/crosspuck-core/src/guest_driver/runtime.rs:374-380 | From the stop on no attempt starts; at most the one in flight is still logged. |
| ConnectionShutdown.ShutdownCompletes | crates/crosspuck-core/src/guest_driver/runtime.rs:279-289 | After the stop enough worker steps empty the slot for good, and once operations released their clones enough further ones lead to the worker's exit with nothing retired and every bridge destroyed. |
| GuestDriver.GuestDriverRuntime.RetireBridge | crates/crosspuck-core/src/guest_driver/runtime.rs:238-249 | The new state after retiring: slot emptied, identity stale, catalog rebuilt, generation counted. |
| GuestDriver.GuestDriverRuntime.ClearBridge | crates/crosspuck-core/src/guest_driver/runtime.rs:212-218 | The new state after a clear. |
| GuestDriver.GuestDriverRuntime.ClearBridgeIfCurrent | crates/crosspuck-core/src/guest_driver/runtime.rs:224-236 | The new state after a disconnect seen by an operation: unchanged unless its bridge is still published. |
| GuestDriver.GuestDriverRuntime.RequestConnectionWorkerStop | crates/crosspuck-core/src/guest_driver/runtime.rs:374-380 | The new state after the stop request. |
| GuestDriver.GuestDriverRuntime.SweepRetired | crates/crosspuck-core/src/guest_driver/runtime.rs:268-278 | The sweep loop: which bridges stay, which move to the cleanup, none lost. |
| GuestDriver.GuestDriverRuntime.WorkerIteration | crates/crosspuck-core/src/guest_driver/runtime.rs:267-303 | One pass of the worker loop up to the release of the lock: new state, cleanup and what comes next. |
| GuestDriver.GuestDriverRuntime.FinishAttempt | crates/crosspuck-core/src/guest_driver/runtime.rs:304-340 | The locked region after an attempt: publish, discard or record the failure, with the retry schedule. |
| GuestDriver.GuestDriverRuntime.BeginOperation | crates/crosspuck-core/src/guest_driver/runtime.rs:508-530 | The bridge and interface an operation gets, and the clone it takes. |
| GuestDriver.GuestDriverRuntime.CatalogSnapshot | crates/crosspuck-core/src/guest_driver/runtime.rs:169-184 | What enumeration sees, without changing anything. |
| BottleConfigUpdate.UpdateTakesEffect | crates/crosspuck-app/src/bottle_config.rs:171-383 | For every text and flag an accepted edit parses, reports exactly the requested state, and asking again returns it unchanged. |
| BottleConfigUpdate.UndoIffSet | crates/crosspuck-app/src/bottle_config.rs:318-383 | Hiding and then showing returns the identical text iff the file already had the setting. |
| BottleConfigUpdate.LeftoverIsEmpty | crates/crosspuck-app/src/bottle_config.rs:318-383 | When it had not, an assignment of an empty list stays behind. |
| BottleConfigUpdate.OnlyTheListChanges | crates/crosspuck-app/src/bottle_config.rs:320-341 | With the setting present everything outside its list is verbatim, the list stays on its line, and its entries, blank ones included, are the former ones with the target added behind them or with exactly its spellings removed; other devices stay verbatim and in order. |
| BottleConfigUpdate.OnlyAnInsertion | crates/crosspuck-app/src/bottle_config.rs:342-383 | Without the setting, showing changes nothing and hiding inserts at one point, the end of the header line or of the file, keeping the final newline's presence. |
| BottleConfigUpdate.FinalNewlineKept | crates/crosspuck-app/src/bottle_config.rs:318-383 | A nonempty file keeps or keeps lacking its final newline. |
| BottleConfigUpdate.OneTerminatorKept | crates/crosspuck-app/src/bottle_config.rs:346-350 | A file whose lines all end alike, CRLF or LF, keeps that kind throughout. |
| BottleConfigUpdate.StrayChar | crates/crosspuck-app/src/bottle_config.rs:172-179 | Removing CRLF pairs leaves no CR iff every CR is directly in front of an LF. |
| BottleConfigAcceptance.AcceptedIff | crates/crosspuck-app/src/bottle_config.rs:171-278 | A file is accepted with given positions iff it has no NUL and no byte order mark and is made of ordinary lines, given by their parts and fit for their places (headers, blank lines, comments, other variables, one environment section, one list); the positions are the end of that section's header and the list. |
| BottleConfigAcceptance.EditableIff | crates/crosspuck-app/src/bottle_config.rs:318-383 | A file can be edited iff it is made of such lines. |
| BottleConfigReading.LineIff | crates/crosspuck-app/src/bottle_config.rs:186-276 | One line is accepted with a meaning iff it has the parts of an ordinary line with that meaning, fits its place, and is no repetition. |
| BottleConfigRefusals.RefusedFor | crates/crosspuck-app/src/bottle_config.rs:180-276 | Eighteen kinds of defective lines, by their parts, each refused for its own reason. |
| BottleConfigInert.InertLineShifts | crates/crosspuck-app/src/bottle_config.rs:180-276 | A blank line or comment put in at any line boundary changes neither acceptance nor the reason of a refusal, and moves exactly the positions behind it. |
| BottleConfigDevices.ListIff | crates/crosspuck-app/src/bottle_config.rs:280-312 | A list is accepted iff it is entries with commas between them, each blank or two hexadecimal numbers up to FFFF with a slash, by its parts. |
| BottleConfigDevices.HidesIff | crates/crosspuck-app/src/bottle_config.rs:308-316 | A list hides the device iff one of its entries spells its two numbers. |
| BottleConfigLiterals.NewFile | crates/crosspuck-app/src/bottle_config.rs:365-381 | The section written into an empty file, literally. |
| BottleConfigLiterals.SectionIff | crates/crosspuck-app/src/bottle_config.rs:205-214 | The environment section is the one of that name in any letter case. |
| BottleConfigReplace.ReplaceInLines | crates/crosspuck-app/src/bottle_config.rs:320-341 | Replacing the list in its line leaves every other line and the parse of all other lines as they are, and the new list is read back. |
| BottleConfigReplace.SettingIsValid | crates/crosspuck-app/src/bottle_config.rs:229-262 | The range that parsing reports holds a list that passed validation and lies on one line. |
| BottleConfigInsert.InsertInSection | crates/crosspuck-app/src/bottle_config.rs:353-364 | The assignment inserted behind the section header parses, for a terminated header and for one at the end of the file. |
| BottleConfigInsert.InsertSection | crates/crosspuck-app/src/bottle_config.rs:365-381 | The appended section parses, for an empty file and with and without a final newline. |
| BottleConfigLines.LineSpliced | crates/crosspuck-app/src/bottle_config.rs:226-265 | A line with its list replaced still assigns the variable, quoted or not, and reads the new list back. |
| BottleConfigLists.EditedListHides | crates/crosspuck-app/src/bottle_config.rs:322-337 | The edited list contains the device exactly as asked, in any spelling. |
| BottleConfigLists.EditedListValid | crates/crosspuck-app/src/bottle_config.rs:280-312 | The edited list of a valid list is valid. |
| BottleConfigLists.ListRoundTrip | crates/crosspuck-app/src/bottle_config.rs:326-337 | Adding the device to a list without it and removing it again is the identity. |
| BottleConfigEditor.Parse | crates/crosspuck-app/src/bottle_config.rs:171-278 | The parser's loop computes the specified result, errors in the specified order; which texts that accepts is `AcceptedIff`. |
| BottleConfigEditor.Update | crates/crosspuck-app/src/bottle_config.rs:318-383 | The edit of the copied text computes the specified result. |
| InputQueueRuns.EveryReportAccounted | crates/crosspuck-core/src/guest_driver/bridge.rs:194-234 | Pushed reports are popped, dropped or queued at every moment, pops that still owe their statistics included; the queue stays within its capacity. |
| InputQueueContents.NewestStay | crates/crosspuck-core/src/guest_driver/bridge.rs:688-699 | From every state, while nothing is popped the queue holds the newest arrivals in order, as many as fit, and counts the oldest that do not. |
| InputQueueContents.CountersCount | crates/crosspuck-core/src/guest_driver/bridge.rs:194-234 | Each counter is the number of events it is named after in the run; what is left of the pushed reports is the stale ones. |
| InputQueueContents.RegisteredIff | crates/crosspuck-core/src/guest_driver/bridge.rs:472-488 | In every run an interface is registered iff some feature report registered it, by its bytes, and none since removed it or registered another. |
| InputQueueContents.DeliveredByTheBytes | crates/crosspuck-core/src/guest_driver/bridge.rs:408-468 | Every delivery of every run, read off report ids, interface numbers and roles. |
| InputQueueContents.ReroutedWhenDue | crates/crosspuck-core/src/guest_driver/bridge.rs:396-421 | A wireless interface without a report of its own, registered or with nobody registered, gets the newest controller report of the main one, and all of those leave the queue. |
| InputQueueRuns.PopDelivers | crates/crosspuck-core/src/guest_driver/bridge.rs:396-442 | A pop delivers a report it may deliver, own ones before rerouted ones, leaves exactly the others in order, and delivers nothing only if there is none. |
| InputQueueRuns.LatestWins | crates/crosspuck-core/src/guest_driver/bridge.rs:401-421 | The delivered report is the newest of those the pop takes or drops. |
| InputQueueRuns.OnceInArrivalOrder | crates/crosspuck-core/src/guest_driver/bridge.rs:194-234 | Over all consumers and every run, main-interface controller reports, and those of every other class, are delivered at most once and in strictly increasing arrival order. |
| InputQueueRuns.OnlyToRegistered | crates/crosspuck-core/src/guest_driver/bridge.rs:408-462 | Controller reports go to the main interface while no wireless one is registered, or to the registered wireless one (any, when none is) with its number and role. |
| InputQueueRuns.OthersGetNothing | crates/crosspuck-core/src/guest_driver/bridge.rs:444-453 | While a wireless interface is registered pops on other interfaces neither deliver nor drop controller reports. |
| InputQueueRuns.OtherClassesUntouched | crates/crosspuck-core/src/guest_driver/bridge.rs:423-442 | A pop neither removes nor reorders reports it could not itself deliver. |
| InputQueueRuns.InOrderForIff | crates/crosspuck-core/src/guest_driver/bridge.rs:396-421 | Deliveries to one interface are in arrival order in every run iff the queue holds one report or the interface is none of 2 to 5. |
| HostBridgeInput.HostBridge.PumpReport | crates/crosspuck-core/src/guest_driver/bridge.rs:688-699 | The new queue and statistics after an arrival, the oldest report dropped when full. |
| HostBridgeInput.HostBridge.TakeReport | crates/crosspuck-core/src/guest_driver/bridge.rs:198-227 | The report taken, rerouted if need be, and the new queue. |
| HostBridgeInput.HostBridge.PopInputReport | crates/crosspuck-core/src/guest_driver/bridge.rs:194-234 | The whole pop with its statistics. |
| HostBridgeInput.HostBridge.DropStaleReports | crates/crosspuck-core/src/guest_driver/bridge.rs:423-442 | What is kept of the queue and how many reports are dropped. |
| HostBridgeInput.HostBridge.UpdateInputRoutesFromFeature | crates/crosspuck-core/src/guest_driver/bridge.rs:472-488 | The new registration after a feature report. |
| HostBridgeInput.HostBridge.CopyNextInputReport | crates/crosspuck-core/src/guest_driver/bridge.rs:236-248 | The caller's buffer holds what fits of the report and zeros; untouched without a report. |
| HostBridgeInput.LastPosition | crates/crosspuck-core/src/guest_driver/bridge.rs:401-404 | The search from the back finds the last matching report. |
| CommandQueueRuns.AnsweredOnceInOrder | crates/crosspuck-core/src/guest_driver/bridge.rs:351-365 | Accepted synchronous commands are distinct and answered in the order of acceptance: the answered ones, the one in hand, the queued ones. |
| CommandQueueRuns.NothingStranded | crates/crosspuck-core/src/guest_driver/bridge.rs:509-555 | When the worker has exited every accepted synchronous command was answered exactly once, and a worker that stopped itself leaves the queue empty. |
| CommandQueueRuns.OwnReplyOnly | crates/crosspuck-core/src/guest_driver/bridge.rs:250-309 | A call returns with the only reply ever sent for it; what that says is `CallersHearTheOutcome`. |
| CommandAnswers.CallersHearTheOutcome | crates/crosspuck-core/src/guest_driver/bridge.rs:557-622 | In every run a caller is told exactly what the processing of its own command came to, and that the worker stopped iff its command was thrown out unprocessed. |
| CommandAnswers.OutcomeDelivered | crates/crosspuck-core/src/guest_driver/bridge.rs:571-622 | When a synchronous command in hand ends, its caller waits and returns with that outcome. |
| CommandAnswers.StopsItselfIff | crates/crosspuck-core/src/guest_driver/bridge.rs:515-527 | A worker whose bridge was not dropped stops iff a command was lost, which is then the last one processed. |
| CommandAnswers.EveryCommandAccounted | crates/crosspuck-core/src/guest_driver/bridge.rs:356-393 | Every accepted command is processed, in hand, thrown out or queued, in the order of acceptance; only feedback that made room is missing, and the counters say how much. |
| CommandAnswers.WorkerCatchesUp | crates/crosspuck-core/src/guest_driver/bridge.rs:515-544 | Left to itself the worker processes the queue from front to back as long as no command is lost. |
| CommandAnswers.WorkerEndsAfterDrop | crates/crosspuck-core/src/guest_driver/bridge.rs:490-527 | When the bridge was dropped the worker ends within four steps, finishing the command in hand or the first one it was waiting for, and no other. |
| CommandAnswers.UndisturbedCall | crates/crosspuck-core/src/guest_driver/bridge.rs:250-309 | A call that nothing disturbs is accepted while the bridge runs. |
| CommandQueueRuns.WaitingCallReturns | crates/crosspuck-core/src/guest_driver/bridge.rs:114-124 | A caller still waiting when the worker has exited finds its reply: none waits forever. |
| CommandQueueRuns.FeedbackAlwaysBounded | crates/crosspuck-core/src/guest_driver/bridge.rs:367-393 | At most 64 feedback commands wait in every run, and they are the newest accepted ones in order. |
| CommandQueueRuns.MakeRoomDropsOldest | crates/crosspuck-core/src/guest_driver/bridge.rs:381-388 | At capacity exactly the oldest feedback command goes, below it none; synchronous commands and the order of the rest stay. |
| HostBridgeCommands.CommandQueueState.EnqueueCommand | crates/crosspuck-core/src/guest_driver/bridge.rs:356-364 | The locked region of a synchronous call. |
| HostBridgeCommands.CommandQueueState.EnqueueFeedback | crates/crosspuck-core/src/guest_driver/bridge.rs:367-393 | The locked region of a feedback call, with its refusals and statistics. |
| HostBridgeCommands.CommandQueueState.NextCommand | crates/crosspuck-core/src/guest_driver/bridge.rs:529-544 | One look of the waiting worker. |
| HostBridgeCommands.CommandQueueState.StopCommandWorker | crates/crosspuck-core/src/guest_driver/bridge.rs:546-555 | The flag is down, the queue empty and every queued synchronous command answered. |
| HostBridgeCommands.CountFeedback | crates/crosspuck-core/src/guest_driver/bridge.rs:381-381 | The loop counts the queued feedback commands. |
| HostBridgeCommands.PositionOfFeedback | crates/crosspuck-core/src/guest_driver/bridge.rs:383-383 | The loop finds the oldest queued feedback command. |
| HandshakeRuns.ConnectedAfterHandshake | crates/crosspuck-core/src/guest.rs:38-210 | A connected guest's session opened the reader, then sent an OK acknowledgement, then the identity, on that guest's own control connection; after all of that the same session or a later one with the same id, itself set up in that order, accepted the guest's attach. |
| HandshakeRuns.OneSessionThroughout | crates/crosspuck-app/src/runtime.rs:545-652 | The session that accepted a guest's attach is the one that acknowledged it or a multiple of 2^32 - 1 sessions later; with at most 2^32 - 1 sessions accepted it is one session, and both sides agree which. |
| HandshakeRuns.ServesOneGuest | crates/crosspuck-app/src/runtime.rs:613-652 | The input connection the host serves belongs to the attempt it talks to or to one whose session was a multiple of 2^32 - 1 sessions before; with at most 2^32 - 1 sessions accepted a leftover input connection is never taken for the session's own. |
| HandshakeWrap.MixedUpIff | crates/crosspuck-app/src/runtime.rs:613-652 | Some run with a given number of accepted sessions serves one attempt over another's input connection iff that number is more than 2^32 - 1: the runs are constructed. |
| HandshakeRuns.RefusedStaysRefused | crates/crosspuck-app/src/runtime.rs:438-585 | A session refused for a failed selection, a failed reader or a wrong version never sends its identity and accepts no input. |
| HandshakeProgress.GuestProceeds | crates/crosspuck-core/src/guest.rs:65-165 | In every run, what a guest makes of each frame in front of it: an OK answer in its own version takes it on, its identity too, an OK answer to its attach connects it, and anything else fails it for the stated reason. |
| HandshakeProgress.OnlyExpectedFailures | crates/crosspuck-core/src/guest.rs:65-165 | In every run an attempt fails only because it gave up, speaks another version than the host, or was refused: never for a frame of the wrong kind or id. |
| HandshakeProgress.UndisturbedConnects | crates/crosspuck-app/src/runtime.rs:438-652 | From every state in which host and listeners are idle, an undisturbed attempt ends connected and served, in one new session. |
| HandshakeProgress.OtherVersionRefused | crates/crosspuck-app/src/runtime.rs:455-463 | A guest of any other version is told the host's. |
| HandshakeProgress.NoDeviceRefused | crates/crosspuck-app/src/runtime.rs:471-585 | A guest is told when no device can be selected and when its reader cannot be opened. |
| HandshakeProgress.HostJudgesAttach | crates/crosspuck-app/src/runtime.rs:613-652 | In every run the host serves an attach iff it names the session, and otherwise answers BadRequest on that connection. |
| HandshakeProgress.HostJudgesHello | crates/crosspuck-app/src/runtime.rs:445-463 | In every run the host goes on with a hello of its own version and answers any other with a protocol error. |
| HandshakeProgress.AcceptedInOrderMade | crates/crosspuck-app/src/runtime.rs:281-311 | In every run the host accepts control and input connections in the order in which they were made, each once. |
| HandshakeProgress.HelloAnswerIff | crates/crosspuck-core/src/guest.rs:70-92 | Of all frames a guest accepts only an OK answer to its own hello in its own version, and tells faults in the order of the checks. |
| WrappingIds.SameIdIff | crates/crosspuck-app/src/runtime.rs:308-310 | Ids that wrap and skip zero are equal iff a multiple of 2^32 - 1 steps apart. |
| WrappingIds.IdsDistinct | crates/crosspuck-core/src/guest.rs:452-453 | Ids are distinct over any 2^32 - 1 consecutive requests (and nonzero by their type). |
| ControlRequests.SuccessIsOwnAnswer | crates/crosspuck-core/src/guest.rs:443-469 | Even for a caller that goes on after errors, failed writes and unreadable answers, a success is the answer to that request or to one a multiple of 2^32 - 1 requests before. |
| ControlRequests.ReadSucceedsIff | crates/crosspuck-core/src/guest.rs:461-468 | In every run a request whose answer is read succeeds iff the answer has its type, is well formed and belongs to it or to one a multiple of 2^32 - 1 before; otherwise it fails for the first reason that holds. |
| ControlRequests.UndisturbedRequest | crates/crosspuck-core/src/guest.rs:443-469 | A request on an idle channel that nothing disturbs succeeds with its own answer. |
| ControlRequests.WorkerReadsOwnAnswer | crates/crosspuck-core/src/guest_driver/bridge.rs:557-679 | The command worker never even sees another request's answer: reading one fails only if it is malformed. |
| ControlRequests.WorkerGetsOwnAnswer | crates/crosspuck-core/src/guest_driver/bridge.rs:557-679 | The command worker, which gives up on the first error, never takes a late answer for its own, however many requests it sends. |
| ControlRequests.GuestControl.WriteRequest | crates/crosspuck-core/src/guest.rs:452-461 | The request written and the next id, which is used up even when nothing could be written. |
| ControlRequests.GuestControl.ReadAnswer | crates/crosspuck-core/src/guest.rs:461-468 | The answer accepted or the error, in the order of the checks: id, type, contents; the frame read is gone in every case. |
| Frame.AcceptedHeader | crates/crosspuck-core/src/protocol/frame.rs:87-113 | Exactly the encodings of headers are accepted, each decoded to its header. |
| Frame.ReadsWritten | crates/crosspuck-core/src/protocol/frame.rs:135-185 | A frame is read off a stream iff it fits the channel and its bytes are at the front. |
| Frame.ReadIffWritten | crates/crosspuck-core/src/protocol/frame.rs:135-185 | A byte stream reads as a list of frames with nothing left iff writing that list gives those bytes. |
| FrameBytes.FrameOnTheWire | crates/crosspuck-core/src/protocol/frame.rs:98-157 | A stream starts with a frame iff its bytes say so: letters CP, version 1, a known code, a payload that is there and at most 4096 bytes on the control and 256 on the input channel; type, id and payload are what the bytes say, and otherwise the error is the first that holds. |
| Codec.DecodeIffEncoded | crates/crosspuck-core/src/protocol/codec.rs:71-194 | Decoding a list of field kinds succeeds with given fields iff they have those kinds and encode to exactly the bytes. |
| Codec.EncodedReadsBack | crates/crosspuck-core/src/protocol/codec.rs:71-194 | Every encodable sequence of fields is read back in order to the last byte. |
| Codec.EncodableIff | crates/crosspuck-core/src/protocol/codec.rs:100-106 | Encoding fails iff some text is 64 KiB or longer. |
| CodecTexts.Utf8Iff | crates/crosspuck-core/src/protocol/codec.rs:174-181 | Bytes are accepted as a text iff they are the UTF-8 of some scalar values. |
| CodecTexts.FirstFault | crates/crosspuck-core/src/protocol/codec.rs:119-193 | Decoding stops at the first field that something is wrong with, for that reason, and counts trailing bytes. |
| CodecTexts.FirstTooLong | crates/crosspuck-core/src/protocol/codec.rs:100-106 | A payload that cannot be encoded names the length of its first text that is too long. |
| Wire.Encoder.PushString | crates/crosspuck-core/src/protocol/codec.rs:100-106 | Length and text appended, or nothing when the text is too long. |
| Wire.Decoder.Next | crates/crosspuck-core/src/protocol/codec.rs:132-193 | One field decoded and the offset moved behind it. |
| Wire.Decoder.ReadPayload | crates/crosspuck-core/src/protocol/codec.rs:119-180 | A payload's fields decoded in order, refusing trailing bytes. |
| Wire.ByteStream.ReadFrame | crates/crosspuck-core/src/protocol/frame.rs:135-157 | The frame read and what is left of the stream, or the error. |
| Wire.ByteStream.WriteFrame | crates/crosspuck-core/src/protocol/frame.rs:159-185 | The bytes appended, or the error with nothing written. |
| Wire.FillHeader | crates/crosspuck-core/src/protocol/frame.rs:88-96 | The header array filled part by part is the header's encoding. |
| ProfilePathResults.RoundTripIff | crates/crosspuck-core/src/guest_driver/profile.rs:192-211 | For every identity and serial number, a profile's path is classified as that profile iff no earlier profile has its interface number or a marker in the serial number. |
| ProfilePathResults.RoundTripsIffDistinct | crates/crosspuck-core/src/guest_driver/profile.rs:275-332 | With a serial number free of markers all paths are classified back iff the interface numbers are distinct. |
| ProfilePathResults.MatchesIff | crates/crosspuck-core/src/guest_driver/profile.rs:285-305 | Which descriptors match a generated path. |
| ProfilePathResults.PrefilterIff | crates/crosspuck-core/src/guest_driver/routing.rs:37-47 | A generated path passes the prefilter iff its vendor is 28DE and its product 1302, 1303 or 1304, or the serial number spells such a marker. |
| ProfileNativePaths.NativePathClassified | crates/crosspuck-core/src/guest_driver/profile.rs:285-332 | A native path in the usual form is classified by the interface number in it, or as the dongle by the second collection; by the usual numbers 3 to 6 when the catalog does not have it. |
| ProfileCollections.CollectionIs | crates/crosspuck-core/src/guest_driver/profile.rs:143-169 | The collection behind a profile is the identity's first of that role, else the built-in one where allowed. |
| ProfileCatalog.FromIdentity | crates/crosspuck-core/src/guest_driver/profile.rs:143-169 | The loop builds the catalog's descriptors. |
| Identity.DescriptorsForFind | crates/crosspuck-core/src/guest_driver/profile.rs:143-183 | A catalog has a profile's descriptor iff a collection backs it, and it carries that collection's numbers. |
| SdlEnumeration.Augment | crates/crosspuck-driver/src/sdl_enumeration.rs:109-143 | The result is a fresh acyclic null-terminated list with the specified contents; the native list is unchanged. |
| SdlEnumeration.CopyNatives | crates/crosspuck-driver/src/sdl_enumeration.rs:113-128 | The walk over the native list: fresh nodes, replacements and the profiles seen. |
| SdlEnumeration.LinkAll | crates/crosspuck-driver/src/sdl_enumeration.rs:136-141 | Linking makes one list of the owned nodes and keeps their contents. |
| SdlEnumerationContents.EveryProfileListed | crates/crosspuck-driver/src/sdl_enumeration.rs:129-135 | Every profile of the catalog has a virtual device unless the serial number has a NUL, and the device is then in the list. |
| SdlEnumerationContents.AugmentedLength | crates/crosspuck-driver/src/sdl_enumeration.rs:109-143 | The length is the natives plus the unseen profiles, or the natives alone when a NUL keeps all virtual devices out. |
| SdlEnumerationContents.AugmentTwiceIff | crates/crosspuck-driver/src/sdl_enumeration.rs:109-143 | Augmenting again gives equal contents iff every profile's path is classified back as that profile or the serial number has a NUL, for every native list. |
| SdlDevices.DevicePresents | crates/crosspuck-driver/src/sdl_enumeration.rs:71-93 | Every field of a listed virtual device, from the identity and the collection behind its profile. |
| SdlDevices.FallbackDevices | crates/crosspuck-driver/src/sdl_enumeration.rs:109-143 | With no native device the fallback catalog lists exactly the five built-in devices, text by text. |
| Appcast.PublicationIff | tools/generate-appcast.py:139-189 | On a sorted feed a release is accepted iff newer than the head or repeating it, and is then put in front or changes nothing. |
| Appcast.SortSorts | tools/generate-appcast.py:178-178 | The sort orders newest first and loses nothing. |
| Appcast.GenerateAppcast | tools/generate-appcast.py:139-189 | The tool's loops compute the specified feed, errors in the specified order; what versions its texts spell is `VersionTextIff`, and when it accepts `AcceptedByNumbers`. |
| AppcastHistory.VersionBoundOnce | tools/generate-appcast.py:148-162 | Over every history a numeric version is bound to one URL, signature and length for good, although the feed is cut. |
| AppcastHistory.FeedIsNewest | tools/generate-appcast.py:178-186 | The feed is always the newest twenty of the feed that is never cut, which is strictly ordered. |
| AppcastHistory.HeadIsGreatest | tools/generate-appcast.py:178-186 | The head is the greatest version ever published and the item of a published release. |
| AppcastHistory.AcceptedIff | tools/generate-appcast.py:139-162 | A well-formed release is accepted iff newer than everything ever published, or the latest version with the same download; by the numbers of the texts in `AcceptedByNumbers`. |
| AppcastVersions.VersionTextIff | tools/generate-appcast.py:43-48 | A text is read as a version iff it is one to three runs of digits with dots between them, and as the numbers they spell from left to right, padded with zeros. |
| AppcastVersions.DecimalsRead | tools/generate-appcast.py:43-48 | Numbers written out and joined by dots are read back. |
| AppcastVersions.DigitsAreDecimal | tools/generate-appcast.py:47-47 | A run of digits spells the number whose decimal form it is, leading zeros aside. |
| AppcastVersions.AcceptedByNumbers | tools/generate-appcast.py:139-162 | Over every history a release is accepted iff every published one spells a smaller version, compared number by number, or the same one with the same download. |
| AppcastVersions.RefusedFor | tools/generate-appcast.py:139-159 | Every refusal names the first reason that holds. |
| AppcastVersions.FeedAfter | tools/generate-appcast.py:162-186 | What an accepted release makes of the feed: nothing new when repeated, else a new head with the release's texts, cut to twenty. |
| AppcastVersions.PlaceIsInert | tools/generate-appcast.py:133-136 | It makes no difference to acceptance whether an earlier item has its version in its element or its enclosure. |
| AppcastHistory.RetryReproduces | tools/generate-appcast.py:155-163 | Publishing the same release again gives the same feed. |
| ConnectionShutdown.StopSkipsTheWait | crates/crosspuck-core/src/guest_driver/runtime.rs:341-346 | Supporting fact: a worker told to stop while it drops bridges does not wait again when nothing is left. |
| CommandAnswers.StoppedTurnsAway | crates/crosspuck-core/src/guest_driver/bridge.rs:356-372 | Supporting fact: a call that finds the bridge stopped, at its first look or under the lock, is turned away at once. |
| FrameBytes.FrameWritten | crates/crosspuck-core/src/protocol/frame.rs:87-185 | Supporting fact: what is written byte by byte, and the error with its numbers otherwise. |
| FrameBytes.NewFrameWritten | crates/crosspuck-core/src/protocol/frame.rs:122-185 | Supporting fact: a new frame is written iff its payload is within the limit; which error it gets otherwise, length truncation included. |
| SdlEnumerationContents.NativesKept | crates/crosspuck-driver/src/sdl_enumeration.rs:113-128 | Supporting fact: unmatched natives keep place and contents; matched ones are replaced in place. |
| Frame.NewFrameFits | crates/crosspuck-core/src/protocol/frame.rs:122-132 | Supporting fact: a new frame can be written iff its payload is within the limit, length truncation included. |

## Left out

- Atomic saving of the bottle configuration, file metadata checks and all other file access: effects outside the text.
- The length of one wait of the connection worker (at most 50 ms): a waiting worker may wake at any time.
- Byte offsets and UTF-8 validity of configuration texts: positions count characters.
- The bridge's actual connections, timeouts that split a frame, partial reads and operating system errors: a channel is a queue of whole frames or of bytes, and giving up is an event.
- The payload structures of `protocol/payload.rs`: payloads are opaque, and no claim is made about their contents.
- Mutex poisoning and memory effects weaker than lock order: locks are never poisoned and flags are sequentially consistent.
- The device generation as seen between the slot's update and the counter's increment inside one locked region.
- Statistics as seen between the two updates of one arrival; `read_errors` and the end of the pump.
- The change callback, the trace limiter, trace payloads and the error text of the connection worker.
- Operations on an open bridge beyond choosing, cloning and releasing it: their results are those of the queues and the protocol.
- The handle table, the input report queue of the guest session, user activity reporting, the host's device readers and snapshot building, the device change count: they would add easier members only.
- The lookup of a profile by interface number, hardware and instance ids and device capabilities: plain formatting.
- The connection options, menus, updater, audio helper, hooks and driver installation: user interface and foreign calls.
- The XML form of the feed, its size and entity checks, URL and tag validation, signing and publishing: a run's items are what the next run reads.
- Signature decoding: the number of bytes a signature decodes to is part of a release.
- Version components longer than Python converts to integers: components are unbounded.
- Strings inside SDL nodes as separate allocations: a node's record holds their values, so freshness is shown for nodes.
- Selecting among device candidates on the host: whether it succeeds is an input of the host's step.
