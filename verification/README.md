# Verification of the 3G modem daemon

A Dafny model of the daemon's four machines and of the tokenizer under them, with proofs.

* **AT channel** (`huawei_tgm/atchannel.c`).  `LineBuffer` says on values what one `readline()` does
  with its unread text and with the batches that `read()` delivers, `LineMemory` what it leaves in
  the whole array; `ATBuffers.ATBuffer` is the array itself, filled, scanned and compacted in place, and
  proved to do just that.  `LineBufferRuns` and `LineBufferChunking` relate whole runs to a simple split
  at CR and LF; `LineBufferPrompts` and `LineBufferStale` are about runs with SMS prompts, after which the
  cursor is on bytes of an earlier `read()`.  `ATBufferRuns` runs the buffer itself.  `ReaderLoops` is the
  reader thread's loop on top.  `AtLines` routes lines, `AtChannels` is the same in place (list reversal
  included), `AtProtocol` is the protocol between the issuing thread, the reader and the threads that
  close and reopen, and `AtClosing` tells from the events alone which command waits, whether the channel is
  shut, and when and with what each call returns.  `AtRefinement` is the code of
  `at_send_command_full_nolock()`, `at_open()` and `at_close()` in place, section by
  section, proved to do what the protocol does.  `AtCrossTalk` adds the mutex, the wire and the modem,
  `AtPlayThrough` plays every script to its end, and `AtEndToEnd` puts bytes, reader and answers together.
* **Event loop** (`libtgm/tgm_event.cpp`).  `EventRings` are the circular lists, `EventQueues` the
  timer and pending lists, `WatchTables` the watch table with `readFds` and `nfds`, `EventDispatch`
  the pass from the table to the pending list, the callbacks, and a whole turn of the loop.  `LoopRuns` is the
  state machine of the loop with other threads adding timers and watches.  `LoopRounds` says when the loop
  stops and how it comes back to `select()`, `LoopHistory` tells from the events what `select()` may return and
  what is then queued, and `LoopRefinement` ties the lists and the table to the machine, section by section.
* **Request broker** (`libtgm/tgm.cpp`).  `Brokers` is the pending-request list in place,
  `BrokerRuns` the life of requests and connections, and `BrokerRefinement` ties the two, section by
  section.  `WakeLocks` puts the wake lock on top of the `LoopRuns` machine.
* **Radio and pppd** (`huawei_tgm/huawei-tgm.c`).  `RadioMachine` is the state machine of the radio
  state, `s_closed`, the main loop, a pppd session and the client's connection; `RadioInvariant` holds
  what is true in every run, `RadioSessions` says which sessions are reported as what, told from their checks,
  `RadioPlayThrough` that such sessions come about, `RadioTold` what every event makes of the radio state and what
  the client hears of it, and `RadioDialling` when dialling in two steps is safe.
* **Tokenizer** (`huawei_tgm/at_tok.c`).  `TokenText` on strings, `Tokenizers.Tokenizer` in place,
  `TokenRoundTrip` with a printer that exists in the model only.

`dafny verify dfyconfig.toml` checks everything.

## How threads are modelled

A thread's step is one section under a mutex.  Where the code reads shared data without one
(`readFds`, `calcNextTimeout()`, `s_fdCommand`, `sState`), that read is one step too, and the module
says so.  State machines are total: an event that cannot happen in a state leaves it alone, so a
theorem about `Run(events)` is about every interleaving.  The clock, `read()`, `select()`, the
modem, pppd and the client are the arguments of events.

## Where the code and its comments part

* `findNextEOL` answers a prompt with the terminating NUL itself, so the cursor ends one past it; the
  comment at `huawei_tgm/atchannel.c:446-447` does not hold there.  The next `readline()` takes the C
  string that an earlier `read()` left there for unread text, or reads past the array.
  `LineBufferStale.AnswerIsGlued` is a run in which the end of an earlier line is glued in front of the
  modem's answer, and `LineBufferStale.CursorLeavesArray` one in which the cursor leaves the array; the
  first prompt of a new channel does no harm (`LineBufferStale.FirstPromptIsClean`).
  `LineBufferStale.StaleText` tells from the array before the call what the cursor will be on.
  `LineBufferPrompts.UndisturbedIff` says exactly when a stream with prompts is read without invented or glued
  text, however it goes on after each prompt: when every prompt leaves the cursor in the array and on nothing
  but line ends.
* A later final line overwrites an earlier one until the issuer wakes up: `AtLines.RoutingIsFold` says
  "last".
* The error exit of `TGM_onUnsolicitedResponse` releases the wake lock although an earlier response
  still has its timer: `WakeLocks.ErrorExitUncovers` is such a run, and `WakeLocks.HeldIsCovered`
  says exactly when the lock is held.
* `requestDialDataNetwork` sets `s_closed` first and the state second.  If the main loop wakes up in
  between, pppd can be given the radio with the channel not marked closed:
  `RadioDialling.DialInTwoStepsGoesWrong` gives two such schedules, in one of which the device is
  opened only after the second step.  `RadioDialling.SafeIffCareful` says exactly which runs are
  safe: those in which, whenever the second step comes, `s_closed` is still set and the main loop
  is not in its open loop.  `RadioDialling.KeptIffUnbroken` says when the rule itself is never broken.
  All other theorems about the radio hold in every run.
* A full buffer is thrown away.  Line ends in front of a line stay in the buffer until it is full of
  them, or until `readline()` is entered with some of them already read; so how many are there when
  the line comes depends on the split.  `LineBufferChunking.Most` and `Least` bound their number, and
  `LineBufferChunking.ExactInEverySplitIff` says exactly which streams without '>' are read
  correctly however they are cut up; without 8192 line ends in a row these are the streams in which
  every line, with the line ends in front of it, is shorter than the buffer.
  `LineBufferRuns.RunInOrder` and `ATBufferRuns.ReadAll` say what is still true of the others.
* `at_open()` clears the pending response without taking the lock.
  `AtProtocol.StrandedIffReopened` says when a waiting command loses its response by that.
* `tgm_event_add()` does not look for an fd that is already watched; `WatchTables.WatchTable.Add` says
  exactly when the table still agrees with `readFds`.
* The device path is `/dev/ttyUSB0`, so the serial-port branch of `mainLoop`, with its
  "device detected" message, is never taken.

## Model

| member | source | states |
|---|---|---|
| LineBuffer.FillMoreScans | huawei_tgm/atchannel.c:397-444 | a turn of the reading loop that brings bytes is a scan of old and new text without the line ends in front, and once a line end is found what was consumed in front of it no longer matters |
| ATBuffers.ATBuffer.SkipEols | huawei_tgm/atchannel.c:366-368 | the cursor passes exactly the leading line ends, and the text still ends at the same place |
| ATBuffers.ATBuffer.FindNextEol | huawei_tgm/atchannel.c:319-330 | the first line end, or none; for an exact prompt the place of its NUL |
| ATBuffers.ATBuffer.Compact | huawei_tgm/atchannel.c:372-381 | the partial line lies at the front of the buffer, unchanged |
| ATBuffers.ATBuffer.Read | huawei_tgm/atchannel.c:395-414 | as many bytes of the next batch as fit are appended, with a NUL behind them; an empty batch is end of file |
| ATBuffers.ATBuffer.ReadLine | huawei_tgm/atchannel.c:343-454 | the buffer code in place returns the line, and leaves the unread text, the batches, the cursor and every byte of the array, that the specifications on values give, for every content and every chunking; no index leaves the array during the call; after a prompt the buffer is valid if and only if the cursor is still in the array, and then the unread text is the C string that happens to be there |
| LineBufferRuns.ReadLineConserves | huawei_tgm/atchannel.c:343-454 | a returned line is a non-empty stretch of the bytes without a line end inside, and what follows its line end is exactly what is kept; a prompt is a stretch of the bytes, too, and no byte behind it has been read; at end of file a suffix is kept |
| LineBufferRuns.RunIsLines | huawei_tgm/atchannel.c:319-454 | chunking does not matter: if no line starts with a prompt and every line with the line ends in front fits, a whole run returns the maximal non-empty CR/LF-free terminated pieces in order, for every split |
| LineBufferRuns.RunInOrder | huawei_tgm/atchannel.c:343-454 | for every stream, overlong lines included, the lines returned before the first prompt are disjoint slices in order, each ended by a line end, none empty |
| LineBufferRuns.ReadLinePromptless | huawei_tgm/atchannel.c:319-454 | without a '>' in the unread text and the batches readline() never sees a prompt, whatever it throws away, and what it leaves has no '>' either |
| ATBufferRuns.ReadAll | huawei_tgm/atchannel.c:343-454 | on the buffer itself, for every stream without '>' and every split: the buffer is valid after every call, every batch is used, and the lines returned are the run's, disjoint slices of the stream in order |
| LineBufferPrompts.ReadsAloneIff | huawei_tgm/atchannel.c:361-381 | after a prompt, everything up to the next prompt, whatever it is and however it is cut up, is read as if nothing else were in the buffer, if and only if the cursor is on nothing but line ends |
| LineBufferPrompts.UndisturbedIff | huawei_tgm/atchannel.c:343-454 | for every stream and every split: at each prompt the cursor stays in the array and what comes next is read alone, if and only if each prompt leaves the cursor in the array and on nothing but line ends |
| LineBufferPrompts.CleanRunIsIdeal | huawei_tgm/atchannel.c:343-454 | then the run is that of a buffer which is empty after each prompt |
| LineBufferPrompts.CleanRunInOrder | huawei_tgm/atchannel.c:343-454 | and the lines and prompts heard are disjoint slices of the stream, in order |
| LineBufferStale.StaleText | huawei_tgm/atchannel.c:444-447 | a prompt brought by any number of read()s, with nothing thrown away in the call: behind its NUL the array is as it was before the call, so the prompt is clean if and only if the C string that was there before the call is nothing but line ends and the prompt does not fill the buffer to the last byte |
| LineBufferStale.StaleHeld | huawei_tgm/atchannel.c:361-381 | the same for a prompt that was in the buffer already |
| LineBufferStale.PromptAlone | huawei_tgm/atchannel.c:319-454 | a prompt in a batch of its own, with line ends in front, is returned at once, and whether it is clean is told by what was in the array behind it |
| LineBufferStale.PromptAfterLine | huawei_tgm/atchannel.c:319-454 | on a new channel, a line and then a prompt: clean if and only if the line is no longer than the prompt with its line ends and its NUL; otherwise the end of the line is unread again |
| LineBufferStale.FirstPromptIsClean | huawei_tgm/atchannel.c:319-454 | the first prompt of a new channel is clean |
| LineBufferStale.AnswerIsGlued | huawei_tgm/atchannel.c:319-454 | "+CSQ: 9", a prompt and "OK" on a new channel are heard as "+CSQ: 9", the prompt and "Q: 9OK" |
| LineBufferStale.CursorLeavesArray | huawei_tgm/atchannel.c:443-447 | 8190 line ends and a prompt on a new channel: after the prompt the next readline() starts past the array |
| ATBufferRuns.HearAll | huawei_tgm/atchannel.c:343-454 | on the buffer itself, for every stream and every split, prompts included: what is heard is the run with the stale bytes, and reading stops before the end exactly if the cursor leaves the array |
| LineBufferRuns.NoGain | huawei_tgm/atchannel.c:385-393 | a run never returns more text than the lines of its bytes hold |
| LineBufferChunking.SplitsAgree | huawei_tgm/atchannel.c:343-454 | two splits of the same bytes give the same lines |
| LineBufferChunking.SurvivorsAreRead | huawei_tgm/atchannel.c:361-454 | if every terminated line fits behind the most line ends that a split can leave in the buffer, a run in non-empty batches returns the lines of the stream |
| LineBufferChunking.Spoil | huawei_tgm/atchannel.c:385-393 | every other stream has a split into non-empty batches in which text of its lines is lost |
| LineBufferChunking.ExactInEverySplitIff | huawei_tgm/atchannel.c:343-454 | for streams without '>' the lines come out right in every split into non-empty batches if and only if every terminated line fits in that sense |
| LineBufferChunking.FitsInEverySplitIff | huawei_tgm/atchannel.c:343-454 | without 8192 line ends in a row: if and only if every terminated line, with the line ends in front, is shorter than 8192 bytes |
| LineBufferChunking.OneLineIff | huawei_tgm/atchannel.c:343-454 | for example, one line ended by CR or LF with fewer than 8192 CRs and LFs in front: it is returned, and nothing else, in every split into non-empty batches if and only if there are fewer than 8192 bytes of it and of what is in front |
| ReaderLoops.NextLine | huawei_tgm/atchannel.c:343-454 | each readline() of a sound stream takes exactly its next line, and end of file comes only when no line is left |
| ReaderLoops.IntactIsHeard | huawei_tgm/atchannel.c:343-454 | if every line with the line ends in front fits and none is a prompt, the lines of the stream are heard, in every split into non-empty batches |
| ReaderLoops.FramedIsHeard | huawei_tgm/atchannel.c:343-454 | if every line and every prompt comes in a batch of its own and every prompt is clean, lines and prompts are heard exactly as they come |
| ReaderLoops.PairedIs | huawei_tgm/atchannel.c:492-505 | the deliveries are the lines in order, none lost, doubled or reordered, but for a last SMS header without a second line |
| ReaderLoops.PairedGoes | huawei_tgm/atchannel.c:492-505 | an SMS header goes to the SMS handler, with the line behind it, and no header to processLine() |
| ReaderLoops.ReaderLoop | huawei_tgm/atchannel.c:477-524 | for every stream and every split, what is delivered is what readline() returns until end of file, in order, an SMS header together with the line behind it; it stops short exactly if the cursor leaves the array |
| AtLines.PromptIsNotFinal | huawei_tgm/atchannel.c:154-206 | the order of the tests in processLine() does not matter for the prompt |
| AtLines.FinalSuccessIff | huawei_tgm/atchannel.c:182-198 | for every tail: a line is a final success if and only if it starts with OK or CONNECT |
| AtLines.FinalErrorIff | huawei_tgm/atchannel.c:154-174 | and a final error if and only if it starts with one of ERROR, +CMS ERROR:, +CME ERROR:, NO CARRIER, NO ANSWER, NO DIALTONE, COMMAND NOT SUPPORT |
| AtLines.SmsHeaderIff | huawei_tgm/atchannel.c:214-226 | and an SMS header if and only if it starts with +CMT:, +CDS: or +CBM: |
| AtLines.AnswerGoes | huawei_tgm/atchannel.c:268-306 | a line that is neither final nor the prompt goes to the pending command if it starts with its prefix, whatever comes behind, or for a numeric command if it starts with a digit; for a command without intermediates it goes to the unsolicited handler |
| AtLines.CsqGoes | huawei_tgm/atchannel.c:247-310 | for example, with the prefix +CSQ: pending: +CSQ: and any tail is its answer, +CME ERROR: and any tail its failure, CONNECT and any tail its success |
| AtLines.RoutingIsFold | huawei_tgm/atchannel.c:247-310 | after any lines the final response is the last final line, success is its class, the intermediates in order are all matching non-final lines (multiline), the first one (single-line, numeric) or none, and the PDU is gone exactly if a prompt came |
| AtLines.DestinationExpected | huawei_tgm/atchannel.c:247-310 | every line goes to the one destination that the lines before it determine; the PDU is written only for the first exact prompt |
| AtLines.LastFinalIs | huawei_tgm/atchannel.c:203-206 | there is a final response exactly if some line was final |
| AtLines.MatchingFits | huawei_tgm/atchannel.c:268-306 | matching lines came from the modem and have the right shape |
| AtChannels.ATResponse.AddIntermediate | huawei_tgm/atchannel.c:133-146 | a new node at the head, the rest as before |
| AtChannels.Flip | huawei_tgm/atchannel.c:729-742 | the links of the list, turned around in place, chain the same nodes backwards |
| AtChannels.ATResponse.ReverseIntermediates | huawei_tgm/atchannel.c:729-742 | the texts come in the reverse order; success and final response are kept |
| AtChannels.TextsBackwards | huawei_tgm/atchannel.c:729-742 | the texts of the nodes backwards are the reversed texts |
| AtChannels.ATChannel.ProcessLine | huawei_tgm/atchannel.c:247-310 | the heap state after a line is the routed one; exactly the unsolicited lines reach the handler, exactly the answered prompts write a PDU, exactly final lines signal |
| AtChannels.ATChannel.ClearPendingCommand | huawei_tgm/atchannel.c:612-621 | response, prefix and PDU are cleared |
| AtChannels.ATChannel.Install | huawei_tgm/atchannel.c:772-775 | the slot is the fresh one of the command |
| AtChannels.ATChannel.HandOver | huawei_tgm/atchannel.c:800-818 | the caller that asked gets the response with the intermediates in order of arrival, and the slot is clear |
| AtProtocol.RunsAreHonest | huawei_tgm/atchannel.c:751-822 | over every interleaving of issue, line, timeout, wake-up, close and reopen: return 0 comes with a final response and the answer its lines call for, every error with what it promises, and between calls the slot is clear |
| AtProtocol.OneOfTheRightShape | huawei_tgm/atchannel.c:879-947 | a successful single-line, numeric or SMS call with an out pointer got exactly one intermediate, of the right shape, from its own lines |
| AtProtocol.BetweenCalls | huawei_tgm/atchannel.c:254-256 | once a call has returned, later lines reach the unsolicited handler and change nothing else |
| AtProtocol.StrandedIffReopened | huawei_tgm/atchannel.c:636-642 | a waiting command loses its response exactly if at_open() comes while it waits; otherwise the slot holds the fold of its lines |
| AtClosing.RunsAreTold | huawei_tgm/atchannel.c:534-822 | in every run, told from the events alone: the channel is marked closed exactly if of closing and opening closing came last; a command waits exactly if it was issued on an open channel, written, and nothing that ends a wait has come since; and what it has seen are the lines since |
| AtClosing.ClosedIff | huawei_tgm/atchannel.c:751-822 | in every run a call returns exactly by a refused issue, a timeout, or a wake-up when a final line has come or the channel is shut; with CHANNEL_CLOSED if and only if the descriptor was not open at issue, or a close with no reopening behind it came before the return (and it is no timeout) |
| AtClosing.FailsReturns | huawei_tgm/atchannel.c:539-553 | an issue on a closed channel returns CHANNEL_CLOSED at once, one that cannot be written the generic error, with no response |
| AtClosing.EndsReturns | huawei_tgm/atchannel.c:777-822 | what a wake-up that ends the wait returns: the error, and to a caller that wants it the answer to exactly the lines since the issue, also on a shut channel |
| AtClosing.OthersReturnNothing | huawei_tgm/atchannel.c:777-798 | no other event makes a call return |
| AtClosing.ShutEndsWaiting | huawei_tgm/atchannel.c:667-697 | after a close with no reopening no issue leaves a command waiting, and a wake-up brings a waiting one back, with CHANNEL_CLOSED |
| AtClosing.LineGoes | huawei_tgm/atchannel.c:247-310 | in every run the unsolicited handler gets exactly the lines that no waiting command is due, told from the lines since it was issued |
| AtRefinement.OnLine | huawei_tgm/atchannel.c:247-310 | the reader's section on the heap does what the protocol's line event does |
| AtRefinement.Issues | huawei_tgm/atchannel.c:761-775 | the issuer's first section refuses, or installs and waits, as the protocol's issue event does, with the same error |
| AtRefinement.TimesOut | huawei_tgm/atchannel.c:794-797 | giving up does what the protocol's timeout event does |
| AtRefinement.ComesBack | huawei_tgm/atchannel.c:800-818 | the section behind the wait, with the wrapper's check, does what the protocol's wake-up does: same error, same response handed out |
| AtRefinement.Closes | huawei_tgm/atchannel.c:687-693 | the section of at_close() under the lock does what the close event does, and signals |
| AtRefinement.Opens | huawei_tgm/atchannel.c:634-642 | at_open() does what the reopening event does |
| AtCrossTalk.PlayKeepsInv | huawei_tgm/atchannel.c:829-856 | while a command waits, the lines read, on the wire and still to be sent are its own block and the slot holds the fold of those read; while idle no reply is anywhere |
| AtCrossTalk.ReadsIff | huawei_tgm/atchannel.c:477-510 | the reader takes the next line at any time but while a command is being written, and even then if it is a line of an SMS |
| AtCrossTalk.NoCrossTalk | huawei_tgm/atchannel.c:477-524 | in every interleaving with harmless unsolicited lines and with SMSs, which the reader hands over without the lock even while a command is being written, the k-th call is answered from the k-th block alone |
| AtPlayThrough.PlaysThrough | huawei_tgm/atchannel.c:477-856 | every script can be played until all its commands have been answered, each from its own block |
| AtPlayThrough.CsqIsAnswered | huawei_tgm/atchannel.c:879-920 | for example, for every two tails: AT+CSQ sent twice, answered by +CSQ: with one tail and OK, and then by +CME ERROR: with the other, comes back with just that |
| AtEndToEnd.DeliveredSoFar | huawei_tgm/atchannel.c:477-524 | at every moment, what the reader has delivered is the lines it has taken off the wire, an SMS header together with the line behind it |
| AtEndToEnd.SmsAreDelivered | huawei_tgm/atchannel.c:492-505 | at every moment the SMS handler has got exactly the SMSs delivered, header and body |
| AtEndToEnd.DeliveriesDrive | huawei_tgm/atchannel.c:477-510 | at every moment, the state of the protocol is that of a run of AtProtocol whose lines are those delivered to processLine() so far |
| AtEndToEnd.EndToEnd | huawei_tgm/atchannel.c:477-856 | if the bytes on the fd, cut up in any way, are heard as the lines and prompts the modem sends, then at every moment what has been delivered is the beginning of what readerLoop() delivers, it has driven the protocol to where it is, and the k-th call was answered from the k-th block |
| TimeVals.MacrosAreMicros | libtgm/tgm_event.cpp:38-67 | on normal values the macros are addition, subtraction and order of microseconds, and give normal values |
| EventRings.InitList | libtgm/tgm_event.cpp:109-115 | a well-formed empty ring |
| EventRings.AddToList | libtgm/tgm_event.cpp:118-125 | on the ring of a sequence this inserts in front of the given place |
| EventRings.RemoveFromList | libtgm/tgm_event.cpp:127-136 | on the ring of a sequence this deletes, and the links of the event are NULL |
| TimerQueue.LeadingSplits | libtgm/tgm_event.cpp:161-184 | in a sorted queue the leading timers are exactly the strictly earlier ones |
| TimerQueue.InsertKeepsSorted | libtgm/tgm_event.cpp:318-324 | an insertion in front of the first deadline that is not earlier keeps the queue sorted |
| EventQueues.Queues.FindSlot | libtgm/tgm_event.cpp:311-323 | the walk stops at the first timer that is not earlier, or at the sentinel |
| EventQueues.Queues.TimerAdd | libtgm/tgm_event.cpp:303-329 | the deadline is now plus delay, fd is -1, the timer stands in front of the first one that is not earlier, and both lists stay well-formed, disjoint and sorted |
| EventQueues.Queues.ProcessTimeouts | libtgm/tgm_event.cpp:161-184 | exactly the strictly expired prefix moves, in order, to the end of the pending list |
| EventQueues.Queues.CalcNextTimeout | libtgm/tgm_event.cpp:227-250 | no timer, no timeout; otherwise the wait reaches the earliest deadline or is zero if that is past |
| WatchTables.AddSummarized | libtgm/tgm_event.cpp:286-296 | adding keeps readFds the watched fds and nfds one more than the largest |
| WatchTables.RemoveSummarized | libtgm/tgm_event.cpp:139-159 | so does removing, with nfds recomputed only when the largest goes |
| WatchTables.WatchTable.Add | libtgm/tgm_event.cpp:282-300 | the first free slot gets the event and its index, a full table is left alone; the table agrees with its summaries afterwards if and only if the fd was not watched before |
| WatchTables.WatchTable.RemoveWatch | libtgm/tgm_event.cpp:139-159 | the slot is free, index is -1, the fd has left readFds, and the summaries agree again |
| WatchTables.WatchTable.Del | libtgm/tgm_event.cpp:332-345 | the same for a watched event by its own index; with an index out of range nothing changes and the mutex is still held on return |
| EventDispatch.AllReady | libtgm/tgm_event.cpp:373-388 | there are as many ready slots as fds that select() counted |
| EventDispatch.PassEnds | libtgm/tgm_event.cpp:192-201 | when the count is used up nothing ready is left in the rest of the table |
| EventDispatch.ProcessReadReadies | libtgm/tgm_event.cpp:186-205 | every ready watched event is queued in table order, and exactly the ready non-persistent ones are unwatched |
| EventDispatch.QueuedOnce | libtgm/tgm_event.cpp:186-205 | queued is each ready watched event, once, and no other |
| EventDispatch.UnlinkedIsFree | libtgm/tgm_event.cpp:127-136 | an event without links is in neither list, so a callback can tell whether it may start a timer with it |
| EventDispatch.Do | libtgm/tgm_event.cpp:282-345 | what a callback does with an event: started, watched or unwatched where it is fit for it; lists and table stay well-formed |
| EventDispatch.FirePending | libtgm/tgm_event.cpp:207-225 | every event pending at the start is taken off and fired, in order, once, whatever the callbacks do to timers and watches in between; table and lists stay well-formed |
| EventDispatch.Turn | libtgm/tgm_event.cpp:385-390 | one turn fires the strictly expired timers in order, then the ready events in table order, whatever the callbacks do, leaves nothing pending, and unwatches exactly the ready non-persistent events before the first callback |
| LoopRuns.InsertRefines | libtgm/tgm_event.cpp:318-324 | the insertion of the state machine is the one proved of the linked list |
| LoopRuns.StepKeepsAwake | libtgm/tgm_event.cpp:347-391 | every step of the loop, of an adder or of the clock keeps every watch and timer seen by select() or announced by a byte that is written or about to be |
| LoopRuns.NoLostWakeUp | libtgm/tgm_event.cpp:347-391 | in every run, whenever the loop is in select(), each queued timer is due no earlier than the timeout (or that is zero) and each watched fd is in rfds, or the pipe holds a byte, or its own adder has yet to write one; LoopRounds says that the loop keeps coming back to select() |
| LoopRounds.StoppedIff | libtgm/tgm_event.cpp:373-388 | in every run the loop has stopped if and only if select() has failed, with an error other than EINTR, while the loop was in it |
| LoopRounds.RoundAgain | libtgm/tgm_event.cpp:352-391 | after the last pending entry has been fired, and after EINTR, the next copy of readFds and the next calcNextTimeout() lead to select(), whatever other threads do in between, with the fds watched when they were copied and the timeout of the timers then |
| LoopRounds.PassIsMade | libtgm/tgm_event.cpp:352-391 | whatever select() returns, the loop can come round to select() again by its own steps, and by then it has fired what was pending, every timer past its deadline, and every returned fd that is watched, each once |
| LoopRounds.PipeHolds | libtgm/tgm.cpp:1156-1167 | in every run the bytes in the wake-up pipe are those written since its event was last fired |
| LoopRounds.PipeIff | libtgm/tgm.cpp:1156-1167 | so there is one if and only if a thread wrote one after the last firing |
| LoopHistory.RunsAreTold | libtgm/tgm_event.cpp:282-345 | in every run, told from the events: the clock is the time that has passed, a byte is owed for exactly each addition from outside the loop that none was written for, and an fd is watched exactly if it was added while fewer than 8 were and has not been stopped since |
| LoopHistory.ReturnsIff | libtgm/tgm_event.cpp:373-388 | in every run select() returns with some fds if and only if they were copied, each has something to read, and there is one or the timeout is over |
| LoopHistory.QueuedIff | libtgm/tgm_event.cpp:186-205 | in every run what is queued behind the timeouts is each fd that select() returned, once, and no other |
| LoopHistory.PendingIsOnceEach | libtgm/tgm_event.cpp:186-225 | in every run nothing is pending outside of a pass, and no fd is pending twice |
| LoopRuns.NeverOversleeps | libtgm/tgm.cpp:639-660 | a timer that has come due ends select() once its byte has been written |
| LoopRuns.NeverDeaf | libtgm/tgm.cpp:1156-1167 | so does a watched fd with something to read |
| LoopRuns.ExpiryKeepsOrder | libtgm/tgm_event.cpp:161-184 | what expires is past its deadline, later than all that expired before and earlier than all that is left |
| LoopRuns.InExactlyOnePlace | libtgm/tgm_event.cpp:303-329 | every timer ever added is in the timer list, pending or fired: exactly one of them, and once |
| LoopRuns.FireInOrder | libtgm/tgm_event.cpp:161-225 | each firing is strictly past its deadline by a sampled clock, and all firings of a run are in the order of their deadlines |
| LoopRefinement.StartsTimer | libtgm/tgm_event.cpp:303-329 | tgm_timer_add() on the linked list does what the machine's event does |
| LoopRefinement.Expires | libtgm/tgm_event.cpp:161-184 | so does processTimeouts() |
| LoopRefinement.Calculates | libtgm/tgm_event.cpp:227-250 | calcNextTimeout() gives the wait of the machine |
| LoopRefinement.Fires | libtgm/tgm_event.cpp:207-225 | a turn of firePending(), up to the callback, does what the machine's event does; the event is in no list then, and what is fired next is already known |
| LoopRefinement.RoomIff | libtgm/tgm_event.cpp:286-296 | the table has a free slot if and only if fewer fds are watched than it has slots |
| LoopRefinement.StartsWatch | libtgm/tgm_event.cpp:282-300 | tgm_event_add() does what the machine's event does, on a full table, too |
| LoopRefinement.StopsWatch | libtgm/tgm_event.cpp:332-345 | so does tgm_event_del() of a watched event |
| LoopRefinement.OrderMayQueue | libtgm/tgm_event.cpp:186-205 | the ready fds in the order of the table, and those watched only once, are what the machine may queue and stop watching |
| LoopRefinement.QueuesReadies | libtgm/tgm_event.cpp:186-205 | processReadReadies() on table and lists does what the machine's event does, in that order |
| LoopRefinement.ReadyIsWatched | libtgm/tgm_event.cpp:354-388 | in every run the fds that select() returned are still watched when processReadReadies() comes |
| Brokers.WithoutMembers | libtgm/tgm.cpp:1400-1410 | dequeuing takes out that request and no other |
| Brokers.ErrorSentCarries | libtgm/tgm.cpp:465-475 | the code of a reply is 0 exactly if the vendor said success and the answer was marshalled; otherwise the vendor's failure code, or the marshaller's where the vendor said success |
| Brokers.Broker.Accept | libtgm/tgm.cpp:1106-1154 | an unreadable request, or one whose number is not from 1 to 16, changes nothing; any other is pushed at the head, uncancelled |
| Brokers.Unlink | libtgm/tgm.cpp:1400-1410 | the link in front of the request, or the head, is redirected, and the list stays well-formed |
| Brokers.Broker.CheckAndDequeue | libtgm/tgm.cpp:1390-1415 | finds exactly the pending requests, and takes the found one out |
| Brokers.Broker.OnRequestComplete | libtgm/tgm.cpp:433-490 | a reply with the right token is written exactly if the request was pending, not cancelled and the socket is open; its code is 0 exactly for a success that was marshalled, and otherwise says what failed |
| Brokers.Broker.OnCommandsSocketClosed | libtgm/tgm.cpp:1261-1284 | every pending request is cancelled |
| BrokerRuns.RunsAreSound | libtgm/tgm.cpp:1106-1224 | pending is what was accepted and not completed, each once; a pending request is cancelled exactly if its connection is gone |
| BrokerRuns.AnsweredOnce | libtgm/tgm.cpp:433-490 | each request gets at most one response, with its token, on the connection that carried it, even if completed twice as in huawei-tgm.c:1381-1408 |
| BrokerRuns.AnswersIff | libtgm/tgm.cpp:433-490 | a completion sends a response if and only if it is the first of its request, the connection of the request is open, and the answer is within MAX_COMMAND_BYTES |
| BrokerRuns.FirstCompletionDecides | libtgm/tgm.cpp:433-490 | once a request has been completed its responses are the same in every continuation: if it was answered it is never answered again, and if not it never is |
| BrokerRuns.CarriesFirst | libtgm/tgm.cpp:465-475 | in every run the response to a request says 0 if and only if its first completion was a success that was marshalled; otherwise it carries that completion's failure code, or the marshaller's where the vendor said success; later completions do not matter |
| BrokerRuns.CompletedIff | libtgm/tgm.cpp:433-490 | a request counts as completed exactly if a completion of it came after it was accepted |
| BrokerRuns.OneResponse | libtgm/tgm.cpp:433-490 | a request has at most one response, and none before it is completed |
| BrokerRuns.PendingIsOpen | libtgm/tgm.cpp:1197-1224 | a pending request that is not cancelled belongs to the open connection |
| BrokerRuns.LinksAreTold | libtgm/tgm.cpp:1014-1284 | in every run, from the events alone: which connection is open, how many there have been, and that after a hang-up no other one is accepted before the requests have been cancelled |
| BrokerRefinement.Connects | libtgm/tgm.cpp:1014-1104 | accepting a connection does what the event of BrokerRuns does |
| BrokerRefinement.Dispatches | libtgm/tgm.cpp:1106-1154 | a record of the open connection gives a request the next number or does nothing, as the event does |
| BrokerRefinement.Completes | libtgm/tgm.cpp:433-490 | a completion on the list does what the event does: same pending requests, same replies with token, connection and code |
| BrokerRefinement.HangsUp | libtgm/tgm.cpp:1197-1216 | closing the socket does what the event does |
| BrokerRefinement.Cancels | libtgm/tgm.cpp:1261-1284 | so does onCommandsSocketClosed() |
| WakeLocks.FireQueues | libtgm/tgm_event.cpp:207-225 | firing takes the fired timer, and no other, out of the queues |
| WakeLocks.FiresLast | libtgm/tgm.cpp:1446-1476 | a timer that fires would release the lock exactly if s_last_wake_timeout_info names it |
| WakeLocks.LockIff | libtgm/tgm.cpp:492-585 | in every run, from the happenings: the lock is held exactly from a response until the firing of the timer it started, unless a later response moved that on or an error exit came |
| WakeLocks.HeldIsCovered | libtgm/tgm.cpp:492-585 | in every run s_last_wake_timeout_info is NULL or queued, and then it is the only uncancelled wake timer, due 1000000 microseconds after the latest response; the lock is held exactly then, unless an error exit came after that response |
| WakeLocks.ReleasedLate | libtgm/tgm.cpp:1417-1476 | a timer releases the lock only by a sample more than 1000000 microseconds after the latest response, even if timers already pending are cancelled in the same pass |
| WakeLocks.OnlyTheseRelease | libtgm/tgm.cpp:579-583 | nothing but such a timer and the error exit lets go of the lock |
| WakeLocks.AllReleasesAreByTimer | libtgm/tgm.cpp:560-577 | without error exits every release is by a timer |
| WakeLocks.ErrorExitUncovers | libtgm/tgm.cpp:543-585 | a run in which the error exit drops the lock while an earlier response has a live timer |
| RadioInvariant.StepKeepsConsistent | huawei_tgm/huawei-tgm.c:599-943 | every step of the main loop, the callbacks and the reader keeps the radio state in line with s_closed, the place of the main loop and a dial that is going on |
| RadioInvariant.ClosedMeansNoSim | huawei_tgm/huawei-tgm.c:823-943 | in every run, outside the two steps of dialling, s_closed implies off, unavailable, pppd or pppd ready |
| RadioDialling.SafeIffCareful | huawei_tgm/huawei-tgm.c:1127-1152 | at every moment of a run pppd and pppd ready imply s_closed, and would if the device were opened now, if and only if at each second step of a dial s_closed was still set and the main loop was not in its open loop |
| RadioDialling.KeptIffUnbroken | huawei_tgm/huawei-tgm.c:797-832 | without looking ahead: at every moment of a run pppd and pppd ready imply s_closed, if and only if s_closed was set at each second step of a dial and the device was never opened while the state was pppd |
| RadioDialling.GivenWhileOpening | huawei_tgm/huawei-tgm.c:797-817 | the main loop is in its open loop with the state pppd only if it was there when a dial set that state |
| RadioDialling.MarkedUnlessReopened | huawei_tgm/huawei-tgm.c:797-832 | between the two steps s_closed is gone exactly if the device was opened since the first, with no reader closing after that |
| RadioDialling.DialInTwoStepsGoesWrong | huawei_tgm/huawei-tgm.c:1142-1152 | from any run in which the main loop wakes up between the two steps, two ways to pppd having the radio with s_closed 0, one of them with the device opened only after the second step |
| RadioDialling.DialIsReached | huawei_tgm/huawei-tgm.c:599-817 | such a run exists |
| RadioDialling.AtOnceIsCareful | huawei_tgm/huawei-tgm.c:1120-1154 | if nothing comes between the two steps, dialling is safe: in every such run pppd and pppd ready imply s_closed |
| RadioInvariant.ClientMirrors | huawei_tgm/huawei-tgm.c:880-915 | once greeted, a connected client was last told the current radio state, across all changes and reconnects |
| RadioTold.FlagsAreTold | huawei_tgm/huawei-tgm.c:797-832 | in every run, from the events: s_closed, the device, the AT channel and a dial that is half done |
| RadioTold.RadioIsAsked | huawei_tgm/huawei-tgm.c:880-915 | in every run the radio state is the last one asked for, or unavailable if that was a SIM state and the channel marked closed; every event that asks, and for what, is spelt out |
| RadioTold.PlaceIsTaken | huawei_tgm/huawei-tgm.c:599-817 | in every run the main loop goes from place to place as the table of its moves says, and not otherwise |
| RadioTold.ClientIsTold | huawei_tgm/huawei-tgm.c:880-915 | in every run a connected client has been told exactly every change of the radio state since it connected, and the state when it was greeted or asked |
| RadioTold.ToldAfter | huawei_tgm/huawei-tgm.c:823-943 | what a start, a reset, a locked SIM and a closing reader make of the radio state, and what a connected client is told of it |
| RadioInvariant.CheckLoopEnds | huawei_tgm/huawei-tgm.c:636-676 | whenever pppd dies, a session makes at most 20 checks |
| RadioInvariant.SessionsMakeSense | huawei_tgm/huawei-tgm.c:636-706 | no session says both CONNECTED and FAILED, nothing is said twice, and DISCONNECTED follows the CONNECTED of the same session; RadioSessions says when each is said |
| RadioSessions.RunsReport | huawei_tgm/huawei-tgm.c:501-706 | in every run and for every session: CONNECTED was sent if and only if a check of it, judged by now, read "unknown" or "up" while pppd was alive; FAILED if and only if it was given up; DISCONNECTED if and only if pppd was gone at its end and the radio still ready |
| RadioSessions.ConnectedIff | huawei_tgm/huawei-tgm.c:530-538 | told by the single check: a session says CONNECTED if and only if there is a check in it that reads "unknown" or "up" while pppd is alive |
| RadioSessions.ReadyIff | huawei_tgm/huawei-tgm.c:640-656 | in every run the radio becomes ready exactly with that message |
| RadioSessions.FailedMeans | huawei_tgm/huawei-tgm.c:658-690 | FAILED comes only at the end of checks of which none succeeded and which counted 20 or more: one each, two where nothing could be read, and beyond the limit with pppd dead |
| RadioSessions.ChildIsAlive | huawei_tgm/huawei-tgm.c:616-636 | pppd is there exactly if it was forked for the latest session and has not died since |
| RadioSessions.CountsAreBounded | huawei_tgm/huawei-tgm.c:636-676 | counted from the events, in every run: at most 20 checks in a session and no more sessions than dials that gave pppd the radio |
| RadioPlayThrough.SessionsComeAbout | huawei_tgm/huawei-tgm.c:616-706 | whenever pppd has been given the radio and the main loop is at its top, one run goes through a session that says CONNECTED and DISCONNECTED, another through one that says FAILED after exactly 20 checks; both leave the radio unavailable and the loop at its top |
| RadioInvariant.SessionsAreDialled | huawei_tgm/huawei-tgm.c:616-637 | in every run there are no more sessions than dials that gave pppd the radio |
| RadioInvariant.SessionLeavesUnavailable | huawei_tgm/huawei-tgm.c:700-706 | a session that finishes leaves the radio unavailable, and until the next dial gives it to pppd, however long the run goes on, pppd does not have it and no session begins |
| TokenText.TokenShortens | huawei_tgm/at_tok.c:70-87 | every token step shortens the rest or sets the cursor to NULL |
| TokenRoundTrip.GapSkipped | huawei_tgm/at_tok.c:48-55 | any number of blanks, tabs, line feeds, vertical tabs, form feeds and carriage returns in front of a field are passed |
| TokenRoundTrip.NumberReads | huawei_tgm/at_tok.c:97-126 | strtol() of any printed number is that number, or the nearest long |
| TokenRoundTrip.NoNumberIff | huawei_tgm/at_tok.c:97-126 | strtol() finds no number if and only if there is no digit behind white space and a sign |
| TokenRoundTrip.HexReads | huawei_tgm/at_tok.c:97-148 | strtoul() of a printed hexadecimal number, in either case, with or without 0x, is that number, or the largest unsigned long |
| TokenRoundTrip.PrefixAlone | huawei_tgm/at_tok.c:97-148 | 0x without a digit behind it is the number 0 |
| TokenRoundTrip.MinusReads | huawei_tgm/at_tok.c:97-148 | a minus sign in front of a hexadecimal number negates it |
| TokenRoundTrip.IntWraps | huawei_tgm/at_tok.c:97-126 | a number that fits a long and not an int loses all but its last 32 bits |
| TokenRoundTrip.BoolIff | huawei_tgm/at_tok.c:150-171 | of the printed ints exactly 0 and 1 are bools |
| TokenRoundTrip.QuotedReads | huawei_tgm/at_tok.c:78-81 | a quoted field is read back, and the cursor passes whatever comes up to and with the next comma; without a closing quote the rest of the line is the token |
| TokenRoundTrip.PlainReadsIff | huawei_tgm/at_tok.c:82-84 | an unquoted last field is read back if and only if it has no comma and starts with none of the six white space characters, spelt out, nor a quote |
| TokenRoundTrip.FirstToken | huawei_tgm/at_tok.c:70-87 | of a printed list, with any white space in front of its fields, the first token is the first field, and the cursor is at the rest of the list |
| TokenRoundTrip.TakenBack | huawei_tgm/at_tok.c:97-171 | a printed decimal, hexadecimal or bool field is what its caller makes of its token |
| TokenRoundTrip.StartsBehindColon | huawei_tgm/at_tok.c:28-46 | at_tok_start() leaves the cursor at the first field |
| Tokenizers.Cut | huawei_tgm/at_tok.c:80-83 | a NUL written by strsep() leaves the token in front of it and the rest behind it intact |
| Tokenizers.Tokenizer.Start | huawei_tgm/at_tok.c:28-46 | behind the first colon, or NULL and failure |
| Tokenizers.Tokenizer.SkipWhiteSpace | huawei_tgm/at_tok.c:48-55 | the cursor passes exactly the white space; GapSkipped and PlainReadsIff of TokenRoundTrip spell out which characters that is |
| Tokenizers.Tokenizer.SkipNextComma | huawei_tgm/at_tok.c:57-68 | the cursor passes the next comma, or everything |
| Tokenizers.Tokenizer.NextTok | huawei_tgm/at_tok.c:70-87 | in place, the token and the cursor are those of the specification on strings, and nothing in front of the old cursor is written to |
| Tokenizers.Tokenizer.NextIntBase | huawei_tgm/at_tok.c:97-126 | the token's number, cast to int, or failure on NULL and on a token without digits |
| Tokenizers.Tokenizer.NextHexInt | huawei_tgm/at_tok.c:144-148 | the same in base 16, unsigned |
| Tokenizers.Tokenizer.NextBool | huawei_tgm/at_tok.c:150-171 | succeeds exactly on 0 and 1, and tells which |
| Tokenizers.Tokenizer.NextStr | huawei_tgm/at_tok.c:173-182 | the token, or failure on NULL |
| Tokenizers.Tokenizer.HasMore | huawei_tgm/at_tok.c:185-188 | whether the rest is a non-empty string |
| Tokenizers.HoldsOn | huawei_tgm/at_tok.c:70-87 | tokens already taken survive all later calls |
| Tokenizers.ReadBack | huawei_tgm/at_tok.c:28-188 | the round trip in place: every list of strings, decimal and hexadecimal numbers and bools, with any white space in front of each, printed behind a prefix and a colon, is read back by the matching calls, and then there is no more |

## Left out

- ATBufferRuns.HearAll: what the code reads past the array, once the cursor has left it, is not modelled; the run ends there.
- EventDispatch.FirePending: a callback's attempt to start a timer with an event that is queued or watched, or to watch an fd that is watched, would spoil the lists or the table and is passed over.
- EventDispatch.Turn: the clock is sampled once, and other threads add nothing during the turn; that they may is in LoopRuns.
- LoopRuns.NoLostWakeUp: start-up before the wake-up pipe is watched, and watching an fd twice, are not modelled; the fd of the pipe is called 0.
- LoopRounds.PassIsMade: there is such a way round in which the callbacks do nothing; that the loop is ever scheduled is not stated.
- LoopRefinement.StopsWatch: an index out of range, with which tgm_event_del() returns holding the mutex, is in WatchTables.WatchTable.Del only.
- BrokerRefinement.Completes: a request that has been freed keeps its number, and no other one gets its address.
- BrokerRuns.AnsweredOnce: completions are on the loop thread and no token is used again after it is freed; on another thread the connection could change between the dequeue and the write.
- WakeLocks.HeldIsCovered: TGM_onUnsolicitedResponse() and each callback are one step, although nothing in the code makes them so.
- RadioInvariant.ClosedMeansNoSim: a callback's AT result and the update that follows it are one step; of dialling that is the first of its two updates.
- RadioPlayThrough.SessionsComeAbout: that pppd is killed behind FAILED is the event of its death.
- AtProtocol.RunsAreHonest: a command that has lost its response to at_open() waits on, or times out; the code reads through a NULL pointer when it wakes up.
- AtClosing.ClosedIff: a timeout is reported as a timeout on a shut channel, too, and a command that has lost its response to at_open() is brought back by a timeout only.
- AtRefinement.Closes: that the descriptor is closed and set to -1 in front of the section is in the events that say whether it is open.
- AtEndToEnd.EndToEnd: at every moment the lines read are among those sent by then, but single bytes are not followed: a line is sent in one step and read in one step.
- Tokenizers.Tokenizer.NextIntBase: characters are those of the C locale; the width of long is a parameter.
- Blocking: a command is a state machine in AtProtocol, because a method cannot wait on a condition variable in the middle of its body.
- Two threads that issue commands at once: the COMMAND_PENDING exit of one drops the response of the other.
- at_handshake(): its retries add up error codes, so a failed first round never becomes a success.
- A write or read error of a command socket, and an AT timeout, end the process.
- NUL bytes from the modem, and the byte counts of OMAP power management.
- The requests that only turn one AT answer into one response, cached operator and model names, and PIN entry.
- Liveness: that pppd, the modem or a thread ever goes on; that it can is in AtPlayThrough, LoopRounds and RadioPlayThrough.
- Parcels, record streams, sockets, fork and exec, terminal settings, properties, logging and memory accounting.
- tgmd/tgmd.c.
