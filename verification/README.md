# Dozzle: log pipeline, log cache and alerts, modelled in Dafny

Dozzle shows the logs of running containers, keeps them on disk for a few days, and raises
alerts. This project models the parts whose correctness is not visible in any one function, and
proves what they promise over every input, every history and every interleaving:

- **Log stream.** `LogReader.dfy` demultiplexes Docker's framed stream (the "Stream format" section
  of the ContainerAttach endpoint of the Docker Engine API); `LogFmt.dfy` is the logfmt parser and
  `LogFmtGrammar.dfy` the lines it accepts;
  `EventGenerator.dfy` regroups lines into multi-line groups by one-event lookahead with a timeout.
- **Log cache.** `ReverseReading.dfy` reads files backwards in chunks; `ChunkIndex.dfy` is the
  index with its failing and overlapping flushes; `DayFiles.dfy`, `ChunkSearch.dfy` and
  `SharedFiles.dfy` hold what files contain and what a search of them finds; `LogStorage.dfy` is the
  store itself.
- **Concurrent protocols.** `VolumeMonitor.dfy` and `LogListener.dfy` are step relations: every
  operation on a shared map or channel is one step, and any number of goroutines interleave.
- **Alerts.** `Cooldown.dfy`, `UniqueWindow.dfy`, `Burst.dfy`, `SampleWindow.dfy` (ring buffer and
  metric sampling), `QuietHours.dfy`, `QuietSummary.dfy`.
- **Container references.** `Resolver.dfy` holds the strict and the permissive resolver.
- **Shared.** `Basics.dfy`, `Text.dfy` and `KeyText.dfy` (numbers and colons in stored keys).

Each state-changing class is proved against a specification function or a ghost history, and the
promises are lemmas about that specification. Clocks are integers handed in by the caller. A
timeout of `peek` is modelled by a set of positions: each event is waited for by at most one
`peek`, so a set describes every pattern of timeouts. SQLite is a map changed by committed
transactions. Strings are ASCII or bytes.

`dafny verify dfyconfig.toml` checks everything.

## Where the code does less than one would expect

Each of these has a lemma that says exactly when it happens and one with an input for which it does;
the model follows the code.

- Searching before an instant that is not a whole millisecond loses events of a chunk that starts
  in that millisecond (`ChunkSearch.IndexedEqualsNaive`, `ChunkSearch.RoundingLossExample`).
- Files are named by the first 12 characters of a container id, so two containers can share one and a
  search then finds events of both (`SharedFiles.FilesAreChunksIff`, `SharedFiles.SharedFileExample`).
- A frame that does not end a line, an empty one included, makes the reader take the next frame for a
  continuation and cut it at its first space; behind an empty frame, lines without a space vanish whole
  (`StreamFormat.FramesAreLinesIff`, `StreamFormat.EmptyFrameExample`).
- The logfmt parser takes a second space for a part of the next key, and loses a character right
  behind a closing quote (`LogFmtGrammar.ParsedIff`, `LogFmtGrammar.DoubleSpaceExample`,
  `LogFmtGrammar.BehindQuoteExample`).
- If index flushes overlap, a chunk can end up under an identity older than that of its last write
  (`ChunkIndex.RowHasLastIdentity`, `ChunkIndex.OverlapKeepsOlderIdentity`).
- With more than one observer, a suppressed volume refresh can be lost
  (`VolumeMonitor.PendingIsLostIff`, `VolumeMonitor.TwoObserversCanLose`).
- A container that is started again between the two halves of a stop ends up without its client on
  record (`LogListener.ClientsKnownIff`, `LogListener.OverlapCanLoseClient`).
- Cooldowns are stored in whole seconds, so a restart shortens them by up to a second, and ends them if
  storing failed (`CooldownRuns.RestartShortensIff`, `CooldownRuns.RestartShortensExample`); so are the windows of
  unique keys when kept in SQLite (`UniqueWindows.RoundingReopensIff`,
  `UniqueWindows.RoundingReopensExample`).
- A per-alert quiet-hours override that is enabled but incomplete is ignored when deciding whether
  it is quiet and used when choosing the summary period (`QuietDelivery.AggregatesInPeriodIff`,
  `QuietDelivery.IncompleteOverrideExample`).
- Log, metric and event alerts are stamped after they were found quiet; if the quiet period ends in
  between, they are summarised under a period that did not hold them
  (`QuietDelivery.HitInPeriodIff`, `QuietDelivery.LateStampExample`).
- With equal start and end of quiet hours, an alert at exactly that instant is due at once
  (`QuietDelivery.EnqueuedDueAfterQuiet`, `QuietDelivery.EqualEndsExample`).
- Quiet summaries of two containers share a key if "host:container" reads the same
  (`QuietSummaries.SameSummaryIff`, `QuietSummaries.SharedSummaryExample`).
- The comment on the resolver says that an id match is always unique; id prefixes are not
  (`Resolver.StrictIff`, `Resolver.IdPrefixExample`).

## Model

| member | source | states |
|---|---|---|
| `Grouping.RegroupConserves` | internal/container/event_generator.go:182-245 | for every input and every pattern of timeouts, the emitted events flatten to exactly the input lines, in order |
| `Grouping.SegmentsShape` | internal/container/event_generator.go:182-270 | segments tile the input; each is one line or a group of at least two, the first with a level, none complex, none with another level, timestamps less than 50 ms apart; each ends at the end, at a timeout, or where one of these fails |
| `Grouping.EmittedAt` | internal/container/event_generator.go:63-88 | the i-th emitted event is the i-th segment: one line as it is, several as a group of their texts with time, id, level and stream of the first |
| `Grouping.TimeoutsOnlySplit` | internal/container/event_generator.go:293-304 | with more timeouts, every segment lies inside one segment of the run with fewer: timeouts split groups and never merge or move lines |
| `Orphans.DropsExactlyOrphans` | internal/container/event_generator.go:108-180 | exactly d leading lines are dropped if and only if they are fewer than 1000 lines without a level, less than 50 ms apart, not within 5 s of container start, and a line that is none of them follows in time and without a gap |
| `Orphans.ShowsExactlyRuns` | internal/container/event_generator.go:108-180 | exactly d leading lines are shown one by one if and only if they are such a run and stop at 1000, at the end, at a timeout or before a gap; everything else is grouped |
| `Orphans.ProcessedConserves` | internal/container/event_generator.go:117-245 | the whole output flattens to the input less the dropped orphans at the front |
| `EventGeneration.EventGenerator.NextEvent` | internal/container/event_generator.go:247-259 | returns the peeked event if there is one, else the next of the buffer, and advances by one |
| `EventGeneration.EventGenerator.Peek` | internal/container/event_generator.go:293-304 | looks one event ahead without consuming it; nothing if the buffer is closed or the wait times out |
| `EventGeneration.EventGenerator.FlushGroup` | internal/container/event_generator.go:63-88 | emits nothing, a single, or a group of the lines' texts with time, id, level and stream of the first |
| `EventGeneration.EventGenerator.EmitAsSingles` | internal/container/event_generator.go:90-99 | emits every buffered line once, in order, as a single |
| `EventGeneration.EventGenerator.SkipOrphanedLines` | internal/container/event_generator.go:117-180 | shows or drops exactly the lines that the specification of orphan skipping says and returns the next event |
| `EventGeneration.EventGenerator.Step` | internal/container/event_generator.go:190-244 | each turn of the loop keeps the outcome; when a group is open, the peeked event is simple and already carries the group's level |
| `EventGeneration.EventGenerator.ProcessBuffer` | internal/container/event_generator.go:182-245 | the loop with lookahead and level overwriting emits exactly what the whole-input specification calls for |
| `Bytes.SplitJoin` | internal/log_storage/store.go:853-897 | the lines of a file, joined by newlines, are the file, and no line holds a newline |
| `ReverseReading.EarlyStopIsPrefix` | internal/log_storage/store.go:853-917 | stopping early yields a prefix of the full scan and is reported exactly when the limit is met |
| `ReverseReading.VisitParts` | internal/log_storage/store.go:873-889 | the complete lines of one chunk are visited last first |
| `ReverseReading.ReadFileReverse` | internal/log_storage/store.go:853-897 | for every content and every positive chunk size, the newline-split lines are visited once each, last first, until enough was found |
| `ChunkIndex.WriteConserves` | internal/log_storage/store.go:276-324 | a write keeps row, flushes under way and pending delta together equal to the accepted writes of every chunk |
| `ChunkIndex.FlushConserves` | internal/log_storage/store.go:347-405 | taking, restoring and committing deltas change no chunk's total |
| `ChunkIndex.RunConserves` | internal/log_storage/store.go:276-405 | in every interleaving of writes and of flushes that fail or commit in any order, each chunk's line count, first and last timestamp are conserved |
| `ChunkIndex.FlushedIndexIsExact` | internal/log_storage/store.go:347-405 | once everything is flushed, rows exist exactly for written chunks and hold the number of writes, their least and greatest timestamp, and the path |
| `ChunkIndex.RowHasLastIdentity` | internal/log_storage/store.go:347-405 | if flushes do not overlap, each row is then filed under the identity of the last write to its chunk, whatever failed in between |
| `ChunkIndex.OverlapKeepsOlderIdentity` | internal/log_storage/store.go:347-405 | a run of two overlapping flushes after which a row has the older identity |
| `DayFiles.DecodesIff` | internal/log_storage/store.go:899-917 | a line yields an event exactly if what is between its blanks decodes to it, the filter accepts it and it lies in the window |
| `DayFiles.FoundInFile` | internal/log_storage/store.go:899-917 | a backwards scan of a file finds exactly the wanted events, last written first |
| `DayFiles.LastEventKeyIsLast` | internal/log_storage/store.go:326-345 | the key read back from a file is that of the last event written to it |
| `ChunkSearch.IndexedEqualsNaive` | internal/log_storage/store.go:730-781 | pruning by day and first timestamp equals scanning every day of the window, in the same order, if and only if no wanted event is lost to rounding `before`; always for a whole millisecond |
| `ChunkSearch.RoundingLossExample` | internal/log_storage/store.go:742-760 | an event at 1000 ms is not found when searching before 1000.5 ms |
| `ChunkSearch.NaiveFindsAll` | internal/log_storage/store.go:730-781 | the naive scan holds every stored event of the container in the window that matches, as often as stored, and nothing else |
| `ChunkSearch.NaiveFindsEach` | internal/log_storage/store.go:730-781 | the naive scan finds every event as often as it was written for the container if the filter accepts it and it lies in the window, and never otherwise |
| `ChunkSearch.NaiveIsNewestFirst` | internal/log_storage/store.go:730-781 | with day files appended in time order, the result is newest first |
| `SharedFiles.OwnsFilesIff` | internal/log_storage/store.go:261-274 | a container's files hold its events alone exactly when no other container wrote to the same names |
| `SharedFiles.FilesAreChunksIff` | internal/log_storage/store.go:261-274 | the files searched yield the events of the container searched if and only if none of them holds a wanted event of another |
| `SharedFiles.SharedFileExample` | internal/log_storage/store.go:261-274 | two ids that differ in their 13th character, one event of each, exact rows and the right answer of SQLite: searching one id finds both events |
| `SharedFiles.SearchIsRight` | internal/log_storage/store.go:730-781 | with an exact index and a right answer of SQLite, the events found are those of the naive scan exactly if none is lost to rounding and no stranger is found; before a whole millisecond and without strangers every event is found as often as it was written for the container if the filter accepts it and it lies in the window, and never otherwise, newest first if the files are in time order |
| `LogStorage.LogStore.Write` | internal/log_storage/store.go:276-324 | a line is stored and indexed unless it has no container, cannot be written, or agrees with the last event of its file in time, id and text; file and writer's buffer together hold exactly the stored events, however much the buffer has passed on |
| `LogStorage.LogStore.Flush` | internal/log_storage/store.go:450-456 | all buffers are passed on, so that the files alone hold the stored events |
| `LogStorage.LogStore.CloseAll` | internal/log_storage/store.go:458-469 | flushing and closing all handles loses nothing that was stored and leaves the index alone |
| `LogStorage.LogStore.TakePending` | internal/log_storage/store.go:347-355 | a flush takes the pending deltas away as one step |
| `LogStorage.LogStore.FinishFlush` | internal/log_storage/store.go:357-405 | a flush commits as a whole or its deltas go back among the pending ones, wherever it fails |
| `LogStorage.LogStore.SyncForRead` | internal/log_storage/store.go:407-414 | buffers are flushed and, if the index flush succeeds, no delta is pending any more |
| `LogStorage.LogStore.SearchBefore` | internal/log_storage/store.go:730-781 | flushes first; returns the first `limit` (200 if none is given) wanted events of the selected files, last written first, and reports more iff there are more; all of them are accepted by the filter and lie in the four days before `before`, or before now; if the flush went through and no other is under way, `SharedFiles.SearchIsRight` applies |
| `LogStorage.LogStore.SearchChunk` | internal/log_storage/store.go:770-779 | one file contributes its matches, last written first, cut off at the limit |
| `VolumeMonitor.StepKeepsInv` | internal/container/volume_monitor.go:87-109 | every step keeps: an id is pending iff exactly one token for it exists |
| `VolumeMonitor.OneTokenPerPendingId` | internal/container/volume_monitor.go:87-109 | in every reachable state: one token per pending id, no duplicates in the queue, at most 64 entries |
| `VolumeMonitor.SuppressedIsServed` | internal/container/volume_monitor.go:87-109 | with one observer, an enqueue is suppressed only while a refresh that has not started is on its way, and it stays on its way until it starts |
| `VolumeMonitor.QueuedIdIsReached` | internal/container/volume_monitor.go:99-109 | an id at position p of the queue is with a worker after p + 1 receives |
| `VolumeMonitor.PendingIsLostIff` | internal/container/volume_monitor.go:87-109 | in any state that keeps the invariant, a pending id can still be lost without a refresh if and only if an enqueuer holds it and no worker is about to refresh it |
| `VolumeMonitor.TwoObserversCanLose` | internal/container/volume_monitor.go:87-97 | a run from the start in which a suppressed enqueue is never served |
| `LogListener.StepKeepsInv` | internal/notification/log_listener.go:128-190 | every step keeps: a live stream is its container's entry or held by a stop, and an entry is neither cancelled nor cleaned up |
| `LogListener.NoStreamLeaks` | internal/notification/log_listener.go:128-190 | in every interleaving no live stream is forgotten, and with no stop half done a container has at most one |
| `LogListener.CleanupSparesNewerStreams` | internal/notification/log_listener.go:151-162 | each step of cleaning up an ended stream removes at most its own entry and its container's client, and stops no live stream |
| `LogListener.SerialRunsKnowClients` | internal/notification/log_listener.go:128-190 | if no start overlaps a stop of the same container, every container listened to has its client on record throughout the run |
| `LogListener.OnlyStopsForget` | internal/notification/log_listener.go:128-190 | a step loses a client that is needed exactly when it is a stop deleting the client of a container that is being listened to again |
| `LogListener.ClientsKnownIff` | internal/notification/log_listener.go:128-190 | over every run, clients stay known throughout if and only if no stop deletes a client after the container was started again |
| `LogListener.OverlapCanLoseClient` | internal/notification/log_listener.go:184-190 | a run in which that happens |
| `StreamFormat.FramesRoundTrip` | internal/docker/log_reader.go:69-110 | the bytes of any frames under 2^32 bytes are read back as those frames, then end of stream |
| `StreamFormat.FirstFrameIs` | internal/docker/log_reader.go:69-110 | nothing without a whole header, an empty frame for length 0, else exactly the payload of the big-endian length if all of it is there, under stderr for type 2; the errors otherwise |
| `StreamFormat.StreamRoundTrip` | internal/docker/log_reader.go:42-110 | lines cut into frames in any way, continuation frames behind "timestamp space", are read back exactly, under stderr if the first frame has type 2 and under stdout otherwise |
| `StreamFormat.TtyRoundTrip` | internal/docker/log_reader.go:69-84 | with a TTY every newline-terminated line comes back as it is; an unfinished last line is not returned |
| `StreamFormat.ContinuationNeedsSpace` | internal/docker/log_reader.go:53-63 | a continuation frame keeps its whole text only if that is empty, and loses all of it if it has no space |
| `StreamFormat.EmptyFrameSwallowsPrefix` | internal/docker/log_reader.go:42-66 | a line after an empty frame loses everything up to its first space; without a space it is lost whole and the next line is treated the same |
| `StreamFormat.FramesAreLinesIff` | internal/docker/log_reader.go:42-66 | every frame is returned as a line of its own if and only if every frame ends with a newline |
| `StreamFormat.EmptyFrameExample` | internal/docker/log_reader.go:42-66 | three frames of which a whole line and the first word of another are lost |
| `LogReading.LogReader.ReadEvent` | internal/docker/log_reader.go:69-110 | takes exactly the next frame, or consumes the rest of the stream and reports the error |
| `LogReading.LogReader.Read` | internal/docker/log_reader.go:42-67 | returns the next complete line, joining its frames, or the error that broke it off |
| `LogReading.LogReader.ReadToEnd` | internal/container/event_generator.go:272-291 | repeated reading returns all lines of the stream and consumes every byte |
| `LogFmt.ParseLogFmt` | internal/container/logfmt.go:10-79 | the one-pass loop over flags computes `LogFmt.Parse`, of which the rows of `LogFmtGrammar` tell what it is; all slices are in bounds on every input |
| `LogFmtGrammar.ParsedIff` | internal/container/logfmt.go:10-79 | a line is parsed if and only if it is in the grammar of fields, and then to the pairs written in it, set one after the other |
| `LogFmtGrammar.RefusedLines` | internal/container/logfmt.go:22-76 | behind any number of fields: no key, a rest without "=", a word and a space, an open quote, and "=" behind a closing quote are refused, each with its error |
| `LogFmtGrammar.AccessLogExample` | internal/container/logfmt.go:26-29 | "GET a=b" is refused |
| `LogFmtGrammar.DoubleSpaceExample` | internal/container/logfmt.go:22-32 | "a=1  b=2" has the key " b" |
| `LogFmtGrammar.BehindQuoteExample` | internal/container/logfmt.go:36-43 | a character right behind a closing quote is lost |
| `LogFmtGrammar.SetReplaces` | internal/container/logfmt.go:10-79 | a key that is there keeps its place and gets the new value |
| `LogFmt.SetTwice` | internal/container/logfmt.go:60-76 | storing the last value twice, as the code does, changes nothing |
| `LogFmt.PrintParse` | internal/container/logfmt.go:10-79 | printed fields parse back, later values of a key replacing earlier ones in place |
| `LogFmt.RoundTrip` | internal/container/logfmt.go:10-79 | with distinct keys, printing and parsing returns exactly the same ordered pairs |
| `CooldownKeys.KeyRoundTrip` | internal/notification/manager.go:966-985 | a stored key parses back to subscription, container and kind even if the container id contains colons |
| `CooldownKeys.KeyReads` | internal/notification/processing.go:187-190 | keys read "<subscription>:<container>:log", ":metric" and ":event" |
| `CooldownRuns.StepKeepsInv` | internal/notification/processing.go:173-194 | alerts, whether or not storing them succeeds, restarts and clean-ups keep: the last alert of each target, if stored, is remembered exactly, or by its stored second, or that second has passed; what is in memory is always the last alert, what the row says, or over |
| `CooldownRuns.AlertsKeepApart` | internal/notification/processing.go:173-194 | in any run of hits, restarts and clean-ups, an alert comes more than the clamped cooldown less one second after a stored alert of the same kind and container; the full cooldown after it if that was sent no later than the whole second its expiry was cut to |
| `CooldownRuns.AlertsKeepApartInOneProcess` | internal/notification/types.go:601-688 | without a restart they are the full clamped cooldown apart |
| `CooldownRuns.SentInOneProcessIff` | internal/notification/types.go:601-688 | without a restart a hit is sent exactly if there was no alert of its kind and container or the last one was at least the cooldown, at most 48 hours, ago |
| `CooldownRuns.NoCooldownSendsAll` | internal/notification/types.go:601-688 | without a positive cooldown every hit of every run is sent |
| `CooldownRuns.RestoredActiveIff` | internal/notification/manager.go:954-1013 | a restored cooldown is active exactly until its stored second |
| `CooldownRuns.SentAfterRestartIff` | internal/notification/queue/queue.go:573-602 | in any state, after a restart the next hit is sent exactly from the stored second on, or at once if nothing is stored |
| `CooldownRuns.RestartShortensIff` | internal/notification/queue/queue.go:573-602 | wherever a run has come to, some further run sends the next alert early if and only if the cooldown of the last one is not over and no stored row reaches to its end; for a stored alert, if its expiry was cut to a second before it was sent |
| `CooldownRuns.RestartShortensExample` | internal/notification/queue/queue.go:573-602 | with a cooldown of 60 s, an alert at 0.9 s and a restart, the next alert goes out at 60 s; at once if the first was not stored |
| `CooldownRuns.RunWritesRows` | internal/notification/processing.go:173-194 | in every run all stored keys are keys of alerts, as an exact restore needs |
| `CooldownGate.Gate.IsActive` | internal/notification/types.go:564-688 | the three cooldown checks, on the three maps, say what the run model says |
| `CooldownGate.Gate.Process` | internal/notification/processing.go:173-194 | checking, recording and storing a hit, which may fail, is one step of the run model |
| `CooldownGate.Gate.Restore` | internal/notification/manager.go:954-1013 | whatever the rows and their order, a target is restored exactly if a row holds an unexpired cooldown of it, with the time of such a row; from rows stored by alerts, exactly as after the restart of a run |
| `UniqueWindows.AdvanceFollowsWindows` | internal/notification/modifiers.go:87-106 | one evaluation allows exactly the threshold-th hit of the window and leaves exactly the state the hits call for |
| `UniqueWindows.InWindowIff` | internal/notification/modifiers.go:87-106 | a hit belongs to an earlier window exactly when it is not after the window's end |
| `UniqueWindows.WindowsApart` | internal/notification/modifiers.go:87-106 | window starts are more than the window apart in memory, and more than the window less a second in SQLite |
| `UniqueWindows.DeliversOncePerWindow` | internal/notification/modifiers.go:87-106 | two deliveries are in different windows, the later one opened after the earlier delivery |
| `UniqueWindows.WindowDeliversIff` | internal/notification/modifiers.go:87-106 | a window delivers if and only if its threshold-th hit comes in time |
| `UniqueWindows.RoundingReopensIff` | internal/notification/queue/queue.go:422-466 | after any history, a hit within the window can open a new one if and only if the kept start lies before the hit that opened the window and there is still time for such a hit |
| `UniqueWindows.MemoryNeverReopens` | internal/notification/modifiers.go:75-106 | kept in memory, a window is never cut short |
| `UniqueWindows.RoundingReopensExample` | internal/notification/queue/queue.go:422-466 | a window of 60 s opened at 0.9 s is over at 60.5 s |
| `UniqueTracking.UniqueTracker.Evaluate` | internal/notification/modifiers.go:44-85 | whatever other keys are hit in between, a hit is let through exactly when it is the threshold-th of its key's window, the first if the threshold is less than 2 |
| `Bursts.PruneTwice` | internal/notification/types.go:726-734 | pruning incrementally equals pruning the full history |
| `Bursts.EnoughIff` | internal/notification/types.go:736-739 | at least n triggers are within the window exactly when the n-th most recent one is |
| `Bursts.BurstTracker.Prune` | internal/notification/types.go:726-732 | compaction in place leaves exactly the later triggers, in order |
| `Bursts.BurstTracker.Record` | internal/notification/types.go:718-734 | the tracker holds exactly the triggers of the whole history later than now less the window, the current one last |
| `Bursts.BurstTracker.DetectBurst` | internal/notification/types.go:713-740 | the count is the number of triggers less than the window's seconds ago; escalates exactly when a burst priority is set and it reaches the threshold, that is when the threshold-th most recent trigger is within the window |
| `RingBuffers.RingBuffer.Push` | internal/utils/ring_buffer.go:37-46 | the buffer goes on to hold the last `size` pushes in order, across wrap-around |
| `RingBuffers.RingBuffer.Clear` | internal/utils/ring_buffer.go:54-59 | the history starts afresh |
| `RingBuffers.RingBuffer.Data` | internal/utils/ring_buffer.go:61-69 | returns the last `size` pushes since the last clear, oldest first |
| `RingBuffers.RingBuffer.From` | internal/utils/ring_buffer.go:23-35 | a buffer made from data behaves as if the data had been pushed |
| `MetricSampling.WindowSlides` | internal/notification/types.go:647-675 | with a full window one more sample moves the count by what enters less what leaves |
| `MetricSampling.OnlyTrueStarts` | internal/notification/types.go:647-675 | once the window is full, a false sample never turns the alert condition on |
| `MetricSampling.MetricSampler.SetWindow` | internal/notification/manager.go:591-595 | changing the window, 15 samples if nothing is configured and at most 300, starts all buffers afresh, so buffers always have the current size |
| `MetricSampling.MetricSampler.RecordMetricSample` | internal/notification/types.go:647-675 | the alert condition holds iff at least W samples were recorded for the container and 5 times the true ones among the last W is at least 4 W; other containers are unaffected |
| `QuietHours.QuietIffRecent` | internal/notification/manager.go:132-175 | same-day, overnight or equal ends: an instant is quiet exactly when the window last started less than its length ago |
| `QuietHours.QuietIffNotEnded` | internal/notification/manager.go:132-175 | an instant is quiet exactly when a start instant lies at or before it with no end instant since |
| `QuietHours.PeriodIsNext` | internal/notification/quiet_summary.go:72-90 | the period ends at the first end instant after now and starts at the last start instant before that |
| `QuietHours.QuietIffInPeriod` | internal/notification/quiet_summary.go:72-90 | an instant is quiet exactly when it lies in its own summary period |
| `QuietHours.SharePeriodIff` | internal/notification/quiet_summary.go:72-90 | two instants share a period iff no end instant lies in (t1, t2] |
| `QuietHours.NextEndIsPeriodEnd` | internal/notification/manager.go:204-217 | the delivery time is the period end except at an end instant itself |
| `QuietHours.DueAtPeriodEndIff` | internal/notification/manager.go:178-217 | with separate clock reads, the delivery time is no earlier than the period end unless both reads hit the same end instant |
| `QuietDelivery.QuietNowIff` | internal/notification/manager.go:132-175 | it is quiet exactly if there is no bypass and the window in force, the subscription's own if enabled and complete, else everyone's, has started at some instant and not ended since |
| `QuietDelivery.ActionIs` | internal/notification/processing.go:749-837 | for every call: what is quiet is kept if there is a queue, and nothing else is kept for the end of quiet hours; when it is aggregated, and under which period; else it is due at the first end of the window in force, 2 s later for each pending one; otherwise it is held exactly if there is a hold window and a queue |
| `QuietDelivery.AggregatedIff` | internal/notification/processing.go:160-163 | a hit is aggregated exactly if there is a queue, it is quiet and the queue says so, and under which period |
| `QuietDelivery.EnqueuedDueAfterQuiet` | internal/notification/processing.go:776-812 | what is enqueued is due no earlier than the end of its quiet period, always if start and end differ; the exact condition otherwise |
| `QuietDelivery.SummarisedInItsPeriod` | internal/notification/quiet_summary.go:72-90 | with the override off or complete, what is quiet lies in its summary period, whose end is the delivery time if start and end differ |
| `QuietDelivery.CoversIff` | internal/notification/manager.go:132-175 | one window covers another, by start lag and length, exactly when every quiet instant of the other is quiet in it |
| `QuietDelivery.SummarisedInItsPeriodIff` | internal/notification/quiet_summary.go:72-90 | everything quiet lies in its summary period if and only if the summarising window covers the deciding one |
| `QuietDelivery.StampedPeriodIff` | internal/notification/quiet_summary.go:72-90 | the period of a stamp holds another instant, before or after it, if and only if no period ends between the two and the window is quiet at that instant |
| `QuietDelivery.AggregatedInPeriodIff` | internal/notification/processing.go:776-785 | the period that `sendOrQueue` aggregates an alert under holds the instant it was found quiet if and only if no period ended since its timestamp and the summarising window is quiet |
| `QuietDelivery.HitInPeriodIff` | internal/notification/processing.go:160-163 | the same of a log, metric or event hit, which is stamped after it was found quiet |
| `QuietDelivery.AggregatesInPeriodIff` | internal/notification/processing.go:160-163 | over all calls of `sendOrQueue` and over all hits in which no period ends between check and stamp, alerts are aggregated under a period that holds them if and only if the summarising window covers the deciding one |
| `QuietDelivery.LateStampExample` | internal/notification/processing.go:160-163 | a hit checked just before 06:00 and stamped at 06:00 goes under the period that starts at 22:00 |
| `QuietDelivery.EqualEndsExample` | internal/notification/processing.go:789-811 | quiet hours from 08:00 to 08:00: an alert at 08:00 is due at 08:00, a day before its period ends |
| `QuietDelivery.IncompleteOverrideExample` | internal/notification/quiet_summary.go:73-76 | an override without an end puts an alert into a period that has not started |
| `QuietSummaries.AddToGroups` | internal/notification/quiet_summary.go:118-134 | the groups go on to describe all hits: one group per fingerprint, in order of first hits, with count, first and last hit |
| `QuietSummaries.GroupsAddUp` | internal/notification/quiet_summary.go:112-142 | fingerprints are distinct; each group has the number of hits with its fingerprint, and time and example of the first and the last; the counts sum to the number of hits |
| `QuietSummaries.SameSummaryIff` | internal/notification/quiet_summary.go:100-102 | two hits share a summary iff subscription, period and "host:container" agree; for ids without colons, iff host and container agree |
| `QuietSummaries.SharedSummaryExample` | internal/notification/quiet_summary.go:100-102 | container "c" on host "a:b" and container "b:c" on host "a" share a summary |
| `QuietSummaries.SummaryBook.Aggregate` | internal/notification/quiet_summary.go:92-142 | over any run, each stored summary describes exactly the hits with its key and its total is their number |
| `QuietRendering.SortSorts` | internal/notification/quiet_summary.go:191-196 | more hits first, then first seen first; a permutation |
| `QuietRendering.SortedByCount` | internal/notification/quiet_summary.go:191-196 | of two sorted groups the first has more hits, or as many and was not seen later |
| `QuietRendering.SortIsStable` | internal/notification/quiet_summary.go:191-196 | groups that tie keep their order |
| `QuietRendering.TiesIff` | internal/notification/quiet_summary.go:191-196 | groups tie exactly if they have as many hits and were first seen at the same time |
| `QuietRendering.RenderGroups` | internal/notification/quiet_summary.go:207-227 | shows as many groups as the limit and 12000 bytes allow and no fewer, and counts their hits |
| `QuietRendering.RenderQuietSummary` | internal/notification/quiet_summary.go:188-240 | the text is header, shown groups and, if any are left out, the "Other" line with the remaining groups and hits |
| `QuietRendering.RenderedIs` | internal/notification/quiet_summary.go:207-230 | the text is the body, followed by the "Other" line exactly if a group is not shown |
| `QuietRendering.HeaderExample` | internal/notification/quiet_summary.go:208-209 | the header as it reads |
| `QuietRendering.SectionExample` | internal/notification/quiet_summary.go:216-220 | a section as it reads |
| `QuietRendering.OtherExample` | internal/notification/quiet_summary.go:229 | the "Other" line as it reads |
| `QuietRendering.BodyFits` | internal/notification/quiet_summary.go:207-227 | the text before the "Other" line is at most 12000 bytes |
| `QuietRendering.RenderedAccountsForAll` | internal/notification/quiet_summary.go:210-230 | shown plus other hits equal all hits aggregated, the other hits are exactly those whose fingerprint is not shown, and no group left out has more hits than a shown one |
| `Basics.TrimIsInner` | internal/cloud/tools_resolve.go:140-151 | trimming keeps exactly what lies between the first and the last character that is not blank |
| `Text.EqualFoldIff` | internal/cloud/tools_resolve.go:173-178 | two texts are equal regardless of case exactly if they agree letter by letter up to capitals |
| `Text.ContainsIff` | internal/cloud/tools_resolve.go:177-178 | a name contains a part regardless of case exactly if the part stands somewhere in it up to capitals |
| `Resolver.CandidateIff` | internal/cloud/tools_resolve.go:166-187 | a container is a candidate exactly when it matches and no container in scope matches in a better tier |
| `Resolver.CandidatesAreMeant` | internal/cloud/tools_resolve.go:166-207 | in the fields: containers with this id, in full or by 12 characters or more, else those with this name, else those whose name has it, without regard to case, and only on the host asked for |
| `Resolver.ResolveHostRef` | internal/cloud/tools_resolve.go:210-233 | an id wins over any name, a name must be unique |
| `Resolver.HostMeantIff` | internal/cloud/tools_resolve.go:210-233 | a reference resolves exactly to a listed id, or else to the one host with that name; it is unknown exactly if no id and no name matches |
| `Resolver.MatchContainerTier` | internal/cloud/tools_resolve.go:139-188 | scoping and tiered matching by appending loops give exactly the containers meant, in listing order, or the error |
| `Resolver.RunningContainers` | internal/cloud/tools_resolve.go:266-274 | exactly the running candidates, in order |
| `Resolver.MoreRelevantIsStrictWeak` | internal/cloud/tools_resolve.go:295-307 | irreflexive, asymmetric, transitive, with transitive incomparability |
| `Resolver.BestCandidate` | internal/cloud/tools_resolve.go:282-290 | a member such that no other runs while it does not, or, as far as that is equal, has a later start, then a later end, then a later creation; the first of its equals |
| `Resolver.BestIsUnique` | internal/cloud/tools_resolve.go:282-290 | there is exactly one such candidate |
| `Resolver.BestRuns` | internal/cloud/tools_resolve.go:282-307 | a running candidate is never passed over for a stopped one |
| `Resolver.ResolveContainerRef` | internal/cloud/tools_resolve.go:46-80 | the strict resolver's answer and errors |
| `Resolver.StrictIff` | internal/cloud/tools_resolve.go:46-80 | among candidates the strict resolver succeeds exactly when one is the only one or the only running one, and answers with that one |
| `Resolver.StrictOtherwise` | internal/cloud/tools_resolve.go:46-63 | the errors for a blank reference and for a host; without a match the reference is passed on to the host asked for, and is an error without one |
| `Resolver.ResolveContainerRefRead` | internal/cloud/tools_resolve.go:105-132 | same answer without a note wherever the strict one answers; a note exactly when that calls the reference ambiguous, and then host and id of a candidate such that no other runs while it does not or, as far as that is equal, started, ended or was created later; otherwise the same error |
| `Resolver.ScopeIsRespected` | internal/cloud/tools_resolve.go:46-188 | the answer is a matching container on the host asked for, or the reference is passed on to that host |
| `Resolver.IdMatchesCanBeAmbiguous` | internal/cloud/tools_resolve.go:166-207 | two running containers with different ids that both match a reference make the strict resolver refuse |
| `Resolver.IdPrefixExample` | internal/cloud/tools_resolve.go:166-207 | two such ids and a prefix of 12 characters |

## Left out

- LogStorage.LogStore.SearchBefore: a single container id; search by log identity across containers is not modelled, nor are files that cannot be read and writes or flushes that interleave with the search.
- LogStorage.LogStore.SyncForRead: stated for a call that no write interrupts; a write between the two flushes would be indexed with its bytes still buffered.
- LogStorage.LogStore.Write: a writer that fails to pass on its bytes, or passes on part of an event that cannot be encoded, is not modelled.
- EventGeneration.EventGenerator.ProcessBuffer: cancellation of the context is not modelled, and events are values, so the shared pointers that carry the overwritten level are not.
- CooldownRuns.AlertsKeepApart: one subscription whose settings do not change; the full cooldown across restarts is false, see `CooldownRuns.RestartShortensIff`.
- QuietSummaries.SummaryBook.Aggregate: fingerprint and shortened example are taken as given, and the JSON of the groups as lossless; the other notification fields are field copies.
- UniqueTracking.UniqueTracker.Evaluate: the fallback to memory when SQLite fails and the removal of old rows are not modelled.
- RingBuffers.RingBuffer.Data: the contents are returned as a value; that the source hands out its own slice until the buffer has wrapped is not modelled.
- RingBuffers.RingBuffer.From: the initial contents are a value; that the source goes on using the caller's slice is not modelled.
- Bursts.BurstTracker.DetectBurst: one container's tracker; containers are independent entries of a map.
- Resolver.ResolveContainerRefRead: the note is the chosen container with its candidates, not its wording.
- Daylight saving: quiet hours are in a zone of fixed offset; HH:MM values are valid or missing.
- The exact counters of `observe` and the refresh itself, which decide only when an enqueue happens.
- Deletion of old files and rows, I/O errors in the middle of a file, `logsBetweenDates` and `readFile`, which scan forwards.
- Level guessing, ANSI stripping, regular expressions, expression evaluation, Unicode case folding and white space.
- Restart-loop timers, watchdogs, send retries, the delivery loop of the notification queue, hold windows beyond their place in `sendOrQueue`.
- HTTP, gRPC, Docker and Kubernetes clients, and the web interface.
