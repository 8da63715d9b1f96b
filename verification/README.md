# Spindrift, modelled in Dafny

Spindrift runs agents against a repository's issues. A long-lived Daemon starts
children and writes an Events file; a Dashboard follows that file and the
children's logs; a launcher picks, recovers and accounts for the work. This
project models the parts of it where an ordering, a cut or an early exit can go
wrong, and proves what they keep.

Each Dafny module stands for one component. Code that changes state is a class or
a method with loops, proved against a specification over values; the system
around it (kernel, tracker, other processes) is a class whose methods let the
environment act, nondeterministically, before they take effect, so a proof about
a method covers every interleaving at that grain.

| module | stands for |
|---|---|
| `Lines`, `Utf8`, `Options` | byte strings, their lines and their characters (sections 3 and 4 of RFC 3629) |
| `EventsDirectory`, `EventsTail`, `TailDelivery`, `TailRuns` | the reader that follows the Events file across rotation, one call and whole runs |
| `Dispatches`, `DispatchViews`, `DispatchFollows`, `FollowTheorems`, `LiveFollow`, `LiveDispatches` | a Dispatch's identity, its page, following it live, and reloading it |
| `History`, `LogStates` | the history page, and what the Events file says of a log path |
| `LogFraming`, `EventStream` | streaming a log as frames of Server-Sent Events (section 9.2.6 of the WHATWG HTML standard) |
| `ReportReader`, `SignalLatch`, `TipFlight`, `HostRunners` | the Daemon's host runner: report pipe, stop signals, single-flight tip resolution |
| `ProcessKernel`, `Handoffs`, `Rollbacks`, `Supervise` | replacing the Daemon in place by exec, taking over, and rolling back |
| `Eviction`, `QueueRecover` | choosing issues, and recovering failed ones |
| `RevisionAttribution`, `PassMachine`, `ReviewRoundCaps` | attributing revisions to records, and the arithmetic of the caps |

`dafny verify dfyconfig.toml` checks everything.

## Where the code and its documentation part

The model follows the code. Each of these is a lemma below.

- *One rotation per poll is not enough* (`dashboard/dispatch.go:130`): polls that
  land in the gap between the Daemon's rename and its next create find no current
  file. Two such polls with one whole generation between them skip that generation,
  although only one was created between them
  (`TailDelivery.GapPollsSkipAGeneration`). A poll skips nothing if and only if, in
  the directory in which it opens the path, the newest file opened before is still
  under one of the two names, or there is no current file
  (`TailDelivery.PollKeepsOrderIff`). One file created
  between polls is few enough when every poll finds a current file
  (`TailRuns.OneFileAPollKeepsOrder`).
- *Every line is handed out, and once* (`dashboard/tail.go:28-31`, `71-74`,
  `147-148`): the lines handed out are those of all generations from the first one
  read, in order and each once, if and only if open's scan of the older file missed
  none of its lines and no poll passed over a file with a line
  (`TailRuns.RunLosesNothingIff`, whether or not calls fail). A failing read of the
  older file loses what it did not reach, for no poll comes back to it
  (`TailRuns.FailedScanLosesLines`). And where the file renamed between the two opens
  is not recognised, because a stat failed, it is read twice, every line handed out
  and every complete one again (`TailDelivery.ReadTwice`,
  `TailRuns.FailedStatReadsTwice`; `EventsTail.Tail.Open` says exactly when the two
  are one file). A failing read of the held file, in open or a poll, only delays:
  every line complete where it stopped has been handed out, and the offset is past it
  (`EventsTail.Tail.Open`, `EventsTail.Tail.Poll`).
- *rotatedAway says the file with the child_start is gone*
  (`dashboard/dispatch.go:128-131`): with no generation skipped, exactly so. Otherwise
  it is wrong in just one case: the first file taken up after that file was not the
  next one created, and it answers false (`TailDelivery.RotatedAwayExact`).
- *A reload, or a link from history, finds the Dispatch it names*
  (`dashboard/dispatch.go:88-94`): not when rotation has dropped a child_start of the
  same second just before it, for then what is left is numbered anew. A link to a
  child_start still on disk finds it if and only if no such run of equal times was
  cut; a link to one that is gone finds nothing unless a later child_start has come by
  its number (`FollowTheorems.RetainedLinkIff`, `FollowTheorems.DroppedLinkIff`).
- *StartN counts the earlier child_starts that share a time*
  (`dashboard/history.go:56`, `dashboard/dispatch.go:19`): it counts those directly
  before. The two agree for every child_start, and an identity names one
  child_start, if and only if a slot never comes back to an earlier time
  (`Dispatches.StartNCountsEarlierIff`, `Dispatches.KeysAreUniqueIff`).
- *logFrameMax caps the bytes one log frame carries* (`dashboard/log.go:16`): it caps
  a read. A frame is longer if and only if read and carried bytes together exceed it
  by more than the read's last four bytes make the cut keep back; by four at most
  (`LogFraming.FrameExceedsTheLimitIff`, `LogFraming.FrameCanExceedTheLimit`).
- *A Wait can be abandoned and resumed without changing what is parsed*: an
  over-long line cut by deadlines into parts that are each within the limit is
  parsed after all; in every other case, over any schedule, the resumed reads equal
  an uninterrupted one (`ReportReader.ResumedReadsIff`).
- *No slot is ever handed a revision older than the moment it asked*
  (`cmd/launcher/daemon/runner.go:305-308`): a call is handed an earlier fetch if and
  only if it gets the outcome of a flight whose fetch had come back before it asked,
  which was then the registered one (`TipFlight.ReturnedFetchIsFreshIff`; it does
  happen: `TipFlight.JoinerCanGetAnEarlierFetch`). The next caller does start a fresh
  flight once done is closed, and never joins the one that is done
  (`TipFlight.AskedOnceDone`, `TipFlight.EntersAfresh`).
- *Linearity is an assumption* (`cmd/launcher/orchestrator/caps.go:46`): it holds for
  every round cap (`ReviewRoundCaps.RoundsReachedIff`). The saturated answer is wrong
  for one value of the pass cap only, the largest int
  (`ReviewRoundCaps.AcceptedIffRoundsReached`).

## Model

| member | source | states |
|---|---|---|
| EventsDirectory.RunEvolves | cmd/launcher/internal/daemon/events_file.go:54-80 | Over any run of appends, renames and creates, a file only grows, one that is no longer current never changes, and the names always hold the newest files |
| Lines.AllLinesAreTheBytes | dashboard/tail.go:163-178 | A text's lines joined are the text, a last one without newline included, and each but that one ends in its only newline |
| EventsTail.ScanEvents | dashboard/tail.go:163-186 | Hands out exactly the newline-terminated lines (all lines when final) of the bytes it consumed and stops at a line boundary; on success that is all that was there when it began, and when a read fails all that was complete where that read stopped |
| EventsTail.DaemonKeepsReaderSound | dashboard/tail.go:19-27 | The delivery and numbering invariants survive anything the Daemon does between two calls of the reader |
| EventsTail.Tail.Drain | dashboard/tail.go:126-132 | Extends what was delivered by the held file's next complete lines and moves the offset past them; covers all that was complete at the call, or, when it fails, all that was complete where the one failing read stopped |
| EventsTail.Tail.OpenBoth | dashboard/tail.go:33-37 | Current first, older second: whatever rotates in between, the older result is a closed file, and nothing when both names led to one file and the stats could tell |
| EventsTail.Tail.ScanOlder | dashboard/tail.go:57-62 | Reads the older file as generation 0, to its end or to where a read failed, and closes it |
| EventsTail.Tail.HoldCurrent | dashboard/tail.go:57-67 | Reads the current file's complete lines as generation 1, to its end or to where a read failed, and keeps it open |
| EventsTail.Tail.Open | dashboard/tail.go:28-69 | Ends sound, at generation 1, leaking no descriptor, whatever fails: which files it read follows from what its calls found, each of them read to its end unless a read of it failed, and then handed out as far as that read got; the older one right before the current one, the current one itself or after it as the rotations between the two opens had it; it fails only if some call did |
| EventsTail.Tail.DropRotatedAlias | dashboard/tail.go:147-161 | Closes the older file exactly when it is the current one and both could be stat'ed |
| EventsTail.StartsInOrderIff | dashboard/tail.go:28-69 | An open leaves the reader in order iff the older file was scanned to its end, is not the current one unrecognised, and at most one full rotation fell between the opens |
| EventsTail.Tail.TakeUp | dashboard/tail.go:119-123 | Holds a newly opened file from its start and delivers its lines, as far as a failing read got if one fails |
| EventsTail.Tail.CompareHeld | dashboard/tail.go:84-106 | Tells a rotation from no change by file identity |
| EventsTail.Tail.FinishHeld | dashboard/tail.go:107-114 | A rotated-away file is read to its end, a last line without newline included; after a failing read it stays held, delivered as far as that read got |
| EventsTail.Tail.Cross | dashboard/tail.go:115-117 | Closes the finished file and counts one generation |
| EventsTail.Tail.PollRotated | dashboard/tail.go:107-123 | Crossing a rotation delivers the rest of the old file, then the new one's lines |
| EventsTail.Tail.PollHeld | dashboard/tail.go:84-123 | A poll while holding a file keeps it or crosses exactly one generation |
| EventsTail.Tail.Poll | dashboard/tail.go:71-124 | Keeps both invariants on success and on error, stays or moves to the file that was current when it opened the path, and leaks no descriptor; covers every line complete before the call when it succeeds; fails only when one of its calls did: if a read, having delivered all that was complete where it stopped, if another call, having changed nothing |
| TailDelivery.SkippingIsHarmlessIff | dashboard/tail.go:71-74 | Reading some of a range of files in order gives the lines of all of it iff those left out have none |
| TailDelivery.NothingLostIff | dashboard/tail.go:28-124 | Whatever failed, the lines handed out are those of all generations from the first read, in order, iff the older one's scan missed no line and every generation never opened is empty; an older file read out of turn adds its lines ahead of that |
| TailDelivery.ReadTwice | dashboard/tail.go:147-161 | When the older file read is the held one, its lines are handed out twice |
| TailDelivery.ExactlyOnce | dashboard/tail.go:71-74 | With no generation skipped, which RunKeepsOrderIff ties to the polls, nothing is lost and nothing repeated |
| TailDelivery.EveryByteOnce | dashboard/tail.go:71-74 | Then what was handed out is, byte for byte, the files one after another, the held one up to the offset |
| TailDelivery.PollKeepsOrderIff | dashboard/tail.go:71-124 | A poll skips no generation iff the newest file opened before it is under one of the two names in the directory it finds, or it does not move |
| TailDelivery.OneNewFileKeepsOrder | dashboard/tail.go:71-80 | It skips none when at most one file was created since that newest one, whatever the Daemon does meanwhile |
| TailRuns.PolledAttributed | dashboard/tail.go:22-25 | Every line handed out, over any poll, is tagged with the generation of the very file it was read from: 0 for the older one, its place among the current ones otherwise |
| TailRuns.SourcesHoldLines | dashboard/tail.go:163-186 | The file each line is attributed to has that line |
| TailDelivery.RotatedAwayExact | dashboard/dispatch.go:128-131 | rotatedAway agrees with the file of the child_start being under neither name, as of the last file opened, unless the first file taken up after it was not the next one created; always when none was skipped |
| TailDelivery.GapPollsSkipAGeneration | dashboard/dispatch.go:130 | A run with one new generation between polls in which a generation's lines are lost |
| TailRuns.RunKeepsOrderIff | dashboard/tail.go:71-124 | A whole run skips no generation iff every poll that moves finds the newest file opened so far still under one of the names |
| TailRuns.OneFileAPollKeepsOrder | dashboard/dispatch.go:130 | The pace that suffices: every poll finds a current file, and at most one is created between one poll's open and the next |
| TailRuns.RunLosesNothingIff | dashboard/tail.go:28-124 | After any open and any number of polls, failing or not, the lines handed out are those of all generations from the first read, once and in order, iff open's scan missed no line of the older one and no poll passes over a file with a line |
| TailRuns.FailedScanLosesLines | dashboard/tail.go:28-31 | On a given directory, an older file whose scan missed a line: over any polls the lines handed out are not those of the files |
| TailRuns.FailedStatReadsTwice | dashboard/tail.go:147-148 | On a given directory, a rename between the opens and a failing stat: every line is handed out, and every complete one twice |
| TailRuns.OpenAndPoll | dashboard/tail.go:28-124 | The run itself: opened once, polled any number of times while the Daemon goes on and calls fail; the conditions above decide order and loss, and each line carries its generation |
| Dispatches.DispatchOwners.Claim | dashboard/history.go:74-89 | Updates the slot's entry and returns the row's owner |
| Dispatches.OwnerIsLatestStart | dashboard/history.go:68-72 | After any scan each slot's entry is the identity of its latest child_start |
| Dispatches.RepeatsIs | dashboard/history.go:80-83 | StartN is the number of child_starts directly before with the same time |
| Dispatches.KeysAreUniqueIff | dashboard/history.go:68-72 | Identities on a slot are unique iff no time returns after another |
| Dispatches.StartNCountsEarlierIff | dashboard/history.go:55-57 | StartN is the count of earlier equal times iff no time returns |
| Dispatches.NonDecreasingIsContiguous | dashboard/history.go:68-72 | A clock that never steps back makes identities unique |
| DispatchViews.DispatchView.AddPassLog | dashboard/dispatch.go:38-50 | Appends the Pass log iff it has a path not yet listed |
| DispatchViews.DispatchView.AddSubject | dashboard/dispatch.go:60-69 | Appends the subject iff its label is new and not empty |
| DispatchViews.DispatchView.Absorb | dashboard/dispatch.go:52-79 | The fields go on meaning the events absorbed; the tab set grows at its end and is fixed once closed |
| DispatchViews.DispatchView.TakeOver | dashboard/dispatch.go:147-149 | A later child_start closes the Dispatch |
| DispatchViews.MeaningAppend | dashboard/dispatch.go:52-79 | How one more event changes the page, against its meaning over all the events |
| DispatchViews.PassLogsMeaning | dashboard/dispatch.go:38-59 | The tabs are exactly the Pass logs boxes announced while the child ran, each path once, under its first phase |
| DispatchViews.MeaningAtStart | dashboard/dispatch.go:150-154 | A page that has only begun shows its child_start, the revision cut to twelve, and nothing else; a takeover only closes it |
| DispatchViews.SubjectsMeaning | dashboard/server.go:305-320 | The subjects are exactly what the boxes were about, issue by number or Chore, each label once, as the first box had it |
| DispatchViews.FieldsMeaning | dashboard/dispatch.go:52-79 | Phase, outcome, note, PR and exit are the latest box's, settlement's and finish's; closed iff a child_finish came or the slot was taken over |
| DispatchViews.RevisionMeaning | dashboard/dispatch.go:71-78 | The child_start's revision, or that of the first child_finish to name one |
| DispatchFollows.DispatchFollow.Pin | dashboard/dispatch.go:116-121 | Ends the scan without changing what was found |
| DispatchFollows.DispatchFollow.Fold | dashboard/dispatch.go:133-156 | Keeps the found Dispatch the latest one the query named during the scan, with all its slot reported since, under the generation of its child_start |
| DispatchFollows.FoldedTracks | dashboard/dispatch.go:133-156 | The same over values, scanning or pinned |
| FollowTheorems.FollowEqualsRescanIff | dashboard/dispatch.go:101-124 | A follow and a rescan for the Dispatch's identity agree on the child_start iff nothing folded later claimed that identity, and then on the whole view |
| FollowTheorems.FollowEqualsRescan | dashboard/dispatch.go:101-124 | So they agree on any slot whose times never return |
| FollowTheorems.IdentityIsUnique | dashboard/dispatch.go:88-94 | On such a slot no later child_start has an earlier one's identity |
| FollowTheorems.LatestIsFound | dashboard/dispatch.go:88-94 | A query without a time finds the slot's latest child_start |
| FollowTheorems.SegmentIsAll | dashboard/dispatch.go:133-146 | Every event on the slot after a child_start and before the next is one of its Dispatch, in order |
| FollowTheorems.TabsOverARun | dashboard/dispatch.go:269-271 | Whatever is folded after the scan, PassLogs only grows by appending, repeats no path and is fixed once Closed |
| FollowTheorems.StartNAfterDrop | dashboard/history.go:74-89 | When rotation drops the first events, a child_start left keeps its StartN iff it does not continue a run of equal times that began in what was dropped |
| FollowTheorems.RetainedLinkIff | dashboard/dispatch.go:88-99 | A link to a child_start still on disk finds it iff so; otherwise a later one or none |
| FollowTheorems.DroppedLinkIff | dashboard/dispatch.go:88-99 | A link to a child_start rotation dropped finds nothing unless those left repeat its time often enough to reach its number |
| FollowTheorems.HistoryLinksResolve | dashboard/dispatch.go:88-99 | A row's link names the latest child_start on its slot at or before the row; after any appends and any dropped prefix it finds just what the two above say |
| LiveFollow.SameStreamSameLines | dashboard/tail.go:71-74 | Two readers that began at one generation and reached one place handed out the same lines |
| LiveFollow.LivePageEqualsReload | dashboard/dispatch.go:101-124 | A reload scans the end of the events the page has followed and finds the page's Dispatch, with the same view, iff its child_start is left and keeps its number |
| LiveFollow.LivePageEqualsLongerReload | dashboard/dispatch.go:101-124 | The same against a reload that reads an older generation the page's own open failed to |
| LiveFollow.RotatedAwayIffDropped | dashboard/dispatch.go:128-131 | With no generation skipped, rotatedAway holds iff a reader of both names no longer gets the child_start |
| LiveFollow.RotatedAwayOfFollow | dashboard/dispatch.go:128-156 | Whatever was skipped: the generation fold noted is that of the file the child_start was read from, and rotatedAway is wrong in the one case above |
| LiveDispatches.LiveDispatch.Open | dashboard/dispatch.go:114-121 | The scan folds exactly what the tail handed out, each event under its own generation, and pins |
| LiveDispatches.LiveDispatch.Poll | dashboard/dispatch.go:123-124 | So does each poll; the Dispatch stays the same one, and order is kept iff the condition on the directory holds |
| LiveDispatches.LiveDispatch.RotatedAway | dashboard/dispatch.go:128-131 | The answer against the file the child_start was read from |
| LiveDispatches.Reload | dashboard/dispatch.go:101-121 | Opening the page again, in a quiet directory: the page calls itself rotated away iff the reload no longer scans the child_start, and otherwise both show the same unless a run of equal times was cut |
| History.EventsFollower.EntryOf | dashboard/history.go:172-181 | An event adds a row iff it is on the timeline; claiming only those assigns the ownership of claiming all |
| History.TrimmedNext | dashboard/history.go:190-195 | The lazy cut keeps at most twice the limit and never drops one of the newest rows |
| History.EventsFollower.Open | dashboard/history.go:183-206 | Returns exactly the newest 200 rows, newest first |
| History.EventsFollower.Poll | dashboard/history.go:208-219 | Returns the rows appended since, oldest first |
| History.SnapshotThenPolls | dashboard/history.go:183-219 | The snapshot reversed and everything polled is the end of one full scan's timeline |
| History.RowLinksResolve | dashboard/history.go:55-58 | Every row with a named start names the latest child_start at or before it, after any more events and any dropped prefix, and its link finds it iff it is left and keeps its number |
| LogStates.LogState | dashboard/log.go:124-173 | One pass computes named, finished, superseded and the two deciding times by their meaning |
| LogStates.NamesIff | dashboard/log.go:146-163 | An event names the path iff it is a child_start or box with it, for an owner only on its slot while its child_start is the slot's latest |
| LogStates.StatusIs | dashboard/log.go:124-173 | With the last naming known: finished iff it has no slot or the slot later saw a child_finish or a child_start that does not name the path; finishedAt is the first such event's time, namedAt the naming's |
| LogStates.ChildLogIsServed | dashboard/log.go:124-127 | A child_start's own log is named for its Dispatch and for anyone from then on |
| LogStates.SupersededIff | dashboard/log.go:134-139 | Superseded iff a naming after one of the owner's is followed by none of the owner's |
| LogStates.NoOwnerNeverSuperseded | dashboard/log.go:138-139 | Without an owner never superseded, and named iff any event names the path |
| LogStates.ListedTabsAreServed | dashboard/log.go:125-127 | Every tab the page lists is named for its own Dispatch, so it is served |
| Utf8.RuneStartIsBoundary | dashboard/log.go:368-376 | A leading byte begins a character whatever surrounds it |
| Utf8.FullRuneDecides | dashboard/log.go:371-372 | A full or ill-formed first character stays so however the bytes go on |
| Utf8.EncodedIsOneUnit | dashboard/log.go:368-377 | Decoding takes the encoding of every Unicode scalar value whole, whatever follows |
| Utf8.UnitsAreEncodings | dashboard/log.go:368-377 | Every decoded unit is the encoding of a scalar value, or one byte where none begins |
| Utf8.UndecidedIff | dashboard/log.go:370-374 | Bytes are held back as undecided iff they properly begin the encoding of some scalar value |
| Utf8.UnitsAcross | dashboard/log.go:291-293 | Decoding two sides of a boundary apart gives the characters of the whole |
| LogFraming.CompleteRunes | dashboard/log.go:366-378 | The cut ends on a character however the bytes go on, and holds back exactly the undecided character at the end |
| LogFraming.CutBeforeCR | dashboard/log.go:300-304 | Stepping back before a CR leaves a clean cut and at most four carried bytes |
| LogFraming.CarriedBoundIsTight | dashboard/log.go:294 | The cut of a four-byte buffer keeps all four back |
| LogFraming.CutOf | dashboard/log.go:300-304 | The code's cut is the one the buffer alone determines, clean, with at most four bytes kept |
| LogFraming.KeptBackIsLocal | dashboard/log.go:300-304 | What a cut keeps back is decided by the last four bytes |
| LogFraming.FrameExceedsTheLimitIff | dashboard/log.go:16-17 | A frame exceeds logFrameMax iff the read, of four bytes at least, and the bytes carried in exceed it by more than the read's last four bytes keep back; by four at most |
| LogFraming.FrameCanExceedTheLimit | dashboard/log.go:16-17 | Two reads whose second frame is logFrameMax+4 bytes |
| LogFraming.LogStream.Keep | dashboard/log.go:308 | The overlapping copy moves the rest to the front |
| LogFraming.LogStream.Forward | dashboard/log.go:299-308 | One read's bytes: exactly the buffer's frame goes out and its remainder stays; frames plus held bytes stay what was read |
| LogFraming.LogStream.Drain | dashboard/log.go:296-318 | Over any read sizes, growth and faults: frames plus held bytes are the bytes read, those of a failing read included, unless the client is gone; held never exceeds 4, no frame ends inside a character or a CRLF, none passes the cap; succeeds with everything there read, and fails only if a read failed or the client is gone |
| LogFraming.FramesDecodeApart | dashboard/log.go:291-293 | The frames' characters, frame by frame, are the file's |
| EventStream.WriteFrame | dashboard/live.go:105-116 | The loop prints the event's name, one data line for each line of the normalised data, and a blank line |
| EventStream.FrameRoundTrip | dashboard/live.go:105-116 | The client's parser gives one event with that name and the normalised data, empty data included |
| EventStream.StreamRoundTrip | dashboard/live.go:105-116 | Any sequence of frames parses to that sequence of events |
| EventStream.NormalisedKeepsLines | dashboard/live.go:103-112 | The data lines are the data's lines under any mix of CR, LF and CRLF |
| EventStream.NormalisedApartIff | dashboard/log.go:291-293 | Normalising two chunks apart is harmless iff they do not split a CRLF |
| EventStream.LogFramesDecodeToTheFile | dashboard/log.go:291-308 | The frames' decoded data joined is the normalised file up to the held bytes |
| EventStream.LogTabReadsTheFile | dashboard/log.go:296-308 | The same through printer and parser: one log event a frame |
| ReportReader.BufReader.ReadSlice | cmd/launcher/daemon/runner.go:1017-1025 | Independent of how the bytes arrive: a line, a full buffer, or what is left and why |
| ReportReader.ReportState.ReportOnce | cmd/launcher/daemon/runner.go:1035-1044 | Each kind of warning goes out once at most |
| ReportReader.ReportState.Take | cmd/launcher/daemon/runner.go:1081-1090 | A non-empty line is parsed, delivered if a record, and a warning goes out exactly for a fault not warned about yet |
| ReportReader.ReportState.Discard | cmd/launcher/daemon/runner.go:1046-1061 | Drops the rest of an over-long line and nothing after it |
| ReportReader.ReportState.NextLine | cmd/launcher/daemon/runner.go:1062-1097 | One slice: parsed, stashed, or turned into a discard |
| ReportReader.ReportState.ReadReports | cmd/launcher/daemon/runner.go:1009-1098 | One call parses, warns about, and leaves to resume from exactly what all its bytes give, however chunked: a bad line is warned about iff one is malformed or over-long, a mismatch iff there is one, each once |
| ReportReader.UninterruptedRead | cmd/launcher/daemon/runner.go:1015-1027 | Read to the end, a pipe yields exactly its non-empty lines within the limit, in order |
| ReportReader.InterruptedReadIff | cmd/launcher/daemon/runner.go:859-866 | A deadline changes nothing iff it does not cut an over-long line into parts that fit |
| ReportReader.ResumedReadsIff | cmd/launcher/daemon/runner.go:848-866 | Nor does any schedule of abandoned, resumed and handed-over reads, iff it cuts no over-long line into parts that all fit |
| ReportReader.ResumedReadsEqualOne | cmd/launcher/daemon/runner.go:848-866 | With every line within the limit, any schedule of abandoned, resumed and handed-over reads equals one read |
| ReportReader.DiscardedIsNeverParsed | cmd/launcher/daemon/runner.go:1012-1014 | Nothing of a line being discarded is parsed, across any reads |
| SignalLatch.SignalsOverARun | cmd/launcher/daemon/runner.go:1213-1224 | Over any schedule: nothing, one SIGTERM, or one SIGTERM then one SIGINT, each after its latch closed |
| SignalLatch.NothingSentOutsideAWait | cmd/launcher/daemon/runner.go:1226-1233 | Nothing is sent once stopForwarding has returned, until the next Wait |
| SignalLatch.EofEndsTheChild | cmd/launcher/daemon/runner.go:909-926 | Once a Wait that reached the end of the report has returned, no signal is ever sent again and no Wait begins |
| SignalLatch.AbandonedIsResumable | cmd/launcher/daemon/runner.go:909-916 | Once a Wait whose read was abandoned has returned, nothing is sent and a Wait can begin, until one does |
| SignalLatch.WaitCanReturn | cmd/launcher/daemon/runner.go:1257-1260 | A reading Wait can end either way at any time, and then return after steps of its forwarder alone |
| SignalLatch.LatchesAreRelayed | cmd/launcher/daemon/runner.go:1203-1211 | While a Wait reads and its forwarder rests, every closed latch has been relayed in order |
| SignalLatch.ComesToRest | cmd/launcher/daemon/runner.go:1236-1256 | The forwarder does come to rest, by its own steps alone |
| SignalLatch.ReturnIsReachable | cmd/launcher/daemon/runner.go:1257-1260 | Joining the forwarder never blocks for good |
| TipFlight.SingleFlight | cmd/launcher/daemon/runner.go:351-356 | At most one caller is inside resolveTipOnce, and its flight is the registered one |
| TipFlight.ReturnedOutcomeIsExact | cmd/launcher/daemon/runner.go:362-402 | A returned outcome is that of a flight that is done: one fetch's revision, Moved iff the previous fetch differed, the path evaluated at that revision |
| TipFlight.ReturnedFlightWasRegistered | cmd/launcher/daemon/runner.go:301-349 | A returning call was attached to its flight at a moment of the call when it was registered |
| TipFlight.LeaderGetsAFreshFetch | cmd/launcher/daemon/runner.go:305-308 | A leader's revision was fetched after it asked |
| TipFlight.ReturnedFetchIsFreshIff | cmd/launcher/daemon/runner.go:305-308 | Over any run: a call's revision was fetched after it asked iff its flight's fetch had not come back when it asked; if it had, that flight was the registered one and not done |
| TipFlight.DoneIsNotRegistered | cmd/launcher/daemon/runner.go:331-343 | In every reachable state a registered flight is still led: one that is done, or about to be, is not registered |
| TipFlight.AskedOnceDone | cmd/launcher/daemon/runner.go:305-308 | A call that asks once a flight is done never joins it nor gets its outcome, over any run |
| TipFlight.EntersAfresh | cmd/launcher/daemon/runner.go:305-330 | A call that comes in while none is registered leads a new flight, whose fetch comes back after it came in, and returns its outcome |
| TipFlight.FlightCanEnd | cmd/launcher/daemon/runner.go:331-349 | From every stage a leader's own steps can end its flight; then it is not registered and every joiner can take its outcome |
| TipFlight.CancelledStays | cmd/launcher/daemon/runner.go:316-327 | A joiner can leave at any time, changing nothing for anyone else, and gets no outcome any more |
| TipFlight.JoinerCanGetAnEarlierFetch | cmd/launcher/daemon/runner.go:305-308 | From any state with the fetch done, a run in which a joiner is handed it |
| TipFlight.ExecTarget | cmd/launcher/daemon/runner.go:1267-1287 | Yields the prebuilt tip iff its path is valid and is the one memoised for the latest fetched revision |
| TipFlight.PrebuiltIsLast | cmd/launcher/daemon/runner.go:586-592 | The prebuilt tip is that of the last Prebuild |
| TipFlight.ExecTargetIsLatest | cmd/launcher/daemon/runner.go:1267-1287 | In every reachable state its path is one evaluated at the last fetched revision |
| HostRunners.OthersLeaveTheLeader | cmd/launcher/daemon/runner.go:351-356 | While a leader is inside resolveTipOnce no step of any other caller touches the baseline, the memo or the leader's progress |
| HostRunners.HostRunner.SelfPath | cmd/launcher/daemon/runner.go:380-402 | The memoised path, or one evaluated now and memoised; a failed evaluation leaves the memo alone |
| HostRunners.HostRunner.ResolveTipOnce | cmd/launcher/daemon/runner.go:351-402 | With others running between its steps, the fields end as the machine's and the result is the outcome the machine decides; the baseline moves as soon as the fetch succeeds |
| Handoffs.Release | cmd/launcher/daemon/runner.go:1386-1391 | Closing the dups gives back the table from before them |
| Handoffs.Restore | cmd/launcher/daemon/restart_linux.go:57-61 | Puts every saved action back, whatever the order |
| Handoffs.IgnoreStopSignals | cmd/launcher/daemon/restart_linux.go:53-72 | On error nothing changed; on success all stop signals are ignored and the saved actions undo it exactly |
| Handoffs.HandoffDocPipe | cmd/launcher/daemon/restart_linux.go:89-110 | The whole document behind one new inheritable descriptor, or the table unchanged |
| Handoffs.PrepareSlots | cmd/launcher/daemon/runner.go:1400-1409 | One dup for the lock and each slot, on the originals' files, or none |
| Handoffs.PrepareHandoff | cmd/launcher/daemon/runner.go:1379-1424 | Everything fallible but the exec; the caller's slots are not written |
| Handoffs.ExecPrepared | cmd/launcher/daemon/runner.go:1425-1450 | Ignores the stop signals, lets those taken settle, looks again and execs: no stop taken is lost in an exec, and any other return puts descriptors and actions back |
| Handoffs.ExecHandoff | cmd/launcher/daemon/runner.go:1364-1450 | Every failing return leaves descriptors, close-on-exec bits, signal actions and h as before, and is refused only when a call failed or something stood in the way; at an exec no stop signal taken is lost, and the successor inherits what it would have and exactly the lock, one descriptor a slot and the document, on the same files |
| Rollbacks.RollBack | cmd/launcher/daemon/main.go:1230-1260 | Hands the adopted children, in order, back to the build they came from, losing no stop, or changes nothing; a rolled-back, stopped, too old or pathless handoff never rolls back, and no other is refused unless a call failed |
| Rollbacks.AdoptedInOrder | cmd/launcher/daemon/main.go:1250-1254 | Each slot is kept or dropped by itself, in its place |
| Rollbacks.HandedOnMayRollBack | cmd/launcher/daemon/main.go:1230-1245 | The image a handoff enters may roll it back unless it is a rollback, must stop or knows no valid program to go back to |
| Rollbacks.OneRollbackAtMost | cmd/launcher/daemon/main.go:1230-1234 | An image entered by rollback has the paths swapped and the reason told, and never rolls back |
| Rollbacks.RollbackChainsAreShort | cmd/launcher/daemon/main.go:1230-1234 | Of images each entered by the rollback of the one before, there are never more than two |
| Rollbacks.AdoptChildren | cmd/launcher/daemon/main.go:1298-1306 | Every report descriptor that is no standard stream is close-on-exec again, refused children's included; a child is adopted iff its descriptor is one of those, open and a pipe, and its process checks out |
| Rollbacks.NoChildIsLost | cmd/launcher/daemon/main.go:1298-1306 | Across an exec: every slot handed on arrives with what was tracked, on the pipe its predecessor read, and its child is adopted iff it may be waited for |
| Rollbacks.SighupIsRestored | cmd/launcher/daemon/main.go:1307-1313 | SIGHUP ends up ignored in the successor iff it was in the predecessor |
| Rollbacks.ResumeFromHandoff | cmd/launcher/daemon/main.go:1279-1315 | Takes over iff the lock's descriptor is a file that can be locked; ends with the document closed, the lock and report descriptors marked, and exactly the children that check out; SIGHUP's action is back at its default iff it was ignored only for the exec, could be read and may be changed, and no other action moves |
| Rollbacks.HandedOnDecodes | cmd/launcher/internal/daemon/handoff.go:200-231 | A document handed on always passes the successor's version and descriptor checks |
| Rollbacks.NothingGathers | cmd/launcher/daemon/runner.go:1366-1369 | From handoff to handoff the inheritable descriptors stay the same and only the lock and one descriptor a slot are held besides |
| Supervise.Supervisor.ExecSuccessor | cmd/launcher/daemon/runner.go:1328-1354 | One attempt: handed on to the prebuilt path with the slots and no stop lost, or everything as before; refused only when a call failed or something stood in the way |
| Supervise.SuccessorIsTold | cmd/launcher/daemon/runner.go:1348-1349 | The successor runs the prebuilt daemon at its revision and is told the program to go back to, the rest of the header and every slot |
| Supervise.Supervisor.SuperviseLoop | cmd/launcher/daemon/main.go:1128-1161 | Over any number of failed restarts nothing leaks and the pool resumes from the last handoff; each was refused for a reason or gave way to a stop; it ends with the pool's exit or the exec of the last restart, which loses no stop |
| Eviction.FirstUnmet | cmd/launcher/selective.go:189-198 | Returns an unmet blocker of the dependent, never "?" |
| Eviction.Blocked | cmd/launcher/selective.go:157-168 | Exactly the members with an unmet blocker |
| Eviction.Evict | cmd/launcher/selective.go:172-177 | Removes them with one notice each, true of what is left |
| Eviction.EvictUnmetBlockers | cmd/launcher/selective.go:127-187 | Keeps the largest subset in which every blocker is kept or ready, in input order, with one notice an evicted issue naming a blocker neither kept nor ready |
| Eviction.FetchSelectiveIssues | cmd/launcher/selective.go:78-101 | Each resolved issue once, first occurrence first; exactly the issues without the label and the numbers met again are listed; fails with the first unresolvable number |
| Eviction.FirstsAreDistinct | cmd/launcher/selective.go:78-82 | No issue number is listed twice and none is lost |
| QueueRecover.Launcher.Allowed | cmd/launcher/internal/shutdown/gate.go:193-207 | Refuses iff a latch has closed, now or seen before |
| QueueRecover.Launcher.Launch | cmd/launcher/internal/shutdown/gate.go:209-231 | Registers the issue in flight iff no latch has closed |
| QueueRecover.Launcher.LeaveAndSettle | cmd/launcher/internal/shutdown/gate.go:233-300 | Afterwards no abort can take the issue any more, and the gate knows exactly which latches have closed |
| QueueRecover.Launcher.Eligible | cmd/launcher/main.go:1469-1597 | A stop before it begins wins over every other verdict; goes on only with both latches open at the second checkpoint, a failed label and a landable candidate; passes one over only when it is not landable or off failed by then, never on an outage; comments exactly on one that is out of attempts; claims nothing |
| QueueRecover.Launcher.FirstReads | cmd/launcher/main.go:1483-1559 | Nothing stands in the way iff every read succeeded and the evidence is complete; an outage is an error, never a verdict |
| QueueRecover.Launcher.Confirm | cmd/launcher/main.go:1579-1597 | The last look before the claim: a stop sent meanwhile wins, then whoever moved the issue off failed |
| QueueRecover.FreshIsLandable | cmd/launcher/main.go:1560-1577 | An issue without a record has all its attempts before it |
| QueueRecover.Launcher.ParkQueueFailure | cmd/launcher/recover_queue.go:79-119 | One more attempt on record and the label back on failed, or the error that prevented it |
| QueueRecover.Launcher.RecordAttempt | cmd/launcher/recover_queue.go:95-109 | One more attempt on record or an error; comments exactly with the attempt that reaches the bound or is denied |
| QueueRecover.Launcher.FinishQueueSettle | cmd/launcher/recover_queue.go:63-77 | A landed issue's attempts are forgotten, if the record can be removed; otherwise the issue is back on failed unless parking was refused |
| QueueRecover.Launcher.RecoverIssue | cmd/launcher/main.go:1435-1660 | A stop before the claim prevents it. Passed over only for a reason, failing only for a cause. What is claimed is relayed, by a relay begun with both latches open, unless a stop arrived, and its verdict recorded; every return after the claim has the label off in progress, or an abort marked the issue and a stop is returned, or the tracker refused an edit and that is returned |
| QueueRecover.Launcher.ClaimAndLand | cmd/launcher/main.go:1598-1661 | The claim, and the way back from it when a stop arrives before the relay |
| QueueRecover.Launcher.Land | cmd/launcher/main.go:1636-1661 | The relay and its verdict on record, which only an abort that took the issue wins over |
| QueueRecover.Launcher.RecoverQueueOne | cmd/launcher/recover_queue.go:21-61 | The candidates are tried in order: each before the last had a reason to be passed over, an empty queue means all had, and the scan ends with the first claim, stop or error; one claim at most, relayed and never stranded; with a stop latched beforehand it claims nothing and says so |
| RevisionAttribution.GroupBoxes | cmd/launcher/stats_events.go:73-85 | Groups the usable initial box events by kind and key, in order |
| RevisionAttribution.FindBest | cmd/launcher/stats_events.go:95-100 | The latest event at or before the claim, the last of equals |
| RevisionAttribution.FindBetween | cmd/launcher/stats_events.go:104-111 | Whether another record of the Dispatch claims in between |
| RevisionAttribution.FillInferredRevisions | cmd/launcher/stats_events.go:60-116 | In place, every record becomes a function of what all held before the call |
| RevisionAttribution.FilledIffMutuallyNearest | cmd/launcher/stats_events.go:60-66 | A record changes iff its revision is inferred and unknown and some usable initial box event and it are nearest to each other, and then only to have that event's revision |
| RevisionAttribution.OneClaimTimePerEvent | cmd/launcher/stats_events.go:64-66 | No event serves two different claim times |
| RevisionAttribution.OrderDoesNotMatter | cmd/launcher/stats_events.go:89-115 | The result does not depend on the order of the records |
| PassMachine.AfterReviewPass | cmd/launcher/internal/passmachine/passmachine.go:394-469 | A review pass never ends a run: it is followed by a fix pass iff it blocks with no cap reached and nothing committed, else by one land pass, which is the last |
| PassMachine.AfterWorkPass | cmd/launcher/internal/passmachine/passmachine.go:337-374 | Before an approval only an outcome that is not ready ends the run; a premature ready is reviewed, or leaves one land pass at the pass cap |
| PassMachine.DeltaReviewIsLast | cmd/launcher/internal/passmachine/passmachine.go:471-497 | A delta review schedules nothing and holds the run up iff it blocks |
| PassMachine.EveryRunEnds | cmd/launcher/internal/passmachine/passmachine.go:289-304 | Under a round cap every run of the review loop ends within twice the rounds left and three passes, whatever agents and reviewers do |
| PassMachine.PassCapIsACeiling | cmd/launcher/internal/passmachine/passmachine.go:360-372 | Under a pass cap every run ends by the land pass after it |
| ReviewRoundCaps.RoundsReachedIff | cmd/launcher/orchestrator/caps.go:46-50 | Against the full decision function: the round cap ends an always-blocked run iff the pass cap is above a threshold linear in it, for every cap |
| ReviewRoundCaps.CapFiredPass | cmd/launcher/orchestrator/caps.go:79-163 | Finds that threshold, or fails beyond 64 passes |
| ReviewRoundCaps.QuotientBound | cmd/launcher/orchestrator/caps.go:67-75 | The saturation guard is exact |
| ReviewRoundCaps.Extrapolate | cmd/launcher/orchestrator/caps.go:63-76 | For any probes 1 <= pass1 < pass2 <= 64: never overflows, exact up to MaxInt-perRound, else MaxInt-1 |
| ReviewRoundCaps.SimulateReviewRoundCapPass | cmd/launcher/orchestrator/caps.go:40-77 | The threshold, exact or saturated |
| ReviewRoundCaps.ValidateCaps | cmd/launcher/orchestrator/caps.go:20-38 | Accepts iff a cap is disabled, the pass cap is above the threshold, or it is MaxInt |
| ReviewRoundCaps.AcceptedIffRoundsReached | cmd/launcher/orchestrator/caps.go:20-24 | The verdict is right for every pair but those with pass cap MaxInt and a threshold of at least MaxInt |

## Left out

- HTTP handlers, templates, status rendering and browser scripts: no deep invariant.
- Running git, nix, podman, gh and the Driver: they are nondeterministic outcomes.
- JSON: a line decodes to an event or record by a partial function; malformed lines give nothing.
- In-place truncation of the Events file (`dashboard/tail.go:98-103`): the Daemon only rotates by rename, and the code calls it out of contract.
- Truncated mtimes and `.prior-run` siblings (`modifiedAfterFinish`, `movedAside`): the code documents the cases they get wrong.
- EventsTail.Tail.Open: where opening the older name fails, that generation is left out, as in the code, and the first one read is the current one.
- TailDelivery.RotatedAwayExact: the older file, if one was read, comes before the current ones; it does unless a stat failed or more than a full rotation fell between open's two opens.
- LiveDispatches.LiveDispatch.Poll: events are folded batch by batch after the tail's call, not from within it; folding touches no file, so no order changes.
- LiveDispatches.Reload: the page is caught up, the directory quiet and no call fails; otherwise what page and reload have read depends on the schedule. A page whose own open missed the older generation is LivePageEqualsLongerReload's.
- History.EventsFollower.Open: a row keeps its event and owner; the rendered detail text is not modelled.
- LogFraming.LogStream.Drain: the loop around it that compares files and sends the closing frame is not modelled.
- EventStream.FrameRoundTrip: the id and retry fields, the byte order mark and reconnection are not modelled, as the printer never writes them; event names are non-empty and without line breaks, as all of its callers' are.
- ReportReader.BufReader.ReadSlice: the buffer is its contents, not a ring; a read returns bytes or an error, never both, as a pipe's does.
- SignalLatch.SignalsOverARun: goroutines and latches are a transition system over values, as is TipFlight, since their steps interleave; delivery of a sent signal, and a child handed to another image (which starts a fresh latch), are not modelled.
- TipFlight.ReturnedOutcomeIsExact: a panicking leader is not modelled.
- TipFlight.ReturnedFetchIsFreshIff: a fetch is dated when it comes back, not when the remote answered.
- Handoffs.ExecHandoff: stop signals are taken at a look at the latch, during the settle and whenever an action is read or changed, until both are ignored, and those taken have closed the latch after a settle; other goroutines opening descriptors meanwhile are not modelled; a signal whose action could be changed can be changed back.
- Supervise.Supervisor.SuperviseLoop: what the pool itself opens and closes between restarts, and the garbage-collection root check, are not modelled beyond a possible refusal.
- Rollbacks.ResumeFromHandoff: whether the lock can be taken, and whether a child is this process's and its pipe can be polled, are parameters; marking an open descriptor does not fail.
- Rollbacks.RollBack: the cut of an over-long refusal reason is not modelled; the reason is a parameter.
- Eviction.EvictUnmetBlockers: readiness is a fixed function of dependent and blocker while it runs.
- QueueRecover.Launcher.RecoverIssue: only the queue arm; what is read about a candidate before its label is touched is a parameter; a settled relay is taken to have moved the label (the settler logs and drops a refused edit), a refused claim to have left it, and no other actor to put a claimed issue back in progress.
- RevisionAttribution.FillInferredRevisions: times are instants already parsed; events whose time does not parse are skipped.
- ReviewRoundCaps.ValidateCaps: decision texts and budget caps of a real run are not modelled; the probes run without a budget.
- Flag parsing, configuration, generated tables, doctor and help: plumbing.
