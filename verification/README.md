# Verified model of the test_runner recorder and input server

test_runner injects input events through four virtual uinput devices and records the events
of real input devices to `.rrc` files. This project models its two cores in Dafny and proves
properties of them:

* **The recorder** (`recorder/TestRunnerRecorder.cpp`). `RecorderProtocol.dfy` is a step system
  of its three threads: the RPC thread in `Start`/`Stop`, the recorder thread in `Record`, and in
  continuous mode the buffer thread in `processBuffer`. Every lock operation and every access to
  `m_stop`, `m_stop_time` and `m_input_buf` is a step; `m_device_mask` is written and decoded in one
  step each. Labels carry what the environment decides
  (clock, RPC calls, what `select` and `read` return, time-outs), and the state also keeps the full
  history of pushes, every trim pass and every dump. `RecorderSafety.dfy`, `RollingWindow.dfy` and
  `FixedLength.dfy` hold what each step keeps, `RecorderTheorems.dfy` what follows for every
  reachable state, `RecorderProgress.dfy` when `Stop` returns and when it does not,
  `RecorderStart.dfy` what `Start` does, `RecordedEvents.dfy` that the events delivered are the events
  recorded, `Counterexamples.dfy` runs that surprise.
  `RecorderObject.dfy` has the object itself as a class, with the loops of its methods;
  `RecorderSections.dfy` shows what the same pieces do as runs of the step system, and the two are
  proved to agree.
* **Arithmetic and text.** `DoubleArithmetic.dfy` and `TouchScaling.dfy` compute touch scaling in
  53-bit rounded arithmetic, `DeviceMask.dfy` the 64-bit device mask, `RecordingFormat.dfy` prints
  recordings and reads them back.
* **The server** (`server/TestRunnerServer.cpp`). `KeysymSearch.dfy` is the keymap search,
  `MultiTouch.dfy` the multi-touch encoding against the kernel's slot machine, `InputServer.dfy` the
  handlers as a class, `DeviceReaders.dfy` what readers of mouse, keyboard and
  touchscreen see, `RecorderRegistry.dfy` the recorders by index, and `Replay.dfy` plays a recording
  back through the server.

The clock is taken to be non-decreasing and not before the epoch. At most 64 devices are
available, because `1ULL << i` is not defined beyond. The windows are stated over the stored
`m_recording_length`, which is the length times 1000 in 32 bits.

Seven things the code does not do, each with the exact condition under which it does:

* `Stop` does not always return. Its store to `m_stop` can be overwritten by the thread's own
  activation store, in continuous mode for good unless ESC is pressed (`StopCanBeLost`,
  `LostStopNeverReturns`). That can happen exactly if Stop is called when the thread has been
  started and has not yet locked `stop_mtx` to activate (`StopCanBeLostIff`); never if it is called
  while `isActive()` (`ActiveStopIsOnCourse`). A set flag is not enough: a Stop may wait with the
  flag set and still be lost. While it waits, `WaitingStopReturnsIff` tells its fate.
* `Start` can end the process by assigning over a running thread, also when it is called on an
  active recorder: ESC or the deadline may set the flag before `isActive()` reads it
  (`ActiveStartCanTerminate`, `SecondStartCanTerminate`). It can exactly if the slot is occupied and
  the flag is set or may yet be set by Record (`StartCanTerminateIff`), and does exactly if it reads
  the flag set with the slot occupied (`RunEndsProcessIff`). One that reads it unset is invisible
  (`ActiveStartIsInvisible`).
* `isActive()` does not say that a recording runs. A failed `select` ends Record without setting
  `m_stop`, and until the next Stop `isActive()` stays true and Start does nothing
  (`FailedSelectLeavesActive`, `FailedSelectStaysActive`); after an overwritten Stop even with an
  empty slot (`ActiveWithoutThread`), which is the only way to it (`OnlyLostStopLeavesActive`).
  On an empty slot Start starts a thread exactly if `m_stop` is set (`EmptySlotStartIff`).
* The header of a dump is not always at or before its first record, because the buffer survives
  from one session to the next (`SecondHeaderCanBeTooLate`, `HeaderBoundsIff`,
  `HeaderBoundsIffNothingCarriedOver`).
* The header can lie before the epoch, when the two reads of `m_stop_time` fall on either side of
  its stamp (`HeaderCanBeNegative`, `HeaderIsNegativeIff`), and the file then cannot be read, whole
  days apart (`FileReadsIff`).
* A dump of a short session is not always what streaming would have written
  (`ShortSessionDumpsStreamIff`), for the reason of the fourth point or because a pass condemned
  a record of the session itself.
* The far edge of a touch axis does not always reach the virtual maximum (`FarEdgeMayBeMissed`,
  `ScaleIsExactIff`).

Where the documentation and the code disagree, the code is followed: `docs/ARCHITECTURE.md`
describes one in-memory queue flushed on stop, but fixed-length recordings are written line by
line; the multi-touch handler's log text takes slot -1 for a release, but the code writes that
slot number like any other and the kernel then ignores it (`MeaningPreservedIffInRange`).

`Inv` in the statements of `RecorderProgress.dfy` and `RecorderStart.dfy` is the conjunction of all step invariants;
`ReachableHolds` shows that every reachable state satisfies it.

## Model

| member | source | states |
|---|---|---|
| RecorderTheorems.ReachableHolds | recorder/TestRunnerRecorder.cpp:307-565 | every state reached by any interleaving, over any number of sessions, satisfies all step invariants |
| RecorderSafety.LockStep | recorder/TestRunnerRecorder.cpp:322-326 | every step keeps: a mutex is held exactly by the thread whose program point is inside its critical section |
| RecorderSafety.ThreadStep | recorder/TestRunnerRecorder.cpp:307-330 | every step keeps: the slot is occupied exactly while Record exists, the buffer thread exists exactly between its spawn and its join, processBuffer leaves its loop only with the flag set |
| RecorderSafety.TimeStep | recorder/TestRunnerRecorder.cpp:375-431 | every step keeps: records are pushed in time order, none later than the clock, those of a session not before its start |
| RecorderSafety.RecordStep | recorder/TestRunnerRecorder.cpp:371-432 | every step keeps: only non-ESC events of available devices are recorded |
| RecorderSafety.SourceStep | recorder/TestRunnerRecorder.cpp:333-341 | every step keeps: what the current session recorded is of the kind of a device that the mask it decoded selected |
| RecorderSafety.StopTimeStep | recorder/TestRunnerRecorder.cpp:393-399 | every step keeps: a set flag comes with a stop time of the same session, except between the two stores |
| RecorderSafety.StampStep | recorder/TestRunnerRecorder.cpp:449-454 | every step keeps: what was read from the devices before m_stop_time was last written is not younger than it, what was read since not older |
| RecorderSafety.DumpCountStep | recorder/TestRunnerRecorder.cpp:484-521 | every step keeps: a continuous session writes one dump, a fixed-length one none |
| RollingWindow.WindowStep | recorder/TestRunnerRecorder.cpp:468-493 | every step keeps: the buffer is a suffix of the history, popped records are condemned by a pass, records condemned by a completed pass are popped |
| RollingWindow.PassTimeStep | recorder/TestRunnerRecorder.cpp:475-485 | every step keeps: each pass, done or coming, cuts off exactly the window's length before an instant that is not in the future |
| RollingWindow.DumpStep | recorder/TestRunnerRecorder.cpp:484-521 | every step keeps: each dump is the interval of history that the passes before it leave, with the header computed from the values read |
| FixedLength.FileStep | recorder/TestRunnerRecorder.cpp:343-425 | every step keeps: the fixed-length file is in time order and what precedes the current round is before the deadline |
| RecorderTheorems.Conservation | recorder/TestRunnerRecorder.cpp:429-493 | history is the popped prefix followed by m_input_buf, in time order |
| RecordedEvents.HistoryIsWhatWasDelivered | recorder/TestRunnerRecorder.cpp:376-432 | over every run and any number of sessions, what a continuous recorder pushed or is about to push is in order every event its devices delivered that is no ESC key event, with the time it was read, the device's kind, type, code, value and keysym |
| RecordedEvents.FileIsWhatWasDelivered | recorder/TestRunnerRecorder.cpp:343-425 | over every run, a fixed-length file holds in order what was delivered since it was opened |
| RecorderTheorems.WindowStartIsExact | recorder/TestRunnerRecorder.cpp:475-493 | some pass condemns record i exactly if i lies before the largest start any pass demands |
| RecorderTheorems.DumpIsExactWindow | recorder/TestRunnerRecorder.cpp:468-521 | every dump of every run is history from the maximum of all passes' starts (first time stamp at or after the cutoff; for periodic passes also length minus FILE_MAX_LINES); each cutoff is m_recording_length before an instant not in the future, for the final pass m_stop_time as read |
| RecorderTheorems.DumpKeepsTheSurvivors | recorder/TestRunnerRecorder.cpp:484-521 | a record pushed before a dump is in it exactly if no pass so far condemned it |
| RecorderTheorems.DumpsMoveForward | server/TestRunnerServer.cpp:554-560 | successive snapshots are intervals of history whose bounds never decrease |
| RecorderTheorems.NothingLostUntilNextTrim | recorder/TestRunnerRecorder.cpp:495-521 | until the next trim the buffer is the last dump followed by everything pushed since |
| RecorderTheorems.EvictionIsJustified | recorder/TestRunnerRecorder.cpp:475-493 | each popped record was more than m_recording_length old at the instant of a pass, not in the future, or had at least FILE_MAX_LINES newer ones behind it |
| RecorderTheorems.PeriodicPassBounds | recorder/TestRunnerRecorder.cpp:475-482 | after a periodic pass at most FILE_MAX_LINES records remain, none older than m_recording_length when the clock was read |
| RecorderSections.PassKeepsExactly | recorder/TestRunnerRecorder.cpp:475-482 | from the reading of the clock on, a pass run without interruption keeps exactly the records not older than m_recording_length now and with fewer than FILE_MAX_LINES newer ones |
| RecorderTheorems.TurnsMakePasses | recorder/TestRunnerRecorder.cpp:469-483 | over every run each turn of processBuffer's loop makes exactly one periodic pass, whether its wait timed out or a stop cut it short |
| RecorderTheorems.HeaderIsLaterInstant | recorder/TestRunnerRecorder.cpp:502-510 | with equal reads of m_stop_time the header is the later of session start and window start |
| RecorderTheorems.FinalPassSpares | recorder/TestRunnerRecorder.cpp:485-493 | no dumped record is older than the final cutoff |
| RecorderTheorems.HeaderBoundsIff | recorder/TestRunnerRecorder.cpp:485-520 | for every dump, whatever the two reads of m_stop_time were: the header is at or before every dumped record exactly if the session lasted the window by the second read or the oldest record kept is not older than the session |
| RecorderTheorems.HeaderBoundsIffNothingCarriedOver | recorder/TestRunnerRecorder.cpp:485-520 | and exactly if the session lasted the window or, when the final trim begins, the buffer holds no record of an earlier session that is older than this one yet inside the final window |
| RecorderTheorems.FirstSessionHeaderBounds | recorder/TestRunnerRecorder.cpp:485-520 | in a recorder's first session it always is, whatever the reads |
| Counterexamples.SecondHeaderCanBeTooLate | recorder/TestRunnerRecorder.cpp:502-510 | a run, for every one-device continuous recorder and every time of construction, whose second dump starts with a record older than its header |
| RecorderTheorems.HeaderIsNegativeIff | recorder/TestRunnerRecorder.cpp:485-510 | a header lies before the epoch exactly if the second read of m_stop_time shows a session of the window's length and the first a time within the window of the epoch; never if the reads agree |
| Counterexamples.HeaderCanBeNegative | recorder/TestRunnerRecorder.cpp:449-454 | for every time of construction a first session whose header is minus the window: m_stop_time is read once before and once after Stop stamps it |
| RecorderTheorems.OvershootIsOneRound | recorder/TestRunnerRecorder.cpp:353-425 | lines of a fixed-length file are ordered and not before the start; those at or past the deadline come from the last round, one per recorded device at most |
| RecorderTheorems.LocksDoNotNest | recorder/TestRunnerRecorder.cpp:393-493 | no thread ever holds both mutexes, no mutex has two holders |
| RecorderTheorems.SpawnsAreFresh | recorder/TestRunnerRecorder.cpp:307-330 | a thread is started only where none exists: one Record, one processBuffer |
| RecorderTheorems.OnlyRecordableIsRecorded | recorder/TestRunnerRecorder.cpp:393-431 | no ESC key event, and only events of the kinds of the recorder's devices, reach file, buffer or dump |
| RecorderTheorems.SelectedDevicesAreRecorded | recorder/TestRunnerRecorder.cpp:333-341 | what the current session wrote or pushed is of the kind of a device selected by the mask the session decoded, whatever the mask is now |
| RecorderTheorems.StopTimeBelongsToSession | recorder/TestRunnerRecorder.cpp:449-454 | outside the gap between the two stores of a stop, m_stop_time lies between m_start_time and now |
| RecorderTheorems.StopTimeSplitsHistory | recorder/TestRunnerRecorder.cpp:449-454 | in every reachable state m_stop_time separates what was read before it was written from what was read since |
| RecorderTheorems.OneDumpPerSession | recorder/TestRunnerRecorder.cpp:484-521 | between sessions a continuous recorder has written exactly one dump per session |
| RecorderTheorems.OnlyActivationClearsStop | recorder/TestRunnerRecorder.cpp:322-326 | the only step that clears m_stop is Record's activation store |
| RecorderProgress.HaltStep | recorder/TestRunnerRecorder.cpp:353-493 | with the flag set every step of Record or processBuffer lowers a measure, and no other step raises it |
| RecorderProgress.HaltCompletes | recorder/TestRunnerRecorder.cpp:393-447 | however the flag was set, by Stop or ESC, Record and processBuffer finish within a bounded number of their steps |
| RecorderProgress.HaltNeverDeadlocks | recorder/TestRunnerRecorder.cpp:442-493 | until they have finished some thread can step |
| RecorderProgress.StopCompletes | recorder/TestRunnerRecorder.cpp:449-461 | once Stop has set the flag for an activated Record, or there is none and its join throws, no run takes more than a bounded number of thread steps before Stop is over |
| RecorderProgress.StopNeverDeadlocks | recorder/TestRunnerRecorder.cpp:449-461 | until a Stop that is on course is over some thread can step, also while it waits for stop_mtx |
| RecorderProgress.StopStaysOnCourse | recorder/TestRunnerRecorder.cpp:449-461 | a called Stop before whose store Record has taken stop_mtx returns, or stays on course and has, once it has made its store, the bound of StopCompletes; over every run |
| RecorderProgress.ActiveStopIsOnCourse | recorder/TestRunnerRecorder.cpp:463-466 | every Stop called while isActive() is such a one |
| RecorderProgress.NotificationIsNotMissed | recorder/TestRunnerRecorder.cpp:455-473 | while such a Stop waits, over every run, processBuffer is never asleep in its timed wait |
| RecorderProgress.LostStopNeverReturns | recorder/TestRunnerRecorder.cpp:322-326 | a Stop whose store Record overwrites, or is going to, does not return in any continuous run without ESC |
| RecorderProgress.StopCanBeLost | recorder/TestRunnerRecorder.cpp:307-326 | from every stopped recorder with an empty slot there is such a run, in which Stop waits although the flag is set |
| RecorderProgress.StopCanBeLostIff | recorder/TestRunnerRecorder.cpp:307-326 | a Stop called in continuous mode can be lost if and only if, at the call, Record has been started and has not yet locked stop_mtx to activate |
| RecorderProgress.WaitingStopReturnsIff | recorder/TestRunnerRecorder.cpp:449-493 | a waiting Stop returns in every long enough run if the slot is empty or the flag is set for an activated Record, two steps of Record lead there if an ESC has been read, and otherwise it returns in no run without another ESC |
| RecorderProgress.DeadlineEndsRecording | recorder/TestRunnerRecorder.cpp:548-565 | past the deadline a fixed-length Record ends within a bounded number of its steps, whatever the flag says |
| RecorderProgress.DeadlineNeverDeadlocks | recorder/TestRunnerRecorder.cpp:449-461 | until then some thread can step, and then a waiting Stop returns |
| RecorderStart.StartTerminatesIff | recorder/TestRunnerRecorder.cpp:307-311 | Start assigns over a running thread exactly if it finds the flag set and the slot occupied |
| RecorderStart.SecondStartCanTerminate | recorder/TestRunnerRecorder.cpp:307-311 | a second Start before activation does that |
| RecorderStart.EmptySlotStartsAreSafe | recorder/TestRunnerRecorder.cpp:307-311 | runs that call Start only with an empty slot never do |
| RecorderStart.EmptySlotStartIff | recorder/TestRunnerRecorder.cpp:307-311 | a Start called on an empty slot, whatever happens meanwhile, has started a thread when it returns if and only if m_stop was set at the call |
| RecorderStart.OnlyLostStopLeavesActive | recorder/TestRunnerRecorder.cpp:322-369 | a run ends with an empty slot and m_stop unset only if it is a fixed-length one in which a Stop was overwritten and a select failed |
| Counterexamples.ActiveWithoutThread | recorder/TestRunnerRecorder.cpp:366-369 | and every fixed-length recorder has such a run |
| RecorderStart.FailedSelectLeavesActive | recorder/TestRunnerRecorder.cpp:366-369 | a failed select leaves the loop with m_stop unset |
| RecorderStart.FailedSelectStaysActive | recorder/TestRunnerRecorder.cpp:366-369 | from then on isActive() is true, Start does nothing and nothing is recorded, over every run in which Stop is not called |
| RecorderStart.RunEndsProcessIff | recorder/TestRunnerRecorder.cpp:307-311 | a run ends the process exactly if some Start in it reads a set flag with the slot occupied and the RPC thread then makes another step |
| RecorderStart.StartCanTerminateIff | recorder/TestRunnerRecorder.cpp:307-330 | a called Start can end the process if and only if the slot is occupied and the flag is set or Record may yet set it: by the deadline, or by ESC if it has a device |
| Counterexamples.ActiveStartCanTerminate | recorder/TestRunnerRecorder.cpp:393-399 | every continuous recorder with a device comes to be active in a state where it can: ESC may come before isActive() has the lock |
| RecorderStart.ActiveStartIsInvisible | recorder/TestRunnerRecorder.cpp:307-311 | a Start that reads m_stop false changes nothing: over every interleaving the other threads can make the same steps without it and reach the same state |
| RecorderStart.StopIsNeverUndone | recorder/TestRunnerRecorder.cpp:322-326 | once set after activation, m_stop stays set over every run until Start is called |
| RecorderObject.TestRunnerRecorder.constructor | recorder/TestRunnerRecorder.cpp:29-60 | stored length modulo 2^32, exact up to 4294967 seconds; default mask selects every device; the object is in the initial state of the step system |
| RecorderObject.TestRunnerRecorder.SetDevicesToRecord | recorder/TestRunnerRecorder.cpp:291-305 | afterwards decoding the mask gives exactly the available devices whose fd was requested, in order |
| RecorderObject.TestRunnerRecorder.DevicesToRecord | recorder/TestRunnerRecorder.cpp:333-341 | the decoding loop gives the selected devices and their largest fd |
| RecorderObject.TestRunnerRecorder.Activate | recorder/TestRunnerRecorder.cpp:322-349 | the object then is in the state to which the step system's activation leads, run without interruption; a fixed-length file then is just its header |
| RecorderObject.TestRunnerRecorder.RequestStop | recorder/TestRunnerRecorder.cpp:449-454 | stopped now; and from every state of the step system in which Stop holds the lock, the object then is in the state after Stop's critical section |
| RecorderObject.TestRunnerRecorder.IsDone | recorder/TestRunnerRecorder.cpp:548-565 | done exactly if stopped or, fixed length, past the deadline, and then stopped |
| RecorderObject.DoneShown | recorder/TestRunnerRecorder.cpp:353 | the step system's Record leaves its loop exactly if is_done answers so, with the same object |
| RecorderObject.TestRunnerRecorder.ServeRound | recorder/TestRunnerRecorder.cpp:371-440 | a round appends the transformed non-ESC events of its devices in order, to buffer or file by mode, and stops exactly on ESC, at the time of the last one |
| RecorderObject.RoundShown | recorder/TestRunnerRecorder.cpp:371-440 | the step system's round, run without interruption, leaves the same object and, in the file, the text of its records |
| RecorderObject.TestRunnerRecorder.HandleDelivery | recorder/TestRunnerRecorder.cpp:376-432 | an ESC key event stops and stamps and is not recorded; any other event appends one record: its time, the device's kind, type and code, the value as read or for a position scaled with its own axis, the keysym for key events of keyboards only |
| RecorderObject.TestRunnerRecorder.RecordLoop | recorder/TestRunnerRecorder.cpp:353-440 | a pass is served exactly if the recorder was not stopped, no earlier pass delivered an ESC and none up to it came past the deadline; the records are those of the passes served, and the flag is set exactly if one of these ended the loop |
| RecorderObject.TestRunnerRecorder.RecordFixedLength | recorder/TestRunnerRecorder.cpp:313-447 | a fixed-length recording that nobody stops leaves the header and the lines of exactly the deliveries up to the pass with the first ESC or the deadline |
| RecorderObject.TestRunnerRecorder.PeriodicTrim | recorder/TestRunnerRecorder.cpp:475-482 | the loop leaves the trimmed buffer |
| RecorderObject.TestRunnerRecorder.FinalTrim | recorder/TestRunnerRecorder.cpp:485-493 | the loop leaves the buffer trimmed by time only |
| RecorderObject.TestRunnerRecorder.WriteDump | recorder/TestRunnerRecorder.cpp:495-521 | the text is header and lines of the whole buffer |
| RecorderObject.DumpShown | recorder/TestRunnerRecorder.cpp:495-521 | with the header and records of the dump the step system logs next |
| RecorderObject.TestRunnerRecorder.FinishBuffer | recorder/TestRunnerRecorder.cpp:484-521 | final pass and dump together |
| RecorderSections.TrimmedIsWindow | recorder/TestRunnerRecorder.cpp:475-493 | on ordered records, popping from the front equals cutting at the pass's start |
| RecorderObject.TrimShown | recorder/TestRunnerRecorder.cpp:476-493 | the step system's trim loop leaves the same buffer and goes on to the next loop test or to the dump |
| RecorderObject.PassShown | recorder/TestRunnerRecorder.cpp:469-482 | a turn of the step system's processBuffer loop, run without interruption, is a periodic trim of the object at the time of the clock |
| RecorderObject.FinishShown | recorder/TestRunnerRecorder.cpp:484-521 | and its end is the final trim at m_stop_time and one dump with the object's header and records |
| DeviceMask.BitsAreIndependent | recorder/TestRunnerRecorder.cpp:301-303 | setting a bit changes the answer for that device only |
| DeviceMask.MaskRoundTrip | recorder/TestRunnerRecorder.cpp:291-341 | a mask whose bits say which fds were requested decodes to exactly those devices |
| DeviceMask.DefaultMaskSelectsAll | recorder/TestRunnerRecorder.cpp:37 | the default mask decodes to every available device |
| DeviceMask.WantedIsExact | recorder/TestRunnerRecorder.cpp:294-304 | each requested available device is picked as often as it is available, no other at all |
| DoubleArithmetic.RoundingError | recorder/TestRunnerRecorder.cpp:534-545 | a rounded operation has relative error at most 2^-53 |
| DoubleArithmetic.RoundingMonotone | recorder/TestRunnerRecorder.cpp:534-545 | rounding keeps order |
| DoubleArithmetic.RoundingIsToNearest | recorder/TestRunnerRecorder.cpp:534-545 | no double is nearer to the exact result than the one chosen |
| DoubleArithmetic.IntegersAreExact | recorder/TestRunnerRecorder.cpp:531-545 | converting an int to double loses nothing |
| TouchScaling.ScaleIsFloor | recorder/TestRunnerRecorder.cpp:523-546 | the scaled value is the exact floor of (val-min)*MAX/(max-min), or one less if that division is exact, and lies in 0..MAX |
| TouchScaling.ScaleIsMonotone | recorder/TestRunnerRecorder.cpp:523-546 | scaling keeps the order of positions |
| DoubleArithmetic.RoundingReaches | recorder/TestRunnerRecorder.cpp:544-545 | a product rounds to a whole number or more exactly from half a double's distance below it |
| TouchScaling.ScaleIsExactIff | recorder/TestRunnerRecorder.cpp:523-546 | it is the floor exactly if the division has a remainder or the position times the rounded factor comes within half a double's distance of the quotient |
| TouchScaling.ScaleIsExactUnlessRoundedDown | recorder/TestRunnerRecorder.cpp:534-545 | it is exactly the floor whenever the factor was not rounded down |
| TouchScaling.ScaleOfEmptyRange | recorder/TestRunnerRecorder.cpp:534-545 | an axis without a range gives 0 |
| TouchScaling.ScaleIsOdd | recorder/TestRunnerRecorder.cpp:523-546 | below the minimum the scale goes on symmetrically, truncation being toward zero |
| TouchScaling.FarEdgeMayBeMissed | recorder/TestRunnerRecorder.cpp:534-545 | with native range 0..19 the far edge becomes 15999, not 16000 |
| InputEvents.TransformedTouchFits | recorder/TestRunnerRecorder.cpp:383-391 | a position is scaled with its own axis into the range the virtual device was configured with, other events are unchanged |
| InputEvents.TransformedKeepsKind | recorder/TestRunnerRecorder.cpp:383-399 | ESC is the same before and after the transformation |
| RecordingFormat.ReadTimeOf | recorder/TestRunnerRecorder.cpp:573-590 | a printed time reads back modulo 24 hours |
| RecordingFormat.ReadLineOf | recorder/TestRunnerRecorder.cpp:511-520 | a printed line reads back as its record, keysym 0 being the absent field |
| RecordingFormat.FileRoundTrip | recorder/TestRunnerRecorder.cpp:508-520 | reading a written file gives the header's time of day and every record |
| RecordingFormat.FileReadsIff | recorder/TestRunnerRecorder.cpp:573-590 | a file with any header can be read exactly if the header is not before the epoch or whole days before it |
| RecordingFormat.FilesDetermineRecordings | recorder/TestRunnerRecorder.cpp:508-520 | recordings that differ, times taken modulo 24 hours, are never written alike |
| RecordingFormat.WriteDumpText | recorder/TestRunnerRecorder.cpp:508-520 | the writing loop yields header and lines in order |
| RecordingFormat.StreamedLineIsLine | recorder/TestRunnerRecorder.cpp:416-425 | the print statement of Record and that of processBuffer give the same line |
| RecordingFormat.WritersAgree | recorder/TestRunnerRecorder.cpp:343-425 | so streaming and dumping the same records write the same file |
| RecordingFormat.TimeTextIsClock | recorder/TestRunnerRecorder.cpp:573-590 | a non-negative time prints as hh:mm:ss.mmm, always twelve characters |
| RecordingFormat.TimeTextOrder | recorder/TestRunnerRecorder.cpp:573-590 | within a day dictionary order of printed times is the order of time |
| KeysymSearch.ResolvedIsLeast | server/TestRunnerServer.cpp:159-180 | the result is the code of the lexicographically least (level, code) that yields the symbol, and 0 exactly if there is none |
| KeysymSearch.ResolvedIsLeastKeycode | server/TestRunnerServer.cpp:159-180 | in the keymap's own keycodes: the result is 8 below the least keycode from 9 on that yields the symbol at the lower level |
| KeysymSearch.ResolveKeysym | server/TestRunnerServer.cpp:159-180 | the nested loops compute it, also without a keymap |
| MultiTouch.EncodingPreservesMeaning | server/TestRunnerServer.cpp:472-501 | the slot machine run over the written events shows the contacts that begin, move and lift give, for every list with slots 0..4 and every machine |
| MultiTouch.TouchIsShown | server/TestRunnerServer.cpp:476-497 | after one touch its slot shows a contact where it says, with its identity or the one the slot had, or none after a lift |
| MultiTouch.MeaningPreservedIffInRange | server/TestRunnerServer.cpp:312-313 | a touch is understood by every machine exactly if its slot is in 0..4 |
| MultiTouch.OutOfRangeTouchMisplaced | server/TestRunnerServer.cpp:480-496 | a touch outside that range changes the contact of another slot |
| MultiTouch.UnnamedSlotUntouched | server/TestRunnerServer.cpp:476-497 | slots the list does not name keep their contact |
| MultiTouch.DistinctSlotsCommute | server/TestRunnerServer.cpp:476-497 | touches of different slots commute |
| MultiTouch.CallsMaySplit | server/TestRunnerServer.cpp:472-501 | one call on a list and two calls on its parts leave the same machine |
| InputServer.TestRunnerServer.Emit | server/TestRunnerServer.cpp:524-536 | one event with 16-bit type and code, nothing if the device is not open |
| InputServer.TestRunnerServer.HandleMouseMove | server/TestRunnerServer.cpp:380-390 | writes the request's frame to the mouse |
| InputServer.TestRunnerServer.HandleMouseClick | server/TestRunnerServer.cpp:392-402 | writes the request's frame to the mouse |
| InputServer.TestRunnerServer.HandleKeyPress | server/TestRunnerServer.cpp:404-449 | writes the resolved key's frame to the keyboard, or nothing |
| InputServer.TestRunnerServer.HandleSingleTouch | server/TestRunnerServer.cpp:451-470 | writes the request's frame to the touchscreen, leaving out negative coordinates |
| InputServer.TestRunnerServer.HandleMultiTouch | server/TestRunnerServer.cpp:472-501 | writes the encoding of the whole list and one SYN_REPORT |
| InputServer.TestRunnerServer.HandlePassThrough | server/TestRunnerServer.cpp:503-514 | writes the one event to the named device |
| InputServer.TestRunnerServer.ServeAll | server/TestRunnerServer.cpp:380-514 | a run of requests appends what each of them means, in order |
| InputServer.DeviceStream | server/TestRunnerServer.h:63-68 | a device receives the events of its own requests and nothing else |
| InputServer.OnlyOpenDevicesAreWritten | server/TestRunnerServer.cpp:524-536 | every write of a run goes to the open device some request of it is for |
| InputServer.RequestsWriteFrames | server/TestRunnerServer.cpp:380-501 | every request but a pass-through writes one frame with one SYN_REPORT at its end, or nothing |
| InputServer.DevicesReceiveFrames | server/TestRunnerServer.cpp:380-501 | over any run without pass-through to it, cutting a device's stream at SYN_REPORT gives back the frames of its requests with nothing left over |
| InputServer.KeyPressBySymbol | server/TestRunnerServer.cpp:413-446 | a key press by symbol or by name writes the least matching key and one SYN_REPORT, or nothing if the name is unknown or no key yields the symbol |
| DeviceReaders.PointerFollowsRequests | server/TestRunnerServer.cpp:380-402 | over any run that passes nothing through to the mouse, its reader sees the pointer move by the sums of relX and of relY, and each button as its last click said |
| DeviceReaders.KeysFollowRequests | server/TestRunnerServer.cpp:404-449 | likewise the keyboard's reader sees down exactly the keys that the presses and releases leave down |
| DeviceReaders.TouchFollowsRequests | server/TestRunnerServer.cpp:451-470 | and the touchscreen's reader the last position that is not negative on each axis, and contact exactly if the last touch was pressed |
| InputServer.TouchscreenShowsAllTouches | server/TestRunnerServer.cpp:472-501 | after any run that passes nothing through to it, the multi-touch device shows the contacts of all touches played in order |
| RecorderRegistry.RecordersAreIndependent | server/TestRunnerServer.cpp:597-649 | a recorder's state after any run is that of the operations on its own index alone |
| RecorderRegistry.AsManyAsFit | server/TestRunnerServer.cpp:572-578 | a run ends with the smaller of 20 and the number of accepted creations |
| RecorderRegistry.IndexNamesCreation | server/TestRunnerServer.cpp:562-580 | index k names the k-th accepted creation for good, with its name, length and mode |
| RecorderRegistry.AnswersAreIndices | server/TestRunnerServer.cpp:562-580 | a creation answers the new index, or 255 with no change exactly if the name is bad or 20 exist |
| RecorderRegistry.NamesDecide | server/TestRunnerServer.cpp:565-578 | a name with a slash or two dots anywhere is answered 255, any other makes a recorder while there are fewer than twenty |
| RecorderRegistry.OneCallStep | docs/ARCHITECTURE.md:111 | with one RPC thread no two recorders are in a call at the same time |
| RecorderRegistry.LostStopBlocksServer | docs/ARCHITECTURE.md:111 | a Stop lost on one recorder ends all calls to all recorders until an ESC arrives there |
| RecorderRegistry.CustomRecorders.CreateCustomRecorder | server/TestRunnerServer.cpp:562-580 | the method performs that operation |
| RecorderRegistry.CustomRecorders.CallRecorder | server/TestRunnerServer.cpp:597-649 | the method performs the call on the recorder at the index, or does nothing |
| RecorderRegistry.CallReachesRecorder | server/TestRunnerServer.cpp:597-649 | a call or step that is possible is the recorder's own next step |
| RecorderRegistry.RegisteredRecorderRuns | server/TestRunnerServer.cpp:597-649 | over any possible run, a registered recorder makes a legal run of its own: exactly the labels addressed to it |
| RecorderRegistry.RegisteredAreReachable | server/TestRunnerServer.cpp:573-575 | so every registered recorder is a reachable one, and all theorems on reachable recorders hold of it |
| Replay.ReplayGivesRecordedEvents | server/TestRunnerServer.cpp:503-514 | the two device numberings agree and no field loses bits: the requests of a recording's lines mean its events |
| Replay.FileReplays | server/TestRunnerServer.cpp:503-536 | a written file, read and passed through, writes to every open device exactly the recorded events of its kind |
| Replay.DumpReplays | recorder/TestRunnerRecorder.cpp:495-521 | replaying the lines of any dump of any run gives each device the events of its kind in the exact window of history; the whole file reads exactly if its header is not before the epoch or whole days before it |
| Replay.NothingIsDropped | recorder/TestRunnerRecorder.h:28-34 | every record of a known device is played on one of the four |
| Replay.ShortSessionDumpsStreamIff | recorder/TestRunnerRecorder.cpp:502-520 | a session shorter than the window dumps the file that streaming would have written of what it has pushed exactly if the passes so far condemned all records of earlier sessions and none of its own |

## Left out

- Cap'n Proto transport, the client libraries and their time-outs: wrappers over other libraries.
- Device discovery, uinput set-up and libinput profiles: I/O; the list of devices is a parameter.
- XKB internals: the keymap is an arbitrary function, the recorder's keysym an input.
- The AglHealth and WestonScreenshooter plugins, logging, argument parsing, file names and the Python scripts.
- The recorder's destructor: it makes the same steps as Stop on an occupied slot.
- Failing writes: a write to an open descriptor is taken to succeed.
- Scheduling and real time: bounds are in thread steps, and `select`, `read` and `wait_for` are taken to return.
- Signed overflow in `val - minimum` and in conversions of out-of-range positions: not defined in the original; `ScaleIsFloor` covers positions inside the native range, `ScaleIsOdd` carries it to as far below the minimum.
- RecordingFormat.FileRoundTrip: stated for times that are not negative, as the clock's are; `FileReadsIff` adds negative headers.
- The device mask: `setDevicesToRecord` clears and sets bits one by one, and a `Record` that decodes the mask meanwhile may see some of them; here the mask changes in one step.
- RecorderObject.TestRunnerRecorder.WriteDump: the path and the write itself are not modelled, only the text.
