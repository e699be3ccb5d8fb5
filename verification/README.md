# Timelapse+ firmware: verified model

A Dafny model of the algorithmic core of the Timelapse+ intervalometer firmware, with
proofs of what that core is relied on for. `dafny verify dfyconfig.toml` checks all of it.

Floats are modelled as reals and casts to unsigned integers as floors. State that the
firmware updates in place is a class. Its fields are proved to follow a state machine (or a
map) call by call; the theorems are about all sequences of calls, and the methods that
callers use promise what these say.

| files | component |
|---|---|
| `EosFraming`, `PtpDriver` | the PTP data phase moved through a 900-byte window with carry-over, and the Canon EOS event reader on top of it |
| `BulbShift`, `Steppers`, `Exposure`, `ExposureTheorems`, `ExposureBytes`, `ExposureOptimality`, `ExposureLadders` | the exposure allocator, which trades bulb time against aperture and ISO and keeps the shift in a signed byte |
| `ClockSpec`, `ClockDevice`, `ClockTheorems` | the millisecond tick: time, bulb, PC sync, delayed callbacks |
| `Motion`, `RunSpec`, `RunMachine`, `RunTheorems`, `RunProgress`, `RunWaits` | the run of a program: counting, failures, motion time, reaching the end |
| `Curve`, `Keyframes`, `KeyframeShape`, `KeyframeGroup` | keyframe interpolation, editing and rebasing |
| `Nmx` | motor packets and position tracking |
| `Sorting`, `MiddleMean` | bubble sort and the outlier-robust mean |
| `Settings`, `SettingsTheorems`, `SettingsStore` | the five-slot store of per-camera settings |

## Main results

* **Windowed reading equals whole-stream reading.** Whatever payloads of 1 to 896 bytes a camera
  sends, under 64 KB in all, each behind its little-endian length, the windowed loop hands out
  exactly those messages, in order, reports no error and leaves the driver ready for the next
  poll (`CheckEvent`); the loop ends on every stream, malformed ones included. Every successful
  fetch keeps the window a contiguous slice of the data phase (`FetchData`).
* **The allocator conserves exposure in its signed byte.** Every step between codes of the tables
  moves the byte by the difference of the codes, with automatic ISO taken for -2 and an error
  for -1, and never wraps it around, however long the run (`FoldedConservation`,
  `ShiftFitsSignedByte`). So exposure is *not* conserved from every start: from automatic ISO a
  frame that is too long is made longer (`ReservedIsoLengthens`, `AutoStart`).
  `AlwaysExactExactly` proves when the shift is the real drift of aperture and ISO.
* **The allocator moves each control just far enough.** Opening and raising stop at the first
  stop that fits, lowering and closing go on as long as the time stays below its maximum
  (`OpensNoFurther`, `RaisesNoFurther`, `LowersAsFarAsFits`, `ClosesAsFarAsFits` and their
  counterparts for values outside list or limit).
* **The allocator is capped and locally optimal.** `Capped`, `NoApertureStepLeft`,
  `NoIsoStepLeft`; its loops end for every ordered list and any current value. Local optimality
  for ISO is *not* unconditional. A closing step reduces an aperture beyond its upper limit, so
  the last loop steps back and frees room that ISO is not offered again. The current aperture
  can be such a value (`BackstepLeavesIsoStep`), and so can the one that opening ends at, with
  limits that are the wrong way round or off the lens's range (`WideningLeavesIsoStep`,
  `CrossedLimits`). `IsoAlwaysSpentExactly` proves, for the lists and limits of the tables and
  each maximum, that these two are the exact condition. Likewise the aperture handed back is the
  one accounted for exactly when no reserved code can be offered (`NeverLeaksExactly`).
* **Clock.** No tick is lost; a bulb ends exactly on time (`BulbLastsExactly`), also after a PC sync. A delayed
  callback is *not* always on time. It is due early by the skipped ticks still to be made up
  for, which is always the case for requests made as a bulb starts or ends
  (`HookRequestsEarly`) and for a callback's own request in a slot the sweep has yet to visit
  (`SweepRequests`). On the tick it is due it fires exactly when that tick is not skipped
  (`OnTimeExactly`); otherwise its 16-bit countdown wraps around and it is silent until 65536
  ticks later (`MissedIsLate`, `LateExactly`; `MissesDueTick` is a case). A request made between ticks
  fires on the tick asked for if and only if no skipped tick is pending and that tick is not
  skipped (`PunctualExactly`).
* **Runs.** Exposures fired and missed always make up the photos counted; a run by count ends
  with exactly the exposures asked for, never fires one too many, and does end, given enough
  calls that find what they wait for (`EndsAfterExactly`, `ExposuresAccountedFor`, `RunEnds`).
  A release that fails costs its exposure unless it belongs to an unfinished bracket
  (`FailedRelease`). The motion lag is bounded over runs of
  any length (`MotionLagOverRun`), and frames keep their intervals (`IntervalsKept`). The timer
  object keeps this account through every call (`Timer.Step`). What each call waits for and does
  is exact (`RunWaits`); nothing is fired before the delay is over or the trigger has come. The pause between exposures is
  *not* kept exactly: compared in eight bits, it holds an exposure up again after 2.56 seconds
  (`PauseExactly`, `HeldUpExactly`).
* **Keyframes.** Interpolation passes through all keyframes, is continuous at them, local, within
  one eighth of the values' range, and moves with the values when a group is rebased. Segments
  meet with the same slope and reproduce quadratics (`SlopesAtKeyframes`, `QuadraticsExactly`),
  but *not* between two equal values, where the curve is flat. Fitting a
  group to a run keeps it in order exactly when its interior frames fall within the run.
* **Robust mean.** Changing up to a quarter of the readings arbitrarily cannot move the result
  out of the range of the others. Bubble sort makes exactly as many swaps as there are inversions.
* **Settings.** With up to five cameras the slots are indistinguishable from a map over every
  sequence of operations (`RunRefines`); beyond that they still hold a map, from which a new
  camera drops exactly one entry (`AnyRunServed`). The store itself keeps this refinement.

## Model

| member | source | states |
|---|---|---|
| EosFraming.ParseFlatten | src/PTP.cpp:1280-1609 | for every list of framed events, parsing their concatenation gives back that list |
| EosFraming.FlattenParse | src/PTP.cpp:1280-1609 | parsing loses no byte, keeps order and yields framed events only |
| EosFraming.WireParses | src/PTP.cpp:1296-1299 | messages sent back to back, each a little-endian length in four bytes and its payload, parse into exactly those messages |
| PtpDriver.Driver.ReadData | src/PTP_Driver.c:277-282 | a bulk read puts the next n bytes of the data phase at the given place, keeps what is before it, and fails only by a fault or a short phase |
| PtpDriver.Driver.ReceiveDataPhase | src/PTP_Driver.c:192-234 | with a conforming camera the window holds the first 900 bytes or all of the data phase, and more data is reported exactly when some is unread; a header that announces nothing fails with nothing received and its refusal as the response code |
| PtpDriver.Driver.ReceiveHeader | src/PTP_Driver.c:194-217 | the announced length, in 16 bits, is the received count also when the header's transfer fails; a foreign code or a short length fails and is recorded |
| PtpDriver.Driver.Transaction | src/PTP_Driver.c:165-263 | a pending error or an unfinished phase is respected; from idle, a conforming camera's data phase is in the window and the return value says whether more follows; a failure is recorded under the operation with a response code that is never OK, success means OK, busy or errors ignored, and without data the two are told apart exactly by the response |
| PtpDriver.Driver.FetchData | src/PTP_Driver.c:265-305 | every successful fetch with any carry-over below 900 keeps the window the contiguous slice ending at the unread part, full while anything is unread; bytes fetched and return value are exact; without faults it succeeds |
| PtpDriver.Driver.Resynchronise | src/PTP.cpp:1308-1358 | skipping an oversized event always makes progress; while data remain it lands on the first non-zero byte from exactly one windowful before the end of that event on |
| PtpDriver.Driver.Refill | src/PTP.cpp:1286-1292 | fetching with carry-over continues at the same position of the stream |
| PtpDriver.Driver.NextEvent | src/PTP.cpp:1299-1378 | an event wholly in the window is exactly the next event of the whole-stream parse; one that is not has more data to come |
| PtpDriver.Driver.Turn | src/PTP.cpp:1280-1609 | each turn of the loop keeps delivered events plus the parse of the rest equal to the whole parse, never fails on a well-formed stream, and strictly lowers (bytes remaining, unread bytes in window) |
| PtpDriver.Driver.CheckEvent | src/PTP.cpp:1244-1611 | for all payloads of 1 to 896 bytes, under 64 KB in all, sent as a little-endian length and the payload, the events handed out are exactly those messages, in order, without error, and the driver is idle again; for every well-formed stream they are the whole-stream parse |
| BulbShift.ShiftBulb | src/PTP.cpp:721-743 | the multiplying and dividing loops compute one scaling by the power of the cube root of two, rounded down, for every signed byte on which they end |
| BulbShift.ShiftedMonotone | src/PTP.cpp:721-743 | a larger shift never gives a shorter time |
| BulbShift.RoundedDown | src/PTP.cpp:742 | whole milliseconds, rounded down; no shift is exact |
| BulbShift.ThreeThirdsDouble | src/PTP.cpp:721-743 | three third-stops double the time to ten digits |
| Steppers.StepIsoUp | src/PTP.cpp:210-231 | the search loop computes the ISO-up step, an empty list included |
| Steppers.StepIsoDown | src/PTP.cpp:233-251 | the search loop computes the ISO-down step, an empty list included |
| Steppers.StepApertureUp | src/PTP.cpp:371-391 | the search loop computes the aperture-up step |
| Steppers.StepApertureDown | src/PTP.cpp:393-413 | the search loop computes the aperture-down step |
| Steppers.ApertureUpIsNeighbour | src/PTP.cpp:371-391 | from a listed value the step is the next larger stop cut off at the limit, none passed over, and moves exactly when limit and list allow it |
| Steppers.ApertureDownIsNeighbour | src/PTP.cpp:393-413 | the same towards smaller codes |
| Steppers.IsoUpIsNeighbour | src/PTP.cpp:210-231 | the same for ISO towards higher sensitivity |
| Steppers.IsoDownIsNeighbour | src/PTP.cpp:233-251 | the same for ISO towards lower sensitivity |
| Steppers.ApertureUpSteps | src/PTP.cpp:371-391 | one step from any value, listed or not, lands where further steps only go up |
| Steppers.ApertureDownSteps | src/PTP.cpp:393-413 | one step from any value lands where further steps only go down |
| Steppers.IsoUpSteps | src/PTP.cpp:210-231 | one step from any value lands where further steps only go down |
| Exposure.RanksDecrease | src/shutter.cpp:1452-1535 | every step that moves a value lowers that control's rank, also when it is clamped to a limit outside the list: the loops end |
| Exposure.ApertureTabled | src/shutter.cpp:1447-1463 | a step to any aperture code of the table moves the signed byte by the difference of the folded codes: it does not wrap around and never is -128 |
| Exposure.IsoTabled | src/shutter.cpp:1447-1483 | the same for ISO codes, automatic ISO included |
| Exposure.OpenApertureLoop | src/shutter.cpp:1449-1467 | the first loop computes its specification and adds the shift to the caller's, both in a signed byte, from table codes of any kind |
| Exposure.RaiseIsoLoop | src/shutter.cpp:1469-1487 | the same for the second loop, a start on automatic ISO included |
| Exposure.LowerIsoLoop | src/shutter.cpp:1490-1511 | the same for the third loop |
| Exposure.CloseApertureLoop | src/shutter.cpp:1514-1536 | the same for the fourth loop, which leaves the offered code in its result when it stops at a reserved one |
| Exposure.CalculateExposure | src/shutter.cpp:1439-1553 | aperture, ISO, the byte-wide shift and the floored bulb time are those of the allocation; nothing changes without camera support |
| ExposureTheorems.Conservation | src/shutter.cpp:1439-1536 | for any codes: shift = aperture change + ISO change in a signed byte, and the bulb time is one shift of the original by it; disabled controls stay |
| ExposureTheorems.Capped | src/shutter.cpp:1449-1487 | the bulb time set is within its maximum, or every enabled control is at the fixpoint of its step |
| ExposureTheorems.Priorities | src/shutter.cpp:1449-1536 | ISO is raised only once the aperture has nothing left, and the aperture closed only once no ISO step fits |
| ExposureTheorems.NoApertureStepLeft | src/shutter.cpp:1514-1536 | no further usable aperture step keeps the bulb below its maximum |
| ExposureTheorems.NeverLeaksExactly | src/shutter.cpp:1519-1536 | the aperture handed back is always the one accounted for if and only if limit or list ends below the reserved codes |
| ExposureBytes.FoldedConservation | src/shutter.cpp:1447-1536 | from every code a camera can report, the shift is exactly the drift of the folded codes (automatic ISO as -2, an error as -1), within 82 third-stops, and the bulb time one shift by it |
| ExposureBytes.ExactByReserved | src/shutter.cpp:1447-1536 | the shift is the real drift of aperture and ISO if and only if as many codes are reserved as before |
| ExposureBytes.AlwaysExactExactly | src/shutter.cpp:1447-1536 | with the lists and limits of the tables, for frames of all times and each bulb maximum: the shift is the real drift if and only if a ramped aperture is a stop and a ramped ISO is one exactly if the list offers one |
| ExposureBytes.ReservedIsoLengthens | src/shutter.cpp:712 | a run started on automatic ISO makes every frame that is too long longer instead of shorter |
| ExposureBytes.AutoStart | src/PTP_Lists.h:97-105 | with ISO list Auto, 100, 125 the change from automatic ISO by -212 is taken for 44 |
| ExposureBytes.DriftOverRun | src/shutter.cpp:1069 | over any sequence of frames, with limits of their own, the accumulated shift is the total aperture and ISO drift in a signed byte |
| ExposureBytes.ShiftFitsSignedByte | src/shutter.cpp:735 | however long the run and whatever codes it starts from, the shift since it was zeroed is the drift of the folded codes, within 82 third-stops, and the real drift if and only if as many codes are reserved as at the start |
| ExposureOptimality.NoIsoStepLeft | src/shutter.cpp:1490-1536 | from every code a camera can report, no further usable ISO step keeps the bulb below its maximum, unless a closing step reduces the current aperture or the widest one |
| ExposureOptimality.BackstepLeavesIsoStep | src/shutter.cpp:1514-1536 | from every aperture that a closing step reduces, for every maximum from 8 ms, a frame just below it leaves a usable ISO step with a list of three table stops |
| ExposureOptimality.WideningLeavesIsoStep | src/shutter.cpp:1449-1536 | with limits whose widest aperture a closing step reduces, for every maximum from 8 ms and from any aperture, there is a list of table stops and a frame after which a usable ISO step is left |
| ExposureOptimality.CrossedLimits | src/Menu_Map.h:742-743 | such limits can be set in the menu: f/3.2 to f/10 with the two limits the wrong way round, ISO 20000 to 81000, a frame of 1.1 s and a maximum of 1 s leave an ISO step although the current aperture is within its limit |
| ExposureOptimality.WidestStepsBackExactly | src/PTP.cpp:371-413 | the widest aperture is reduced by a closing step if and only if the limits are the wrong way round or do not overlap the lens's range |
| ExposureOptimality.IsoAlwaysSpentExactly | src/shutter.cpp:1449-1536 | for all lists and limits of the tables and each maximum: ISO is spent for every ISO list and limit of the tables, every current ISO and time, if and only if the maximum is zero or a closing step reduces neither the current aperture nor the widest one |
| ExposureLadders.DisabledStays | src/shutter.cpp:1449-1536 | a control that is not ramped or not supported stays |
| ExposureLadders.FittingIsKept | src/shutter.cpp:1452-1487 | a frame that fits is left alone by the first two loops |
| ExposureLadders.OpensNoFurther | src/shutter.cpp:1449-1467 | the aperture is opened to the first stop of the list, from its own towards the lower limit, with which the time fits, or to the widest; with every stop before it the time was too long |
| ExposureLadders.OutsideOpensToWidest | src/shutter.cpp:1449-1467 | from an aperture outside list or limit it goes to the widest at once |
| ExposureLadders.RaisesNoFurther | src/shutter.cpp:1469-1487 | with the aperture opened, ISO is raised to the first stop with which the time fits, or to the highest; with every stop before it the time was too long |
| ExposureLadders.OutsideRaisesToHighest | src/shutter.cpp:1469-1487 | from an ISO outside list or limit it goes to the highest at once, if the aperture was not enough |
| ExposureLadders.LowersAsFarAsFits | src/shutter.cpp:1490-1511 | ISO is lowered stop by stop as long as the time is below the maximum, and no further step would be |
| ExposureLadders.OutsideLowersToFront | src/shutter.cpp:1490-1511 | from an unlisted ISO it goes to the front of the list if the time fits there |
| ExposureLadders.ClosesAsFarAsFits | src/shutter.cpp:1514-1536 | the aperture is closed stop by stop up to its limit as long as the time is below the maximum |
| ExposureLadders.OutsideClosesToLast | src/shutter.cpp:1514-1536 | from an aperture outside list or limit it goes to the last stop within the limit if the time fits there |
| ClockDevice.Clock.Ms | src/clock.cpp:301-304 | the reading is the number of ticks since the clock was started or last reset, whatever was called |
| ClockDevice.Clock.In | src/clock.cpp:373-384 | the first free slot takes the request, due that many ticks later less the skipped ticks to be made up for; with none free nothing changes; what was waiting goes on waiting |
| ClockDevice.Clock.SweepQueue | src/clock.cpp:146-156 | the countdown loop computes the sweep, callbacks that queue further callbacks included |
| ClockDevice.Clock.Count | src/clock.cpp:94-167 | the reading grows by one; every waiting callback comes nearer or fires exactly when due on an unskipped tick; a requested bulb opens with its adjusted duration; a running one counts down and ends once |
| ClockDevice.Clock.StartBulb | src/clock.cpp:342-349 | whatever was running, the next tick opens a bulb of the adjusted duration; callbacks go on waiting |
| ClockDevice.Clock.StopBulb | src/clock.cpp:358-364 | the next tick is not skipped for any bulb; callbacks go on waiting |
| ClockDevice.Clock.ResetTime | src/clock.cpp:188-196 | the reading starts again from zero and no bulb is left; callbacks go on waiting |
| ClockDevice.Clock.TareTime | src/clock.cpp:205-208 | the event counter is zero, the reading and the callbacks are untouched |
| ClockTheorems.MsCountsTicks | src/clock.cpp:94-167 | over any sequence of calls the reading is the number of ticks since the reset, skipped ticks included |
| ClockTheorems.EnqueueAllKeeps | src/clock.cpp:373-384 | a pending slot is never overwritten by any number of requests |
| ClockTheorems.SweepSlot | src/clock.cpp:146-156 | a sweep counts a pending slot down once and fires it once, exactly when it runs out, whatever other callbacks request |
| ClockTheorems.BulbCountsDown | src/clock.cpp:126-136 | a running undisturbed bulb ends after exactly its duration, once; a zero duration lasts 2^32 ticks |
| ClockTheorems.BulbEndsOnTime | src/clock.cpp:99-136 | a requested bulb opens on the next tick and ends exactly its adjusted duration later |
| ClockTheorems.BulbEndsAfterSync | src/clock.cpp:137-144 | after a PC sync seen before expiry the bulb ends exactly the sync duration later, whatever the contact does then |
| ClockTheorems.BulbLastsExactly | src/clock.cpp:99-136 | over any undisturbed calls the log shows the start on the next tick and the end exactly d plus or minus the offset ticks later, 2000 later still if a required sync is not seen, in 32 bits |
| ClockTheorems.SkippedExactly | src/clock.cpp:97-144 | the skipped ticks are exactly those on which a bulb starts, ends or sees its sync |
| ClockTheorems.EventMsCountsTicks | src/clock.cpp:97 | the event counter is the number of ticks since it was last zeroed |
| ClockTheorems.SecondsCount | src/clock.cpp:158-166 | seconds are the whole thousands of the reading after an unskipped tick |
| ClockTheorems.WaitingStep | src/clock.cpp:94-167 | any operation leaves a waiting slot waiting with its due time counted down, or fires it, exactly on an unskipped tick with due time one |
| ClockTheorems.NotEarly | src/clock.cpp:146-156 | a callback due in any number of ticks does not fire before them, whatever is called meanwhile |
| ClockTheorems.OnTimeExactly | src/clock.cpp:146-156 | a callback fires on the tick it is due if and only if that tick is not skipped |
| ClockTheorems.MissedIsLate | src/clock.cpp:150-151 | a callback that missed its due tick stays silent for 65535 more ticks |
| ClockTheorems.LateExactly | src/clock.cpp:150-151 | it fires on the tick after those if and only if that one is not skipped |
| ClockTheorems.FiredOrMissed | src/clock.cpp:146-156 | from its due tick on a callback has fired or is known to have missed it, over any calls |
| ClockTheorems.PunctualExactly | src/clock.cpp:373-384 | a request is due early by the skipped ticks to be made up for, and fires for the first time on exactly the tick asked for if and only if there are none and that tick is not skipped |
| ClockTheorems.HookRequestsEarly | src/clock.cpp:129-135 | what the start or the end of a bulb requests is due at least one tick early |
| ClockTheorems.SweepRequests | src/clock.cpp:146-156 | a callback's own request is due when asked for in a slot the sweep has passed, and early, at once or missed in one it has yet to visit |
| ClockTheorems.MissesDueTick | src/clock.cpp:99-124 | on a clock just started, one millisecond and then a bulb are asked for: the callback misses its tick |
| Motion.LagBounded | src/shutter.cpp:1257-1270 | with frames late by at most L, the clock leads motion time by at most 64 L at every gap and the correction never exceeds L |
| Motion.NotAhead | src/shutter.cpp:1257-1270 | with frames never early either, motion time is never ahead by more than L |
| Motion.LagCaughtUp | src/shutter.cpp:1257-1270 | whatever the lag, after 64 frames on the dot the motors are less than 64 ms behind |
| RunMachine.Timer.Step | src/shutter.cpp:847-1434 | after any calls on the timer: fired and missed exposures make up the photos counted and the one in progress, the numbers shown add up, motion time is that of the gaps, a run by count fires none too many and, when it has ended, exactly those asked for, less the missed; the delay lasts until the first call that finds it over and nothing happens before; the call fires exactly when it should |
| RunTheorems.TaskKept | src/shutter.cpp:847-1434 | every uncancelled call keeps the account of exposures, the photo count, the numbers shown and the motion time, whatever fails |
| RunTheorems.ExposuresAccountedFor | src/shutter.cpp:892-925 | over every uncancelled run: fired + missed = photos x exposures per photo + exposures so far (+ one in progress), taken + remaining = photos asked for, and a run by count never fires an exposure too many |
| RunTheorems.FailedRelease | src/shutter.cpp:1164-1171 | after a failed release and recovery the photo is counted without its exposure, except in an unfinished bracket, where it is repeated |
| RunTheorems.EndsAfterExactly | src/shutter.cpp:1212-1248 | a run by count ends with exactly photos x exposures per photo fired, less those missed through failures |
| RunTheorems.MotionLagOverRun | src/shutter.cpp:1257-1270 | in every uncancelled run the motion time is that of its gaps, with the lag bounds |
| RunTheorems.IntervalsKept | src/shutter.cpp:1317-1326 | in every uncancelled run each frame is due at least its interval after the one before |
| RunTheorems.PauseKept | src/shutter.cpp:892 | no exposure is fired before the pause after the last one is over |
| RunTheorems.PauseExactly | src/shutter.cpp:892 | an exposure may be fired if and only if the time since the last one, modulo 2.56 seconds, is at least the pause |
| RunTheorems.HeldUpExactly | src/shutter.cpp:892 | so it is held up although the pause is over if and only if 2.56 seconds have passed and the current turn of 2.56 seconds is younger than the pause |
| RunWaits.DelayExactly | src/shutter.cpp:854-890 | in every uncancelled run without an outside trigger the delay lasts until the first call that finds it over, and nothing has happened until then |
| RunWaits.NothingBeforeDelay | src/shutter.cpp:863 | no exposure is fired before some call found the delay over |
| RunWaits.NothingBeforeTrigger | src/shutter.cpp:886-889 | with an outside trigger, none before the contact has closed and opened, unless the first call found the delay over |
| RunWaits.FiresExactly | src/shutter.cpp:854-1171 | a call fires one exposure exactly when delay or pause are over and the camera takes settings and release, and never more than one |
| RunWaits.ReleaseFailsExactly | src/shutter.cpp:1080-1171 | a release that does not come off fires and counts nothing, and is tried again or waits for the camera |
| RunWaits.ExposureEndsExactly | src/shutter.cpp:1180-1193 | an exposure counts exactly when the bulb is closed |
| RunWaits.PhotoClosedExactly | src/shutter.cpp:1195-1248 | a photo is closed exactly when the camera is there and its bracket complete, and the run stops then exactly when count or time is reached |
| RunWaits.GapExactly | src/shutter.cpp:1250-1344 | the next frame is due exactly when focus and motors are at rest and the interval has passed |
| RunWaits.TriggerExactly | src/shutter.cpp:1346-1373 | a contact that closes and opens starts a frame and sets the interval; ten missed intervals end the run |
| RunWaits.ErrorLeftExactly | src/shutter.cpp:1375-1390 | an error is left exactly when the camera is back |
| RunWaits.CancelEnds | src/shutter.cpp:847-853 | a cancelled run stops in that call and fires nothing |
| RunWaits.IntervalTaken | src/shutter.cpp:1040-1067 | a ramp takes its interval with each release |
| RunWaits.EndNoted | src/shutter.cpp:1195-1211 | the end of an exposure is noted once, by the first call that finds it done |
| RunWaits.GapEnteredOnce | src/shutter.cpp:1252-1270 | a gap is entered once, with the clock and interval of that moment, and motion time advances only then |
| RunProgress.TaskNearer | src/shutter.cpp:847-1434 | no error-free call takes a run by count further from its end, and one that finds what it waits for brings it nearer |
| RunProgress.RunEnds | src/shutter.cpp:1231-1240 | after enough productive calls the run is over, with exactly the exposures asked for |
| Curve.Ends | src/math.cpp:29-52 | the curve meets both of its keyframes in both modes |
| Curve.Translated | src/math.cpp:29-52 | moving all control values moves the curve |
| Curve.Overshoot | src/math.cpp:29-52 | the spline stays within an eighth of the range of its control values, the line between its ends |
| Curve.Continuous | src/math.cpp:29-52 | the distance from either keyframe's value is bounded in proportion to the time from it |
| Keyframes.InterpolateKeyframe | src/shutter.cpp:2006-2044 | the search loop and choice of control values compute the interpolation, wherever it is defined |
| Keyframes.AlwaysDefined | src/shutter.cpp:2041-2043 | ordered groups starting at zero never divide by zero or look before their start |
| Keyframes.PassesThrough | src/shutter.cpp:2006-2044 | the interpolation has each keyframe's value at its time |
| Keyframes.Bounded | src/shutter.cpp:2006-2044 | the interpolation stays within an eighth of the values' range |
| Keyframes.LinearBetween | src/shutter.cpp:2006-2044 | in linear mode it stays between the two neighbours |
| Keyframes.ContinuousAtKeyframes | src/shutter.cpp:2006-2044 | segments meet without a jump |
| Keyframes.Local | src/shutter.cpp:2012-2040 | editing keyframe j changes nothing up to keyframe j-2 and from keyframe j+2 on |
| Keyframes.RebasingKeepsDistance | src/shutter.cpp:2113-2123 | target minus position is the same before and after rebasing, at every time and in both modes |
| Keyframes.RebasingMovesOneStep | src/shutter.cpp:2113-2123 | with targets cut to whole steps a move changes by one step at most |
| Keyframes.OnTheLine | src/Menu.cpp:1805-1824 | in linear mode, adding a keyframe on the line between two others changes no interpolated value |
| KeyframeShape.QuadraticsExactly | src/math.cpp:29-52 | between evenly spaced frames with the values of a quadratic in time the spline is that quadratic, if and only if the two neighbouring values differ or it is no more than a line |
| KeyframeShape.SlopesAtKeyframes | src/shutter.cpp:2012-2043 | a segment leaves and reaches its keyframes with half the difference of their neighbours' values, up to a bend in the square of the distance; between equal values it is flat |
| KeyframeShape.EndIsHeld | src/shutter.cpp:2008-2011 | from the last keyframe on its value is held |
| KeyframeGroup.Group.AddKeyframe | src/Menu.cpp:1805-1824 | insertion before the first frame not earlier, others intact, place counted from one, refused without room or later frame |
| KeyframeGroup.Group.RemoveKeyframe | src/Menu.cpp:1825-1835 | removal of the given frame, refused for the first and the last |
| KeyframeGroup.InsertionKeepsOrder | src/Menu.cpp:1805-1824 | times stay in order |
| KeyframeGroup.InsertionStrictExactly | src/Menu.cpp:1805-1824 | strict order is kept if and only if the time was not taken |
| KeyframeGroup.RemovalUndoesInsertion | src/Menu.cpp:1805-1835 | removing the frame at the place the insertion reports restores the group if and only if that place is not the first |
| KeyframeGroup.Group.Rebase | src/shutter.cpp:2113-2123 | the loop lowers all values and the position by the first value |
| KeyframeGroup.Group.MeasureRange | src/shutter.cpp:2125-2131 | the range covers every value and is no wider than needed |
| KeyframeGroup.FittedOrderedExactly | src/shutter.cpp:2174-2190 | the fitted group is in strict order, as interpolation needs it, if and only if its interior frames are and fall within the run |
| KeyframeGroup.RefittedOrderedExactly | src/shutter.cpp:2174-2190 | a group in order stays so if and only if its last but one frame is before the end of the run |
| KeyframeGroup.FittedFrames | src/shutter.cpp:2174-2190 | first frame at zero, last at the end of the run or 84 ms, with its own value or that of the frame before, the others as they were |
| KeyframeGroup.Group.UpdateMotorGroup | src/shutter.cpp:2109-2190 | for a motor: rebased, first time zero, end value and run length fitted, values within the range, step size, extendable range and moving axes set; in order exactly when the interior frames fall within the run |
| Nmx.HexRoundTrip | src/nmx.cpp:27-66 | coding and decoding a byte are inverse in both directions |
| Nmx.HexDigits | src/nmx.cpp:27-36 | the high digit comes first, in upper case |
| Nmx.DecodeField | src/nmx.cpp:327-331 | the accumulating loop computes the big-endian number of the field |
| Nmx.ReadReply | src/nmx.cpp:315-337 | a reply reads as the number it carries, within 32 bits, and as zero without the mark, with a bad length byte or with more than four bytes |
| Nmx.ReplyRoundTrip | src/nmx.cpp:315-337 | a reply that carries up to four bytes reads as the number they spell |
| Nmx.PacketRoundTrip | src/nmx.cpp:112-161 | decoding a move packet of either controller gives back the signed step count |
| Nmx.NmxPacketBytes | src/nmx.cpp:142-161 | byte by byte: address, motor, command 15, length 5, direction, steps with the highest byte first |
| Nmx.GeniePacketBytes | src/nmx.cpp:112-131 | byte by byte: signed steps with the lowest byte first, direction |
| Nmx.Motor.Move | src/nmx.cpp:112-161 | what the controller reads off the packets sent so far stays the recorded position, less steps lost without a link and plus those not to be counted |
| Nmx.Motor.MoveToPosition | src/nmx.cpp:76-90 | the position is the target afterwards, with the packet for the difference, and the way of the packets still agrees with it |
| Nmx.Tracking | src/nmx.cpp:76-161 | over any moves, steps read off the packets plus those lost without a link are the way from start to last target |
| Nmx.FollowsExactly | src/nmx.cpp:76-161 | the motor is where it is recorded to be if and only if the moves made without a link cancel out |
| Sorting.SwapRemovesOne | src/math.cpp:99-105 | swapping neighbours in the wrong order removes exactly one inversion |
| Sorting.Pass | src/math.cpp:97-106 | a pass permutes, lowers the inversions by its swaps, and without a swap leaves a sorted array |
| Sorting.Sort | src/math.cpp:91-108 | the result is a sorted permutation, after exactly as many swaps as there were inversions |
| MiddleMean.ArrayMedian50 | src/math.cpp:168-185 | the result is the mean of the middle half of the sorted readings |
| MiddleMean.ArrayMedian50Int | src/math.cpp:187-223 | the same for integers, truncated |
| MiddleMean.Robust | src/math.cpp:168-185 | changing at most a quarter of the readings keeps the result between any bounds of the others |
| MiddleMean.RobustInt | src/math.cpp:187-223 | the same for the integer variants |
| MiddleMean.SortedCopyUnique | src/math.cpp:168-223 | the sorted copy is determined by the readings |
| MiddleMean.OrderIsImmaterial | src/math.cpp:168-223 | so is the result, in whatever order the readings come |
| MiddleMean.NegationNegates | src/math.cpp:168-185 | negating the readings negates the result: both ends are cut alike |
| MiddleMean.HalfCounts | src/math.cpp:168-185 | all but two quarters of the readings count, at least half |
| MiddleMean.TruncateExactly | src/math.cpp:187-223 | integers are truncated towards zero |
| SettingsStore.Store.SettingsUpdate | src/settings.cpp:117-121 | the map held by RAM and EEPROM gets the settings in force under the connected camera, or as defaults, and is otherwise unchanged |
| SettingsStore.Store.SettingsLoadCameraDefault | src/settings.cpp:255-259 | the defaults are in force and the map is unchanged |
| SettingsStore.Store.FindSlot | src/settings.cpp:267-293 | the slot search finds the camera, or the last empty slot, or the last slot |
| SettingsStore.Store.SettingsSetupCameraIndex | src/settings.cpp:267-293 | a camera in the map gets its settings back, a new one is entered with the defaults, and one of five others is dropped for it |
| SettingsTheorems.RunRefines | src/settings.cpp:48-293 | over any operations with at most five cameras, the slots hold exactly what a map from serial number to settings holds |
| SettingsTheorems.AnyRunServed | src/settings.cpp:48-293 | over any operations with any number of cameras the slots hold a map that changes as a map does, but for the one entry dropped when a sixth camera comes |
| SettingsTheorems.EvictionRefines | src/settings.cpp:271-292 | that entry is the one of the last slot |
| SettingsTheorems.FactoryRefines | src/settings.cpp:211-217 | a device with empty slots is the empty map |
| SettingsTheorems.ReconnectRestores | src/settings.cpp:267-293 | reconnecting brings back the last saved settings, up to the two rules, whatever happened in between |
| SettingsTheorems.ReconnectedFields | src/settings.cpp:48-80 | field by field: everything comes back but the half press of a Panasonic and a gap out of range |
| SettingsTheorems.GeneralSettings | src/settings.cpp:48-80 | the general settings are kept by saving, and the saved ones come back with every camera |
| SettingsTheorems.DefaultsSaved | src/settings.cpp:48-60 | without a camera saving sets the defaults, with one it leaves them |
| SettingsTheorems.SameCameraExactly | src/settings.cpp:278 | two serial numbers are the same camera if and only if their first 21 characters agree |
| SettingsTheorems.NewcomerGetsDefaults | src/settings.cpp:289-292 | a new camera starts from the defaults |
| SettingsTheorems.NewcomerFields | src/settings.cpp:289-292 | field by field, with the first 22 characters of its serial number |
| SettingsTheorems.LastEmptyExactly | src/settings.cpp:271-288 | of several empty slots the last one is taken, and without one the last slot |
| SettingsTheorems.SavingTouchesOneSlot | src/settings.cpp:51-55 | saving leaves every other slot alone |
| SettingsTheorems.NewcomerEvictsExactly | src/settings.cpp:271-292 | a new camera leaves the stored ones alone if and only if a slot is empty |

## Left out

- USB host stack, bootloaders, descriptors: vendored or hardware-bound; the camera is a script of bytes, a response code and transfer faults.
- What an event does once delivered (property values, availability lists, object handles), the busy flag and the checks before a poll: an event is its byte slice.
- Wrap-around of event size plus position in 32 bits: sizes are unbounded, so a size near 2^32 counts as an oversized event.
- Nikon and Sony event polling: same driver, simple fixed-size records.
- BulbShift.ShiftBulb: not for the shift -128, on which the dividing loop does not end; no shift between table codes is -128.
- Camera lists with the tables' error entry: the exactness and optimality results are for lists of stops, with automatic ISO.
- Table look-ups of bulb times (`bulbTime`): the shortest bulb time is a parameter of the allocator.
- Sixteen- and 32-bit wrap-around of times, positions and photo counts of endless runs, and float rounding.
- Wrap-around of the eight-bit count of skipped ticks: it is unbounded, and theorems about missed callbacks are for counts below 256.
- Callbacks that advance the clock themselves (infra-red pulses).
- Pausing, aperture changes while paused, ND filters, the ramp's own exposure control, mirror lock-up, focus moves: inputs or absent.
- Keyframe groups other than motors in `updateKeyframeGroup`, and time edits in the chart editor.
- Radio command prefixes and acknowledgements: a packet is its hexadecimal payload.
- Nmx.DecodeField: reads the data bytes only; the reply's mark, length byte and four-byte cap are in `ReadReply`.
- Error codes of USB transfers: one constant stands for all of them.
- `sortUInteger` and `sortInteger`: the same code as `sort` at other element types; every 16-bit integer is exactly a real.
- `arrayMedian`: does not pick the middle element.
- A plain save without loading while a camera is connected: only done at start-up, before any camera is.
- Screens, menus, fonts, self-test, light sensor, battery.
