# Access-control door firmware, modelled in Dafny

Two polling sketches of an access-control appliance.

- `sketch.cpp` is an ESP32 sketch. It drives a servo "door" from three debounced push-buttons: valid access, invalid access and reset. A door opened by a valid press closes by itself 5 seconds later.
- `arduino.cpp` is an AVR sketch. It reads a fingerprint sensor and pulses a relay and two LEDs according to the result.

`door.dfy` (module `Door`) models the first sketch.

- The four globals `portaAberta`, `servoAngle`, `doorOpenTime` and `printedAlreadyOpenMessage` are the `DoorState` record.
- The class `DoorController` holds them as fields (`doorOpen`, `servoAngle`, `doorOpenTime`, `alreadyOpenReported`), plus a `log` of abstract `Message` tags, one per `Serial.println`.
- `DoorController.Step` is one iteration of `loop()`. Its block methods `PressValid`, `PressInvalid`, `PressReset` and `CheckTimer` run in the sketch's order.
- `Step` is proved against the pure function `Transition`. `Run` folds `Transition` over a sequence of iterations. The lemmas about `Transition` and `Run` state the properties of the door.
- `millis()` is an input. Each iteration has two samples: the one stored when the door opens (line 66) and the one the timer reads (line 101).
- `unsigned long` is 32 bits on the ESP32. So `Millis` ranges over 0 .. 2^32-1, and `ElapsedMs` is the wrapping subtraction.

`fingerprint.dfy` (module `Fingerprint`) models the second sketch.

- `FingerprintIdEz` is `getFingerprintIDez`. The three sensor calls are opaque `SensorStatus` inputs, and the library's `fingerID` is a `uint16_t` input.
- `Dispatch` chooses the branch of `loop()`. `BranchWrites` is the branch's sequence of `digitalWrite` calls.
- The class `AccessPanel` holds the relay, green LED and red LED levels and a log of writes. Its constructor `Setup` models `setup()`. A failed `verifyPassword()` leaves `running` false, and `Loop` requires `running`: after the halt, `loop()` never runs.
- On an AVR board `int` is 16 bits. The `uint16_t` ID is returned as `int`, so IDs from 0x8000 upward wrap to negative numbers (`ToInt16`). The properties that need a real ID assume `fingerId < 0x8000`. `WideIdNotGranted` shows what happens above that.

## Model

| member | source | states |
|---|---|---|
| `Door.ElapsedMs` | sketch.cpp:101 | `millis() - doorOpenTime` on 32-bit unsigned values: the plain difference when no wrap happened, the difference plus 2^32 when the counter rolled over |
| `Door.ElapsedAcrossRollover` | sketch.cpp:101 | for any absolute times t0 <= t1 less than 2^32 ms apart, the wrapping difference of their 32-bit truncations is exactly t1 - t0 |
| `Door.InitialConsistent` | sketch.cpp:26-28 | the initial globals (closed, angle 0, flag false) satisfy the invariant |
| `Door.TransitionConsistent` | sketch.cpp:58-108 | every iteration preserves: angle is 0 or 90, angle 90 exactly when open, "already open" flag set only while open |
| `Door.RunConsistent` | sketch.cpp:50-112 | the invariant holds after any number of iterations from a consistent state |
| `Door.ReachableConsistent` | sketch.cpp:26-112 | every state reachable from the initial globals through `loop()` iterations is consistent |
| `Door.ValidOpensClosedDoor` | sketch.cpp:59-68 | a valid press on a closed door, with no reset and no expired timer, ends in open, angle 90, open time = the opening sample, flag false, and prints the press and "opening" lines (plus the deny lines if the invalid button was also pressed) |
| `Door.OpenTimeSetOnlyOnOpening` | sketch.cpp:61-74 | the open time after an iteration is the opening sample if a valid press found the door closed, and unchanged otherwise; in particular a press on an open door never restarts the timer |
| `Door.ValidOnOpenDoor` | sketch.cpp:69-74 | a valid press on an open door keeps it open before the timer check (unless reset follows) with the same open time, and prints "already open" exactly when it had not been printed yet |
| `Door.AfterValidOutput` | sketch.cpp:78-108 | the checks after the valid-press block (invalid, reset, timer) only append to the valid block's output and never print "already open" |
| `Door.AfterValidState` | sketch.cpp:78-108 | a door still open at the end of an iteration is in exactly the state the valid-press block left |
| `Door.StepAlreadyOpen` | sketch.cpp:69-74 | in an iteration that starts open, "already open" is printed at most once and only if the flag was clear; if the door is still open at the end, printing it left the flag set |
| `Door.AlreadyOpenAtMostOncePerInterval` | sketch.cpp:69-74 | over any run in which every iteration starts with the door open (one continuous open interval, the closing iteration included), "already open" is printed at most once, and never if it had been printed before the run |
| `Door.StepWithFlagClear` | sketch.cpp:58-108 | an iteration that starts open with the flag clear prints "already open" exactly once if the valid button was pressed and never otherwise; afterwards the flag is set exactly when that press left the door open |
| `Door.OnceWhenFirstPressed` | sketch.cpp:69-74 | in an interval that starts open with the flag clear, a valid press in its first iteration makes "already open" appear exactly once over the whole interval |
| `Door.FirstNotPressed` | sketch.cpp:58-108 | an iteration of such an interval without a valid press prints no "already open", keeps the invariant and the flag clear, and leaves an interval that still starts open |
| `Door.AlreadyOpenOnceIfPressed` | sketch.cpp:69-74 | over any run in which every iteration starts open and the flag starts clear, a single valid press anywhere makes "already open" appear exactly once |
| `Door.OpenTimeFixedPerInterval` | sketch.cpp:61-74 | over any run in which every iteration starts with the door open, the open time, and so the auto-close deadline, does not move; the closing iteration does not touch it either |
| `Door.InvalidChangesNothing` | sketch.cpp:78-82 | pressing the invalid button gives the same final state as not pressing it, whatever else happens in the iteration, and adds exactly the two deny lines to the log, right after the valid-press lines and before the reset and timer lines |
| `Door.DeniedIffInvalidPressed` | sketch.cpp:78-82 | the deny line is printed exactly when the invalid button was pressed |
| `Door.ResetCloses` | sketch.cpp:85-97 | after a reset press the door is closed at angle 0 with the flag clear; "closing" is printed exactly when the door was open at the reset check (open before, or opened by a valid press in the same iteration); auto-close does not fire |
| `Door.ResetOnClosedDoor` | sketch.cpp:94-96 | a reset on a closed door with no valid press changes no global and prints exactly the reset and "already closed" lines, after the deny lines if the invalid button was also pressed |
| `Door.ValidThenResetSameIteration` | sketch.cpp:59-97 | a valid press and a reset in the same iteration on a closed door: the door opens and closes again at once, in that order, and ends closed |
| `Door.AutoCloseExactly` | sketch.cpp:101-108 | auto-close fires exactly when the door is open after the button checks and the wrapped elapsed time is at least 5000 ms; then the door ends closed |
| `Door.AutoCloseWhenIdle` | sketch.cpp:101-108 | with no button pressed, auto-close fires exactly when the door is open and its time is up; the door stays open exactly when it is open and the time is not up; a closed door is left alone with nothing printed |
| `Door.AutoCloseAcrossRollover` | sketch.cpp:101-108 | with the open time and the timer sample taken from absolute times less than 2^32 ms apart, auto-close fires exactly when the true elapsed time reaches 5000 ms, across a `millis()` rollover too |
| `Door.RolloverScenario` | sketch.cpp:101-108 | a door opened 1000 ms before the counter wraps is still open at 3999 after the wrap and closes at 4000 |
| `Door.OpenOnlyAfterGrant` | sketch.cpp:58-108 | the door is open after an iteration only if it was open before or a valid press opened it, and no reset was pressed |
| `Door.OpenOnlyAfterGrantRun` | sketch.cpp:50-112 | over any run, the door is open at the end only if it was open at the start with no reset and no auto-close since, or some iteration had a valid press and from it on no reset came and the timer never closed the door |
| `Door.OpenAtEndNeedsGrant` | sketch.cpp:50-112 | from a closed door, the door is open after a run only if some iteration had a valid press and, from that iteration on, no reset came and no auto-close fired |
| `Door.ResetCancelsTimer` | sketch.cpp:59-108 | opened at t=0, reset at t=1000: the door is closed and nothing more happens at t=5000 |
| `Door.DoorController.constructor` | sketch.cpp:26-31 | the globals start as the closed initial state, which is consistent, with an empty log |
| `Door.DoorController.PressValid` | sketch.cpp:59-75 | the valid-press block updates the globals and the log as `OnValid` specifies, and keeps the invariant |
| `Door.DoorController.PressInvalid` | sketch.cpp:78-82 | the invalid-press block updates only the log, as `OnInvalid` specifies, and keeps the invariant |
| `Door.DoorController.PressReset` | sketch.cpp:85-97 | the reset block updates the globals and the log as `OnReset` specifies, and keeps the invariant |
| `Door.DoorController.CheckTimer` | sketch.cpp:101-108 | the auto-close block updates the globals and the log as `OnTimer` specifies, and keeps the invariant |
| `Door.DoorController.Step` | sketch.cpp:50-112 | one `loop()` iteration leaves the globals equal to `Transition`'s new state, appends its messages to the log, and keeps the invariant |
| `Fingerprint.ToInt16` | arduino.cpp:101 | the `uint16_t` ID seen as a 16-bit `int`: in range, congruent to the ID modulo 2^16, and equal to it below 0x8000 |
| `Fingerprint.FingerprintIdEz` | arduino.cpp:84-102 | the result is a 16-bit `int`; a non-negative result is the matched ID, after three OK statuses; for IDs below 0x8000 the result is non-negative exactly when all three steps returned OK, and never below -2 |
| `Fingerprint.CaptureFailureIsSensorError` | arduino.cpp:85-86 | if capture is not OK (no finger included) the result is -2, whatever convert, search and the ID are |
| `Fingerprint.ConvertAndSearchFailures` | arduino.cpp:88-95 | after a good capture, a failed conversion gives -2, and a good conversion with a failed search gives -1 |
| `Fingerprint.Dispatch` | arduino.cpp:52-78 | no branch runs exactly when the result is below -2; the three branches are tested in order, so they exclude each other |
| `Fingerprint.DispatchCoversResults` | arduino.cpp:50-78 | for IDs below 0x8000 every result lands in one of the three branches: granted exactly when all three steps are OK, denied exactly on a failed search, sensor error exactly on a failed capture or conversion |
| `Fingerprint.WideIdNotGranted` | arduino.cpp:97-101 | a match with an ID of 0x8000 or more is never granted: 0xFFFF lands in "denied", 0xFFFE in "sensor error", the others in no branch |
| `Fingerprint.Apply` | arduino.cpp:55 | a `digitalWrite` sets the written pin to the written level and leaves the other pins alone |
| `Fingerprint.RaisedIffWritten` | arduino.cpp:55-77 | a pin that starts low goes high at some point of a write sequence exactly when the sequence contains a HIGH write to it |
| `Fingerprint.OutputsRaisedPerBranch` | arduino.cpp:52-78 | from all outputs low, the relay and the green LED go HIGH only in the granted branch, and the red LED only in the denied and sensor-error branches |
| `Fingerprint.IterationEndsLow` | arduino.cpp:52-78 | every branch lowers what it raised: from all outputs low, each iteration ends with all outputs low |
| `Fingerprint.AccessPanel.Setup` | arduino.cpp:15-44 | outputs start low with an empty write log; the sketch runs only if the sensor answered `verifyPassword()` |
| `Fingerprint.AccessPanel.DigitalWrite` | arduino.cpp:55 | one pin write updates the levels as `Apply` says and is logged |
| `Fingerprint.AccessPanel.Loop` | arduino.cpp:46-81 | one `loop()` iteration returns `getFingerprintIDez`'s result, logs exactly that branch's writes in order, and leaves all outputs low |
| `Door.OnValid` | sketch.cpp:59-75 | definition, no contract: the valid-press block; the lemmas above state its behaviour |
| `Door.OnInvalid` | sketch.cpp:78-82 | definition, no contract: the invalid-press block, two lines and no state change |
| `Door.OnReset` | sketch.cpp:85-97 | definition, no contract: the reset block |
| `Door.TimerExpired` | sketch.cpp:101 | definition, no contract: the auto-close condition with the wrapping subtraction |
| `Door.OnTimer` | sketch.cpp:101-108 | definition, no contract: the auto-close block |
| `Door.AfterValid` | sketch.cpp:59-75 | definition, no contract: the first button check, skipped when the valid button was not pressed |
| `Door.Buttons` | sketch.cpp:58-97 | definition, no contract: the three button checks in source order |
| `Door.Transition` | sketch.cpp:50-112 | definition, no contract: one `loop()` iteration, the specification `DoorController.Step` is proved against and the lemmas are about |
| `Door.Run` | sketch.cpp:50-112 | definition, no contract: successive `loop()` iterations and all their lines |
| `Fingerprint.BranchWrites` | arduino.cpp:52-78 | definition, no contract: each branch's `digitalWrite` calls in program order |
| `Fingerprint.Settle` | arduino.cpp:55-77 | definition, no contract: the pin levels after a sequence of writes |
| `Fingerprint.RaisedDuring` | arduino.cpp:55-77 | definition, no contract: some write of a sequence leaves a pin high |

## Left out

- Button debouncing and edge detection (the `ezButton` objects and `setDebounceTime`): each `isPressed()` is a boolean input of an iteration.
- Servo and pin hardware (`servo.attach`, `servo.write`, `pinMode`): modelled only as the recorded angle and pin levels. The outputs start LOW because the board resets its output registers to LOW.
- `tone()` on the buzzer pin: a timed hardware waveform with no effect on the logic.
- The LCD (`lcd.init`, `clear`, `setCursor`, `print`) and the text of every `Serial` line: the door sketch's lines become abstract `Message` tags. The fingerprint sketch's serial and LCD lines are not logged.
- `delay(...)`: timing only. Within an iteration, only the order of the HIGH and LOW writes is kept.
- `millis()`: an input sampled twice per iteration. No relation between the two samples is assumed; any pair is allowed.
- The Adafruit library internals (`getImage`, `image2Tz`, `fingerFastSearch`, `verifyPassword`, `finger.begin`, `SoftwareSerial`): opaque status inputs. The value of `FINGERPRINT_OK` and the meaning of other status codes are not part of this model. The `confidence` score is only printed, so it is left out.
- `setup()`'s `while (1);`: the halt is modelled as `running == false`, which `AccessPanel.Loop` requires, so `loop()` is never entered after it.
- Fingerprint.FingerprintIdEz: the ID-dependent clauses hold only for `fingerId < 0x8000`, because the source narrows the `uint16_t` to a 16-bit `int`. Sensor template libraries hold far fewer entries than that. `WideIdNotGranted` covers the wider IDs.
- Fingerprint.DispatchCoversResults: assumes `fingerId < 0x8000` for the same reason. Wider IDs can reach no branch at all, as `WideIdNotGranted` shows.
- The other firmware variants of the repository (OLED display, network notifications, biometric input in the door sketch) are not part of these two files and are not modelled.
