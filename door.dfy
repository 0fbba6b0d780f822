/**
 * The servo door of the push-button sketch (sketch.cpp).
 *
 * One call of the firmware's `loop()` reads three debounced button edges
 * (valid access, invalid access, reset) and then checks the five-second
 * auto-close timer, in that fixed order, updating four global variables.
 * The pure function `Transition` is the specification of one such
 * iteration; the class `DoorController` is the imperative model of the
 * globals and of `loop()`, proved to follow `Transition`.  Every
 * `Serial.println` becomes one abstract `Message` appended to a log.
 */
module Door {

  /** `unsigned long` on the ESP32 is 32 bits wide. */
  const Modulus32: int := 0x1_0000_0000

  /** A value of `millis()` or of `doorOpenTime`. */
  type Millis = t: int | 0 <= t < Modulus32

  const AutoCloseDelayMs: Millis := 5000
  const OpenAngle: int := 90
  const ClosedAngle: int := 0

  /**
   * `now - since` computed on `unsigned long`: the difference wraps
   * modulo 2^32, so a timestamp taken before a rollover of `millis()`
   * still yields the right distance.
   */
  function ElapsedMs(now: Millis, since: Millis): (r: Millis)
    ensures since <= now ==> r == now - since
    ensures now < since ==> r == (Modulus32 - since) + now
  {
    (now - since) % Modulus32
  }

  /**
   * Whatever the absolute times t0 <= t1 are, as long as they lie less
   * than 2^32 ms apart, subtracting their 32-bit truncations gives their
   * true distance: the rollover of the counter is harmless.
   */
  lemma ElapsedAcrossRollover(t0: nat, t1: nat)
    requires t0 <= t1 < t0 + Modulus32
    ensures ElapsedMs(t1 % Modulus32, t0 % Modulus32) == t1 - t0
  {
  }

  /** One line the sketch writes with `Serial.println`. */
  datatype Message =
    | ValidPressed    // the valid-access button was pressed
    | Opening         // the door is opening
    | AlreadyOpen     // the door is already open
    | InvalidPressed  // the invalid-access button was pressed
    | Denied          // access denied
    | ResetPressed    // the reset button was pressed
    | Closing         // the door is closing
    | AlreadyClosed   // the door is already closed
    | AutoClosed      // time is up, the door closed by itself

  /**
   * The four globals: `portaAberta`, `servoAngle`, `doorOpenTime` and
   * `printedAlreadyOpenMessage`.
   */
  datatype DoorState = DoorState(
    open: bool,
    servoAngle: int,
    openedAt: Millis,
    alreadyOpenReported: bool)

  /** The values the globals are initialised with, written to the servo by `setup()`. */
  const Initial: DoorState := DoorState(false, ClosedAngle, 0, false)

  /** The servo angle follows the open flag, and the de-duplication flag is only set while open. */
  predicate Consistent(s: DoorState) {
    && (s.servoAngle == OpenAngle || s.servoAngle == ClosedAngle)
    && (s.servoAngle == OpenAngle <==> s.open)
    && (s.alreadyOpenReported ==> s.open)
  }

  /**
   * What one iteration of `loop()` observes: the three `isPressed()` edges
   * and the two `millis()` samples, the one stored on opening and the one
   * the timer check reads.
   */
  datatype Inputs = Inputs(
    validPressed: bool,
    invalidPressed: bool,
    resetPressed: bool,
    openSample: Millis,
    timerSample: Millis)

  /** A new state together with the messages printed on the way to it. */
  datatype Outcome = Outcome(state: DoorState, out: seq<Message>)

  /** The door driven closed; shared by the reset and the auto-close paths. */
  function Closed(s: DoorState): DoorState {
    s.(open := false, servoAngle := ClosedAngle, alreadyOpenReported := false)
  }

  /** The valid-access button was pressed. */
  function OnValid(s: DoorState, now: Millis): Outcome {
    if !s.open then
      Outcome(DoorState(true, OpenAngle, now, false), [ValidPressed, Opening])
    else if !s.alreadyOpenReported then
      Outcome(s.(alreadyOpenReported := true), [ValidPressed, AlreadyOpen])
    else
      Outcome(s, [ValidPressed])
  }

  /** The invalid-access button was pressed: feedback only. */
  function OnInvalid(s: DoorState): Outcome {
    Outcome(s, [InvalidPressed, Denied])
  }

  /** The reset button was pressed. */
  function OnReset(s: DoorState): Outcome {
    if s.open then Outcome(Closed(s), [ResetPressed, Closing])
    else Outcome(s, [ResetPressed, AlreadyClosed])
  }

  /** The auto-close condition of the timer check. */
  predicate TimerExpired(s: DoorState, now: Millis) {
    s.open && ElapsedMs(now, s.openedAt) >= AutoCloseDelayMs
  }

  /** The timer check that ends every iteration. */
  function OnTimer(s: DoorState, now: Millis): Outcome {
    if TimerExpired(s, now) then Outcome(Closed(s), [AutoClosed]) else Outcome(s, [])
  }

  /** The first button check. */
  function AfterValid(s: DoorState, i: Inputs): Outcome {
    if i.validPressed then OnValid(s, i.openSample) else Outcome(s, [])
  }

  /** The three button checks, in the order valid, invalid, reset. */
  function Buttons(s: DoorState, i: Inputs): Outcome {
    var a := AfterValid(s, i);
    var b := if i.invalidPressed then OnInvalid(a.state) else Outcome(a.state, []);
    var c := if i.resetPressed then OnReset(b.state) else Outcome(b.state, []);
    Outcome(c.state, a.out + b.out + c.out)
  }

  /** One whole iteration of `loop()`: the buttons, then the timer. */
  function Transition(s: DoorState, i: Inputs): Outcome {
    var b := Buttons(s, i);
    var t := OnTimer(b.state, i.timerSample);
    Outcome(t.state, b.out + t.out)
  }

  /** A sequence of iterations, with all the messages they print. */
  function Run(s: DoorState, ins: seq<Inputs>): Outcome
    decreases |ins|
  {
    if ins == [] then Outcome(s, [])
    else
      var first := Transition(s, ins[0]);
      var rest := Run(first.state, ins[1..]);
      Outcome(rest.state, first.out + rest.out)
  }

  /**
   * Every one of the iterations starts with the door open: one continuous
   * open interval, whose last iteration may close the door.
   */
  predicate OpenAtEachStart(s: DoorState, ins: seq<Inputs>)
    decreases |ins|
  {
    ins == [] || (s.open && OpenAtEachStart(Transition(s, ins[0]).state, ins[1..]))
  }

  /** How many times the "already open" line occurs in a log. */
  function AlreadyOpenCount(out: seq<Message>): nat {
    multiset(out)[AlreadyOpen]
  }

  // ---------------------------------------------------------------------
  // The invariant
  // ---------------------------------------------------------------------

  lemma InitialConsistent()
    ensures Consistent(Initial) && !Initial.open
  {
  }

  /** Every iteration keeps the angle tied to the flag and the de-duplication flag inside the open interval. */
  lemma TransitionConsistent(s: DoorState, i: Inputs)
    requires Consistent(s)
    ensures Consistent(Transition(s, i).state)
  {
  }

  /** Any number of iterations from a consistent state ends in a consistent state. */
  lemma {:induction false} RunConsistent(s: DoorState, ins: seq<Inputs>)
    requires Consistent(s)
    ensures Consistent(Run(s, ins).state)
    decreases |ins|
  {
    if ins != [] {
      TransitionConsistent(s, ins[0]);
      RunConsistent(Transition(s, ins[0]).state, ins[1..]);
    }
  }

  /** So every state reachable from the one `setup()` leaves is consistent. */
  lemma ReachableConsistent(ins: seq<Inputs>)
    ensures Consistent(Run(Initial, ins).state)
  {
    InitialConsistent();
    RunConsistent(Initial, ins);
  }

  // ---------------------------------------------------------------------
  // The valid-access button
  // ---------------------------------------------------------------------

  /**
   * A valid press on a closed door opens it: angle 90, the open time is the
   * sample taken on opening, the de-duplication flag is cleared; unless the
   * reset button or the timer closes it again in the same iteration.
   */
  lemma ValidOpensClosedDoor(s: DoorState, i: Inputs)
    requires !s.open && i.validPressed && !i.resetPressed
    requires ElapsedMs(i.timerSample, i.openSample) < AutoCloseDelayMs
    ensures Transition(s, i).state == DoorState(true, OpenAngle, i.openSample, false)
    ensures Transition(s, i).out ==
      [ValidPressed, Opening] + (if i.invalidPressed then [InvalidPressed, Denied] else [])
  {
  }

  /**
   * The open time changes only when a valid press finds the door closed:
   * a valid press on an open door never restarts the auto-close timer.
   */
  lemma OpenTimeSetOnlyOnOpening(s: DoorState, i: Inputs)
    ensures Transition(s, i).state.openedAt ==
      if i.validPressed && !s.open then i.openSample else s.openedAt
  {
  }

  /** A valid press on an open door leaves it open, and says "already open" only if it has not yet said so. */
  lemma ValidOnOpenDoor(s: DoorState, i: Inputs)
    requires s.open && i.validPressed
    ensures Buttons(s, i).state.open == !i.resetPressed
    ensures Buttons(s, i).state.openedAt == s.openedAt
    ensures (AlreadyOpen in Transition(s, i).out) == !s.alreadyOpenReported
  {
  }

  /**
   * Within one iteration that starts open, "already open" is printed at
   * most once and only if the flag was clear; if the door is still open
   * afterwards, the flag records that it has been printed.
   */
  lemma StepAlreadyOpen(s: DoorState, i: Inputs)
    requires Consistent(s) && s.open
    ensures AlreadyOpenCount(Transition(s, i).out) + (if s.alreadyOpenReported then 1 else 0) <= 1
    ensures Transition(s, i).state.open ==>
      AlreadyOpenCount(Transition(s, i).out) + (if s.alreadyOpenReported then 1 else 0)
        <= (if Transition(s, i).state.alreadyOpenReported then 1 else 0)
  {
    var a := AfterValid(s, i);
    var out := Transition(s, i).out;
    AfterValidOutput(s, i);
    AfterValidState(s, i);
    assert out == a.out + out[|a.out|..];
    AlreadyOpenCountSplit(a.out, out[|a.out|..]);
    if i.validPressed && !s.alreadyOpenReported {
      assert a.out == [ValidPressed, AlreadyOpen];
    } else {
      assert AlreadyOpen !in a.out;
      AlreadyOpenCountSplit(out[|a.out|..], a.out);
    }
  }

  /** After the valid-press check, no later check of the iteration prints "already open". */
  lemma AfterValidOutput(s: DoorState, i: Inputs)
    ensures |AfterValid(s, i).out| <= |Transition(s, i).out|
    ensures Transition(s, i).out[..|AfterValid(s, i).out|] == AfterValid(s, i).out
    ensures AlreadyOpen !in Transition(s, i).out[|AfterValid(s, i).out|..]
  {
    var a := AfterValid(s, i);
    var b := if i.invalidPressed then OnInvalid(a.state) else Outcome(a.state, []);
    var c := if i.resetPressed then OnReset(b.state) else Outcome(b.state, []);
    var t := OnTimer(c.state, i.timerSample);
    var rest := b.out + c.out + t.out;
    assert AlreadyOpen !in rest;
    assert Transition(s, i).out == a.out + rest;
    assert Transition(s, i).out[|a.out|..] == rest;
  }

  /** A door still open at the end of an iteration is in the state the valid-press check left. */
  lemma AfterValidState(s: DoorState, i: Inputs)
    ensures Transition(s, i).state.open ==> Transition(s, i).state == AfterValid(s, i).state
  {
    var a := AfterValid(s, i);
    var b := if i.invalidPressed then OnInvalid(a.state) else Outcome(a.state, []);
    var c := if i.resetPressed then OnReset(b.state) else Outcome(b.state, []);
    assert b.state == a.state;
    assert c.state.open ==> c.state == b.state;
    assert Transition(s, i).state.open ==> Transition(s, i).state == c.state;
  }


  /** Counting "already open" lines distributes over concatenation; a log without one counts zero. */
  lemma AlreadyOpenCountSplit(x: seq<Message>, y: seq<Message>)
    ensures AlreadyOpenCount(x + y) == AlreadyOpenCount(x) + AlreadyOpenCount(y)
    ensures AlreadyOpen !in y ==> AlreadyOpenCount(y) == 0
  {
    assert multiset(x + y) == multiset(x) + multiset(y);
  }

  /**
   * "Already open" is printed at most once per continuous open interval,
   * its closing iteration included, however many valid presses arrive,
   * and not at all if it was printed before the iterations considered.
   */
  lemma {:induction false} AlreadyOpenAtMostOncePerInterval(s: DoorState, ins: seq<Inputs>)
    requires Consistent(s) && OpenAtEachStart(s, ins)
    ensures AlreadyOpenCount(Run(s, ins).out) + (if s.alreadyOpenReported then 1 else 0) <= 1
    decreases |ins|
  {
    if ins != [] {
      var first := Transition(s, ins[0]);
      StepAlreadyOpen(s, ins[0]);
      TransitionConsistent(s, ins[0]);
      assert Run(s, ins).out == first.out + Run(first.state, ins[1..]).out;
      if first.state.open {
        AlreadyOpenAtMostOncePerInterval(first.state, ins[1..]);
      } else {
        assert ins[1..] == [];
      }
    }
  }

  /**
   * An iteration that starts open with the flag clear prints "already open"
   * exactly once if it has a valid press and not at all otherwise; the flag
   * is set afterwards exactly when that press left the door open.
   */
  lemma StepWithFlagClear(s: DoorState, i: Inputs)
    requires Consistent(s) && s.open && !s.alreadyOpenReported
    ensures AlreadyOpenCount(Transition(s, i).out) == (if i.validPressed then 1 else 0)
    ensures Transition(s, i).state.alreadyOpenReported == (i.validPressed && Transition(s, i).state.open)
  {
    var a := AfterValid(s, i);
    var out := Transition(s, i).out;
    AfterValidOutput(s, i);
    AfterValidState(s, i);
    assert out == a.out + out[|a.out|..];
    AlreadyOpenCountSplit(a.out, out[|a.out|..]);
    if i.validPressed {
      assert a.out == [ValidPressed, AlreadyOpen];
      assert multiset(a.out) == multiset{ValidPressed, AlreadyOpen};
    } else {
      assert a.out == [];
    }
  }

  /** The pressed case of `AlreadyOpenOnceIfPressed`: the first iteration of the interval has the valid press. */
  lemma OnceWhenFirstPressed(s: DoorState, ins: seq<Inputs>)
    requires Consistent(s) && OpenAtEachStart(s, ins) && !s.alreadyOpenReported
    requires ins != [] && ins[0].validPressed
    ensures AlreadyOpenCount(Run(s, ins).out) == 1
  {
    var first := Transition(s, ins[0]);
    var rest := Run(first.state, ins[1..]);
    assert Run(s, ins).out == first.out + rest.out;
    AlreadyOpenCountSplit(first.out, rest.out);
    StepWithFlagClear(s, ins[0]);
    TransitionConsistent(s, ins[0]);
    if first.state.open {
      AlreadyOpenAtMostOncePerInterval(first.state, ins[1..]);
    } else {
      assert ins[1..] == [];
    }
  }

  /**
   * An iteration of the interval without a valid press prints no "already
   * open" line and hands on an open interval with the flag still clear.
   */
  lemma FirstNotPressed(s: DoorState, ins: seq<Inputs>)
    requires Consistent(s) && OpenAtEachStart(s, ins) && !s.alreadyOpenReported
    requires ins != [] && !ins[0].validPressed
    ensures Consistent(Transition(s, ins[0]).state)
    ensures !Transition(s, ins[0]).state.alreadyOpenReported
    ensures OpenAtEachStart(Transition(s, ins[0]).state, ins[1..])
    ensures AlreadyOpenCount(Run(s, ins).out) == AlreadyOpenCount(Run(Transition(s, ins[0]).state, ins[1..]).out)
  {
    var first := Transition(s, ins[0]);
    var rest := Run(first.state, ins[1..]);
    assert Run(s, ins).out == first.out + rest.out;
    AlreadyOpenCountSplit(first.out, rest.out);
    StepWithFlagClear(s, ins[0]);
    TransitionConsistent(s, ins[0]);
  }

  /**
   * The other half of the de-duplication: through an open interval that
   * starts with the flag clear, one valid press is enough for "already
   * open" to be printed, and it is printed exactly once.
   */
  lemma {:induction false} AlreadyOpenOnceIfPressed(s: DoorState, ins: seq<Inputs>, k: nat)
    requires Consistent(s) && OpenAtEachStart(s, ins) && !s.alreadyOpenReported
    requires k < |ins| && ins[k].validPressed
    ensures AlreadyOpenCount(Run(s, ins).out) == 1
    decreases |ins|
  {
    if ins[0].validPressed {
      OnceWhenFirstPressed(s, ins);
    } else {
      FirstNotPressed(s, ins);
      assert ins[1..][k - 1] == ins[k];
      AlreadyOpenOnceIfPressed(Transition(s, ins[0]).state, ins[1..], k - 1);
    }
  }

  /** Through an open interval the open time, and so the auto-close deadline, never moves; closing does not touch it either. */
  lemma {:induction false} OpenTimeFixedPerInterval(s: DoorState, ins: seq<Inputs>)
    requires OpenAtEachStart(s, ins)
    ensures Run(s, ins).state.openedAt == s.openedAt
    decreases |ins|
  {
    if ins != [] {
      OpenTimeSetOnlyOnOpening(s, ins[0]);
      OpenTimeFixedPerInterval(Transition(s, ins[0]).state, ins[1..]);
    }
  }

  // ---------------------------------------------------------------------
  // The invalid-access button
  // ---------------------------------------------------------------------

  /**
   * An invalid press changes nothing in the door state, whatever else
   * happens in the iteration; it only adds the two deny lines, right
   * after the valid-press lines and before everything else.
   */
  lemma InvalidChangesNothing(s: DoorState, i: Inputs)
    ensures Transition(s, i.(invalidPressed := true)).state
         == Transition(s, i.(invalidPressed := false)).state
    ensures var a := AfterValid(s, i).out;
            var without := Transition(s, i.(invalidPressed := false)).out;
            && a <= without
            && Transition(s, i.(invalidPressed := true)).out == a + [InvalidPressed, Denied] + without[|a|..]
  {
  }

  /** The deny line is printed exactly when the invalid button was pressed. */
  lemma DeniedIffInvalidPressed(s: DoorState, i: Inputs)
    ensures (Denied in Transition(s, i).out) == i.invalidPressed
  {
  }

  // ---------------------------------------------------------------------
  // The reset button, and the order of the checks
  // ---------------------------------------------------------------------

  /**
   * A reset press always leaves the door closed at the end of the
   * iteration, even after a valid press in the same iteration (which is
   * checked first); "closing" is printed exactly when the door was open
   * by the time the reset was checked.
   */
  lemma ResetCloses(s: DoorState, i: Inputs)
    requires Consistent(s) && i.resetPressed
    ensures var t := Transition(s, i).state;
      !t.open && t.servoAngle == ClosedAngle && !t.alreadyOpenReported
    ensures (Closing in Transition(s, i).out) == (s.open || i.validPressed)
    ensures AutoClosed !in Transition(s, i).out
  {
  }

  /**
   * A reset press on a closed door, with no valid press before it, changes
   * nothing and prints only the reset lines (after the deny lines of an
   * invalid press in the same iteration).
   */
  lemma ResetOnClosedDoor(s: DoorState, i: Inputs)
    requires !s.open && !i.validPressed && i.resetPressed
    ensures Transition(s, i).state == s
    ensures Transition(s, i).out ==
      (if i.invalidPressed then [InvalidPressed, Denied] else []) + [ResetPressed, AlreadyClosed]
  {
  }

  /** A valid press followed by a reset in the same iteration: the door opens and closes again at once. */
  lemma ValidThenResetSameIteration(s: DoorState, i: Inputs)
    requires !s.open && i.validPressed && !i.invalidPressed && i.resetPressed
    ensures Transition(s, i).state == DoorState(false, ClosedAngle, i.openSample, false)
    ensures Transition(s, i).out == [ValidPressed, Opening, ResetPressed, Closing]
  {
  }

  // ---------------------------------------------------------------------
  // The auto-close timer
  // ---------------------------------------------------------------------

  /**
   * Auto-close fires exactly when the door is open after the button checks
   * and the wrapped distance from the open time reaches 5000 ms; when it
   * fires the door ends closed.
   */
  lemma AutoCloseExactly(s: DoorState, i: Inputs)
    ensures var b := Buttons(s, i).state;
      (AutoClosed in Transition(s, i).out) == (b.open && ElapsedMs(i.timerSample, b.openedAt) >= AutoCloseDelayMs)
    ensures AutoClosed in Transition(s, i).out ==> !Transition(s, i).state.open
  {
  }

  /** In an iteration without button presses, the door closes by itself exactly when its time is up, and never if it is closed. */
  lemma AutoCloseWhenIdle(s: DoorState, i: Inputs)
    requires !i.validPressed && !i.invalidPressed && !i.resetPressed
    ensures (AutoClosed in Transition(s, i).out) == (s.open && ElapsedMs(i.timerSample, s.openedAt) >= AutoCloseDelayMs)
    ensures Transition(s, i).state.open == (s.open && ElapsedMs(i.timerSample, s.openedAt) < AutoCloseDelayMs)
    ensures !s.open ==> Transition(s, i) == Outcome(s, [])
  {
  }

  /**
   * Across a rollover of `millis()`: a door opened at absolute time t0 and
   * checked at absolute time t1 (both truncated to 32 bits, less than 2^32
   * ms apart) auto-closes exactly when t1 - t0 >= 5000.
   */
  lemma AutoCloseAcrossRollover(s: DoorState, i: Inputs, t0: nat, t1: nat)
    requires s.open && s.openedAt == t0 % Modulus32
    requires !i.validPressed && !i.invalidPressed && !i.resetPressed
    requires i.timerSample == t1 % Modulus32
    requires t0 <= t1 < t0 + Modulus32
    ensures (AutoClosed in Transition(s, i).out) == (t1 - t0 >= AutoCloseDelayMs)
  {
  }

  /** A door opened 1000 ms before the counter wraps stays open at 3999 after the wrap and closes at 4000. */
  lemma RolloverScenario(s: DoorState)
    requires s.open && s.openedAt == Modulus32 - 1000
    ensures Transition(s, Inputs(false, false, false, 0, 3999)).state.open
    ensures AutoClosed in Transition(s, Inputs(false, false, false, 0, 4000)).out
  {
  }

  // ---------------------------------------------------------------------
  // Deny by default
  // ---------------------------------------------------------------------

  /** The door is open after an iteration only if it was open or a valid press opened it, and no reset came after. */
  lemma OpenOnlyAfterGrant(s: DoorState, i: Inputs)
    ensures Transition(s, i).state.open ==> (s.open || i.validPressed) && !i.resetPressed
  {
  }

  /** No iteration from the k-th on has a reset press. */
  predicate NoResetFrom(ins: seq<Inputs>, k: nat) {
    forall j :: k <= j < |ins| ==> !ins[j].resetPressed
  }

  /**
   * The k-th iteration has a valid press, and from it on no reset comes and
   * the timer never closes the door.
   */
  predicate GrantStandsFrom(s: DoorState, ins: seq<Inputs>, k: nat) {
    && k < |ins| && ins[k].validPressed && NoResetFrom(ins, k)
    && AutoClosed !in Run(Run(s, ins[..k]).state, ins[k..]).out
  }

  /**
   * Over any run: the door is open at the end only if it was open at the
   * start with no reset and no auto-close since, or some iteration had a
   * valid press and from that iteration on no reset came and the timer
   * never closed the door.
   */
  lemma {:induction false} OpenOnlyAfterGrantRun(s: DoorState, ins: seq<Inputs>)
    ensures Run(s, ins).state.open ==>
      || (s.open && NoResetFrom(ins, 0) && AutoClosed !in Run(s, ins).out)
      || (exists k: nat :: GrantStandsFrom(s, ins, k))
    decreases |ins|
  {
    if ins != [] && Run(s, ins).state.open {
      var first := Transition(s, ins[0]);
      assert Run(s, ins).state == Run(first.state, ins[1..]).state;
      OpenOnlyAfterGrantRun(first.state, ins[1..]);
      if exists k: nat :: GrantStandsFrom(first.state, ins[1..], k) {
        var k: nat :| GrantStandsFrom(first.state, ins[1..], k);
        GrantShift(s, ins, k);
      } else {
        OpenThroughFirstStep(s, ins);
      }
    }
  }

  /** A grant that stands in the iterations after the first stands in the whole run, one position later. */
  lemma GrantShift(s: DoorState, ins: seq<Inputs>, k: nat)
    requires ins != [] && GrantStandsFrom(Transition(s, ins[0]).state, ins[1..], k)
    ensures GrantStandsFrom(s, ins, k + 1)
  {
    var rest := ins[1..];
    assert forall j :: k + 1 <= j < |ins| ==> ins[j] == rest[j - 1];
    RunPrefixUnfold(s, ins, k);
    assert ins[k + 1..] == rest[k..];
  }

  /**
   * A door open after the first iteration that then stays open with no
   * reset and no auto-close: the run either started open under the same
   * conditions or the first iteration's valid press is a standing grant.
   */
  lemma OpenThroughFirstStep(s: DoorState, ins: seq<Inputs>)
    requires ins != []
    requires var first := Transition(s, ins[0]);
      first.state.open && NoResetFrom(ins[1..], 0) && AutoClosed !in Run(first.state, ins[1..]).out
    ensures || (s.open && NoResetFrom(ins, 0) && AutoClosed !in Run(s, ins).out)
            || GrantStandsFrom(s, ins, 0)
  {
    var rest := ins[1..];
    OpenOnlyAfterGrant(s, ins[0]);
    AutoCloseExactly(s, ins[0]);
    assert Run(s, ins).out == Transition(s, ins[0]).out + Run(Transition(s, ins[0]).state, rest).out;
    assert forall j :: 1 <= j < |ins| ==> ins[j] == rest[j - 1];
    assert NoResetFrom(ins, 0);
    assert ins[..0] == [] && ins[0..] == ins;
  }

  /** Running the first k + 1 iterations is the first one followed by the next k. */
  lemma RunPrefixUnfold(s: DoorState, ins: seq<Inputs>, k: nat)
    requires k < |ins|
    ensures Run(s, ins[..k + 1]).state == Run(Transition(s, ins[0]).state, ins[1..][..k]).state
  {
    assert ins[..k + 1][0] == ins[0];
    assert ins[..k + 1][1..] == ins[1..][..k];
  }

  /**
   * From a closed door: open at the end of a run only after a valid press
   * with no reset and no auto-close in that iteration or later.
   */
  lemma OpenAtEndNeedsGrant(s: DoorState, ins: seq<Inputs>)
    requires !s.open && Run(s, ins).state.open
    ensures exists k: nat :: GrantStandsFrom(s, ins, k)
  {
    OpenOnlyAfterGrantRun(s, ins);
  }

  /** The scenario of opening at t = 0 and resetting at t = 1000: no auto-close fires later. */
  lemma ResetCancelsTimer()
    ensures var ins := [Inputs(true, false, false, 0, 0),
                        Inputs(false, false, true, 1000, 1000),
                        Inputs(false, false, false, 5000, 5000)];
      Run(Initial, ins) == Outcome(DoorState(false, ClosedAngle, 0, false),
                                   [ValidPressed, Opening, ResetPressed, Closing])
  {
  }

  // ---------------------------------------------------------------------
  // The globals and loop(), imperatively
  // ---------------------------------------------------------------------

  class DoorController {
    /** `portaAberta` */
    var doorOpen: bool
    var servoAngle: int
    var doorOpenTime: Millis
    /** `printedAlreadyOpenMessage` */
    var alreadyOpenReported: bool
    /** Every line printed with `Serial.println`, oldest first. */
    var log: seq<Message>

    function State(): DoorState
      reads this
    {
      DoorState(doorOpen, servoAngle, doorOpenTime, alreadyOpenReported)
    }

    ghost predicate Valid()
      reads this
    {
      Consistent(State())
    }

    /** The global initialisers and `setup()`: the door starts closed. */
    constructor ()
      ensures Valid() && State() == Initial && log == []
    {
      doorOpen, servoAngle, doorOpenTime, alreadyOpenReported := false, ClosedAngle, 0, false;
      log := [];
    }

    /** The valid-access block of `loop()`. */
    method PressValid(now: Millis)
      requires Valid()
      modifies this
      ensures Valid()
      ensures State() == OnValid(old(State()), now).state
      ensures log == old(log) + OnValid(old(State()), now).out
    {
      log := log + [ValidPressed];
      if !doorOpen {
        log := log + [Opening];
        servoAngle := OpenAngle;
        doorOpen := true;
        doorOpenTime := now;
        alreadyOpenReported := false;
      } else {
        if !alreadyOpenReported {
          log := log + [AlreadyOpen];
          alreadyOpenReported := true;
        }
      }
    }

    /** The invalid-access block of `loop()`. */
    method PressInvalid()
      requires Valid()
      modifies this
      ensures Valid()
      ensures State() == OnInvalid(old(State())).state
      ensures log == old(log) + OnInvalid(old(State())).out
    {
      log := log + [InvalidPressed];
      log := log + [Denied];
    }

    /** The reset block of `loop()`. */
    method PressReset()
      requires Valid()
      modifies this
      ensures Valid()
      ensures State() == OnReset(old(State())).state
      ensures log == old(log) + OnReset(old(State())).out
    {
      log := log + [ResetPressed];
      if doorOpen {
        log := log + [Closing];
        servoAngle := ClosedAngle;
        doorOpen := false;
        alreadyOpenReported := false;
      } else {
        log := log + [AlreadyClosed];
      }
    }

    /** The auto-close block of `loop()`. */
    method CheckTimer(now: Millis)
      requires Valid()
      modifies this
      ensures Valid()
      ensures State() == OnTimer(old(State()), now).state
      ensures log == old(log) + OnTimer(old(State()), now).out
    {
      if doorOpen && ElapsedMs(now, doorOpenTime) >= AutoCloseDelayMs {
        log := log + [AutoClosed];
        servoAngle := ClosedAngle;
        doorOpen := false;
        alreadyOpenReported := false;
      }
    }

    /** One iteration of `loop()`. */
    method Step(validPressed: bool, invalidPressed: bool, resetPressed: bool,
                openSample: Millis, timerSample: Millis)
      requires Valid()
      modifies this
      ensures Valid()
      ensures var o := Transition(old(State()),
                                  Inputs(validPressed, invalidPressed, resetPressed, openSample, timerSample));
        State() == o.state && log == old(log) + o.out
    {
      ghost var s0 := State();
      ghost var i := Inputs(validPressed, invalidPressed, resetPressed, openSample, timerSample);
      if validPressed {
        PressValid(openSample);
      }
      if invalidPressed {
        PressInvalid();
      }
      if resetPressed {
        PressReset();
      }
      CheckTimer(timerSample);
      TransitionConsistent(s0, i);
    }
  }
}
