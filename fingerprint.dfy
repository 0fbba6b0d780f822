/**
 * The fingerprint relay sketch (arduino.cpp).
 *
 * `getFingerprintIDez` turns the statuses of the sensor's three steps
 * (capture, convert, search) into one `int`: -2 for a capture or convert
 * failure, -1 for no match, the matched template ID otherwise.  `loop()`
 * sends that number to one of three branches, each of which raises and
 * then lowers some of the relay and LED outputs.  The sensor calls are
 * opaque status inputs; the outputs are a record of pin levels and a log
 * of `digitalWrite` calls.
 *
 * The sketch targets an AVR board, whose `int` is 16 bits wide: the
 * `uint16_t` template ID is narrowed to it on return, see `ToInt16`.
 */
module Fingerprint {

  const Modulus16: int := 0x1_0000

  /** `uint16_t`, the type of the library's `fingerID`. */
  type Uint16 = x: int | 0 <= x < Modulus16

  /**
   * The status byte of one library call.  Only the comparison with
   * `FINGERPRINT_OK` matters to the sketch; every other code is opaque.
   */
  datatype SensorStatus = Ok | NoFinger | OtherError(code: int)

  /** A `uint16_t` converted to a 16-bit `int`: values from 0x8000 on wrap to negatives. */
  function ToInt16(x: Uint16): (r: int)
    ensures -0x8000 <= r < 0x8000
    ensures (x - r) % Modulus16 == 0
    ensures x < 0x8000 ==> r == x
  {
    if x < 0x8000 then x else x - Modulus16
  }

  /** `getFingerprintIDez`: the early returns on each status, in the order the calls are made. */
  function FingerprintIdEz(image: SensorStatus, convert: SensorStatus, search: SensorStatus,
                           fingerId: Uint16): (r: int)
    ensures -0x8000 <= r < 0x8000
    ensures r >= 0 ==> r == fingerId && image == Ok && convert == Ok && search == Ok
    ensures fingerId < 0x8000 ==> (r >= 0 <==> image == Ok && convert == Ok && search == Ok)
    ensures fingerId < 0x8000 ==> r >= -2
  {
    if image != Ok then -2
    else if convert != Ok then -2
    else if search != Ok then -1
    else ToInt16(fingerId)
  }

  /** A failed capture, including a missing finger, is a sensor error whatever the later steps would have said. */
  lemma CaptureFailureIsSensorError(image: SensorStatus, convert: SensorStatus, search: SensorStatus,
                                    fingerId: Uint16)
    requires image != Ok
    ensures forall c: SensorStatus, s: SensorStatus, id: Uint16 ::
      FingerprintIdEz(image, c, s, id) == FingerprintIdEz(image, convert, search, fingerId) == -2
  {
  }

  /** A failed conversion is a sensor error; a failed search after a good capture and conversion is "no match". */
  lemma ConvertAndSearchFailures(convert: SensorStatus, search: SensorStatus, fingerId: Uint16)
    ensures convert != Ok ==> FingerprintIdEz(Ok, convert, search, fingerId) == -2
    ensures convert == Ok && search != Ok ==> FingerprintIdEz(Ok, convert, search, fingerId) == -1
  {
  }

  /** The branch of `loop()` taken for a result. */
  datatype Branch = Granted | Denied | SensorFault | NoBranch

  function Dispatch(result: int): (b: Branch)
    ensures b == NoBranch <==> result < -2
  {
    if result >= 0 then Granted
    else if result == -1 then Denied
    else if result == -2 then SensorFault
    else NoBranch
  }

  /**
   * Every result of `getFingerprintIDez` for a template ID that fits an
   * `int` lands in one of the three branches, and the granted branch is
   * taken exactly when all three sensor steps succeeded.
   */
  lemma DispatchCoversResults(image: SensorStatus, convert: SensorStatus, search: SensorStatus,
                              fingerId: Uint16)
    requires fingerId < 0x8000
    ensures var b := Dispatch(FingerprintIdEz(image, convert, search, fingerId));
      && b != NoBranch
      && (b == Granted <==> image == Ok && convert == Ok && search == Ok)
      && (b == Denied <==> image == Ok && convert == Ok && search != Ok)
      && (b == SensorFault <==> image != Ok || convert != Ok)
  {
  }

  /** A matched template ID of 0x8000 or more narrows to a negative `int`, so a match is not granted. */
  lemma WideIdNotGranted(fingerId: Uint16)
    requires fingerId >= 0x8000
    ensures Dispatch(FingerprintIdEz(Ok, Ok, Ok, fingerId)) != Granted
    ensures fingerId == 0xFFFF ==> Dispatch(FingerprintIdEz(Ok, Ok, Ok, fingerId)) == Denied
    ensures fingerId == 0xFFFE ==> Dispatch(FingerprintIdEz(Ok, Ok, Ok, fingerId)) == SensorFault
    ensures fingerId < 0xFFFE ==> Dispatch(FingerprintIdEz(Ok, Ok, Ok, fingerId)) == NoBranch
  {
  }

  // ---------------------------------------------------------------------
  // Output pins
  // ---------------------------------------------------------------------

  /** The outputs driven with `digitalWrite`: `relePin`, `ledVerde`, `ledVermelho`. */
  datatype Pin = Relay | GreenLed | RedLed

  /** One `digitalWrite(pin, high ? HIGH : LOW)`. */
  datatype PinWrite = PinWrite(pin: Pin, high: bool)

  /** The levels of the three outputs. */
  datatype Outputs = Outputs(relay: bool, greenLed: bool, redLed: bool)

  /** All outputs LOW, as after reset. */
  const AllLow: Outputs := Outputs(false, false, false)

  function Level(o: Outputs, p: Pin): bool {
    match p
    case Relay => o.relay
    case GreenLed => o.greenLed
    case RedLed => o.redLed
  }

  function Apply(o: Outputs, w: PinWrite): (r: Outputs)
    ensures Level(r, w.pin) == w.high
    ensures forall p: Pin :: p != w.pin ==> Level(r, p) == Level(o, p)
  {
    match w.pin
    case Relay => o.(relay := w.high)
    case GreenLed => o.(greenLed := w.high)
    case RedLed => o.(redLed := w.high)
  }

  /** Some write of the sequence leaves pin `p` high, started from `o`. */
  predicate RaisedDuring(o: Outputs, ws: seq<PinWrite>, p: Pin)
    decreases |ws|
  {
    ws != [] && (Level(Apply(o, ws[0]), p) || RaisedDuring(Apply(o, ws[0]), ws[1..], p))
  }

  /** The levels once a sequence of writes is done. */
  function Settle(o: Outputs, ws: seq<PinWrite>): Outputs
    decreases |ws|
  {
    if ws == [] then o else Settle(Apply(o, ws[0]), ws[1..])
  }

  /** The `digitalWrite` calls of each branch of `loop()`, in program order. */
  function BranchWrites(b: Branch): seq<PinWrite> {
    match b
    case Granted =>
      [PinWrite(Relay, true), PinWrite(GreenLed, true), PinWrite(Relay, false), PinWrite(GreenLed, false)]
    case Denied => [PinWrite(RedLed, true), PinWrite(RedLed, false)]
    case SensorFault => [PinWrite(RedLed, true), PinWrite(RedLed, false)]
    case NoBranch => []
  }

  /** A pin that starts low is high at some point of a sequence of writes exactly when the sequence raises it. */
  lemma {:induction false} RaisedIffWritten(o: Outputs, ws: seq<PinWrite>, p: Pin)
    requires !Level(o, p)
    ensures RaisedDuring(o, ws, p) <==> PinWrite(p, true) in ws
    decreases |ws|
  {
    if ws != [] {
      assert ws == [ws[0]] + ws[1..];
      var next := Apply(o, ws[0]);
      if ws[0] != PinWrite(p, true) {
        assert !Level(next, p);
        RaisedIffWritten(next, ws[1..], p);
      }
    }
  }

  /**
   * Started from all outputs low, the relay is ever driven HIGH only in the
   * granted branch, the green LED likewise, and the red LED only in the
   * deny and sensor-error branches.
   */
  lemma OutputsRaisedPerBranch(b: Branch)
    ensures RaisedDuring(AllLow, BranchWrites(b), Relay) <==> b == Granted
    ensures RaisedDuring(AllLow, BranchWrites(b), GreenLed) <==> b == Granted
    ensures RaisedDuring(AllLow, BranchWrites(b), RedLed)
      <==> b == Denied || b == SensorFault
  {
    RaisedIffWritten(AllLow, BranchWrites(b), Relay);
    RaisedIffWritten(AllLow, BranchWrites(b), GreenLed);
    RaisedIffWritten(AllLow, BranchWrites(b), RedLed);
  }

  /** Every branch lowers whatever it raised: an iteration that starts with all outputs low ends with all outputs low. */
  lemma IterationEndsLow(b: Branch)
    ensures Settle(AllLow, BranchWrites(b)) == AllLow
  {
    var ws := BranchWrites(b);
    match b
    case Granted =>
      var o1 := Apply(AllLow, ws[0]);
      var o2 := Apply(o1, ws[1]);
      var o3 := Apply(o2, ws[2]);
      assert ws[1..][1..][1..] == [ws[3]];
      assert Settle(o3, ws[1..][1..][1..]) == AllLow;
      assert Settle(o1, ws[1..]) == Settle(o3, ws[1..][1..][1..]);
    case Denied =>
      assert ws[1..] == [ws[1]] && ws[1..][1..] == [];
      assert Settle(Apply(AllLow, ws[0]), ws[1..]) == AllLow;
    case SensorFault =>
      assert ws[1..] == [ws[1]] && ws[1..][1..] == [];
      assert Settle(Apply(AllLow, ws[0]), ws[1..]) == AllLow;
    case NoBranch =>
  }

  // ---------------------------------------------------------------------
  // setup() and loop(), imperatively
  // ---------------------------------------------------------------------

  class AccessPanel {
    var relay: bool
    var greenLed: bool
    var redLed: bool
    /** False once `setup()` found no sensor and halted: `loop()` never runs then. */
    var running: bool
    /** Every `digitalWrite` made by `loop()`, oldest first. */
    var writes: seq<PinWrite>

    function Current(): Outputs
      reads this
    {
      Outputs(relay, greenLed, redLed)
    }

    /** `setup()`: the outputs start low; a failed `verifyPassword()` halts the device. */
    constructor Setup(sensorFound: bool)
      ensures running == sensorFound
      ensures Current() == AllLow && writes == []
    {
      relay, greenLed, redLed := false, false, false;
      running := sensorFound;
      writes := [];
    }

    method DigitalWrite(pin: Pin, high: bool)
      modifies this
      ensures Current() == Apply(old(Current()), PinWrite(pin, high))
      ensures writes == old(writes) + [PinWrite(pin, high)]
      ensures running == old(running)
    {
      match pin {
        case Relay => relay := high;
        case GreenLed => greenLed := high;
        case RedLed => redLed := high;
      }
      writes := writes + [PinWrite(pin, high)];
    }

    /** One iteration of `loop()`, given the statuses the sensor reports. */
    method Loop(image: SensorStatus, convert: SensorStatus, search: SensorStatus, fingerId: Uint16)
      returns (result: int)
      requires running && Current() == AllLow
      modifies this
      ensures result == FingerprintIdEz(image, convert, search, fingerId)
      ensures writes == old(writes) + BranchWrites(Dispatch(result))
      ensures Current() == AllLow && running
    {
      result := FingerprintIdEz(image, convert, search, fingerId);
      if result >= 0 {
        DigitalWrite(Relay, true);
        DigitalWrite(GreenLed, true);
        DigitalWrite(Relay, false);
        DigitalWrite(GreenLed, false);
      } else if result == -1 {
        DigitalWrite(RedLed, true);
        DigitalWrite(RedLed, false);
      } else if result == -2 {
        DigitalWrite(RedLed, true);
        DigitalWrite(RedLed, false);
      }
    }
  }
}
