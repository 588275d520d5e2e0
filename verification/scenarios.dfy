/**
 What the driver's callers rely on when they configure the board and read
 it back, and worked examples of the register encodings.

 The read-back lemmas assume a board that keeps the bytes written to it:
 the block it answers the next read with is some earlier image with the
 setter's writes applied.
 */
module Scenarios {
  import opened Bits
  import opened RegisterMap
  import opened I2cBus
  import RadSens

  /** The writes a setter added to the log. */
  function Sent(before: RadSens.Board, after: RadSens.Board): seq<Write>
    requires |before.bus.log| <= |after.bus.log|
  {
    after.bus.log[|before.bus.log|..]
  }

  /** Set the calibration value, then read it: a board that stored both
      bytes answers with the value modulo 2^16, little-endian. */
  lemma CalibrationReadBack(b: RadSens.Board, value: int, image: RegisterBlock)
    requires |b.bus.replies| > 0
    requires b.bus.replies[0] == Stored(image, Sent(b, RadSens.SetCalibrationValue(b, value)))
    ensures RadSens.GetCalibrationValue(RadSens.SetCalibrationValue(b, value)).Ok?
    ensures RadSens.GetCalibrationValue(RadSens.SetCalibrationValue(b, value)).value.value == value % 0x1_0000
  {
    var written := RadSens.SetCalibrationValue(b, value);
    var lo, hi := Write(0x12, value % 256), Write(0x13, (value / 256) % 256);
    assert Sent(b, written) == [lo, hi];
    StoredTwo(image, lo, hi);
    LittleEndianRoundTrip(value);
  }

  /** The same for a value the register can hold: it reads back unchanged. */
  lemma CalibrationReadBackExact(b: RadSens.Board, value: int, image: RegisterBlock)
    requires 0 <= value < 0x1_0000
    requires |b.bus.replies| > 0
    requires b.bus.replies[0] == Stored(image, Sent(b, RadSens.SetCalibrationValue(b, value)))
    ensures RadSens.GetCalibrationValue(RadSens.SetCalibrationValue(b, value)).value.value == value
  {
    CalibrationReadBack(b, value, image);
  }

  /** Set the device address, then bind a new driver at that address and
      read it: a board that stored the byte answers with the address modulo
      256. The driver that sent the write is not read again, since the board
      no longer answers at its old address. */
  lemma DeviceAddressReadBack(b: RadSens.Board, address: int, image: RegisterBlock)
    requires |b.bus.replies| > 1
    requires b.bus.replies[1] == Stored(image, Sent(b, RadSens.SetDeviceAddress(b, address)))
    ensures var rebound := RadSens.New(RadSens.SetDeviceAddress(b, address).bus, address % 256);
            && rebound.Ok? && rebound.value.address == address % 256
            && RadSens.GetDeviceAddress(rebound.value).Ok?
            && RadSens.GetDeviceAddress(rebound.value).value.value == address % 256
  {
    var w := Write(0x10, address % 256);
    var written := RadSens.SetDeviceAddress(b, address);
    assert Sent(b, written) == [w];
    StoredOne(image, w, 0x10);
    var rebound := RadSens.New(written.bus, address % 256).value;
    assert rebound.bus.replies[0] == b.bus.replies[1];
  }

  lemma HighVoltageGeneratorStateReadBack(b: RadSens.Board, state: int, image: RegisterBlock)
    requires |b.bus.replies| > 0
    requires b.bus.replies[0] == Stored(image, Sent(b, RadSens.SetHighVoltageGeneratorState(b, state)))
    ensures RadSens.GetHighVoltageGeneratorState(RadSens.SetHighVoltageGeneratorState(b, state)).Ok?
    ensures RadSens.GetHighVoltageGeneratorState(RadSens.SetHighVoltageGeneratorState(b, state)).value.value == state % 256
  {
    var w := Write(0x11, state % 256);
    assert Sent(b, RadSens.SetHighVoltageGeneratorState(b, state)) == [w];
    StoredOne(image, w, 0x11);
  }

  lemma LedIndicationStateReadBack(b: RadSens.Board, state: int, image: RegisterBlock)
    requires |b.bus.replies| > 0
    requires b.bus.replies[0] == Stored(image, Sent(b, RadSens.SetLedIndicationState(b, state)))
    ensures RadSens.GetLedIndicationState(RadSens.SetLedIndicationState(b, state)).Ok?
    ensures RadSens.GetLedIndicationState(RadSens.SetLedIndicationState(b, state)).value.value == state % 256
  {
    var w := Write(0x14, state % 256);
    assert Sent(b, RadSens.SetLedIndicationState(b, state)) == [w];
    StoredOne(image, w, 0x14);
  }

  /** A register block that is zero except for the identity byte and the
      pulse register. */
  function CountingBlock(id: byte, pulses: nat): (r: RegisterBlock)
    requires pulses < 0x1_0000
    ensures r[0] == id && PulseDelta(r) == pulses
  {
    var hi: byte := pulses / 256;
    var lo: byte := pulses % 256;
    var r: RegisterBlock := seq(RegisterCount, i => if i == 0 then id else if i == 9 then hi else if i == 10 then lo else 0);
    assert 256 * (r[9] as int) + r[10] as int == pulses;
    r
  }

  /** Construct while the board reports 7 pulses, then ask for the pulse
      count twice while it reports 5 and then 3: the constructor's 7 is
      dropped and the answers are 5 and 8. */
  lemma PulseCountScenario()
    ensures var bus := Bus([CountingBlock(0x7D, 7), CountingBlock(0x7D, 5), CountingBlock(0x7D, 3)], []);
            && RadSens.New(bus, DefaultDeviceAddress).Ok?
            && var first := RadSens.GetPulseCount(RadSens.New(bus, DefaultDeviceAddress).value);
            && first.Ok? && first.value.value == 5
            && RadSens.GetPulseCount(first.value.board).Ok?
            && RadSens.GetPulseCount(first.value.board).value.value == 8
  {
    var bus := Bus([CountingBlock(0x7D, 7), CountingBlock(0x7D, 5), CountingBlock(0x7D, 3)], []);
    var b := RadSens.New(bus, DefaultDeviceAddress).value;
    assert b.bus.replies == [CountingBlock(0x7D, 5), CountingBlock(0x7D, 3)];
    var first := RadSens.GetPulseCount(b);
    assert first.value.board.bus.replies == [CountingBlock(0x7D, 3)];
  }

  /** The bytes 0x00 0x01 0x91 in the dynamic radiation level read as 401,
      that is 0.401 microsievert per hour. */
  lemma RadiationLevelExample(b: RadSens.Board)
    requires |b.bus.replies| > 0
    requires b.bus.replies[0][3..6] == [0x00, 0x01, 0x91]
    ensures RadSens.GetRadiationLevelDynamic(b).value.value == 401
  {
    var block := b.bus.replies[0];
    assert block[3] == block[3..6][0] == 0x00;
    assert block[4] == block[3..6][1] == 0x01;
    assert block[5] == block[3..6][2] == 0x91;
    assert RadiationLevel(block, 3) == 401;
  }

  /** Calibration value 617 goes out as 0x69 to register 0x12, then 0x02
      to register 0x13. */
  lemma CalibrationExample(b: RadSens.Board)
    ensures Sent(b, RadSens.SetCalibrationValue(b, 617)) == [Write(0x12, 0x69), Write(0x13, 0x02)]
  {
    var log := b.bus.log;
    var writes := [Write(0x12, 0x69), Write(0x13, 0x02)];
    assert RadSens.SetCalibrationValue(b, 617).bus.log == log + writes by {
      assert 617 % 256 == 0x69 && (617 / 256) % 256 == 0x02;
    }
    assert (log + writes)[|log|..] == writes;
  }
}
