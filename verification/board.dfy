/**
 The RadSens driver as pure state passing. A `Board` value is the driver
 object: its bus address, its view of the bus, the register block read
 last, and the host-side pulse total. Every operation that touches the bus
 returns the next `Board`; one that reads fails with the transport's error
 when the board does not answer, and the caller's previous `Board` is then
 the state the driver is left in, since nothing changes before the read.
 */
module RadSens {
  import opened Bits
  import opened RegisterMap
  import opened I2cBus

  datatype Board = Board(address: int, bus: Bus, registers: RegisterBlock, pulseCount: nat)

  /** What a getter returns: the driver afterwards and the value read. */
  datatype Answer<T> = Answer(board: Board, value: T)

  /** The raw integers behind `get_radiation_data`: both levels in
      thousandths of a microsievert per hour, and the pulse total. */
  datatype RadiationData = RadiationData(levelDynamic: nat, levelFixed: nat, pulseCount: nat)

  /** `after` is `before` after exactly one refresh: the next reply became
      the register block, its pulse delta was added to the total, and
      nothing else changed. */
  predicate Refreshed(before: Board, after: Board) {
    && |before.bus.replies| > 0
    && after.registers == before.bus.replies[0]
    && after.pulseCount == before.pulseCount + PulseDelta(before.bus.replies[0])
    && after.bus == before.bus.(replies := before.bus.replies[1..])
    && after.address == before.address
  }

  /** `after` is `before` with `writes` sent and nothing else changed: no
      read, same register block, same pulse total. */
  predicate Wrote(before: Board, after: Board, writes: seq<Write>) {
    && after.registers == before.registers
    && after.pulseCount == before.pulseCount
    && after.bus == before.bus.(log := before.bus.log + writes)
    && after.address == before.address
  }

  // Constructor

  /** Bind to a board, read its registers once and start the pulse total
      at zero, whatever the first read counted. */
  function New(bus: Bus, address: int): (r: Result<Board>)
    ensures r.Ok? <==> |bus.replies| > 0
    ensures r.Ok? ==> r.value.pulseCount == 0
    ensures r.Ok? ==> r.value.registers == bus.replies[0]
    ensures r.Ok? ==> r.value.bus == bus.(replies := bus.replies[1..])
    ensures r.Ok? ==> r.value.address == address
  {
    var unread := Board(address, bus, seq(RegisterCount, _ => 0), 0);
    var board :- ReadRegisters(unread);
    Ok(ResetPulseCount(board))
  }

  /** Construction with the board's factory address. */
  function NewDefault(bus: Bus): (r: Result<Board>)
    ensures r.Ok? <==> |bus.replies| > 0
    ensures r.Ok? ==> r.value.address == DefaultDeviceAddress && r.value.pulseCount == 0
  {
    New(bus, DefaultDeviceAddress)
  }

  /** True exactly when a fresh read of register 0 shows the RadSens
      identity byte. */
  function IsValid(b: Board): (r: Result<Answer<bool>>)
    ensures r.Ok? <==> |b.bus.replies| > 0
    ensures r.Ok? ==> Refreshed(b, r.value.board)
    ensures r.Ok? ==> (r.value.value <==> b.bus.replies[0][0] == 0x7D)
  {
    var id :- GetDeviceId(b);
    Ok(Answer(id.board, id.value == DefaultDeviceId))
  }

  // Radiation data

  /** One refresh, then both radiation levels and the pulse total. */
  function GetRadiationData(b: Board): (r: Result<Answer<RadiationData>>)
    ensures r.Ok? <==> |b.bus.replies| > 0
    ensures r.Ok? ==> Refreshed(b, r.value.board)
    ensures r.Ok? ==> r.value.value.levelDynamic == RadiationLevel(b.bus.replies[0], 3)
    ensures r.Ok? ==> r.value.value.levelFixed == RadiationLevel(b.bus.replies[0], 6)
    ensures r.Ok? ==> r.value.value.pulseCount == b.pulseCount + PulseDelta(b.bus.replies[0])
    ensures r.Ok? ==> r.value.value.levelDynamic < 0x100_0000 && r.value.value.levelFixed < 0x100_0000
  {
    var board :- ReadRegisters(b);
    var dynamic := GetRegister24BigEndian(board.registers, RadiationLevelDynamicRegister);
    var fixed := GetRegister24BigEndian(board.registers, RadiationLevelFixedRegister);
    Ok(Answer(board, RadiationData(dynamic, fixed, board.pulseCount)))
  }

  function GetRadiationLevelDynamic(b: Board): (r: Result<Answer<nat>>)
    ensures r.Ok? <==> |b.bus.replies| > 0
    ensures r.Ok? ==> Refreshed(b, r.value.board)
    ensures r.Ok? ==> r.value.value == RadiationLevel(b.bus.replies[0], 3)
  {
    var data :- GetRadiationData(b);
    Ok(Answer(data.board, data.value.levelDynamic))
  }

  function GetRadiationLevelFixed(b: Board): (r: Result<Answer<nat>>)
    ensures r.Ok? <==> |b.bus.replies| > 0
    ensures r.Ok? ==> Refreshed(b, r.value.board)
    ensures r.Ok? ==> r.value.value == RadiationLevel(b.bus.replies[0], 6)
  {
    var data :- GetRadiationData(b);
    Ok(Answer(data.board, data.value.levelFixed))
  }

  /** The pulse total after one more refresh: the total so far plus the
      pulses the board counted since its previous read. */
  function GetPulseCount(b: Board): (r: Result<Answer<nat>>)
    ensures r.Ok? <==> |b.bus.replies| > 0
    ensures r.Ok? ==> Refreshed(b, r.value.board)
    ensures r.Ok? ==> r.value.value == b.pulseCount + PulseDelta(b.bus.replies[0])
    ensures r.Ok? ==> r.value.value >= b.pulseCount
  {
    var data :- GetRadiationData(b);
    Ok(Answer(data.board, data.value.pulseCount))
  }

  /** Zero the host-side total; no bus traffic, the board's own counter is
      untouched. */
  function ResetPulseCount(b: Board): (r: Board)
    ensures r.pulseCount == 0
    ensures Wrote(b, r.(pulseCount := b.pulseCount), [])
  {
    b.(pulseCount := 0)
  }

  // Device configuration

  function GetDeviceId(b: Board): (r: Result<Answer<byte>>)
    ensures r.Ok? <==> |b.bus.replies| > 0
    ensures r.Ok? ==> Refreshed(b, r.value.board)
    ensures r.Ok? ==> r.value.value == b.bus.replies[0][0]
  {
    ReadRegister8(b, DeviceIdRegister)
  }

  function GetFirmwareVersion(b: Board): (r: Result<Answer<byte>>)
    ensures r.Ok? <==> |b.bus.replies| > 0
    ensures r.Ok? ==> Refreshed(b, r.value.board)
    ensures r.Ok? ==> r.value.value == b.bus.replies[0][1]
  {
    ReadRegister8(b, FirmwareVersionRegister)
  }

  function GetDeviceAddress(b: Board): (r: Result<Answer<byte>>)
    ensures r.Ok? <==> |b.bus.replies| > 0
    ensures r.Ok? ==> Refreshed(b, r.value.board)
    ensures r.Ok? ==> r.value.value == b.bus.replies[0][0x10]
  {
    ReadRegister8(b, DeviceAddressRegister)
  }

  /** Sends the new address to the board; the bus address this driver uses
      stays what it was. */
  function SetDeviceAddress(b: Board, boardAddress: int): (r: Board)
    ensures Wrote(b, r, [Write(0x10, boardAddress % 256)])
  {
    WriteRegister8(b, DeviceAddressRegister, boardAddress)
  }

  function GetHighVoltageGeneratorState(b: Board): (r: Result<Answer<byte>>)
    ensures r.Ok? <==> |b.bus.replies| > 0
    ensures r.Ok? ==> Refreshed(b, r.value.board)
    ensures r.Ok? ==> r.value.value == b.bus.replies[0][0x11]
  {
    ReadRegister8(b, HighVoltageGeneratorStateRegister)
  }

  function SetHighVoltageGeneratorState(b: Board, state: int): (r: Board)
    ensures Wrote(b, r, [Write(0x11, state % 256)])
  {
    WriteRegister8(b, HighVoltageGeneratorStateRegister, state)
  }

  /** Read little-endian, unlike the big-endian pulse and radiation fields. */
  function GetCalibrationValue(b: Board): (r: Result<Answer<nat>>)
    ensures r.Ok? <==> |b.bus.replies| > 0
    ensures r.Ok? ==> Refreshed(b, r.value.board)
    ensures r.Ok? ==> r.value.value == CalibrationValue(b.bus.replies[0])
  {
    ReadRegister16(b, CalibrationValueRegister)
  }

  /** Two byte writes, low byte to 0x12 first, then high byte to 0x13. */
  function SetCalibrationValue(b: Board, value: int): (r: Board)
    ensures Wrote(b, r, [Write(0x12, value % 256), Write(0x13, (value / 256) % 256)])
  {
    WriteRegister16(b, CalibrationValueRegister, value)
  }

  function GetLedIndicationState(b: Board): (r: Result<Answer<byte>>)
    ensures r.Ok? <==> |b.bus.replies| > 0
    ensures r.Ok? ==> Refreshed(b, r.value.board)
    ensures r.Ok? ==> r.value.value == b.bus.replies[0][0x14]
  {
    ReadRegister8(b, LedIndicationStateRegister)
  }

  function SetLedIndicationState(b: Board, state: int): (r: Board)
    ensures Wrote(b, r, [Write(0x14, state % 256)])
  {
    WriteRegister8(b, LedIndicationStateRegister, state)
  }

  // Private helpers of the driver

  /** Refresh: read the whole block, then add the pulse register to the
      total, because the board zeroes its counter on every read. */
  function ReadRegisters(b: Board): (r: Result<Board>)
    ensures r.Ok? <==> |b.bus.replies| > 0
    ensures r.Ok? ==> Refreshed(b, r.value)
  {
    var read :- ReadFromInto(b.bus);
    var board := b.(bus := read.1, registers := read.0);
    var pulses := GetRegister16BigEndian(board.registers, PulseCountRegister);
    Ok(board.(pulseCount := board.pulseCount + pulses))
  }

  function ReadRegister8(b: Board, reg: nat): (r: Result<Answer<byte>>)
    requires reg < RegisterCount
    ensures r.Ok? <==> |b.bus.replies| > 0
    ensures r.Ok? ==> Refreshed(b, r.value.board)
    ensures r.Ok? ==> r.value.value == b.bus.replies[0][reg]
  {
    var board :- ReadRegisters(b);
    Ok(Answer(board, board.registers[reg]))
  }

  function ReadRegister16(b: Board, reg: nat): (r: Result<Answer<nat>>)
    requires reg + 1 < RegisterCount
    ensures r.Ok? <==> |b.bus.replies| > 0
    ensures r.Ok? ==> Refreshed(b, r.value.board)
    ensures r.Ok? ==> r.value.value == b.bus.replies[0][reg] as int + 256 * (b.bus.replies[0][reg + 1] as int)
    ensures r.Ok? ==> r.value.value < 0x1_0000
  {
    var board :- ReadRegisters(b);
    Ok(Answer(board, U16LittleEndian(board.registers[reg], board.registers[reg + 1])))
  }

  function GetRegister16BigEndian(regs: RegisterBlock, reg: nat): (r: nat)
    requires reg + 1 < RegisterCount
    ensures r == 256 * (regs[reg] as int) + regs[reg + 1] as int
    ensures r < 0x1_0000
  {
    U16BigEndian(regs[reg], regs[reg + 1])
  }

  function GetRegister24BigEndian(regs: RegisterBlock, reg: nat): (r: nat)
    requires reg + 2 < RegisterCount
    ensures r == RadiationLevel(regs, reg)
    ensures r < 0x100_0000
  {
    U24BigEndian(regs[reg], regs[reg + 1], regs[reg + 2])
  }

  function WriteRegister8(b: Board, reg: nat, value: int): (r: Board)
    ensures Wrote(b, r, [Write(reg, value % 256)])
  {
    b.(bus := WriteToMem(b.bus, reg, Mask8(value)))
  }

  /** Low byte to `reg`, then the rest shifted down to `reg + 1`. The two
      bytes sent, read back low byte first, give `value` modulo 2^16. */
  function WriteRegister16(b: Board, reg: nat, value: int): (r: Board)
    ensures Wrote(b, r, [Write(reg, value % 256), Write(reg + 1, (value / 256) % 256)])
    ensures U16LittleEndian(value % 256, (value / 256) % 256) == value % 0x1_0000
  {
    LittleEndianRoundTrip(value);
    var first := WriteRegister8(b, reg, value);
    WriteRegister8(first, reg + 1, ShiftRight8(value))
  }
}
