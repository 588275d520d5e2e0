/**
 The RadSens board's register map: where each field lives in the block of
 registers the driver reads in one transfer, and what the fields mean as
 numbers.
 */
module RegisterMap {
  import opened Bits

  /** Identity byte every RadSens board reports in register 0. */
  const DefaultDeviceId: byte := 0x7D
  /** Bus address the board answers on until it is told otherwise. */
  const DefaultDeviceAddress: int := 0x66
  const DefaultCalibrationValue: int := 105

  const DeviceIdRegister: nat := 0x00
  const FirmwareVersionRegister: nat := 0x01
  /** 24 bits, high byte first, in thousandths of a microsievert per hour. */
  const RadiationLevelDynamicRegister: nat := 0x03
  /** 24 bits, high byte first, in thousandths of a microsievert per hour. */
  const RadiationLevelFixedRegister: nat := 0x06
  /** 16 bits, high byte first: pulses since the previous read. */
  const PulseCountRegister: nat := 0x09
  const DeviceAddressRegister: nat := 0x10
  const HighVoltageGeneratorStateRegister: nat := 0x11
  /** 16 bits, low byte first. */
  const CalibrationValueRegister: nat := 0x12
  const LedIndicationStateRegister: nat := 0x14

  /** Length of the block the driver reads: registers 0x00 through 0x14. */
  const RegisterCount: nat := 21

  /** The bytes of one read of the whole register block. */
  type RegisterBlock = s: seq<byte> | |s| == RegisterCount witness seq(RegisterCount, _ => 0)

  /** Pulses the board counted since it was last read: the 16-bit big-endian
      pulse register, as a number. */
  function PulseDelta(regs: RegisterBlock): nat {
    256 * (regs[PulseCountRegister] as int) + regs[PulseCountRegister + 1] as int
  }

  /** A 24-bit big-endian radiation level, as a number. */
  function RadiationLevel(regs: RegisterBlock, reg: nat): nat
    requires reg + 2 < RegisterCount
  {
    0x1_0000 * (regs[reg] as int) + 256 * (regs[reg + 1] as int) + regs[reg + 2] as int
  }

  /** The 16-bit little-endian calibration value, as a number. */
  function CalibrationValue(regs: RegisterBlock): nat {
    regs[CalibrationValueRegister] as int + 256 * (regs[CalibrationValueRegister + 1] as int)
  }
}
