# RadSens Geiger-counter driver, modelled in Dafny

A model of `RadSensBoard`, the MicroPython driver for the RadSens Geiger-counter
board on I2C. The driver keeps a 21-byte copy of the board's register block
(registers 0x00 to 0x14). It decodes fields out of that block: 8-bit fields,
16-bit fields (little-endian for the calibration value, big-endian for the pulse
counter) and 24-bit big-endian radiation levels. Configuration goes out as
single-byte register writes. The board zeroes its pulse counter every time it is
read, so every refresh of the block adds the counter to a host-side running total.

The model passes state explicitly. A `RadSens.Board` value stands for the driver
object. It holds the bus address, the bus, the register block read last and the
pulse total. Each operation returns the next `Board`.

The bus (`I2cBus.Bus`) is not a transport. It is a fixed sequence of register
blocks that the board will answer the next reads with, plus a log of every byte
written so far. `readfrom_into` takes the next block. `writeto_mem` appends to
the log. A read with no block left is the transport's failure. The driver does
not catch that failure, so the model returns it as `Err`. Nothing in the driver
changes before the read, so the caller's previous `Board` value is the state left
behind.

Files:
- `bits.dfy` (`Bits`): Python's `<<`, `|`, `&`, `& 0xFF` and `>> 8` on unbounded
  integers, and the byte-order decoders built from them.
- `registers.dfy` (`RegisterMap`): register offsets, the 21-byte block, and the
  fields' numeric meaning.
- `bus.dfy` (`I2cBus`): the reply sequence and write log, the `Result` type, and
  a reference board that keeps the bytes written to it.
- `board.dfy` (`RadSens`): every driver operation.
- `session.dfy` (`Session`): arbitrary sequences of public calls, and the
  pulse-total invariant over them.
- `scenarios.dfy` (`Scenarios`): set-then-get round trips and worked examples.

Three facts about the program that the model keeps:
- Register 0x13 is the high byte of the little-endian calibration value
  (RadSensBoard.py:128-130, 142-144).
- A refresh reads exactly 21 bytes, registers 0x00 to 0x14
  (RadSensBoard.py:36, 117).
- The pulse total is an unbounded Python integer, so the model uses `nat`.

## Model

| member | source | states |
|---|---|---|
| `RadSens.New` | RadSensBoard.py:32-43 | construction fails exactly when the first read gets no answer; otherwise the block is the first reply, the pulse total is 0 whatever that reply counted, the address is stored, and no byte is written |
| `RadSens.NewDefault` | RadSensBoard.py:32 | construction without an address binds to 0x66 and starts the total at 0 |
| `RadSens.IsValid` | RadSensBoard.py:45-46 | one refresh, and the answer is true if and only if the freshly read register 0 equals 0x7D |
| `RadSens.GetRadiationData` | RadSensBoard.py:50-58 | one refresh; the levels are the 24-bit big-endian values at 0x03 and 0x06 of the new block, each below 2^24; the third field is the previous total plus the new block's pulse delta |
| `RadSens.GetRadiationLevelDynamic` | RadSensBoard.py:60-62 | its own full refresh, returning the big-endian 24-bit value at 0x03 |
| `RadSens.GetRadiationLevelFixed` | RadSensBoard.py:64-66 | its own full refresh, returning the big-endian 24-bit value at 0x06 |
| `RadSens.GetPulseCount` | RadSensBoard.py:68-70 | its own full refresh; returns the previous total plus `256*regs[9] + regs[10]`, never less than the previous total |
| `RadSens.ResetPulseCount` | RadSensBoard.py:72-73 | the total becomes 0; the block, the bus replies, the write log and the address are unchanged |
| `RadSens.GetDeviceId` | RadSensBoard.py:77-78 | one refresh, returning register 0x00 of the new block |
| `RadSens.GetFirmwareVersion` | RadSensBoard.py:80-81 | one refresh, returning register 0x01 of the new block |
| `RadSens.GetDeviceAddress` | RadSensBoard.py:83-84 | one refresh, returning register 0x10 of the new block |
| `RadSens.SetDeviceAddress` | RadSensBoard.py:86-87 | exactly one write `(0x10, v mod 256)` is appended; block, total and address are unchanged |
| `RadSens.GetHighVoltageGeneratorState` | RadSensBoard.py:89-90 | one refresh, returning register 0x11 of the new block |
| `RadSens.SetHighVoltageGeneratorState` | RadSensBoard.py:92-93 | exactly one write `(0x11, v mod 256)` is appended; nothing else changes |
| `RadSens.GetCalibrationValue` | RadSensBoard.py:95-96 | one refresh, returning `regs[0x12] + 256*regs[0x13]` (little-endian, unlike the pulse and radiation fields) |
| `RadSens.SetCalibrationValue` | RadSensBoard.py:98-99 | exactly two writes are appended, in order: `(0x12, v mod 256)` then `(0x13, (v div 256) mod 256)`; nothing else changes |
| `RadSens.GetLedIndicationState` | RadSensBoard.py:101-102 | one refresh, returning register 0x14 of the new block |
| `RadSens.SetLedIndicationState` | RadSensBoard.py:104-105 | exactly one write `(0x14, v mod 256)` is appended; nothing else changes |
| `RadSens.ReadRegisters` | RadSensBoard.py:116-122 | a refresh fails exactly when no reply is left; otherwise the whole block becomes the next reply, the total grows by that reply's pulse delta, and the write log and address are untouched |
| `RadSens.ReadRegister8` | RadSensBoard.py:124-126 | a refresh, then the byte at the requested offset of the new block |
| `RadSens.ReadRegister16` | RadSensBoard.py:128-130 | a refresh, then the low-byte-first 16-bit value at the offset, below 2^16 |
| `RadSens.GetRegister16BigEndian` | RadSensBoard.py:132-133 | the bitwise expression equals `256*regs[a] + regs[a+1]`, below 2^16 |
| `RadSens.GetRegister24BigEndian` | RadSensBoard.py:135-136 | the bitwise expression equals the 24-bit big-endian level, below 2^24 |
| `RadSens.WriteRegister8` | RadSensBoard.py:138-140 | one write of `value & 0xFF` to the register; block, total and replies unchanged |
| `RadSens.WriteRegister16` | RadSensBoard.py:142-144 | two writes, low byte at the offset first, then the shifted high byte at offset+1; those two bytes read back little-endian give `value mod 2^16` |
| `Bits.U16BigEndian` | RadSensBoard.py:133 | `(hi << 8) OR lo` equals `256*hi + lo` and lies in [0, 65535] |
| `Bits.U24BigEndian` | RadSensBoard.py:136 | `(b0 << 16) OR (b1 << 8) OR b2` equals `65536*b0 + 256*b1 + b2` and lies in [0, 2^24) |
| `Bits.U16LittleEndian` | RadSensBoard.py:130 | `lo OR (hi << 8)` equals `lo + 256*hi` and lies in [0, 65535] |
| `Bits.BitOrDisjoint` | RadSensBoard.py:133 | OR-ing a value below 2^k into a value shifted left by k is addition, so the decoders' OR never loses or mixes bits |
| `Bits.BitOrCommutes` | RadSensBoard.py:130 | OR is symmetric, which lets the little-endian `lo OR (hi << 8)` be read as the shifted-plus-low case |
| `Bits.BitAndLowMask` | RadSensBoard.py:139 | masking a non-negative integer with `2^k - 1` keeps its remainder modulo 2^k |
| `Bits.Mask8IsBitAnd` | RadSensBoard.py:139 | the `mod 256` used for `value & 0xFF` is the bitwise AND for non-negative values |
| `Bits.LittleEndianRoundTrip` | RadSensBoard.py:142-144 | for every Python integer, including negative ones, the bytes `v & 0xFF` and `(v >> 8) & 0xFF` decode little-endian to `v mod 65536` |
| `Bits.LittleEndianBytes` | RadSensBoard.py:142-144 | a value in [0, 65535] survives the split into two bytes and the little-endian join unchanged |
| `Session.Step` | RadSensBoard.py:45-105 | every public call either refreshes exactly once (all getters, `is_valid` and the radiation accessors), zeroes the total and does nothing else (reset), or appends its writes and does nothing else (setters) |
| `Session.Query` | RadSensBoard.py:45-102 | every reading call of the driver (the ten getters and `is_valid`) fails exactly when no reply is left, and otherwise is one refresh |
| `Session.QueryIsRefresh` | RadSensBoard.py:45-102 | each reading call leaves the driver exactly as `Step` does, so sessions over `Step` cover the real getters |
| `Session.Configure` | RadSensBoard.py:86-105 | each setter sends exactly the bytes its command lists and changes nothing else |
| `Session.StepConsumes` | RadSensBoard.py:116-117 | one more call keeps the consumed-replies invariant and succeeds exactly when a reading call has a reply left |
| `Session.StepAccumulates` | RadSensBoard.py:116-122 | one more call keeps the pulse-total invariant: a reset empties the window, a read adds its delta, a write leaves it |
| `Session.RunConsumesReplies` | RadSensBoard.py:116-117 | any sequence of calls succeeds exactly when the board answers every reading call; each reading call consumes one reply in order; writes reach the log in call order; the block is the last reply read |
| `Session.RunAccumulates` | RadSensBoard.py:116-122 | after any sequence of calls, the total is the sum of the pulse deltas of the blocks read since the last reset; if there was no reset, that sum is added to the starting total |
| `Session.NoResetAccumulates` | RadSensBoard.py:119-122 | with no reset, the total after refreshes with deltas d1..dN is the starting total plus d1+...+dN, so it never decreases |
| `Session.ConstructedSession` | RadSensBoard.py:39-43 | after construction and any calls, the total counts only blocks read after the constructor's own read |
| `Session.ResetThenRefresh` | RadSensBoard.py:72-73 | a second reset changes nothing, and the first refresh after a reset reports exactly that refresh's delta |
| `Scenarios.CalibrationReadBack` | RadSensBoard.py:95-99 | if the board stores both written bytes, setting the calibration value to v and reading it back gives `v mod 65536` |
| `Scenarios.CalibrationReadBackExact` | RadSensBoard.py:95-99 | a calibration value in [0, 65535] reads back unchanged |
| `Scenarios.DeviceAddressReadBack` | RadSensBoard.py:83-87 | if the board stores the byte, setting the device address to v, then binding a new driver at `v mod 256` and reading the address through it, gives `v mod 256`; the new driver is bound at that address |
| `Scenarios.HighVoltageGeneratorStateReadBack` | RadSensBoard.py:89-93 | if the board stores the byte, setting the generator state to v and reading it back gives `v mod 256` |
| `Scenarios.LedIndicationStateReadBack` | RadSensBoard.py:101-105 | if the board stores the byte, setting the LED state to v and reading it back gives `v mod 256` |
| `Scenarios.PulseCountScenario` | RadSensBoard.py:39-43 | constructing while the board reports 7 pulses, then reading the pulse count while it reports 5 and then 3, answers 5 and then 8 |
| `Scenarios.RadiationLevelExample` | RadSensBoard.py:135-136 | the bytes 0x00 0x01 0x91 at 0x03 give a dynamic level of 401 thousandths |
| `Scenarios.CalibrationExample` | RadSensBoard.py:142-144 | calibration value 617 goes out as 0x69 to 0x12, then 0x02 to 0x13 |

## Left out

- The I2C transport itself (`readfrom_into`, `writeto_mem` on a `machine.I2C` object) is foreign code. It is replaced by the reply sequence and the write log.
- Bus addressing: the bus model ignores the device address. So the model does not capture that, after `set_device_address`, the board stops answering at the old address. `Scenarios.DeviceAddressReadBack` therefore reads the new address only through a driver newly bound at it.
- Transport failures other than a missing reply are not modelled: a failing write, a read that fills the buffer only partly, or a 16-bit write torn between its two bytes. The driver has no handling for any of these.
- The `/ 1000` float conversion of both radiation levels in `get_radiation_data` is not modelled, because floating point is out of scope. The model returns the raw 24-bit integers in thousandths.
- `read_registers(count)` (RadSensBoard.py:109-112) is a debug pass-through to the bus that bypasses the cache. It is not modelled.
- The `VERSION` string and the one-byte write buffer carry no behaviour, so they are not modelled. `DEFAULT_CALIBRATION_VALUE` is declared as a constant, but no operation uses it, in the program or in the model.
- Setter arguments are modelled as Python integers. Other Python values that `& 0xFF` would accept or reject are not modelled.
- Concurrent use of one driver object is not modelled: the driver has no locking, and calls are sequential here.
- The scripts under `test/` are hardware demos that scan, print and sleep. They are not modelled. Their set-then-verify checks appear as the `Scenarios` read-back lemmas. For the device address, the lemma follows the scripts: it sets the address, then reads it through a new driver bound at the new address.
