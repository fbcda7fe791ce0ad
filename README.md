# QSFP optical-module driver and flex-counter vector, in Dafny

This project models the core of a switch platform's driver for pluggable
optical transceivers (SFP/QSFP modules), together with the growable vector
of flex counters from the Tomahawk switch-chip support package.

- `registers.dfy` (module `Registers`) covers register access. A module's
  `Access` capability is a class that logs every bus transaction in order.
  It reads and writes 8-bit, 16-bit unsigned and 16-bit signed registers at
  fixed byte offsets. Sixteen-bit values travel big-endian, and signed values
  use two's complement. A device that simply remembers what was written (a
  loopback byte memory) is a predicate over the transaction log. The
  set-then-get round trips are proved against it.
- `sfp_types.dfy` (module `SfpTypes`) holds the classification codes and
  their name tables:
  - module identifiers, SFF-8024 Table 4-1;
  - connector types, Table 4-3;
  - the eight-flag 10/40G compliance byte;
  - extended specification compliance codes, Table 4-4.
- `eeprom.dfy` (module `SfpEeprom`) interprets the identity EEPROM:
  - the compliance pair, where the extended code is gated on bit 7;
  - the trimming of fixed-width vendor text, which is cut at the first NUL
    and then at white space;
  - the pieces the EEPROM is described by.
- `sfp.dfy` (module `Sfp`) holds the `QsfpModule` class:
  - edge-triggered signals;
  - the insertion handshake: poll Data_Not_Ready under a 100 ms deadline,
    force page 0, read the 64 upper-memory words in order, leave page 3
    selected;
  - the four-lane transmitter-disable mask.

  Register offsets follow the lower page of the SFF-8636 memory map:
  - status at byte 2;
  - TX disable at byte 86;
  - page select at byte 127;
  - upper memory at bytes 128..255.
- `flex_counter_vec.dfy` (module `Tomahawk`) holds the `FlexCounterVec` class.
  It is a Go slice: a length inside a backing array whose size is the
  capacity. Its operations grow it in place.

Where the design description and the code disagree, the model follows the
code:
- Removing a module calls `invalidateCache`, whose body is empty. The cached
  EEPROM therefore stays as it was. `QsfpModule.InvalidateCache` only counts
  its calls, in a ghost counter.
- No operation has an "invalid state" error. The `Access` capability returns
  no transport errors.
- A ready timeout ends the handshake with the `ReadyTimeout` outcome. In the
  code it is a panic.

## Model

| member | source | states |
|---|---|---|
| Registers.Access.ReadWrite | vnet/devices/optics/sfp/sfp.go:27-33 | one bus transaction is appended to the log; a write leaves the buffer as it was, and a read fills it with whatever the device returns |
| Registers.Reg8Get | vnet/devices/optics/sfp/sfp.go:56-60 | exactly one one-byte read at the register's offset, returning the byte read |
| Registers.Reg8Set | vnet/devices/optics/sfp/sfp.go:62-66 | exactly one one-byte write of the value at the register's offset |
| Registers.Reg16Get | vnet/devices/optics/sfp/sfp.go:68-72 | exactly one two-byte read, whose bytes are the big-endian encoding of the returned value |
| Registers.Reg16Set | vnet/devices/optics/sfp/sfp.go:74-79 | exactly one two-byte write of the value's big-endian encoding |
| Registers.RegI16Get | vnet/devices/optics/sfp/sfp.go:81 | one two-byte read, whose bytes encode the two's-complement pattern of the returned int16 |
| Registers.RegI16Set | vnet/devices/optics/sfp/sfp.go:82 | one two-byte write of the two's-complement pattern of the value |
| Registers.Encode16 | vnet/devices/optics/sfp/sfp.go:74-79 | two bytes, high byte first, that decode back to the value |
| Registers.Decode16 | vnet/devices/optics/sfp/sfp.go:68-72 | the value whose high byte is the first byte and whose low byte is the second |
| Registers.EncodeDecode16 | vnet/devices/optics/sfp/sfp.go:68-79 | re-encoding a decoded pair of bytes gives the same bytes |
| Registers.ToSigned16 | vnet/devices/optics/sfp/sfp.go:81 | int16(u) agrees with u modulo 2^16 and is negative exactly when the top bit of u is set |
| Registers.ToUnsigned16 | vnet/devices/optics/sfp/sfp.go:82 | uint16(v) agrees with v modulo 2^16 and has the top bit set exactly when v is negative |
| Registers.SignedUnsignedRoundTrip | vnet/devices/optics/sfp/sfp.go:81-82 | every int16 survives the conversion to uint16 and back |
| Registers.UnsignedSignedRoundTrip | vnet/devices/optics/sfp/sfp.go:81-82 | every uint16 survives the conversion to int16 and back |
| Registers.Reg8RoundTrip | vnet/devices/optics/sfp/sfp.go:56-66 | with a loopback device, reading an 8-bit register just written returns the value |
| Registers.Reg16RoundTrip | vnet/devices/optics/sfp/sfp.go:68-79 | with a loopback device, a 16-bit set followed by a get at the same offset returns the value |
| Registers.RegI16RoundTrip | vnet/devices/optics/sfp/sfp.go:81-82 | with a loopback device, a signed 16-bit set-then-get returns every int16 unchanged |
| Registers.Reg16RoundTripAcrossWrite | vnet/devices/optics/sfp/sfp.go:68-79 | a 16-bit value written survives a write to a non-overlapping register in between |
| SfpTypes.SfpIdsConsecutive | vnet/devices/optics/sfp/types.go:14-70 | the identifiers run consecutively from 0 to IdQsfpDD = 0x18, with exactly one name per code |
| SfpTypes.SfpIdString | vnet/devices/optics/sfp/types.go:44-72 | a code has a name if and only if it is at most 0x18, and then the name is its table entry |
| SfpTypes.SfpConnectorTypeLayout | vnet/devices/optics/sfp/types.go:76-118 | the connector constants are 0x00..0x0D (ending at MPO2x16) then 0x20..0x24; the name table is 0x25 long, with empty entries 0x0E..0x1F |
| SfpTypes.SfpConnectorTypeString | vnet/devices/optics/sfp/types.go:98-120 | exactly the codes 0x00..0x0D and 0x20..0x24 are named, each by its own entry |
| SfpTypes.ComplianceConstants | vnet/devices/optics/sfp/types.go:124-133 | each Log2 constant is its position 0..7, each flag is 1 shifted by it, and ExtendedValid is 0x80 |
| SfpTypes.SfpComplianceNamesDistinct | vnet/devices/optics/sfp/types.go:135-146 | the eight flag names are distinct, and position 7 is "extended" |
| SfpTypes.SfpComplianceString | vnet/devices/optics/sfp/types.go:135-147 | a flag's name is listed if and only if that flag is set |
| SfpTypes.ExtendedComplianceNamedByConstant | vnet/devices/optics/sfp/types.go:151-206 | six sample constants across the gaps at 0x09-0x0A and 0x0E-0x0F get their own names (e.g. 100G_CR is 0x0B, 40G_ER is 0x10, 100GE_DWDM2 is 0x1A), and the table ends at 0x1A |
| SfpTypes.ExtendedCompliancesLayout | vnet/devices/optics/sfp/types.go:151-179 | the k-th declared constant has code k, shifted by 2 past the unnamed 0x09-0x0A and by 4 past 0x0E-0x0F; there are 23 |
| SfpTypes.ExtendedCompliancesNamed | vnet/devices/optics/sfp/types.go:151-206 | the 23 declared constants, in strictly increasing order, are exactly the codes that are not reserved; each is named by its own, non-empty table entry |
| SfpTypes.SfpExtendedComplianceString | vnet/devices/optics/sfp/types.go:181-208 | a code is unnamed if and only if it is obsolete, reserved or past 0x1A, so a reserved code never takes a neighbour's name |
| SfpEeprom.GetCompliance | vnet/devices/optics/sfp/sfp.go:174-181 | the flags are Compatibility[0]; the extended code is Options[0] when bit 7 is set, and "unspecified" otherwise |
| SfpEeprom.ExtendedCodeIgnoredWhenNotValid | vnet/devices/optics/sfp/sfp.go:174-181 | without bit 7, the pair does not depend on Options at all |
| SfpEeprom.IndexByte | vnet/devices/optics/sfp/sfp.go:185 | the first position of the byte, or -1 if and only if the byte does not occur |
| SfpEeprom.BeforeNul | vnet/devices/optics/sfp/sfp.go:184-187 | the NUL-free prefix that ends at the first NUL, or the whole field when it has no NUL |
| SfpEeprom.Trim | vnet/devices/optics/sfp/sfp.go:183-189 | the trimmed text has no NUL and neither starts nor ends with white space |
| SfpEeprom.TrimTrimmed | vnet/devices/optics/sfp/sfp.go:183-189 | the trimmed text is the part before the first NUL, with only white space cut from its two ends |
| SfpEeprom.TrimUnique | vnet/devices/optics/sfp/sfp.go:183-189 | any non-empty text that is cut from the field that way, and has no white space at its ends, is the trimmed text |
| SfpEeprom.TrimPadded | vnet/devices/optics/sfp/sfp.go:183-189 | a field holding a text without NUL and without white space at its ends, then a NUL and any padding, trims to exactly that text |
| SfpEeprom.TrimAcmeExample | vnet/devices/optics/sfp/sfp.go:183-189 | "ACME" followed by NULs and then spaces trims to "ACME" |
| SfpEeprom.EepromString | vnet/devices/optics/sfp/sfp.go:191-204 | the description holds the identity, the five trimmed vendor fields, the connector and the set flags; it holds the extended code if and only if bit 7 is set and the code is not "unspecified" |
| Sfp.QsfpModule.GetSignal | vnet/devices/optics/sfp/sfp.go:113 | reads the stored level of signal s without changing anything; after SetSignal(s, level) it is that level (see SetSignal) |
| Sfp.QsfpModule.Init | vnet/devices/optics/sfp/sfp.go:115 | the module uses the given Access, and starts with all signals low, a zero image and every lane enabled |
| Sfp.QsfpModule.SetSignal | vnet/devices/optics/sfp/sfp.go:98-113 | returns the previous level and stores the new one, leaving the other signals as they were (GetSignal then reads the new level); an unchanged level causes no traffic and no hook call; only a presence change runs the handshake; the Interrupt hook runs exactly on a rising edge of the interrupt signal |
| Sfp.QsfpModule.Interrupt | vnet/devices/optics/sfp/sfp.go:117-118 | the hook changes nothing in the module or the device |
| Sfp.QsfpModule.InvalidateCache | vnet/devices/optics/sfp/sfp.go:159-160 | the hook changes nothing in the module or the device, the EEPROM image included |
| Sfp.QsfpModule.Present | vnet/devices/optics/sfp/sfp.go:120-146 | a removal makes no register access. An insertion polls until the module is ready and then forces page 0, reads words 0..63 in order into the image and selects page 3. If the deadline expires first, it ends with ReadyTimeout after the polls alone, and the image is left unchanged |
| Sfp.QsfpModule.WaitReady | vnet/devices/optics/sfp/sfp.go:129-134 | the status is polled until Data_Not_Ready clears. After each not-ready poll the deadline is checked, and the first check that finds it expired ends the wait |
| Sfp.QsfpModule.SelectPageZero | vnet/devices/optics/sfp/sfp.go:137-139 | the page select is read, and written with 0 only when it is not 0 already |
| Sfp.QsfpModule.ReadEeprom | vnet/devices/optics/sfp/sfp.go:140-143 | the image is the 64 words read, in index order, from upper-memory offsets 128 + 2i |
| Sfp.QsfpModule.TxEnable | vnet/devices/optics/sfp/sfp.go:162-172 | returns the old mask; the new mask is NextTxDisable of the old one; the TX-disable register is written exactly when the mask changes |
| Sfp.NextTxDisable | vnet/devices/optics/sfp/sfp.go:164-166 | only the four lanes are kept. A lane is disabled exactly when its enable bit is clear, or when it is outside laneMask and was disabled before |
| Sfp.NextTxDisableIdempotent | vnet/devices/optics/sfp/sfp.go:162-170 | repeating a TxEnable call leaves the mask as it is, so the second call writes no register |
| Sfp.TxDisableAllAndEnableAll | vnet/devices/optics/sfp/sfp.go:164-166 | enableMask 0 disables all four lanes, and all-ones (or just 0xF) on laneMask 0xF enables all four, whatever the old mask |
| Sfp.EmptyLaneMaskKeepsLanes | vnet/devices/optics/sfp/sfp.go:164-166 | with every enable bit set and an empty lane mask, the mask stays as it was |
| Sfp.PresentCachesUpperMemory | vnet/devices/optics/sfp/sfp.go:136-146 | with a loopback device, the image the handshake caches is the device's upper memory, because forcing page 0 touches only byte 127 |
| Sfp.StuckModuleTimesOut | vnet/devices/optics/sfp/sfp.go:128-134 | with a loopback device whose Data_Not_Ready bit is set, the insertion handshake ends with ReadyTimeout |
| Sfp.ReadyModuleCachesUpperMemory | vnet/devices/optics/sfp/sfp.go:128-146 | with a loopback device that is ready at once, the status is polled once, the handshake succeeds and it caches the device's upper memory |
| Tomahawk.FlexCounterVec.constructor | vnet/devices/ethernet/switch/bcm/internal/tomahawk/gentemplate_vec_flex_counter.go:14 | the nil vector has no elements and no storage |
| Tomahawk.FlexCounterVec.Len | vnet/devices/ethernet/switch/bcm/internal/tomahawk/gentemplate_vec_flex_counter.go:83 | the number of elements the slice shows, which is within the capacity |
| Tomahawk.FlexCounterVec.Resize | vnet/devices/ethernet/switch/bcm/internal/tomahawk/gentemplate_vec_flex_counter.go:16-26 | the length grows by n and the old elements keep their values. Storage is reallocated, to nextResizeCap of the new length and filled with the zero value, only when the new length exceeds the capacity; otherwise the storage is untouched |
| Tomahawk.FlexCounterVec.ValidateUpTo | vnet/devices/ethernet/switch/bcm/internal/tomahawk/gentemplate_vec_flex_counter.go:28-40 | the length becomes max(old length, l); the returned index is l - 1; old elements are kept; within the capacity the storage is untouched; past it the storage is freshly allocated and laid out as the slow path leaves it |
| Tomahawk.FlexCounterVec.ValidateSlowPath | vnet/devices/ethernet/switch/bcm/internal/tomahawk/gentemplate_vec_flex_counter.go:42-59 | past the capacity, the new storage holds the old elements, then the zero value up to the old capacity, then the given zero (if any) up to nextResizeCap(l) |
| Tomahawk.FlexCounterVec.Validate | vnet/devices/ethernet/switch/bcm/internal/tomahawk/gentemplate_vec_flex_counter.go:61-63 | the length becomes at least i + 1 and the returned index is i; old elements are kept; within the old capacity the storage is untouched, past it it is fresh and laid out by the slow path with no zero given |
| Tomahawk.FlexCounterVec.ValidateInit | vnet/devices/ethernet/switch/bcm/internal/tomahawk/gentemplate_vec_flex_counter.go:65-67 | as Validate, with the given zero filling fresh storage past the old capacity; when element i lies there, it holds that zero |
| Tomahawk.FlexCounterVec.ValidateLen | vnet/devices/ethernet/switch/bcm/internal/tomahawk/gentemplate_vec_flex_counter.go:69-74 | for l = 0 it returns nothing and leaves the vector unchanged; otherwise the length becomes at least l and the index l - 1 is returned; old elements are kept; within the old capacity the storage is untouched, past it it is fresh and laid out by the slow path with no zero given |
| Tomahawk.FlexCounterVec.ValidateLenInit | vnet/devices/ethernet/switch/bcm/internal/tomahawk/gentemplate_vec_flex_counter.go:76-81 | as ValidateLen (storage untouched within the old capacity), with the given zero filling fresh storage allocated past it |

## Left out

- Threshold decoding (`QsfpThreshold.get`, the unit constants, the block
  under `if false` in `Present`): it is floating point, and it is dead code.
- Pointer arithmetic on `hw.BasePointer` and the `qsfpRegs` layout, which
  are not part of this model. Registers are plain byte offsets taken from
  the SFF-8636 lower page.
- The byte layout of the `Eeprom` struct, which is not part of this model.
  The image is kept as the 64 words read. `Eeprom` is a separate datatype
  whose fields (`Compatibility[0]`, `Options[0]`, vendor text) are given as
  values. The host-endian pointer cast that stores the words into the
  struct is not modelled.
- QsfpSignal's enumeration is not part of this model. Signals are indices
  below 4, with presence 0 and interrupt status 1.
- Sfp.QsfpModule.Present: the clock is a parameter. `elapsed(k)` is the
  time in milliseconds at the k-th deadline check, and it is required to
  reach 100 eventually. Wall-clock time and the process abort of the panic
  are not modelled.
- Registers.Access.ReadWrite: what a real module returns is not
  constrained. Round trips are stated against a loopback device.
  `SfpReset` and `SfpSetLowPowerMode` are never called by the core and are
  left out.
- SfpTypes.SfpIdString: `elib.Stringer`, which is not part of this model,
  renders unnamed codes with a fallback text. Here an unnamed code yields
  `Unnamed(code)`, and an empty table entry is taken to count as "no name".
- SfpTypes.SfpConnectorTypeString: the same `elib.Stringer` fallback is
  modelled as `Unnamed(code)`.
- SfpTypes.SfpExtendedComplianceString: the same `elib.Stringer` fallback is
  modelled as `Unnamed(code)`.
- SfpTypes.SfpComplianceString: the way `elib.FlagStringer` joins the
  names into one string is not modelled. The result is the sequence of the
  names of the set flags, in bit order.
- SfpEeprom.EepromString: the `fmt.Sprintf` text is not modelled. The
  result is the sequence of pieces the text is made of.
  `QsfpModule.String` only forwards to it.
- SfpEeprom.Trim: white space is the ASCII set (space, tab, newline,
  vertical tab, form feed, carriage return). Unicode spaces, which
  `strings.TrimSpace` also strips from UTF-8 text, are not modelled.
- Tomahawk.FlexCounterVec.Validate: the width of `elib.Index` and `uint` is
  not modelled. Lengths are unbounded naturals, so the wrap-around of `i+1`
  at the maximum index is left out.
- Tomahawk.FlexCounterVec.ValidateInit: the wrap-around of `i+1` is left out
  in the same way.
- Tomahawk.FlexCounterVec.Resize: the wrap-around of `len+n` is left out in
  the same way.
- Tomahawk.FlexCounterVec.ValidateUpTo: `validate(0, …)` indexes element
  -1, which panics. It is required here that the length is at least 1,
  which every caller ensures except through the wrap-around above.
- The returned element pointer is modelled as the element's index into the
  vector's storage. `elib.NextResizeCap` is not part of this model: it is a
  function fixed at construction, required never to return less than its
  argument.
- A behaviour of the code that is kept as written: in the slow path, slots
  between the old length and the old capacity get the Go zero value, not
  the given zero. `copy` moves only the old elements, and the fill starts at
  the old capacity.
