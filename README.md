# libmirisdr in Dafny

A model of the core of libmirisdr. libmirisdr is the user-space driver for
Mirics MSi2500/MSi001 USB radio receivers. The model has five modules, one
per file:

- `Bits` (bits.dfy) defines the C operators the driver uses on unsigned
  values: `&`, `|`, `<<` and `>>`. They are defined on naturals, bit by bit.
  The module also defines the conversions to `uint16_t` and `int16_t`, and
  the arithmetic shift of a signed value. Its lemmas reduce masks of
  consecutive bits and ORs of disjoint fields to arithmetic.
- `RegisterBus` (register_bus.dfy) models `msi2500_write_reg` and
  `mirisdr_reg_write_fn`:
  - a baseband register write is one vendor control transfer;
  - its `wValue`/`wIndex` packing is proved to be a round trip for 24-bit
    values;
  - the libusb handle is a log of the control transfers issued on it.
- `Msi001` (msi001.dfy) models the MSi001 tuner driver:
  - band selection;
  - the register words of `set_reg0`, `set_reg52` and `setgains`, each built
    by its chain of `|=`;
  - the register shadow of `struct state` (a class with a `reg` array);
  - `writereg`, and the field extraction of `checkfreq`;
  - `msi001_init`.
- `SampleDecoder` (sample_decoder.dfy) models the sample format of
  `mirisdr_convert_samples`:
  - the four unpacking expressions;
  - their reference meaning: 10-bit little-endian fields, scaled;
  - the `int16_t` wrap and the gain-flag shift;
  - the two in-place loops that build one group of 128 samples in the
    output array.
- `MiriSdr` (device.dfy) models the device record `struct mirisdr_dev` as a
  class:
  - the block loop of `mirisdr_convert_samples`, with its header tracking
    (`dev->addr`, `dev->headerflag`) and a ghost log of the "Lost samples!"
    and hex-dump diagnostics;
  - the packet loop of `_libusb_callback`;
  - the three-state `async_status`, `mirisdr_cancel_async`, and one pass of
    the event loop of `mirisdr_read_async`;
  - the frequency, gain and rate setters and getters;
  - `mirisdr_get_tuner_gains` and `find_known_device`.

Each imperative routine of the driver is a method. Its `ensures` ties the
new state to a specification function, and the properties of those
functions are proved as lemmas. The methods are:

- `mirisdr_convert_samples`, with its nested loops and in-place writes to
  `outsamples`;
- `_libusb_callback`;
- the cancellation pass of the event loop;
- the setters;
- `set_reg0`, `set_reg52` and `setgains`.

What the driver computes as pure expressions is modelled as functions:

- the `wValue`/`wIndex` packing;
- band selection;
- the register layouts;
- the expected sample stream.

### Where the code departs from what it appears to intend

The model follows the code in each case.

- **Gain flags.** The decoder has a switch on each pair of flag bits
  (src/libmirisdr.c:725-750). The switch shifts a sub-group right by 2, by
  1, or not at all. But the decoder reads the flag word and then overwrites
  it with 0 (src/libmirisdr.c:701-702), so every sample is shifted right
  by 2.
  - `ShiftGroup` models the switch for any flag.
  - `ConvertGroup` calls it with the 0 the code uses.
- **Failed packets.** `_libusb_callback` tests whether a packet's status is
  not COMPLETED, but the branch is empty. The call it once held is
  commented out (src/libmirisdr.c:775-778). That call was
  `mirisdr_cancel_async`, which would stop the stream, not skip the packet.
  As written, the status is ignored: the callback converts every packet
  that reports data and has a buffer, and `Device.Callback` does the same.
- **Cancellation.** The header documents `mirisdr_cancel_async` as
  cancelling all pending operations (include/mirisdr.h:175). But the event
  loop calls `libusb_cancel_transfer` only on the transfers whose status
  is COMPLETED (src/libmirisdr.c:924-927). `Device.PollIteration` does the
  same.
- **Buffer length.** The buffer count and the buffer length passed to
  `mirisdr_read_async` are ignored, and so is the multiple-of-512 check;
  that code is commented out. The defaults, 32 transfers of 8 packets of
  3072 bytes, are constants of the model.
- **Mode test.** The tuner tests `m == AM_MODE1 || m == AM_MODE1`. AM_MODE2
  therefore takes the zero-IF branches (`Msi001.IsAmMode1`). Band selection
  never chooses AM_MODE2, so this cannot be observed through
  `msi001_init`.

### Interfaces the model stands in for

- libusb control transfers are appended to `RegisterBus.UsbHandle.transfers`.
  Their result code is the handle's `controlStatus`.
- Isochronous packets reach `Device.Callback` as `IsoPacket` values:
  status, actual length, and buffer or none.
  - libusb never reports more than the packet length of 3072 bytes
    (`PacketFits`).
  - Under that bound the 18432-sample `outsamples` array of the callback
    cannot overflow (`TransferFits`).
- The user's callback is the log `Device.delivered`.
- The statuses of the transfers in `dev->xfer` are the array `Device.xfer`;
  a null transfer pointer is `None`.
- The result of `libusb_handle_events_timeout` is the parameter `r` of
  `Device.PollIteration`.
- The calls to `libusb_cancel_transfer` are the log `Device.cancelled`.

## Model

| member | source | states |
|---|---|---|
| Bits.ToUint16 | src/libmirisdr.c:159-160 | storing into `uint16_t` gives the value in [0, 2^16) congruent to the input modulo 2^16 |
| Bits.ToInt16 | src/libmirisdr.c:692-695 | storing into `int16_t` gives the value in [-2^15, 2^15) congruent to the input modulo 2^16 |
| Bits.Sar | src/libmirisdr.c:727-734 | `x >>= n` on a signed value is the floor of x / 2^n: 2^n r <= x < 2^n r + 2^n |
| Bits.AndMask | src/libmirisdr.c:692-695 | `x & mask`, for a mask of w consecutive bits from bit n, is bits n..n+w-1 of x kept in place |
| Bits.AndLow | src/tuner_msi001.c:114-118 | `x & ((1 << w) - 1)` is x modulo 2^w |
| Bits.OrAbove | src/tuner_msi001.c:53-63 | OR-ing a field shifted above every set bit of the word adds it |
| Bits.OrField | src/tuner_msi001.c:89-90 | OR-ing a w-bit field into bits of the word that are clear adds it |
| Bits.ShrAndField | src/tuner_msi001.c:138-140 | `(x >> n) & (2^w - 1)` reads back the w-bit field stored at bit n |
| RegisterBus.WValueFields | src/libmirisdr.c:159 | wValue holds the register index in its low byte and bits 0..7 of the value in its high byte |
| RegisterBus.WIndexField | src/libmirisdr.c:160 | wIndex holds bits 8..23 of the value |
| RegisterBus.DecodeRegWrite | src/libmirisdr.c:159-160 | the value the device rebuilds from (wValue, wIndex) is below 2^24 |
| RegisterBus.WriteRegRoundTrip | src/libmirisdr.c:159-160 | unpacking (wValue, wIndex) gives back the register and the value modulo 2^24, so a 24-bit value survives the bus unchanged |
| RegisterBus.WriteRegOnto | src/libmirisdr.c:159-160 | every (wValue, wIndex) pair is the packing of the write it decodes to |
| RegisterBus.WriteReg | src/libmirisdr.c:157-166 | appends exactly one control transfer (0x42, 0x41, wValue, wIndex, timeout 300) and returns what libusb returns |
| RegisterBus.RegWriteFn | src/libmirisdr.c:953-959 | -1 and no transfer without a device; otherwise the register write and its result |
| RegisterBus.UsbHandle.constructor | src/libmirisdr.c:157-166 | a handle starts with no transfers and the given libusb result |
| Msi001.Lodiv | src/tuner_msi001.c:27-34 | the LO divider of every mode is between 2 and 32 |
| Msi001.Fref4 | src/tuner_msi001.c:36-43 | four times the reference of every IF row lies between 76.8 and 104 MHz |
| Msi001.SelectBand | src/tuner_msi001.c:155-164 | the selected band is the one whose half-open range holds the frequency, so an edge goes to the higher band; AM_MODE2 is never chosen |
| Msi001.SelectBandMonotone | src/tuner_msi001.c:155-164 | a higher frequency never selects a lower band |
| Msi001.SelectBandUnique | src/tuner_msi001.c:155-164 | any selectable band whose range holds the frequency is the one selected |
| Msi001.ThreshRange | src/tuner_msi001.c:86-87 | for every mode and crystal the threshold is between 2 and 52: never zero, and it fits its 12-bit field |
| Msi001.ThreshDriverCrystal | src/tuner_msi001.c:36-43 | with crystal index 2, which reads the 24.000 MHz row, the threshold is 96 / lodiv: 3, 6, 24 and 48 in the VHF, B3, B45 and L bands |
| Msi001.PllIntBound | src/tuner_msi001.c:92 | the integer part of fsynth / (4 fref1) is below 2048 for every 32-bit frequency |
| Msi001.PllFracBelowThresh | src/tuner_msi001.c:93 | the fraction of the exact split is below the threshold |
| Msi001.FracStep | src/tuner_msi001.c:92-93 | the integer and fraction place fsynth * thresh between two consecutive multiples of 4 fref1 |
| Msi001.PllApproximation | src/tuner_msi001.c:86-96 | with the exact integer split (not the driver's float arithmetic), 4 fref1 (int + frac / thresh) is the largest multiple of the fractional step not above fsynth |
| Msi001.CheckFreqRecovers | src/tuner_msi001.c:138-140 | reading registers 2 and 5 back recovers thresh and frac exactly, and int_ modulo 64, so all three when int_ < 64 |
| Msi001.ReadBackFields | src/tuner_msi001.c:138-140 | each of the three masks of `checkfreq` reads its field of the packed register |
| Msi001.LowNibbleIsRegister | src/tuner_msi001.c:50-134 | registers 0, 1, 2 and 5 carry their own number in the low nibble |
| Msi001.OrNibble | src/tuner_msi001.c:95 | OR-ing a 12-bit field at bit 4 into the register number adds it |
| Msi001.OrThresh | src/tuner_msi001.c:90 | the threshold at bit 4 goes into the bits below the fixed 0x28 at bit 16 |
| Msi001.OrMixl | src/tuner_msi001.c:127 | the mixer-linearity bit goes into bit 12, below the LNA bit already set at 13 |
| Msi001.Reg0Bits | src/tuner_msi001.c:53-63 | `set_reg0`'s chain of `\|=` gives mode bits at 4, filter mode at 12, filter bandwidth at 14 and crystal at 17, as a sum |
| Msi001.Reg5Bits | src/tuner_msi001.c:71-90 | register 5 is 5 + 0x28 at bit 16 + thresh at bit 4 |
| Msi001.Reg2Bits | src/tuner_msi001.c:72-96 | register 2 is 2 + frac at bit 4 + int_ at bit 16 |
| Msi001.Reg1BitsAm | src/tuner_msi001.c:113-129 | in AM_MODE1, register 1 is 1 + bbgain at 4 + mixer gain reduction at 10 + mixl at 12 + 0x05 at 14 |
| Msi001.Reg1BitsLna | src/tuner_msi001.c:113-129 | outside AM_MODE1, register 1 has the LNA bit at 13 in place of the mixer gain reduction |
| Msi001.GainMasks | src/tuner_msi001.c:114-118 | `& ((1<<6)-1)` keeps the gain modulo 64 and `& 0x1` keeps mixl and lnagr modulo 2 |
| Msi001.WriteTunerReg | src/tuner_msi001.c:45-48 | whatever the register argument, one write of the word to baseband register 0x09 |
| Msi001.TunerState.constructor | src/tuner_msi001.c:152 | the zeroed state: AM_MODE1, crystal 0, all fields and registers 0 |
| Msi001.TunerState.SetReg0 | src/tuner_msi001.c:50-68 | returns 0; writes register 0 (mode, filter 0x2/0x1 in AM_MODE1, else 0x3/0x7, crystal) and keeps it in reg[0]; the other registers are unchanged |
| Msi001.TunerState.SetReg52 | src/tuner_msi001.c:70-105 | in AM_MODE1, -1 with nothing written and the registers unchanged; otherwise writes register 5 then 2 with thresh, int_ and frac, keeps both and returns 0 |
| Msi001.TunerState.SetFreqs | src/tuner_msi001.c:107-110 | registers 0, 5 and 2, or only 0 in AM_MODE1, in that order, with the registers they leave |
| Msi001.TunerState.SetGains | src/tuner_msi001.c:112-134 | masks the gain fields to their widths, so they wrap rather than saturate (minus_bbgain modulo 64, mixl and lnagr modulo 2), and resets the AM mixer gain reduction outside AM_MODE1; writes register 1 with the masked fields and keeps it in reg[1]; returns 0 |
| Msi001.InitPllIntBound | src/tuner_msi001.c:155-169 | with the bands and crystal `msi001_init` chooses, int_ stays below 256, so register 2 fits 24 bits |
| Msi001.FreqWords | src/tuner_msi001.c:107-110 | the words `setfreqs` sends are 1 or 3, each with the register number 0, 5, 2 in its low nibble |
| Msi001.InitWords | src/tuner_msi001.c:148-169 | the words of `msi001_init` fit 24 bits and carry registers 0, 5, 2 in their low nibbles |
| Msi001.TunerWritesDecode | src/tuner_msi001.c:45-48 | each word of up to 24 bits becomes one transfer, which the MSi2500 decodes to a write of that word to register 0x09 |
| Msi001.InitDelivers | src/tuner_msi001.c:148-183 | what the MSi2500 receives during `msi001_init`: writes to 0x09 of words for tuner registers 0, 5, 2 in turn |
| Msi001.Msi001Init | src/tuner_msi001.c:148-183 | returns 0; the state holds the selected band, crystal index 2, the frequency and the gain defaults; its registers and the transfers are those of `setfreqs` |
| SampleDecoder.Field10 | src/libmirisdr.c:691-696 | a field of a 5-byte half is a 10-bit value |
| SampleDecoder.Fields | src/libmirisdr.c:691-696 | the four fields of a half, each below 2^10 |
| SampleDecoder.PackFields | src/libmirisdr.c:691-696 | four 10-bit values pack into five bytes |
| SampleDecoder.FieldBytes | src/libmirisdr.c:692-695 | each 10-bit field in terms of the bytes and bit ranges the four expressions use |
| SampleDecoder.Pattern0 | src/libmirisdr.c:692 | `ip[i]<<6 \| (ip[i+1]&0x03)<<14` is field 0 moved to bit 6 |
| SampleDecoder.Pattern1 | src/libmirisdr.c:693 | `(ip[i+1]&0xfc)<<4 \| (ip[i+2]&0x0f)<<12` is field 1 moved to bit 6 |
| SampleDecoder.Pattern2 | src/libmirisdr.c:694 | `(ip[i+2]&0xf0)<<2 \| (ip[i+3]&0x3f)<<10` is field 2 moved to bit 6 |
| SampleDecoder.Pattern3 | src/libmirisdr.c:695 | `(ip[i+3]&0xc0) \| ip[i+4]<<8` is field 3 moved to bit 6 |
| SampleDecoder.PatternIsField | src/libmirisdr.c:692-695 | each of the four expressions is 64 times its 10-bit field: the low 6 bits are zero and it fits 16 bits |
| SampleDecoder.FieldsOfPack | src/libmirisdr.c:691-696 | reading the fields of packed values gives the values back |
| SampleDecoder.PackOfFields | src/libmirisdr.c:691-696 | packing the fields of five bytes gives the bytes back: all 40 bits are used |
| SampleDecoder.LowBytes | src/libmirisdr.c:691-696 | the base-256 digits of a 40-bit number add back up to it |
| SampleDecoder.Signed10 | src/libmirisdr.c:692-695 | a 10-bit pattern read as two's complement lies in [-512, 512) and is congruent to it modulo 1024 |
| SampleDecoder.ShiftedInt16 | src/libmirisdr.c:727-734 | `x >>= n` on an `int16_t` is the arithmetic shift and stays in 16 bits |
| SampleDecoder.ShiftRange | src/libmirisdr.c:727-734 | an arithmetic shift of a 16-bit value stays in 16 bits |
| SampleDecoder.SampleIsSigned10 | src/libmirisdr.c:692-734 | after the int16 wrap and the shift by 2, a sample is 16 times its 10-bit field read as two's complement, in [-8192, 8192) with its low 4 bits zero |
| SampleDecoder.HalfInGroup | src/libmirisdr.c:690-699 | the half that carries any of a group's 128 samples lies in its 160 data bytes |
| SampleDecoder.HalfAt | src/libmirisdr.c:690-699 | the half carrying a sample is five bytes of the group |
| SampleDecoder.GroupInBlock | src/libmirisdr.c:684-757 | the six groups of a block end before its 24 trailer bytes |
| SampleDecoder.Decoded | src/libmirisdr.c:664-698 | the output of `length` bytes has 768 samples per whole block, and none for a trailing partial block |
| SampleDecoder.GroupIndex | src/libmirisdr.c:684-699 | sample u of group k of block b is output sample 768 b + 128 k + u, read from the group at byte 1024 b + 16 + 164 k |
| SampleDecoder.GroupDecodes | src/libmirisdr.c:684-735 | that sample, unpacked and shifted by 2, is the decoded sample at its output index |
| SampleDecoder.DecodedValues | src/libmirisdr.c:691-735 | every decoded sample is 16 times a 10-bit two's-complement field of its half |
| SampleDecoder.DecodedIgnoresTail | src/libmirisdr.c:664-665 | the bytes of a trailing partial block, and those past the valid length, do not affect the output |
| SampleDecoder.DecodedByIndex | src/libmirisdr.c:664-698 | a sequence that matches the decoded sample at every index of the whole blocks is the decoded output |
| SampleDecoder.DecodedPrefix | src/libmirisdr.c:664-698 | a longer valid length only appends samples |
| SampleDecoder.ZeroFlagShiftsByTwo | src/libmirisdr.c:701-727 | with the flag word zeroed, the pair of flag bits of every sub-group selects the shift by 2 |
| SampleDecoder.ZeroFlagAll | src/libmirisdr.c:701-727 | the same for all sub-groups at once |
| SampleDecoder.FlagPairAfter | src/libmirisdr.c:725-752 | after j steps of `flag >>= 2`, `flag & 0x03` is the j-th pair |
| SampleDecoder.HalfSamples | src/libmirisdr.c:690-698 | half h of sub-group j carries samples 8 j + 4 h .. 8 j + 4 h + 3 in the order of the four expressions |
| SampleDecoder.StoreHalf | src/libmirisdr.c:692-695 | stores the four wrapped patterns of one half at op .. op + 3 and nothing else |
| SampleDecoder.UnpackGroup | src/libmirisdr.c:690-699 | the 128 slots from o hold the wrapped patterns of the group's samples in order; the rest of the array is unchanged |
| SampleDecoder.ShiftEight | src/libmirisdr.c:726-744 | the eight samples from s are shifted right arithmetically by n; the rest is unchanged |
| SampleDecoder.ShiftGroup | src/libmirisdr.c:703-753 | each sub-group's eight samples are shifted by the amount its pair of flag bits selects (2, 1, or none for 2 and 3); the rest is unchanged |
| SampleDecoder.ConvertGroup | src/libmirisdr.c:687-756 | with the flag word overwritten by 0, the group's 128 slots hold the decoded samples at their output indices; nothing else changes |
| SampleDecoder.ConvertBlock | src/libmirisdr.c:686-757 | the block's 768 slots hold its decoded samples; nothing else changes |
| MiriSdr.HeaderAddress | src/libmirisdr.c:668 | a block's address is a 24-bit number |
| MiriSdr.MarkerIsBit6 | src/libmirisdr.c:674-677 | `ip[5] & 0x40` is set exactly when bit 6 of byte 5 is 1 |
| MiriSdr.FlagFollowsMarker | src/libmirisdr.c:674-680 | from a flag of 0 or 1, the new flag is 1 exactly when the marker bit is clear; the header is dumped exactly when the flag changes |
| MiriSdr.BlockHeader | src/libmirisdr.c:666-684 | the header the loop reads at the start of each block is 16 bytes long |
| MiriSdr.HeaderLogExtends | src/libmirisdr.c:669-680 | decoding blocks keeps the existing diagnostics in front of theirs |
| MiriSdr.HeadersStep | src/libmirisdr.c:665-680 | one more block extends the state and the diagnostics by that block's header step |
| MiriSdr.StateAfterHeaders | src/libmirisdr.c:672-680 | after n blocks the flag stays 0 or 1, and it is 1 exactly when the last marker bit is clear |
| MiriSdr.DumpOnToggle | src/libmirisdr.c:674-680 | within a packet, a later header is dumped exactly when its marker bit differs from the one before |
| MiriSdr.ContiguousNoLoss | src/libmirisdr.c:668-672 | headers whose addresses follow on from each other, starting at the expected address, raise no lost-samples event |
| MiriSdr.GapIsLost | src/libmirisdr.c:668-672 | a block whose address differs from the one the previous header predicts raises a lost-samples event, and the event stays in the log |
| MiriSdr.StateAddrAfter | src/libmirisdr.c:672 | after a block, the expected address is its address + (ip[0] >> 7) + 1 |
| MiriSdr.LogPrefix | src/libmirisdr.c:665-680 | the diagnostics of fewer blocks are a prefix of those of more |
| MiriSdr.LogPrefixStep | src/libmirisdr.c:665-680 | the inductive step of LogPrefix |
| MiriSdr.TransferStep | src/libmirisdr.c:772-789 | one more packet extends the transfer's samples, state and diagnostics by that packet's |
| MiriSdr.PacketBound | src/libmirisdr.c:102-104 | a packet of at most 3072 bytes yields at most 2304 samples |
| MiriSdr.TransferBound | src/libmirisdr.c:769-789 | n packets yield at most 2304 n samples |
| MiriSdr.TransferFits | src/libmirisdr.c:769 | the samples of a transfer of up to 8 packets fit `outsamples[768 * 3 * 8]` |
| MiriSdr.CompletedSlotsExact | src/libmirisdr.c:920-928 | the slots the pass cancels are exactly the non-null COMPLETED ones, each once, in ascending order |
| MiriSdr.NoneCompleted | src/libmirisdr.c:920-931 | no slot is cancelled exactly when no non-null slot is COMPLETED |
| MiriSdr.Device.constructor | src/libmirisdr.c:543-587 | a zeroed device record with the MSi001 as its tuner and the stream INACTIVE |
| MiriSdr.Device.ParseHeader | src/libmirisdr.c:668-680 | the state and diagnostics after one header are those of the header step |
| MiriSdr.Device.ConvertNextBlock | src/libmirisdr.c:665-758 | one pass of the block loop: the header step, and the block's 768 decoded samples at their output indices |
| MiriSdr.Device.ConvertBlocks | src/libmirisdr.c:664-758 | the block loop writes 768 decoded samples per block from `at` and nothing else; state and diagnostics are those of the headers |
| MiriSdr.Device.ConvertSamples | src/libmirisdr.c:654-762 | returns 768 per whole block; the slots from `at` hold the decoded output and no other slot changes; the address and flag and the diagnostics are those of the blocks' headers |
| MiriSdr.Device.ConvertPacket | src/libmirisdr.c:780-788 | a packet with data and a buffer appends its decoded samples after the first `total` samples; any other packet adds nothing; the slots after the new samples are unchanged |
| MiriSdr.Device.ConvertNext | src/libmirisdr.c:772-789 | one turn of the packet loop extends the output and the state to one more packet |
| MiriSdr.Device.ConvertTransfer | src/libmirisdr.c:766-789 | the output holds the samples of all converted packets in order, within the buffer, and the slots after them are unchanged; state and diagnostics follow all packets |
| MiriSdr.Device.Callback | src/libmirisdr.c:764-792 | the callback is called once with all samples and twice their count in bytes exactly when there is a callback and at least one sample; state and diagnostics follow all packets |
| MiriSdr.Device.PollIteration | src/libmirisdr.c:905-933 | for a pass the loop guard admits (status not INACTIVE): on an error the loop ends unless it was interrupted; outside CANCELING nothing changes; in CANCELING every COMPLETED non-null slot is cancelled; the status stays CANCELING exactly when one was, else it is INACTIVE and the loop ends; with no transfer array it is INACTIVE and the loop ends |
| MiriSdr.BeginReadAsync | src/libmirisdr.c:866-903 | -1 without a device; otherwise records the callback and sets RUNNING, and 0 marks only that the set-up is done (the C function goes on into the event loop and returns its last libusb result) |
| MiriSdr.CancelAsync | src/libmirisdr.c:940-951 | -1 without a device; RUNNING becomes CANCELING with 0; in any other status -2 and the status is unchanged |
| MiriSdr.SetCenterFreq | src/libmirisdr.c:270-294 | -1 without a device or tuner; otherwise the MSi001 initialisation for the frequency, 0, and the getter returns the new frequency |
| MiriSdr.SetTunerGain | src/libmirisdr.c:315-339 | -1 without a device or tuner; otherwise 0 and the getter returns the new gain |
| MiriSdr.SetTunerGainMode | src/libmirisdr.c:341-352 | -1 without a device or tuner, else 0 |
| MiriSdr.SetSampleRate | src/libmirisdr.c:374-403 | -1 without a device; otherwise 0 and the getter returns the new rate |
| MiriSdr.GetTunerGains | src/libmirisdr.c:296-313 | -1 without a device; otherwise 18, and with a buffer its first 18 entries are the gain table and the rest is unchanged |
| MiriSdr.FindKnownDevice | src/libmirisdr.c:405-418 | the first table entry with that vendor and product id, or none when no entry matches |

## Left out

- libusb enumeration, opening and closing, interface claiming, and string
  descriptors are not modelled. The real control and isochronous transfer
  calls are replaced by the logs and values described above.
- `mirisdr_init_baseband` and `mirisdr_deinit_baseband` are not modelled.
  They are fixed sequences of `msi2500_write_reg` calls, outside this core.
- The SSE branch of the flag loop is not modelled. It is compiled only with
  USE_SSE and does the same shifts.
- `hexdump`, `fprintf` and `printf` are not modelled. The two diagnostics of
  the decoder are ghost `Event`s instead.
- The stub gain and bandwidth functions are not modelled. They only return
  0. Where a setter calls a tuner stub, the setter's result uses that 0.
- MiriSdr.BeginReadAsync: does not model buffer allocation, filling,
  submission or `xfer_buf_num`. The transfer slots are the array `xfer`,
  set by the caller.
- MiriSdr.Device.PollIteration: the 1-second timeout and the blocking of
  `libusb_handle_events_timeout` are not modelled, because the event
  handling is a foreign call. Its result is a parameter. The freeing of the
  buffers after the loop is not modelled either.
- MiriSdr.Device.Callback: does not model the resubmission of the transfer
  or the `exit(1)` when it fails, because both are foreign calls.
- MiriSdr.CancelAsync: the call from another thread and the atomicity of
  the status change are not modelled, because the model is sequential.
- Msi001.TunerState.SetReg52: computes thresh, int_ and frac by exact
  integer division, rounding down. The driver computes them in `float`.
  The division `fsynth/(fref1*4)`, the subtraction of `int_` and the
  product with `thresh` are all single-precision operations
  (src/tuner_msi001.c:92-93). The driver's `frac` is therefore often one
  below the exact floor, even where `fsynth` itself is exact.
  - Example: at 100 MHz in VHF mode with the 24 MHz row, `fsynth` is
    3.2e9, which is exact. The float quotient is 33.3333321, so the driver
    sends `frac` = 0. The model has `frac` = 1.
  - Msi001.PllApproximation and Msi001.PllFracBelowThresh describe this
    exact split, not the words the driver sends. At 100 MHz the driver's
    words land a whole fractional step below fsynth. PllApproximation
    proves the exact split lands less than one step below.
- Msi001.Msi001Init: the reconstruction and printing of the frequency in
  `checkfreq` uses floating point and is not modelled. Its field extraction
  is modelled as `CheckFreqFields` and `CheckFreqRecovers`. This method,
  and Msi001.TunerState.SetFreqs, Msi001.FreqWords, Msi001.InitWords,
  Msi001.InitDelivers and MiriSdr.SetCenterFreq, build their register-2
  word from the exact split of SetReg52. Their register-2 words can
  therefore differ from the driver's: at 100 MHz they carry `frac` = 1
  where the driver sends 0.
- Msi001.TunerState.SetGains: the driver never calls `setgains`; that call
  in `msi001_init` is commented out. The method models the routine itself.
- MiriSdr.FindKnownDevice: returns the index of the table entry rather than
  a pointer to it.
