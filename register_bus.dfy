/** The MSi2500 baseband register bus.
 *
 *  Every baseband register write is one vendor control transfer (request type
 *  0x42, request 0x41) with no data stage: the register index and the low byte
 *  of the 24-bit value travel in wValue, the upper 16 bits of the value in
 *  wIndex. The libusb device handle is modelled by a log of the control
 *  transfers issued on it; the status libusb returns for them is a field of
 *  the handle, since the model cannot see the USB stack.
 */
module RegisterBus {
  import opened Bits

  const REQUEST_TYPE_VENDOR_OUT: Byte := 0x42
  const REQUEST_WRITE_REG: Byte := 0x41
  const CTRL_TIMEOUT: nat := 300

  /** One `libusb_control_transfer` call without a data stage. */
  datatype ControlTransfer = ControlTransfer(
    requestType: Byte, request: Byte, wValue: Uint16, wIndex: Uint16, timeout: nat)

  /** An open libusb device handle, seen through the transfers issued on it. */
  class UsbHandle {
    var transfers: seq<ControlTransfer>
    /** What libusb returns for a control transfer on this handle. */
    var controlStatus: int

    constructor (status: int)
      ensures transfers == [] && controlStatus == status
    {
      transfers := [];
      controlStatus := status;
    }
  }

  /** `(val & 0xff) << 8 | reg`, stored into a `uint16_t` */
  function WValue(reg: Byte, val: Uint32): Uint16
  {
    ToUint16(BitOr(Shl(BitAnd(val, 0xff), 8), reg))
  }

  /** `(val >> 8) & 0xffff`, stored into a `uint16_t` */
  function WIndex(val: Uint32): Uint16
  {
    ToUint16(BitAnd(Shr(val, 8), 0xffff))
  }

  /** wValue carries the register index in its low byte and bits 0..7 of the
      value in its high byte. */
  lemma WValueFields(reg: Byte, val: Uint32)
    ensures WValue(reg, val) == 0x100 * (val % 0x100) + reg
    ensures WValue(reg, val) % 0x100 == reg && WValue(reg, val) / 0x100 == val % 0x100
  {
    var low := val % 0x100;
    assert BitAnd(val, 0xff) == low by {
      AndMask(val, 0, 8, 0xff, 1, 0x100);
    }
    assert Shl(low, 8) == 0x100 * low;
    assert BitOr(0x100 * low, reg) == 0x100 * low + reg by {
      OrLow(0x100 * low, reg, 8, 0x100);
    }
    DivModUnique(0x100 * low + reg, 0x100, low, reg);
  }

  /** wIndex carries bits 8..23 of the value. */
  lemma WIndexField(val: Uint32)
    ensures WIndex(val) == (val / 0x100) % 0x1_0000
  {
    Pow2Values();
    AndMask(val / 0x100, 0, 16, 0xffff, 1, 0x1_0000);
  }

  /** The register write as the MSi2500 takes it apart: the register index
      and the 24-bit value. */
  datatype RegWrite = RegWrite(reg: Byte, val: Uint32)

  function DecodeRegWrite(wValue: Uint16, wIndex: Uint16): (w: RegWrite)
    ensures w.val < 0x100_0000
  {
    RegWrite(wValue % 0x100, wValue / 0x100 + 0x100 * wIndex)
  }

  /** Packing then unpacking gives back the register and the low 24 bits of
      the value: a value of up to 24 bits survives the bus unchanged, and
      bits 24..31 are dropped. */
  lemma {:induction false} WriteRegRoundTrip(reg: Byte, val: Uint32)
    ensures DecodeRegWrite(WValue(reg, val), WIndex(val)) == RegWrite(reg, val % 0x100_0000)
    ensures val < 0x100_0000 ==> DecodeRegWrite(WValue(reg, val), WIndex(val)) == RegWrite(reg, val)
  {
    WValueFields(reg, val);
    WIndexField(val);
    var lo, mid := val % 0x100, (val / 0x100) % 0x1_0000;
    var top := val / 0x100_0000;
    DivModUnique(val / 0x100, 0x1_0000, top, mid) by {
      assert val == 0x100 * (val / 0x100) + lo;
      assert val / 0x100 == 0x1_0000 * ((val / 0x100) / 0x1_0000) + mid;
      DivModUnique(val, 0x100_0000, (val / 0x100) / 0x1_0000, lo + 0x100 * mid);
    }
    DivModUnique(val, 0x100_0000, top, lo + 0x100 * mid);
  }

  /** Every (wValue, wIndex) pair is the packing of the write the device
      decodes from it: packing is onto, so nothing else can reach the bus. */
  lemma {:induction false} WriteRegOnto(wValue: Uint16, wIndex: Uint16)
    ensures var w := DecodeRegWrite(wValue, wIndex);
            WValue(w.reg, w.val) == wValue && WIndex(w.val) == wIndex
  {
    var w := DecodeRegWrite(wValue, wIndex);
    var hi := wValue / 0x100;
    WValueFields(w.reg, w.val);
    WIndexField(w.val);
    DivModUnique(w.val, 0x100, wIndex, hi);
    DivModUnique(wIndex, 0x1_0000, 0, wIndex);
    DivModUnique(wValue, 0x100, hi, w.reg);
  }

  /** The control transfer that writes `val` to baseband register `reg`. */
  function RegTransfer(reg: Byte, val: Uint32): ControlTransfer
  {
    ControlTransfer(REQUEST_TYPE_VENDOR_OUT, REQUEST_WRITE_REG, WValue(reg, val), WIndex(val),
                    CTRL_TIMEOUT)
  }

  /** `msi2500_write_reg`: one control transfer carrying (reg, val); the
      result is what libusb returns for it. */
  method WriteReg(h: UsbHandle, reg: Byte, val: Uint32) returns (r: int)
    modifies h`transfers
    ensures h.transfers == old(h.transfers) + [RegTransfer(reg, val)]
    ensures r == h.controlStatus
  {
    var wValue := WValue(reg, val);
    var wIndex := WIndex(val);
    h.transfers := h.transfers + [ControlTransfer(REQUEST_TYPE_VENDOR_OUT,
      REQUEST_WRITE_REG, wValue, wIndex, CTRL_TIMEOUT)];
    r := h.controlStatus;
  }

  /** The transfers a write of `val` to register `reg` appends to the log of
      the handle `h`, or nothing when there is no device. */
  function RegWriteLog(h: UsbHandle?, reg: Byte, val: Uint32): seq<ControlTransfer>
  {
    if h == null then [] else [RegTransfer(reg, val)]
  }

  /** `mirisdr_reg_write_fn`, the entry point the tuner driver writes through:
      -1 without a device, otherwise the register write. A null handle stands
      for a null device pointer. */
  method RegWriteFn(h: UsbHandle?, reg: Byte, val: Uint32) returns (r: int)
    modifies h
    ensures h == null ==> r == -1
    ensures h != null ==> r == h.controlStatus && h.controlStatus == old(h.controlStatus)
    ensures h != null ==> h.transfers == old(h.transfers) + RegWriteLog(h, reg, val)
  {
    if h == null {
      r := -1;
    } else {
      r := WriteReg(h, reg, val);
    }
  }
}
