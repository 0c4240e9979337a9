/** The Mirics MSi001 tuner as the driver programs it.
 *
 *  The tuner is reached through baseband register 0x09: each 24-bit tuner
 *  word carries its own register number in the low nibble. The driver picks
 *  a band from the frequency, then builds register 0 (mode, IF filter,
 *  crystal), registers 5 and 2 (the fractional-N synthesiser: threshold,
 *  integer and fraction) and, in a routine it does not call, register 1
 *  (gains). The registers are built by successive `|=` of shifted fields;
 *  the lemmas below show that the fields are disjoint, so each register is
 *  the sum of its fields and each field can be read back.
 */
module Msi001 {
  import opened Bits
  import opened RegisterBus

  // ---------------------------------------------------------------------
  // Enumerations and tables

  /** `enum mode` */
  datatype Mode = AmMode1 | AmMode2 | VhfMode | B3Mode | B45Mode | BlMode

  function ModeIndex(m: Mode): (i: nat)
    ensures i < |R0_MODES|
  {
    match m
    case AmMode1 => 0
    case AmMode2 => 1
    case VhfMode => 2
    case B3Mode => 3
    case B45Mode => 4
    case BlMode => 5
  }

  /** `enum xtal`: the crystal, an index into the IF frequency table. */
  datatype Xtal = Xtal19_2M | Xtal22M | Xtal24_576M | Xtal26M | Xtal38_4M

  function XtalIndex(x: Xtal): (i: nat)
    ensures i < |IF_FREQS|
  {
    match x
    case Xtal19_2M => 0
    case Xtal22M => 1
    case Xtal24_576M => 2
    case Xtal26M => 3
    case Xtal38_4M => 4
  }

  /** `enum am_mixgainred`: the AM mixer gain reduction, two bits. */
  type MixGainRed = g: nat | g < 4
  const MIXBU_P0_0: MixGainRed := 0
  const MIXBU_P0_6: MixGainRed := 1
  const MIXBU_P0_12: MixGainRed := 2
  const MIXBU_P0_18: MixGainRed := 3
  const MIXBU_P1_24: MixGainRed := 3

  /** One row of the register-0 mode table: the mode bits and the LO divider. */
  datatype R0Mode = R0Mode(value: Byte, lodiv: Byte)

  const R0_MODES: seq<R0Mode> := [
    R0Mode(0x61, 16),  // AM_MODE1
    R0Mode(0xe1, 16),  // AM_MODE2
    R0Mode(0x42, 32),  // VHF_MODE
    R0Mode(0x44, 16),  // B3_MODE
    R0Mode(0x48, 4),   // B45_MODE
    R0Mode(0x50, 2)    // BL_MODE
  ]

  /** One row of the IF table: crystal, reference and first IF, in Hz. */
  datatype IfFreq = IfFreq(xtalfreq: Uint32, fref1: Uint32, fif1: Uint32)

  /** The 24.576 MHz row is disabled in the driver, so index 2 (the crystal
      named 24.576 MHz) reads the 24.000 MHz row. */
  const IF_FREQS: seq<IfFreq> := [
    IfFreq(19_200_000, 19_200_000, 134_400_000),
    IfFreq(22_000_000, 22_000_000, 132_000_000),
    IfFreq(24_000_000, 24_000_000, 120_000_000),
    IfFreq(26_000_000, 26_000_000, 130_000_000),
    IfFreq(38_400_000, 19_200_000, 134_400_000)
  ]

  const R0_FIL_MODE_SH: nat := 12
  const R0_FIL_BW_SH: nat := 14
  const R0_XTAL_SEL_SH: nat := 17
  const FIL_MODE_450K_IF: nat := 0x2
  const FIL_MODE_ZERO_IF: nat := 0x3
  const R2_INT_SH: nat := 16
  const R1_MIXBU_SH: nat := 10
  const R1_MIXL_SH: nat := 12
  const R1_LNAGR_SH: nat := 13
  const R1_DCCAL_SH: nat := 14
  const R1_DCCAL: nat := 0x05

  /** The baseband register every tuner word is written to. */
  const TUNER_REG: Byte := 0x09
  /** The synthesiser's fractional step before the LO divider, in Hz. */
  const FRAC_STEP: nat := 1_000_000

  function Lodiv(m: Mode): (d: nat)
    ensures 2 <= d <= 32
  {
    R0_MODES[ModeIndex(m)].lodiv
  }

  /** Four times the reference frequency of crystal x. */
  function Fref4(x: Xtal): (f: nat)
    ensures 76_800_000 <= f <= 104_000_000
  {
    IF_FREQS[XtalIndex(x)].fref1 * 4
  }

  /** The driver tests `m == AM_MODE1 || m == AM_MODE1`: the second operand
      repeats the first, so AM_MODE2 takes the zero-IF branches. */
  predicate IsAmMode1(m: Mode)
  {
    m == AmMode1 || m == AmMode1
  }

  // ---------------------------------------------------------------------
  // Band selection

  /** The lower edge of each band, in Hz. */
  function BandLow(m: Mode): nat
  {
    match m
    case AmMode1 => 0
    case AmMode2 => 0
    case VhfMode => 30_000_000
    case B3Mode => 140_000_000
    case B45Mode => 300_000_000
    case BlMode => 970_000_000
  }

  /** The upper edge of each band below the last one, exclusive. */
  function BandHigh(m: Mode): nat
  {
    match m
    case AmMode1 => 30_000_000
    case AmMode2 => 30_000_000
    case VhfMode => 140_000_000
    case B3Mode => 300_000_000
    case B45Mode => 970_000_000
    case BlMode => 0x1_0000_0000
  }

  /** The band the driver selects for a frequency: the one whose half-open
      range [BandLow, BandHigh) holds it, so an edge belongs to the band
      above it; AM_MODE2 is never selected. */
  function SelectBand(freq: Uint32): (m: Mode)
    ensures m != AmMode2
    ensures BandLow(m) <= freq < BandHigh(m)
  {
    if freq < 30_000_000 then AmMode1
    else if freq < 140_000_000 then VhfMode
    else if freq < 300_000_000 then B3Mode
    else if freq < 970_000_000 then B45Mode
    else BlMode
  }

  /** The position of a selectable band in frequency order. */
  function BandRank(m: Mode): nat
  {
    match m
    case AmMode1 => 0
    case AmMode2 => 0
    case VhfMode => 1
    case B3Mode => 2
    case B45Mode => 3
    case BlMode => 4
  }

  /** A higher frequency never selects a lower band. */
  lemma SelectBandMonotone(f1: Uint32, f2: Uint32)
    requires f1 <= f2
    ensures BandRank(SelectBand(f1)) <= BandRank(SelectBand(f2))
  {
  }

  /** The selected band is the only selectable band whose range holds the
      frequency. */
  lemma SelectBandUnique(freq: Uint32, m: Mode)
    requires m != AmMode2 && BandLow(m) <= freq < BandHigh(m)
    ensures SelectBand(freq) == m
  {
  }

  // ---------------------------------------------------------------------
  // Register layouts

  /** Register 0 as its fields: mode bits at 4, IF filter mode at 12, filter
      bandwidth at 14, crystal at 17. */
  function Reg0Layout(m: Mode, x: Xtal): nat
  {
    var filMode := if IsAmMode1(m) then FIL_MODE_450K_IF else FIL_MODE_ZERO_IF;
    var filBw := if IsAmMode1(m) then 0x1 else 0x7;
    0x10 * R0_MODES[ModeIndex(m)].value + 0x1000 * filMode + 0x4000 * filBw
      + 0x2_0000 * XtalIndex(x)
  }

  /** The synthesiser threshold: how many fractional steps make one integer
      step, `fref1 * 4 / (1 MHz * lodiv)` rounded down. */
  function Thresh(m: Mode, x: Xtal): nat
  {
    Fref4(x) / (FRAC_STEP * Lodiv(m))
  }

  /** The synthesiser input outside AM: the frequency times the LO divider
      (the IF offset is 0 there). */
  function Fsynth(m: Mode, freq: Uint32): nat
  {
    freq * Lodiv(m)
  }

  /** The integer part of fsynth / (4 fref1). */
  function PllInt(m: Mode, x: Xtal, freq: Uint32): nat
  {
    Fsynth(m, freq) / Fref4(x)
  }

  /** The fractional part of fsynth / (4 fref1), in units of 1 / thresh,
      rounded down. This is the exact split; the driver's single-precision
      quotient, subtraction and product can give one less (100 MHz in VHF
      mode with the 24 MHz row: 0 where this gives 1). */
  function PllFrac(m: Mode, x: Xtal, freq: Uint32): nat
  {
    (Fsynth(m, freq) % Fref4(x)) * Thresh(m, x) / Fref4(x)
  }

  /** Register 5 as its fields: register number 5, 0x28 at bit 16 (bits 19
      and 21), the threshold at bit 4. */
  function Reg5Layout(thresh: nat): nat
  {
    5 + 0x28 * 0x1_0000 + 0x10 * thresh
  }

  /** Register 2 as its fields: register number 2, the fraction at bit 4,
      the integer at bit 16. */
  function Reg2Layout(frac: nat, int_: nat): nat
  {
    2 + 0x10 * frac + 0x1_0000 * int_
  }

  /** Register 1 as its fields: register number 1, baseband gain reduction at
      bit 4, the AM mixer gain reduction at bit 10 in AM_MODE1 or the LNA gain
      reduction at bit 13 otherwise, the mixer-linearity bit at 12 and the DC
      calibration mode at 14. */
  function Reg1Layout(m: Mode, bbgain: nat, mixgainred: nat, mixl: nat, lnagr: nat): nat
  {
    1 + 0x10 * bbgain
      + (if IsAmMode1(m) then 0x400 * mixgainred else 0x2000 * lnagr)
      + 0x1000 * mixl + 0x4000 * R1_DCCAL
  }

  // ---------------------------------------------------------------------
  // Synthesiser facts

  /** With every crystal and mode, the threshold is between 2 and 52, so it
      is never zero and fits the 12-bit field of register 5. */
  lemma ThreshRange(m: Mode, x: Xtal)
    ensures 2 <= Thresh(m, x) <= 52
  {
    var d := FRAC_STEP * Lodiv(m);
    DivBound(Fref4(x), d, 53);
    DivAtLeast(Fref4(x), d, 2);
  }

  /** With the crystal the driver selects (the 24 MHz row), the threshold is
      96 / lodiv: 3, 6, 24 and 48 in the VHF, B3, B45 and L bands. */
  lemma ThreshDriverCrystal(m: Mode)
    ensures Thresh(m, Xtal24_576M) == 96 / Lodiv(m)
    ensures Thresh(VhfMode, Xtal24_576M) == 3 && Thresh(B3Mode, Xtal24_576M) == 6
    ensures Thresh(B45Mode, Xtal24_576M) == 24 && Thresh(BlMode, Xtal24_576M) == 48
  {
  }

  /** The integer part is below 2048 for every 32-bit frequency, so register
      2 never exceeds 32 bits. */
  lemma PllIntBound(m: Mode, x: Xtal, freq: Uint32)
    ensures PllInt(m, x, freq) < 2048
  {
    var fs, r := Fsynth(m, freq), Fref4(x);
    assert fs <= 0xffff_ffff * 32;
    DivBound(fs, r, 2048);
  }

  /** The fraction is below the threshold: it is a count of 1/thresh steps
      within one integer step. */
  lemma {:induction false} PllFracBelowThresh(m: Mode, x: Xtal, freq: Uint32)
    ensures PllFrac(m, x, freq) < Thresh(m, x)
  {
    var r, t := Fref4(x), Thresh(m, x);
    var rem := Fsynth(m, freq) % r;
    ThreshRange(m, x);
    MulLess(t, rem, r);
    DivBound(rem * t, r, t);
  }

  /** Dividing fs by r with the remainder scaled to t steps: the quotient and
      the step count locate fs * t between two consecutive multiples of r. */
  lemma {:induction false} FracStep(fs: nat, r: nat, t: nat)
    requires r > 0
    ensures var i, f := fs / r, (fs % r) * t / r;
            r * (i * t + f) <= fs * t < r * (i * t + f + 1)
  {
    var i, rem := fs / r, fs % r;
    var f := rem * t / r;
    assert r * f <= rem * t < r * f + r by {
      DivModUnique(rem * t, r, f, (rem * t) % r);
    }
    assert fs * t == r * (i * t) + rem * t by {
      assert fs == r * i + rem;
      Distribute(fs, r, i, rem, t);
    }
    assert r * (i * t + f) == r * (i * t) + r * f;
    assert r * (i * t + f + 1) == r * (i * t) + r * f + r;
  }

  lemma Distribute(fs: int, r: int, i: int, rem: int, t: int)
    requires fs == r * i + rem
    ensures fs * t == r * (i * t) + rem * t
  {
    calc {
      fs * t;
      (r * i + rem) * t;
      (r * i) * t + rem * t;
      { MulAssoc(r, i, t); }
      r * (i * t) + rem * t;
    }
  }

  /** The programmed synthesiser frequency, 4 fref1 * (int + frac / thresh),
      is the largest multiple of the fractional step 4 fref1 / thresh that
      does not exceed fsynth: it undershoots fsynth by less than one step. */
  lemma PllApproximation(m: Mode, x: Xtal, freq: Uint32)
    ensures var r, t := Fref4(x), Thresh(m, x);
            var n := PllInt(m, x, freq) * t + PllFrac(m, x, freq);
            r * n <= Fsynth(m, freq) * t < r * (n + 1)
  {
    FracStep(Fsynth(m, freq), Fref4(x), Thresh(m, x));
  }

  // ---------------------------------------------------------------------
  // Reading the registers back

  /** The synthesiser fields `checkfreq` reads back from registers 2 and 5. */
  datatype PllFields = PllFields(thresh: nat, int_: nat, frac: nat)

  /** `checkfreq`'s field extraction: frac = (reg2 >> 4) & 0xfff,
      int_ = (reg2 >> 16) & 0x3f, thresh = (reg5 >> 4) & 0xfff. */
  function CheckFreqFields(reg2: Uint32, reg5: Uint32): PllFields
  {
    PllFields(BitAnd(Shr(reg5, 4), 0xfff),
              BitAnd(Shr(reg2, R2_INT_SH), 0x3f),
              BitAnd(Shr(reg2, 4), 0xfff))
  }

  /** Reading back registers 2 and 5 as `checkfreq` does recovers the
      threshold and the fraction, and the integer modulo 64: an integer part
      of 64 or more (possible in the L band above 3.072 GHz with the 24 MHz
      row) does not fit the six bits the driver reads. */
  lemma CheckFreqRecovers(thresh: nat, int_: nat, frac: nat)
    requires thresh < 0x1000 && frac < 0x1000 && int_ < 2048
    ensures Reg2Layout(frac, int_) < 0x1_0000_0000 && Reg5Layout(thresh) < 0x1_0000_0000
    ensures CheckFreqFields(Reg2Layout(frac, int_), Reg5Layout(thresh))
            == PllFields(thresh, int_ % 64, frac)
    ensures int_ < 64 ==> CheckFreqFields(Reg2Layout(frac, int_), Reg5Layout(thresh))
                          == PllFields(thresh, int_, frac)
  {
    var fields := CheckFreqFields(Reg2Layout(frac, int_), Reg5Layout(thresh));
    ReadBackFields(thresh, int_, frac);
    assert fields.thresh == thresh && fields.int_ == int_ % 64 && fields.frac == frac;
    assert int_ < 64 ==> int_ % 64 == int_;
  }

  /** The three masks of `checkfreq`, each applied to the register it reads. */
  lemma ReadBackFields(thresh: nat, int_: nat, frac: nat)
    requires thresh < 0x1000 && frac < 0x1000 && int_ < 2048
    ensures var reg2, reg5 := Reg2Layout(frac, int_), Reg5Layout(thresh);
            BitAnd(Shr(reg5, 4), 0xfff) == thresh
            && BitAnd(Shr(reg2, R2_INT_SH), 0x3f) == int_ % 64
            && BitAnd(Shr(reg2, 4), 0xfff) == frac
  {
    var reg2, reg5 := Reg2Layout(frac, int_), Reg5Layout(thresh);
    assert Pow2(12) == 0x1000 && Pow2(6) == 64 && Pow2(4) == 0x10 && Pow2(16) == 0x1_0000 by {
      Pow2Values();
    }
    ShrAndField(reg2, 4, 12, 2, frac, int_, 0x10, 0x1000);
    var lo := 2 + 0x10 * frac;
    assert reg2 == lo + 0x1_0000 * (int_ % 64 + 64 * (int_ / 64));
    ShrAndField(reg2, 16, 6, lo, int_ % 64, int_ / 64, 0x1_0000, 64);
    ShrAndField(reg5, 4, 12, 5, thresh, 0x28, 0x10, 0x1000);
  }

  /** Each register word carries its own register number in the low nibble,
      since every field sits at bit 4 or above. */
  lemma LowNibbleIsRegister(m: Mode, x: Xtal, thresh: nat, frac: nat, int_: nat,
                            bbgain: nat, mixgainred: nat, mixl: nat, lnagr: nat)
    ensures Reg0Layout(m, x) % 0x10 == 0
    ensures Reg1Layout(m, bbgain, mixgainred, mixl, lnagr) % 0x10 == 1
    ensures Reg2Layout(frac, int_) % 0x10 == 2
    ensures Reg5Layout(thresh) % 0x10 == 5
  {
    var f0 := Reg0Layout(m, x) / 0x10;
    assert Reg0Layout(m, x) == 0x10 * f0 by {
      var filMode := if IsAmMode1(m) then FIL_MODE_450K_IF else FIL_MODE_ZERO_IF;
      var filBw := if IsAmMode1(m) then 0x1 else 0x7;
      var g := R0_MODES[ModeIndex(m)].value + 0x100 * filMode + 0x400 * filBw
        + 0x2000 * XtalIndex(x);
      assert Reg0Layout(m, x) == 0x10 * g;
      DivModUnique(Reg0Layout(m, x), 0x10, g, 0);
    }
    var g1 := bbgain + (if IsAmMode1(m) then 0x40 * mixgainred else 0x200 * lnagr)
      + 0x100 * mixl + 0x400 * R1_DCCAL;
    DivModUnique(Reg1Layout(m, bbgain, mixgainred, mixl, lnagr), 0x10, g1, 1);
    DivModUnique(Reg2Layout(frac, int_), 0x10, frac + 0x1000 * int_, 2);
    DivModUnique(Reg5Layout(thresh), 0x10, 0x28 * 0x1000 + thresh, 5);
  }

  // ---------------------------------------------------------------------
  // The `|=` chains

  // Each lemma below covers one `reg |= v << SH` of the driver: the bits
  // already set lie below bit SH (or, for the two fields OR-ed in between
  // others, clear at the field's place), so OR-ing adds `v * 2^SH`.

  lemma ShlNibble(v: nat)
    ensures Shl(v, 4) == 0x10 * v
  {
    Pow2Small();
  }

  lemma OrNibble(a: nat, v: nat, r: nat)
    requires a < 0x10 && v < 0x1000 && r == BitOr(a, Shl(v, 4))
    ensures r == a + 0x10 * v
  {
    Pow2Small();
    OrAbove(a, v, 4, 12, 0x10, 0x1000);
  }

  lemma OrFilMode(a: nat, v: nat, r: nat)
    requires a < 0x1000 && v < 4 && r == BitOr(a, Shl(v, R0_FIL_MODE_SH))
    ensures r == a + 0x1000 * v
  {
    Pow2Values();
    OrAbove(a, v, 12, 2, 0x1000, 4);
  }

  lemma OrFilBw(a: nat, v: nat, r: nat)
    requires a < 0x4000 && v < 8 && r == BitOr(a, Shl(v, R0_FIL_BW_SH))
    ensures r == a + 0x4000 * v
  {
    Pow2Values();
    OrAbove(a, v, 14, 3, 0x4000, 8);
  }

  lemma OrXtalSel(a: nat, v: nat, r: nat)
    requires a < 0x2_0000 && v < 8 && r == BitOr(a, Shl(v, R0_XTAL_SEL_SH))
    ensures r == a + 0x2_0000 * v
  {
    Pow2Values();
    OrAbove(a, v, 17, 3, 0x2_0000, 8);
  }

  lemma OrReg5Fixed(r: nat)
    requires r == BitOr(5, Shl(0x28, 16))
    ensures r == 5 + 0x28 * 0x1_0000
  {
    Pow2Values();
    OrAbove(5, 0x28, 16, 6, 0x1_0000, 64);
  }

  /** The threshold goes below the fixed 0x28 at bit 16, into bits 4..15. */
  lemma OrThresh(v: nat, r: nat)
    requires v < 0x1000 && r == BitOr(5 + 0x28 * 0x1_0000, Shl(v, 4))
    ensures r == 5 + 0x28 * 0x1_0000 + 0x10 * v
  {
    Pow2Small();
    DivModUnique(5 + 0x28 * 0x1_0000, 0x10, 0x28 * 0x1000, 5);
    OrField(5 + 0x28 * 0x1_0000, v, 4, 12, 0x10, 0x1000);
  }

  lemma OrPllInt(a: nat, v: nat, r: nat)
    requires a < 0x1_0000 && v < 0x800 && r == BitOr(a, Shl(v, R2_INT_SH))
    ensures r == a + 0x1_0000 * v
  {
    Pow2Values();
    OrAbove(a, v, 16, 11, 0x1_0000, 0x800);
  }

  lemma OrMixbu(a: nat, v: nat, r: nat)
    requires a < 0x400 && v < 4 && r == BitOr(a, Shl(v, R1_MIXBU_SH))
    ensures r == a + 0x400 * v
  {
    Pow2Small();
    OrAbove(a, v, 10, 2, 0x400, 4);
  }

  lemma OrLnagr(a: nat, v: nat, r: nat)
    requires a < 0x2000 && v < 2 && r == BitOr(a, Shl(v, R1_LNAGR_SH))
    ensures r == a + 0x2000 * v
  {
    Pow2Small();
    OrAbove(a, v, 13, 1, 0x2000, 2);
  }

  /** The mixer-linearity bit is OR-ed in after the LNA bit above it, so the
      register below bit 12 is `lo` and bit 13 holds `g`. */
  lemma OrMixl(lo: nat, g: nat, v: nat, r: nat)
    requires lo < 0x1000 && g < 2 && v < 2 && r == BitOr(lo + 0x2000 * g, Shl(v, R1_MIXL_SH))
    ensures r == lo + 0x2000 * g + 0x1000 * v
  {
    Pow2Values();
    DivModUnique(lo + 0x2000 * g, 0x1000, 2 * g, lo);
    OrField(lo + 0x2000 * g, v, 12, 1, 0x1000, 2);
  }

  lemma OrDccal(a: nat, r: nat)
    requires a < 0x4000 && r == BitOr(a, Shl(R1_DCCAL, R1_DCCAL_SH))
    ensures r == a + 0x4000 * R1_DCCAL
  {
    Pow2Values();
    OrAbove(a, R1_DCCAL, 14, 3, 0x4000, 8);
  }

  /** `set_reg0`'s chain of `|=`: mode bits, filter mode, filter bandwidth
      and crystal index occupy disjoint bits, so the register is their sum. */
  lemma Reg0Bits(value: nat, filMode: nat, filBw: nat, xi: nat)
    requires value < 0x100 && filMode < 4 && filBw < 8 && xi < 8
    ensures BitOr(BitOr(BitOr(Shl(value, 4), Shl(filMode, R0_FIL_MODE_SH)),
                        Shl(filBw, R0_FIL_BW_SH)), Shl(xi, R0_XTAL_SEL_SH))
            == 0x10 * value + 0x1000 * filMode + 0x4000 * filBw + 0x2_0000 * xi
  {
    var s0 := Shl(value, 4);
    var s1 := BitOr(s0, Shl(filMode, R0_FIL_MODE_SH));
    var s2 := BitOr(s1, Shl(filBw, R0_FIL_BW_SH));
    ShlNibble(value);
    OrFilMode(s0, filMode, s1);
    OrFilBw(s1, filBw, s2);
    OrXtalSel(s2, xi, BitOr(s2, Shl(xi, R0_XTAL_SEL_SH)));
  }

  /** `set_reg52`'s chain for register 5. */
  lemma Reg5Bits(thresh: nat)
    requires thresh < 0x1000
    ensures BitOr(BitOr(5, Shl(0x28, 16)), Shl(thresh, 4)) == Reg5Layout(thresh)
  {
    OrReg5Fixed(BitOr(5, Shl(0x28, 16)));
    OrThresh(thresh, BitOr(BitOr(5, Shl(0x28, 16)), Shl(thresh, 4)));
  }

  /** `set_reg52`'s chain for register 2. */
  lemma Reg2Bits(frac: nat, int_: nat)
    requires frac < 0x1000 && int_ < 0x800
    ensures BitOr(BitOr(2, Shl(frac, 4)), Shl(int_, R2_INT_SH)) == Reg2Layout(frac, int_)
  {
    var s1 := BitOr(2, Shl(frac, 4));
    OrNibble(2, frac, s1);
    OrPllInt(s1, int_, BitOr(s1, Shl(int_, R2_INT_SH)));
  }

  /** `setgains`'s chain for register 1 in AM_MODE1. */
  lemma Reg1BitsAm(bb: nat, amg: nat, mixl: nat)
    requires bb < 64 && amg < 4 && mixl < 2
    ensures BitOr(BitOr(BitOr(BitOr(1, Shl(bb, 4)), Shl(amg, R1_MIXBU_SH)), Shl(mixl, R1_MIXL_SH)),
                  Shl(R1_DCCAL, R1_DCCAL_SH))
            == Reg1Layout(AmMode1, bb, amg, mixl, 0)
  {
    var s1 := BitOr(1, Shl(bb, 4));
    var s2 := BitOr(s1, Shl(amg, R1_MIXBU_SH));
    var s3 := BitOr(s2, Shl(mixl, R1_MIXL_SH));
    OrNibble(1, bb, s1);
    OrMixbu(s1, amg, s2);
    OrMixl(s2, 0, mixl, s3);
    OrDccal(s3, BitOr(s3, Shl(R1_DCCAL, R1_DCCAL_SH)));
  }

  /** `setgains`'s chain for register 1 outside AM_MODE1: the LNA bit at 13
      is OR-ed in before the mixer-linearity bit below it. */
  lemma Reg1BitsLna(m: Mode, bb: nat, lnagr: nat, mixl: nat)
    requires !IsAmMode1(m) && bb < 64 && lnagr < 2 && mixl < 2
    ensures BitOr(BitOr(BitOr(BitOr(1, Shl(bb, 4)), Shl(lnagr, R1_LNAGR_SH)), Shl(mixl, R1_MIXL_SH)),
                  Shl(R1_DCCAL, R1_DCCAL_SH))
            == Reg1Layout(m, bb, MIXBU_P0_0, mixl, lnagr)
  {
    var s1 := BitOr(1, Shl(bb, 4));
    var s2 := BitOr(s1, Shl(lnagr, R1_LNAGR_SH));
    var s3 := BitOr(s2, Shl(mixl, R1_MIXL_SH));
    OrNibble(1, bb, s1);
    OrLnagr(s1, lnagr, s2);
    OrMixl(s1, lnagr, mixl, s3);
    OrDccal(s3, BitOr(s3, Shl(R1_DCCAL, R1_DCCAL_SH)));
  }

  /** The masks `setgains` applies: `(1 << 6) - 1`, which is 0x3f, keeps six
      bits and `0x1` keeps one. */
  lemma GainMasks(bb: nat, mixl: nat, lnagr: nat)
    ensures BitAnd(bb, 0x3f) == bb % 64
    ensures BitAnd(mixl, 0x1) == mixl % 2 && BitAnd(lnagr, 0x1) == lnagr % 2
  {
    AndLow(bb, 6, 64);
    AndLow(mixl, 1, 2);
    AndLow(lnagr, 1, 2);
  }

  // ---------------------------------------------------------------------
  // The tuner state and its register writes

  /** The transfer that carries one tuner word. */
  function TunerTransfer(val: Uint32): ControlTransfer
  {
    RegTransfer(TUNER_REG, val)
  }

  /** `writereg`: the tuner register number is only printed; the word always
      goes to baseband register 0x09, and the bus result is dropped. The
      device the tuner driver is handed is never null, so the null check of
      `mirisdr_reg_write_fn` does not arise and the write goes straight to
      the bus. */
  method WriteTunerReg(h: UsbHandle, reg: Byte, val: Uint32)
    modifies h`transfers
    ensures h.transfers == old(h.transfers) + [TunerTransfer(val)]
  {
    var _ := WriteReg(h, TUNER_REG, val);
  }

  /** The register shadow of a zeroed state. */
  const ZERO_REGS: seq<Uint32> := [0, 0, 0, 0, 0, 0]

  /** `struct state`: the tuner settings and a shadow of registers 0..5. */
  class TunerState {
    var m: Mode
    var x: Xtal
    var freqHz: Uint32
    var minusBbgain: Uint32
    var amMixgainred: MixGainRed
    var mixl: Uint32
    var lnagr: Uint32
    const reg: array<Uint32>

    predicate Valid()
    {
      reg.Length == 6
    }

    /** `memset(&curstate, 0, sizeof(curstate))` */
    constructor ()
      ensures Valid() && fresh(reg)
      ensures m == AmMode1 && x == Xtal19_2M && freqHz == 0
      ensures minusBbgain == 0 && amMixgainred == 0 && mixl == 0 && lnagr == 0
      ensures reg[..] == ZERO_REGS
    {
      m, x, freqHz := AmMode1, Xtal19_2M, 0;
      minusBbgain, amMixgainred, mixl, lnagr := 0, 0, 0, 0;
      reg := new Uint32[6](_ => 0);
    }

    /** `set_reg0`: builds register 0 from the mode, filter and crystal
        fields, writes it and keeps it in reg[0]. */
    method SetReg0(h: UsbHandle) returns (r: int)
      requires Valid()
      modifies reg, h`transfers
      ensures r == 0
      ensures reg[0] == Reg0Layout(m, x)
      ensures forall i :: 1 <= i < 6 ==> reg[i] == old(reg[i])
      ensures h.transfers == old(h.transfers) + [TunerTransfer(reg[0])]
    {
      var value: nat := R0_MODES[ModeIndex(m)].value;
      var reg0: nat := Shl(value, 4);
      ghost var filMode, filBw := FIL_MODE_ZERO_IF, 0x7;
      if m == AmMode1 || m == AmMode1 {
        reg0 := BitOr(reg0, Shl(FIL_MODE_450K_IF, R0_FIL_MODE_SH));
        reg0 := BitOr(reg0, Shl(0x1, R0_FIL_BW_SH));
        filMode, filBw := FIL_MODE_450K_IF, 0x1;
      } else {
        reg0 := BitOr(reg0, Shl(FIL_MODE_ZERO_IF, R0_FIL_MODE_SH));
        reg0 := BitOr(reg0, Shl(0x7, R0_FIL_BW_SH));
      }
      reg0 := BitOr(reg0, Shl(XtalIndex(x), R0_XTAL_SEL_SH));
      Reg0Bits(value, filMode, filBw, XtalIndex(x));

      WriteTunerReg(h, 0, reg0);
      reg[0] := reg0;
      r := 0;
    }

    /** `set_reg52`: in AM_MODE1 the IF path is unfinished and the routine
        returns -1 before writing anything. Otherwise it computes the
        synthesiser threshold, integer and fraction, writes register 5 then
        register 2 and keeps both. */
    method SetReg52(h: UsbHandle) returns (r: int)
      requires Valid()
      modifies reg, h`transfers
      ensures IsAmMode1(m) ==> r == -1 && reg[..] == old(reg[..])
      ensures IsAmMode1(m) ==> h.transfers == old(h.transfers)
      ensures !IsAmMode1(m) ==> r == 0
      ensures !IsAmMode1(m) ==>
        reg[..] == old(reg[..])[5 := Reg5Layout(Thresh(m, x))]
                               [2 := Reg2Layout(PllFrac(m, x, freqHz), PllInt(m, x, freqHz))]
      ensures !IsAmMode1(m) ==>
        h.transfers == old(h.transfers) + [TunerTransfer(reg[5])] + [TunerTransfer(reg[2])]
    {
      if m == AmMode1 || m == AmMode1 {
        // the 450 kHz IF synthesiser setting is left unfinished in the driver
        return -1;
      }
      var thresh := Thresh(m, x);
      ThreshRange(m, x);

      var reg5: nat := 5;
      reg5 := BitOr(reg5, Shl(0x28, 16));
      reg5 := BitOr(reg5, Shl(thresh, 4));
      Reg5Bits(thresh);

      var int_ := PllInt(m, x, freqHz);
      var frac := PllFrac(m, x, freqHz);
      PllFracBelowThresh(m, x, freqHz);
      PllIntBound(m, x, freqHz);

      var reg2: nat := 2;
      reg2 := BitOr(reg2, Shl(frac, 4));
      reg2 := BitOr(reg2, Shl(int_, R2_INT_SH));
      Reg2Bits(frac, int_);

      WriteTunerReg(h, 5, reg5);
      WriteTunerReg(h, 2, reg2);
      reg[5] := reg5;
      reg[2] := reg2;
      r := 0;
    }

    /** `setfreqs`: register 0, then registers 5 and 2; the results are
        only reported. */
    method SetFreqs(h: UsbHandle)
      requires Valid()
      modifies reg, h`transfers
      ensures var w := FreqWords(m, x, freqHz);
              reg[..] == if IsAmMode1(m) then old(reg[..])[0 := w[0]]
                         else old(reg[..])[0 := w[0]][5 := w[1]][2 := w[2]]
      ensures h.transfers == old(h.transfers) + TunerWritesLog(FreqWords(m, x, freqHz))
    {
      var r0 := SetReg0(h);
      var r52 := SetReg52(h);
      ghost var w := FreqWords(m, x, freqHz);
      assert TunerWritesLog(w) == [TunerTransfer(w[0])] + TunerWritesLog(w[1..]);
      if IsAmMode1(m) {
        assert w[1..] == [];
      } else {
        assert w[3..] == [] && w[2..][1..] == w[3..] && w[1..][1..] == w[2..];
        assert TunerWritesLog(w[1..]) == [TunerTransfer(w[1]), TunerTransfer(w[2])];
      }
    }

    /** `setgains`: masks the gain fields to their widths, so they wrap
        rather than saturate (minus_bbgain modulo 64, mixl and lnagr modulo
        2; a reduction of 64 becomes 0), resets the AM
        mixer gain reduction outside AM_MODE1, builds register 1, writes it
        and keeps it in reg[1]. */
    method SetGains(h: UsbHandle) returns (r: int)
      requires Valid()
      modifies this`minusBbgain, this`mixl, this`lnagr, this`amMixgainred, reg, h`transfers
      ensures r == 0
      ensures minusBbgain == old(minusBbgain) % 64
      ensures mixl == old(mixl) % 2 && lnagr == old(lnagr) % 2
      ensures amMixgainred == if IsAmMode1(m) then old(amMixgainred) else MIXBU_P0_0
      ensures reg[1] == Reg1Layout(m, minusBbgain, amMixgainred, mixl, lnagr)
      ensures reg[0] == old(reg[0]) && forall i :: 2 <= i < 6 ==> reg[i] == old(reg[i])
      ensures h.transfers == old(h.transfers) + [TunerTransfer(reg[1])]
    {
      GainMasks(minusBbgain, mixl, lnagr);
      var reg1: nat := 1;
      minusBbgain := BitAnd(minusBbgain, 0x3f);
      reg1 := BitOr(reg1, Shl(minusBbgain, 4));

      mixl := BitAnd(mixl, 0x1);
      lnagr := BitAnd(lnagr, 0x1);

      if m == AmMode1 || m == AmMode1 {
        reg1 := BitOr(reg1, Shl(amMixgainred, R1_MIXBU_SH));
        Reg1BitsAm(minusBbgain, amMixgainred, mixl);
      } else {
        amMixgainred := MIXBU_P0_0;
        reg1 := BitOr(reg1, Shl(lnagr, R1_LNAGR_SH));
        Reg1BitsLna(m, minusBbgain, lnagr, mixl);
      }
      reg1 := BitOr(reg1, Shl(mixl, R1_MIXL_SH));
      reg1 := BitOr(reg1, Shl(R1_DCCAL, R1_DCCAL_SH));

      WriteTunerReg(h, 1, reg1);
      reg[1] := reg1;
      r := 0;
    }
  }

  /** With the 24 MHz row, the integer part stays below 256 in every band
      the driver selects (at most 89, in the L band at the top of the 32-bit
      range), so register 2 fits the 24 bits the bus carries. */
  lemma InitPllIntBound(freq: Uint32)
    ensures PllInt(SelectBand(freq), Xtal24_576M, freq) < 256
  {
    var m := SelectBand(freq);
    assert Fsynth(m, freq) < 256 * 96_000_000;
    DivBound(Fsynth(m, freq), Fref4(Xtal24_576M), 256);
  }

  /** The register number each tuner word of `setfreqs` carries, in the
      order the words are sent. */
  const FREQ_REGS: seq<nat> := [0, 5, 2]

  /** The tuner words `setfreqs` sends: register 0, then, outside AM_MODE1,
      registers 5 and 2. Each carries its register number in the low
      nibble. */
  function FreqWords(m: Mode, x: Xtal, freq: Uint32): (words: seq<Uint32>)
    ensures |words| == if IsAmMode1(m) then 1 else 3
    ensures forall i :: 0 <= i < |words| ==> words[i] % 0x10 == FREQ_REGS[i]
  {
    var thresh, frac, int_ := Thresh(m, x), PllFrac(m, x, freq), PllInt(m, x, freq);
    ThreshRange(m, x);
    PllFracBelowThresh(m, x, freq);
    PllIntBound(m, x, freq);
    LowNibbleIsRegister(m, x, thresh, frac, int_, 0, 0, 0, 0);
    [Reg0Layout(m, x)] + (if IsAmMode1(m) then [] else [Reg5Layout(thresh), Reg2Layout(frac, int_)])
  }

  /** The tuner words `msi001_init` sends for a frequency: those of
      `setfreqs` for the selected band and the 24 MHz row. Each fits the 24
      bits the bus carries. */
  function InitWords(freq: Uint32): (words: seq<Uint32>)
    ensures |words| == if SelectBand(freq) == AmMode1 then 1 else 3
    ensures forall i :: 0 <= i < |words| ==> words[i] < 0x100_0000
    ensures forall i :: 0 <= i < |words| ==> words[i] % 0x10 == FREQ_REGS[i]
  {
    var m := SelectBand(freq);
    ThreshRange(m, Xtal24_576M);
    PllFracBelowThresh(m, Xtal24_576M, freq);
    InitPllIntBound(freq);
    FreqWords(m, Xtal24_576M, freq)
  }

  /** The transfers a sequence of tuner words adds to the handle's log. */
  function TunerWritesLog(words: seq<Uint32>): seq<ControlTransfer>
  {
    if words == [] then [] else [TunerTransfer(words[0])] + TunerWritesLog(words[1..])
  }

  /** A run of tuner words of up to 24 bits becomes one transfer per word,
      and the MSi2500 decodes each back to a write of exactly that word to
      baseband register 0x09. */
  lemma {:induction false} TunerWritesDecode(words: seq<Uint32>)
    requires forall i :: 0 <= i < |words| ==> words[i] < 0x100_0000
    ensures |TunerWritesLog(words)| == |words|
    ensures forall i :: 0 <= i < |words| ==>
              DecodeRegWrite(TunerWritesLog(words)[i].wValue, TunerWritesLog(words)[i].wIndex)
              == RegWrite(TUNER_REG, words[i])
  {
    if words != [] {
      var rest := TunerWritesLog(words[1..]);
      TunerWritesDecode(words[1..]);
      WriteRegRoundTrip(TUNER_REG, words[0]);
      forall i | 1 <= i < |words|
        ensures DecodeRegWrite(TunerWritesLog(words)[i].wValue, TunerWritesLog(words)[i].wIndex)
                == RegWrite(TUNER_REG, words[i])
      {
        assert TunerWritesLog(words)[i] == rest[i - 1];
        assert words[1..][i - 1] == words[i];
      }
    }
  }

  /** What the MSi2500 receives during `msi001_init`: the i-th transfer is a
      write to register 0x09 of a word whose low nibble names tuner register
      0, 5 and 2 in turn. */
  lemma InitDelivers(freq: Uint32)
    ensures var log, words := TunerWritesLog(InitWords(freq)), InitWords(freq);
            |log| == |words|
            && forall i :: 0 <= i < |words| ==>
                 DecodeRegWrite(log[i].wValue, log[i].wIndex) == RegWrite(TUNER_REG, words[i])
                 && words[i] % 0x10 == FREQ_REGS[i]
  {
    TunerWritesDecode(InitWords(freq));
  }

  /** `msi001_init`: a zeroed state, band selection, the 24 MHz crystal row,
      registers 0, 5 and 2, then the gain settings (the call that would write
      register 1 is disabled in the driver). A -1 from the synthesiser setup
      is only reported, so the result is always 0. The state is local to the
      driver routine; it is returned here so that its contents can be
      stated. */
  method Msi001Init(h: UsbHandle, freq: Uint32) returns (r: int, s: TunerState)
    modifies h`transfers
    ensures r == 0
    ensures fresh(s) && s.Valid() && fresh(s.reg)
    ensures s.m == SelectBand(freq) && s.x == Xtal24_576M && s.freqHz == freq
    ensures s.minusBbgain == 20 && s.amMixgainred == MIXBU_P0_12 && s.mixl == 0 && s.lnagr == 0
    ensures var w := FreqWords(s.m, s.x, s.freqHz);
            s.reg[..] == if IsAmMode1(s.m) then ZERO_REGS[0 := w[0]]
                         else ZERO_REGS[0 := w[0]][5 := w[1]][2 := w[2]]
    ensures h.transfers == old(h.transfers) + TunerWritesLog(FreqWords(s.m, s.x, s.freqHz))
  {
    s := new TunerState();
    if freq < 30_000_000 {
      s.m := AmMode1;
    } else if freq < 140_000_000 {
      s.m := VhfMode;
    } else if freq < 300_000_000 {
      s.m := B3Mode;
    } else if freq < 970_000_000 {
      s.m := B45Mode;
    } else {
      s.m := BlMode;
    }
    assert s.m == SelectBand(freq);
    s.x := Xtal24_576M;
    s.freqHz := freq;

    s.SetFreqs(h);

    s.minusBbgain := 20;
    s.amMixgainred := MIXBU_P0_12;
    s.mixl := 0;
    s.lnagr := 0;
    r := 0;
  }
}
