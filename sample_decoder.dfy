/** The MSi2500 isochronous sample format.
 *
 *  A packet is a run of 1024-byte blocks. Each block starts with a 16-byte
 *  header, then holds 6 groups, then 24 unused bytes. A group is 16
 *  sub-groups of 10 data bytes followed by 4 gain-flag bytes. Each 5-byte half
 *  of a sub-group packs four 10-bit samples little-endian; the driver moves
 *  every sample to the top of a 16-bit word (`Pattern`), stores it as
 *  `int16_t` and then shifts it right by the gain flag of its group of eight.
 *
 *  This module holds the byte-level definitions, their reference in terms of
 *  10-bit little-endian fields, and the two in-place loops that unpack and
 *  rescale one group. The per-block walk over headers lives with the device
 *  state in module MiriSdr.
 */
module SampleDecoder {
  import opened Bits

  const BLOCK_BYTES: nat := 1024
  const HEADER_BYTES: nat := 16
  const GROUPS_PER_BLOCK: nat := 6
  const SUBGROUPS_PER_GROUP: nat := 16
  const SUBGROUP_BYTES: nat := 10
  const FLAG_BYTES: nat := 4
  /** 16 sub-groups of 10 bytes, then the 4 flag bytes */
  const GROUP_BYTES: nat := 164
  const TRAILER_BYTES: nat := 24
  /** 16 sub-groups of 8 samples */
  const GROUP_SAMPLES: nat := 128
  const BLOCK_SAMPLES: nat := 768

  // ---------------------------------------------------------------------
  // One 5-byte half of a sub-group

  /** The four expressions of the unpacking loop on the five bytes
      `ip[i+0..i+4]`, before they are stored into `int16_t`. */
  function Pattern(g: seq<Byte>, q: nat): nat
    requires |g| == 5 && q < 4
  {
    if q == 0 then BitOr(Shl(g[0], 6), Shl(BitAnd(g[1], 0x03), 14))
    else if q == 1 then BitOr(Shl(BitAnd(g[1], 0xfc), 4), Shl(BitAnd(g[2], 0x0f), 12))
    else if q == 2 then BitOr(Shl(BitAnd(g[2], 0xf0), 2), Shl(BitAnd(g[3], 0x3f), 10))
    else BitOr(BitAnd(g[3], 0xc0), Shl(g[4], 8))
  }

  /** The five bytes as one little-endian 40-bit number. */
  function Le40(g: seq<Byte>): nat
    requires |g| == 5
  {
    (g[0] as int) + 0x100 * (g[1] as int) + 0x1_0000 * (g[2] as int) + 0x100_0000 * (g[3] as int) + 0x1_0000_0000 * (g[4] as int)
  }

  /** 2^(10 q): where field q starts in the 40-bit number */
  const FIELD_UNIT: seq<nat> := [1, 0x400, 0x10_0000, 0x4000_0000]

  /** Reference definition: sample q is bits 10q..10q+9 of the 40-bit number. */
  function Field10(g: seq<Byte>, q: nat): (v: nat)
    requires |g| == 5 && q < 4
    ensures v < 0x400
  {
    (Le40(g) / FIELD_UNIT[q]) % 0x400
  }

  /** The four fields in order. */
  function Fields(g: seq<Byte>): (v: seq<nat>)
    requires |g| == 5
    ensures |v| == 4 && forall q :: 0 <= q < 4 ==> v[q] == Field10(g, q) && v[q] < 0x400
  {
    [Field10(g, 0), Field10(g, 1), Field10(g, 2), Field10(g, 3)]
  }

  predicate TenBit(v: seq<nat>)
  {
    |v| == 4 && forall q :: 0 <= q < 4 ==> v[q] < 0x400
  }

  /** The inverse of `Fields`: four 10-bit values packed into five bytes
      little-endian, as the device sends them. */
  function PackFields(v: seq<nat>): (g: seq<Byte>)
    requires TenBit(v)
    ensures |g| == 5
  {
    var n := v[0] + 0x400 * v[1] + 0x10_0000 * v[2] + 0x4000_0000 * v[3];
    [n % 0x100, (n / 0x100) % 0x100, (n / 0x1_0000) % 0x100, (n / 0x100_0000) % 0x100,
     n / 0x1_0000_0000]
  }

  /** Each field of a half in terms of its bytes. */
  lemma FieldBytes(g: seq<Byte>)
    requires |g| == 5
    ensures Field10(g, 0) == (g[0] as int) + 0x100 * ((g[1] as int) % 4)
    ensures Field10(g, 1) == (g[1] as int) / 4 + 0x40 * ((g[2] as int) % 0x10)
    ensures Field10(g, 2) == (g[2] as int) / 0x10 + 0x10 * ((g[3] as int) % 0x40)
    ensures Field10(g, 3) == (g[3] as int) / 0x40 + 4 * (g[4] as int)
  {
    var b0, b1, b2, b3, b4: int := g[0], g[1], g[2], g[3], g[4];
    var n := Le40(g);
    var f0, f1 := b0 + 0x100 * (b1 % 4), b1 / 4 + 0x40 * (b2 % 0x10);
    var f2, f3 := b2 / 0x10 + 0x10 * (b3 % 0x40), b3 / 0x40 + 4 * b4;
    assert n == f0 + 0x400 * (f1 + 0x400 * (f2 + 0x400 * f3));
    DivModUnique(n, 1, n, 0);
    DivModUnique(n, 0x400, f1 + 0x400 * (f2 + 0x400 * f3), f0);
    DivModUnique(n, 0x10_0000, f2 + 0x400 * f3, f0 + 0x400 * f1);
    DivModUnique(n, 0x4000_0000, f3, f0 + 0x400 * (f1 + 0x400 * f2));
    DivModUnique(f1 + 0x400 * (f2 + 0x400 * f3), 0x400, f2 + 0x400 * f3, f1);
    DivModUnique(f2 + 0x400 * f3, 0x400, f3, f2);
    DivModUnique(f3, 0x400, 0, f3);
  }

  // One lemma per shift count and mask of the four expressions, so that no
  // power of two has to be evaluated where they are combined.

  lemma ShlSmall(x: nat)
    ensures Shl(x, 2) == 4 * x && Shl(x, 4) == 0x10 * x && Shl(x, 6) == 0x40 * x
  {
    Pow2Tiny();
  }

  lemma AndLow2(x: nat)
    ensures BitAnd(x, 0x03) == x % 4
  {
    Pow2Tiny();
    AndLow(x, 2, 4);
  }

  lemma AndLow4(x: nat)
    ensures BitAnd(x, 0x0f) == x % 0x10
  {
    Pow2Small();
    AndLow(x, 4, 0x10);
  }

  lemma AndLow6(x: nat)
    ensures BitAnd(x, 0x3f) == x % 0x40
  {
    Pow2Tiny();
    AndLow(x, 6, 0x40);
  }

  lemma AndHigh6(x: nat)
    requires x < 0x100
    ensures BitAnd(x, 0xfc) == 4 * (x / 4)
  {
    Pow2Tiny();
    AndMask(x, 2, 6, 0xfc, 4, 0x40);
    DivModUnique(x / 4, 0x40, 0, x / 4);
  }

  lemma AndHigh4(x: nat)
    requires x < 0x100
    ensures BitAnd(x, 0xf0) == 0x10 * (x / 0x10)
  {
    Pow2Tiny();
    AndMask(x, 4, 4, 0xf0, 0x10, 0x10);
    DivModUnique(x / 0x10, 0x10, 0, x / 0x10);
  }

  lemma AndHigh2(x: nat)
    requires x < 0x100
    ensures BitAnd(x, 0xc0) == 0x40 * (x / 0x40)
  {
    Pow2Tiny();
    AndMask(x, 6, 2, 0xc0, 0x40, 4);
    DivModUnique(x / 0x40, 4, 0, x / 0x40);
  }

  lemma OrAt14(a: nat, v: nat)
    requires a < 0x4000 && v < 4
    ensures BitOr(a, Shl(v, 14)) == a + 0x4000 * v
  {
    Pow2Tiny();
    Pow2Values();
    OrAbove(a, v, 14, 2, 0x4000, 4);
  }

  lemma OrAt12(a: nat, v: nat)
    requires a < 0x1000 && v < 0x10
    ensures BitOr(a, Shl(v, 12)) == a + 0x1000 * v
  {
    Pow2Small();
    Pow2Values();
    OrAbove(a, v, 12, 4, 0x1000, 0x10);
  }

  lemma OrAt10(a: nat, v: nat)
    requires a < 0x400 && v < 0x40
    ensures BitOr(a, Shl(v, 10)) == a + 0x400 * v
  {
    Pow2Tiny();
    Pow2Small();
    OrAbove(a, v, 10, 6, 0x400, 0x40);
  }

  lemma OrAt8(a: nat, v: nat)
    requires a < 0x100 && v < 0x100
    ensures BitOr(a, Shl(v, 8)) == a + 0x100 * v
  {
    Pow2Tiny();
    OrAbove(a, v, 8, 8, 0x100, 0x100);
  }

  lemma Pattern0(b0: nat, b1: nat)
    requires b0 < 0x100 && b1 < 0x100
    ensures BitOr(Shl(b0, 6), Shl(BitAnd(b1, 0x03), 14)) == 0x40 * (b0 + 0x100 * (b1 % 4))
  {
    ShlSmall(b0);
    AndLow2(b1);
    OrAt14(0x40 * b0, b1 % 4);
  }

  lemma Pattern1(b1: nat, b2: nat)
    requires b1 < 0x100 && b2 < 0x100
    ensures BitOr(Shl(BitAnd(b1, 0xfc), 4), Shl(BitAnd(b2, 0x0f), 12))
            == 0x40 * (b1 / 4 + 0x40 * (b2 % 0x10))
  {
    AndHigh6(b1);
    ShlSmall(4 * (b1 / 4));
    AndLow4(b2);
    OrAt12(0x40 * (b1 / 4), b2 % 0x10);
  }

  lemma Pattern2(b2: nat, b3: nat)
    requires b2 < 0x100 && b3 < 0x100
    ensures BitOr(Shl(BitAnd(b2, 0xf0), 2), Shl(BitAnd(b3, 0x3f), 10))
            == 0x40 * (b2 / 0x10 + 0x10 * (b3 % 0x40))
  {
    AndHigh4(b2);
    ShlSmall(0x10 * (b2 / 0x10));
    AndLow6(b3);
    OrAt10(0x40 * (b2 / 0x10), b3 % 0x40);
  }

  lemma Pattern3(b3: nat, b4: nat)
    requires b3 < 0x100 && b4 < 0x100
    ensures BitOr(BitAnd(b3, 0xc0), Shl(b4, 8)) == 0x40 * (b3 / 0x40 + 4 * b4)
  {
    AndHigh2(b3);
    OrAt8(0x40 * (b3 / 0x40), b4);
  }

  /** The four expressions put field q at bits 6..15: every pattern has its
      low six bits clear and fits 16 bits. */
  lemma PatternIsField(g: seq<Byte>, q: nat)
    requires |g| == 5 && q < 4
    ensures Pattern(g, q) == 0x40 * Field10(g, q)
    ensures Pattern(g, q) % 0x40 == 0 && Pattern(g, q) < 0x1_0000
  {
    FieldBytes(g);
    if q == 0 {
      Pattern0(g[0], g[1]);
    } else if q == 1 {
      Pattern1(g[1], g[2]);
    } else if q == 2 {
      Pattern2(g[2], g[3]);
    } else {
      Pattern3(g[3], g[4]);
    }
    DivModUnique(Pattern(g, q), 0x40, Field10(g, q), 0);
  }

  /** Packing four 10-bit values and reading the fields back returns them. */
  lemma FieldsOfPack(v: seq<nat>)
    requires TenBit(v)
    ensures Fields(PackFields(v)) == v
  {
    var n := v[0] + 0x400 * v[1] + 0x10_0000 * v[2] + 0x4000_0000 * v[3];
    var g := PackFields(v);
    LowBytes(n);
    assert Le40(g) == n;
    DivModUnique(n, 1, n, 0);
    DivModUnique(n, 0x400, v[1] + 0x400 * (v[2] + 0x400 * v[3]), v[0]);
    DivModUnique(n, 0x10_0000, v[2] + 0x400 * v[3], v[0] + 0x400 * v[1]);
    DivModUnique(n, 0x4000_0000, v[3], v[0] + 0x400 * (v[1] + 0x400 * v[2]));
    DivModUnique(v[1] + 0x400 * (v[2] + 0x400 * v[3]), 0x400, v[2] + 0x400 * v[3], v[1]);
    DivModUnique(v[2] + 0x400 * v[3], 0x400, v[3], v[2]);
    DivModUnique(v[3], 0x400, 0, v[3]);
  }

  /** The base-256 digits of a number below 2^40 add back up to it. */
  lemma LowBytes(n: nat)
    requires n < 0x100_0000_0000
    ensures n % 0x100 + 0x100 * ((n / 0x100) % 0x100) + 0x1_0000 * ((n / 0x1_0000) % 0x100)
            + 0x100_0000 * ((n / 0x100_0000) % 0x100) + 0x1_0000_0000 * (n / 0x1_0000_0000) == n
    ensures n / 0x1_0000_0000 < 0x100
  {
    var q1, q2, q3, q4 := n / 0x100, n / 0x1_0000, n / 0x100_0000, n / 0x1_0000_0000;
    DivModUnique(q1, 0x100, q2, q1 % 0x100);
    assert q1 / 0x100 == q2;
    DivModUnique(q2, 0x100, q3, q2 % 0x100);
    assert q2 / 0x100 == q3;
    DivModUnique(q3, 0x100, q4, q3 % 0x100);
    assert q3 / 0x100 == q4;
  }

  /** Reading the four fields of five bytes and packing them again gives the
      same bytes: the format uses all 40 bits. */
  lemma PackOfFields(g: seq<Byte>)
    requires |g| == 5
    ensures TenBit(Fields(g)) && PackFields(Fields(g)) == g
  {
    FieldBytes(g);
    var b0, b1, b2, b3, b4: int := g[0], g[1], g[2], g[3], g[4];
    var v := Fields(g);
    var n := v[0] + 0x400 * v[1] + 0x10_0000 * v[2] + 0x4000_0000 * v[3];
    assert n == Le40(g);
    DivModUnique(n, 0x100, b1 + 0x100 * b2 + 0x1_0000 * b3 + 0x100_0000 * b4, b0);
    DivModUnique(n, 0x1_0000, b2 + 0x100 * b3 + 0x1_0000 * b4, b0 + 0x100 * b1);
    DivModUnique(n, 0x100_0000, b3 + 0x100 * b4, b0 + 0x100 * b1 + 0x1_0000 * b2);
    DivModUnique(n, 0x1_0000_0000, b4, b0 + 0x100 * b1 + 0x1_0000 * b2 + 0x100_0000 * b3);
    var g' := PackFields(v);
    DivModUnique(n / 0x100, 0x100, b2 + 0x100 * b3 + 0x1_0000 * b4, b1);
    DivModUnique(n / 0x1_0000, 0x100, b3 + 0x100 * b4, b2);
    DivModUnique(n / 0x100_0000, 0x100, b4, b3);
    assert g'[0] == g[0] && g'[1] == g[1] && g'[2] == g[2] && g'[3] == g[3] && g'[4] == g[4];
  }

  // ---------------------------------------------------------------------
  // Sample values

  /** A 10-bit two's-complement value. */
  function Signed10(v: nat): (s: int)
    requires v < 0x400
    ensures -0x200 <= s < 0x200 && (s - v) % 0x400 == 0
  {
    if v < 0x200 then v else v - 0x400
  }

  /** What one output slot holds once its group is finished: the pattern
      stored into `int16_t`, then shifted right arithmetically by `shift`. */
  function DecodeSample(g: seq<Byte>, q: nat, shift: nat): Int16
    requires |g| == 5 && q < 4
  {
    ShiftedInt16(ToInt16(Pattern(g, q)), shift)
  }

  /** `x >>= n` on an `int16_t`. */
  function ShiftedInt16(x: Int16, n: nat): (r: Int16)
    ensures r == Sar(x, n)
  {
    ShiftRange(x, n);
    Sar(x, n)
  }

  /** An arithmetic shift of a 16-bit value stays in 16 bits. */
  lemma ShiftRange(x: Int16, n: nat)
    ensures -0x8000 <= Sar(x, n) < 0x8000
  {
    var r, p := Sar(x, n), Pow2(n);
    if r > 0 {
      MulAtLeast(r, p);
    }
    if r + 1 < 0 {
      MulAtLeast(-(r + 1), p);
      MulDistSub(p, 0, -(r + 1));
      assert p * r + p == p * (r + 1);
    }
  }

  /** With the shift of 2 that every group receives, a sample is its 10-bit
      field read as two's complement, scaled by 16: the 16-bit wrap turns the
      field's top bit into the sign and the shift keeps four bits of headroom. */
  lemma SampleIsSigned10(g: seq<Byte>, q: nat)
    requires |g| == 5 && q < 4
    ensures DecodeSample(g, q, 2) == 0x10 * Signed10(Field10(g, q))
    ensures -0x2000 <= DecodeSample(g, q, 2) < 0x2000 && DecodeSample(g, q, 2) % 0x10 == 0
  {
    PatternIsField(g, q);
    var f := Field10(g, q);
    var s := Signed10(f);
    DivModUnique(0x40 * f, 0x1_0000, 0, 0x40 * f);
    assert ToInt16(Pattern(g, q)) == 0x40 * s;
    Pow2Tiny();
    DivModUnique(0x40 * s, 4, 0x10 * s, 0);
    DivModUnique(0x10 * s, 0x10, s, 0);
  }

  // ---------------------------------------------------------------------
  // Where each sample comes from

  /** Offset of the 5-byte half that carries sample u (u < 128) of a group,
      from the group's first byte. */
  function HalfOffset(u: nat): nat
  {
    SUBGROUP_BYTES * (u / 8) + 5 * ((u % 8) / 4)
  }

  /** The halves stay inside the 160 data bytes of their group. */
  lemma HalfInGroup(u: nat)
    requires u < GROUP_SAMPLES
    ensures HalfOffset(u) + 5 <= GROUP_BYTES - FLAG_BYTES
  {
  }

  /** The 5-byte half that carries sample u of the group starting at base. */
  function HalfAt(buf: seq<Byte>, base: nat, u: nat): (g: seq<Byte>)
    requires u < GROUP_SAMPLES && base + GROUP_BYTES <= |buf|
    ensures |g| == 5
  {
    HalfInGroup(u);
    buf[base + HalfOffset(u) .. base + HalfOffset(u) + 5]
  }

  /** The first byte of the group that carries output sample t of a packet. */
  function GroupBase(t: nat): nat
  {
    BLOCK_BYTES * (t / BLOCK_SAMPLES) + HEADER_BYTES
      + GROUP_BYTES * ((t % BLOCK_SAMPLES) / GROUP_SAMPLES)
  }

  /** The groups of a block end before its 24 trailer bytes. */
  lemma GroupInBlock(t: nat)
    ensures GroupBase(t) + GROUP_BYTES + TRAILER_BYTES <= BLOCK_BYTES * (t / BLOCK_SAMPLES + 1)
  {
    assert (t % BLOCK_SAMPLES) / GROUP_SAMPLES < GROUPS_PER_BLOCK;
  }

  lemma BlockOf(t: nat, blocks: nat)
    requires t < BLOCK_SAMPLES * blocks
    ensures BLOCK_BYTES * (t / BLOCK_SAMPLES + 1) <= BLOCK_BYTES * blocks
  {
    DivBound(t, BLOCK_SAMPLES, blocks);
  }

  /** Output sample t of a packet, for t within its whole blocks. */
  function DecodedAt(buf: seq<Byte>, t: nat): Int16
    requires t < BLOCK_SAMPLES * (|buf| / BLOCK_BYTES)
  {
    BlockOf(t, |buf| / BLOCK_BYTES);
    GroupInBlock(t);
    DecodeSample(HalfAt(buf, GroupBase(t), t % GROUP_SAMPLES), t % 4, 2)
  }

  /** The whole output of a packet of `length` valid bytes: 768 samples for
      each whole block, nothing for a trailing partial block. */
  function Decoded(buf: seq<Byte>, length: nat): (out: seq<Int16>)
    requires length <= |buf|
    ensures |out| == BLOCK_SAMPLES * (length / BLOCK_BYTES)
  {
    var blocks := length / BLOCK_BYTES;
    DivAtLeast(|buf|, BLOCK_BYTES, blocks);
    seq(BLOCK_SAMPLES * blocks, t requires 0 <= t < BLOCK_SAMPLES * blocks => DecodedAt(buf, t))
  }

  /** Sample u of group k of block b sits at output index 768 b + 128 k + u
      and comes from the group at byte 1024 b + 16 + 164 k. */
  lemma GroupIndex(b: nat, k: nat, u: nat)
    requires k < GROUPS_PER_BLOCK && u < GROUP_SAMPLES
    ensures var t := BLOCK_SAMPLES * b + GROUP_SAMPLES * k + u;
            t / BLOCK_SAMPLES == b
            && GroupBase(t) == BLOCK_BYTES * b + HEADER_BYTES + GROUP_BYTES * k
            && t % GROUP_SAMPLES == u && t % 4 == u % 4
  {
    var t := BLOCK_SAMPLES * b + GROUP_SAMPLES * k + u;
    DivModUnique(t, BLOCK_SAMPLES, b, GROUP_SAMPLES * k + u);
    DivModUnique(GROUP_SAMPLES * k + u, GROUP_SAMPLES, k, u);
    DivModUnique(t, GROUP_SAMPLES, 6 * b + k, u);
    DivModUnique(t, 4, 0xc0 * b + 0x20 * k + u / 4, u % 4);
  }

  /** Sample u of group k of block b, unpacked and shifted by 2, is output
      sample 768 b + 128 k + u of the packet. */
  lemma GroupDecodes(buf: seq<Byte>, b: nat, k: nat, u: nat, ip: nat, t: nat)
    requires BLOCK_BYTES * (b + 1) <= |buf| && k < GROUPS_PER_BLOCK && u < GROUP_SAMPLES
    requires ip == BLOCK_BYTES * b + HEADER_BYTES + GROUP_BYTES * k
    requires t == BLOCK_SAMPLES * b + GROUP_SAMPLES * k + u
    ensures ip + GROUP_BYTES <= |buf| && t < BLOCK_SAMPLES * (|buf| / BLOCK_BYTES)
    ensures Sar(Unpacked(buf, ip, u), 2) == DecodedAt(buf, t)
  {
    GroupIndex(b, k, u);
    DivAtLeast(|buf|, BLOCK_BYTES, b + 1);
  }

  /** Every decoded sample is a scaled 10-bit value. */
  lemma DecodedValues(buf: seq<Byte>, length: nat, t: nat)
    requires length <= |buf| && t < |Decoded(buf, length)|
    ensures GroupBase(t) + GROUP_BYTES <= |buf|
    ensures var g := HalfAt(buf, GroupBase(t), t % GROUP_SAMPLES);
            Decoded(buf, length)[t] == 0x10 * Signed10(Field10(g, t % 4))
  {
    BlockOf(t, length / BLOCK_BYTES);
    GroupInBlock(t);
    SampleIsSigned10(HalfAt(buf, GroupBase(t), t % GROUP_SAMPLES), t % 4);
  }

  /** Only whole blocks count: the bytes of a trailing partial block, and
      everything after the valid length, do not affect the output. */
  lemma DecodedIgnoresTail(buf: seq<Byte>, buf': seq<Byte>, length: nat, length': nat)
    requires length <= |buf| && length' <= |buf'|
    requires length / BLOCK_BYTES == length' / BLOCK_BYTES
    requires buf[..BLOCK_BYTES * (length / BLOCK_BYTES)] == buf'[..BLOCK_BYTES * (length / BLOCK_BYTES)]
    ensures Decoded(buf, length) == Decoded(buf', length')
  {
    var blocks := length / BLOCK_BYTES;
    forall t | 0 <= t < BLOCK_SAMPLES * blocks
      ensures Decoded(buf, length)[t] == Decoded(buf', length')[t]
    {
      BlockOf(t, blocks);
      GroupInBlock(t);
      HalfInGroup(t % GROUP_SAMPLES);
      var lo := GroupBase(t) + HalfOffset(t % GROUP_SAMPLES);
      assert buf[lo .. lo + 5] == buf[..BLOCK_BYTES * blocks][lo .. lo + 5];
      assert buf'[lo .. lo + 5] == buf'[..BLOCK_BYTES * blocks][lo .. lo + 5];
    }
  }

  /** A sequence that agrees with DecodedAt at every index of the whole
      blocks of `length` bytes is their decoding. */
  lemma DecodedByIndex(buf: seq<Byte>, length: nat, s: seq<Int16>)
    requires length <= |buf| && |s| == BLOCK_SAMPLES * (length / BLOCK_BYTES)
    requires BLOCK_SAMPLES * (length / BLOCK_BYTES) <= BLOCK_SAMPLES * (|buf| / BLOCK_BYTES)
    requires forall t :: 0 <= t < |s| ==> s[t] == DecodedAt(buf, t)
    ensures s == Decoded(buf, length)
  {
  }

  /** A longer valid length only appends samples. */
  lemma DecodedPrefix(buf: seq<Byte>, length: nat, length': nat)
    requires length <= length' <= |buf|
    ensures Decoded(buf, length) <= Decoded(buf, length')
  {
    var blocks, blocks' := length / BLOCK_BYTES, length' / BLOCK_BYTES;
    DivAtLeast(length', BLOCK_BYTES, blocks);
    assert BLOCK_SAMPLES * blocks <= BLOCK_SAMPLES * blocks';
  }

  // ---------------------------------------------------------------------
  // The gain flags

  /** The pair of flag bits that governs sub-group j: `flag & 0x03` after j
      steps of `flag >>= 2`. */
  function FlagPair(flag: nat, j: nat): nat
    decreases j
  {
    if j == 0 then BitAnd(flag, 0x03) else FlagPair(Shr(flag, 2), j - 1)
  }

  /** 0 selects a shift by 2, 1 a shift by 1, 2 and 3 no shift. */
  function ShiftFor(pair: nat): nat
  {
    if pair == 0 then 2 else if pair == 1 then 1 else 0
  }

  /** The flag word is zeroed before use, so every sub-group is shifted by 2. */
  lemma {:induction false} ZeroFlagShiftsByTwo(j: nat)
    ensures ShiftFor(FlagPair(0, j)) == 2
  {
    if j > 0 {
      assert Shr(0, 2) == 0;
      ZeroFlagShiftsByTwo(j - 1);
    }
  }

  lemma ZeroFlagAll()
    ensures forall j: nat :: ShiftFor(FlagPair(0, j)) == 2
  {
    forall j: nat
      ensures ShiftFor(FlagPair(0, j)) == 2
    {
      ZeroFlagShiftsByTwo(j);
    }
  }

  /** The flag word after j steps of `flag >>= 2`. */
  function ShrPairs(flag: nat, j: nat): nat
    decreases j
  {
    if j == 0 then flag else ShrPairs(Shr(flag, 2), j - 1)
  }

  lemma {:induction false} FlagPairAfter(flag: nat, j: nat)
    ensures FlagPair(flag, j) == BitAnd(ShrPairs(flag, j), 0x03)
    ensures ShrPairs(flag, j + 1) == Shr(ShrPairs(flag, j), 2)
  {
    if j > 0 {
      FlagPairAfter(Shr(flag, 2), j - 1);
    }
  }

  // ---------------------------------------------------------------------
  // The two in-place loops of one group

  /** Sample u of the group starting at `base`, as the unpacking loop stores
      it: the pattern wrapped to `int16_t`. */
  function Unpacked(buf: seq<Byte>, base: nat, u: nat): Int16
    requires u < GROUP_SAMPLES && base + GROUP_BYTES <= |buf|
  {
    ToInt16(Pattern(HalfAt(buf, base, u), u % 4))
  }

  /** Half h of sub-group j of the group at ip carries the four samples
      8 j + 4 h .. 8 j + 4 h + 3, in the order of the four patterns. */
  lemma HalfSamples(buf: seq<Byte>, ip: nat, j: nat, h: nat, g: seq<Byte>)
    requires j < SUBGROUPS_PER_GROUP && h < 2 && ip + GROUP_BYTES <= |buf|
    requires g == buf[ip + SUBGROUP_BYTES * j + 5 * h .. ip + SUBGROUP_BYTES * j + 5 * h + 5]
    ensures forall x :: 8 * j + 4 * h <= x < 8 * j + 4 * h + 4 ==>
              HalfAt(buf, ip, x) == g && x % 4 == x - (8 * j + 4 * h)
  {
    var u := 8 * j + 4 * h;
    forall x | u <= x < u + 4
      ensures HalfOffset(x) == SUBGROUP_BYTES * j + 5 * h && x % 4 == x - u
    {
      DivModUnique(x, 8, j, x - 8 * j);
      DivModUnique(x - 8 * j, 4, h, x - u);
      DivModUnique(x, 4, 2 * j + h, x - u);
    }
  }

  /** The sub-group loop: 16 sub-groups of 10 bytes, each unpacked from its
      two halves at `i` = 0 and 5 into four output slots per half, written at
      `o` onwards. */
  method UnpackGroup(buf: seq<Byte>, ip: nat, out: array<Int16>, o: nat)
    requires ip + GROUP_BYTES <= |buf| && o + GROUP_SAMPLES <= out.Length
    modifies out
    ensures forall n :: o <= n < o + GROUP_SAMPLES ==> out[n] == Unpacked(buf, ip, n - o)
    ensures forall n :: 0 <= n < out.Length && !(o <= n < o + GROUP_SAMPLES) ==> out[n] == old(out[n])
  {
    var op := o;
    var p := ip;
    var j := 0;
    while j < SUBGROUPS_PER_GROUP
      invariant 0 <= j <= SUBGROUPS_PER_GROUP
      invariant p == ip + SUBGROUP_BYTES * j && op == o + 8 * j
      invariant forall n :: o <= n < op ==> out[n] == Unpacked(buf, ip, n - o)
      invariant forall n :: 0 <= n < out.Length && !(o <= n < op) ==> out[n] == old(out[n])
    {
      var i := 0;
      while i < SUBGROUP_BYTES
        invariant (i == 0 && op == o + 8 * j) || (i == 5 && op == o + 8 * j + 4) || (i == 10 && op == o + 8 * j + 8)
        invariant forall n :: o <= n < op ==> out[n] == Unpacked(buf, ip, n - o)
        invariant forall n :: 0 <= n < out.Length && !(o <= n < op) ==> out[n] == old(out[n])
      {
        var g := buf[p + i .. p + i + 5];
        HalfSamples(buf, ip, j, if i == 0 then 0 else 1, g);
        StoreHalf(out, op, g);
        op := op + 4;
        i := i + 5;
      }
      p := p + SUBGROUP_BYTES;
      j := j + 1;
    }
  }

  /** The four statements of the inner loop body: the samples of one 5-byte
      half, stored at op .. op + 3. */
  method StoreHalf(out: array<Int16>, op: nat, g: seq<Byte>)
    requires |g| == 5 && op + 4 <= out.Length
    modifies out
    ensures forall n :: op <= n < op + 4 ==> out[n] == ToInt16(Pattern(g, n - op))
    ensures forall n :: 0 <= n < out.Length && !(op <= n < op + 4) ==> out[n] == old(out[n])
  {
    out[op] := ToInt16(Pattern(g, 0));
    out[op + 1] := ToInt16(Pattern(g, 1));
    out[op + 2] := ToInt16(Pattern(g, 2));
    out[op + 3] := ToInt16(Pattern(g, 3));
  }

  /** The eight statements of one case of the flag switch: the eight samples
      of a sub-group, starting at s, shifted right by n. */
  method ShiftEight(out: array<Int16>, s: nat, n: nat)
    requires s + 8 <= out.Length
    modifies out
    ensures forall m :: s <= m < s + 8 ==> out[m] == Sar(old(out[m]), n)
    ensures forall m :: 0 <= m < out.Length && !(s <= m < s + 8) ==> out[m] == old(out[m])
  {
    var e := 0;
    while e < 8
      invariant 0 <= e <= 8
      invariant forall m :: s <= m < s + e ==> out[m] == Sar(old(out[m]), n)
      invariant forall m :: 0 <= m < out.Length && !(s <= m < s + e) ==> out[m] == old(out[m])
    {
      out[s + e] := ShiftedInt16(out[s + e], n);
      e := e + 1;
    }
  }

  /** The flag loop: for each of the 16 sub-groups of the group whose 128
      samples start at `o`, shift its eight samples by the amount the next
      pair of flag bits selects. */
  method ShiftGroup(out: array<Int16>, o: nat, flag: Uint32)
    requires o + GROUP_SAMPLES <= out.Length
    modifies out
    ensures forall n :: o <= n < o + GROUP_SAMPLES ==>
              out[n] == Sar(old(out[n]), ShiftFor(FlagPair(flag, (n - o) / 8)))
    ensures forall n :: 0 <= n < out.Length && !(o <= n < o + GROUP_SAMPLES) ==> out[n] == old(out[n])
  {
    var f: nat := flag;
    var j := 0;
    while j < SUBGROUPS_PER_GROUP
      invariant 0 <= j <= SUBGROUPS_PER_GROUP
      invariant f == ShrPairs(flag, j)
      invariant forall n :: o <= n < o + 8 * j ==>
                  out[n] == Sar(old(out[n]), ShiftFor(FlagPair(flag, (n - o) / 8)))
      invariant forall n :: 0 <= n < out.Length && !(o <= n < o + 8 * j) ==> out[n] == old(out[n])
    {
      FlagPairAfter(flag, j);
      var pair := BitAnd(f, 0x03);
      if pair == 0 {
        ShiftEight(out, o + 8 * j, 2);
      } else if pair == 1 {
        ShiftEight(out, o + 8 * j, 1);
      }
      forall n | o + 8 * j <= n < o + 8 * j + 8
        ensures out[n] == Sar(old(out[n]), ShiftFor(FlagPair(flag, (n - o) / 8)))
      {
        DivModUnique(n - o, 8, j, n - o - 8 * j);
      }
      f := Shr(f, 2);
      j := j + 1;
    }
  }

  /** One group of the conversion loop, group k of block b at byte ip of
      the packet, written to out from index o on: unpack its 16 sub-groups,
      read the gain-flag word that follows them, and then, since the decoder
      overwrites that word with 0, shift every sample right by 2. The result
      is the group's part of the decoded stream, whose output starts at at. */
  method ConvertGroup(buf: seq<Byte>, b: nat, k: nat, ip: nat, out: array<Int16>, at: nat, o: nat)
    requires BLOCK_BYTES * (b + 1) <= |buf| && k < GROUPS_PER_BLOCK
    requires ip == BLOCK_BYTES * b + HEADER_BYTES + GROUP_BYTES * k
    requires o == at + BLOCK_SAMPLES * b + GROUP_SAMPLES * k && o + GROUP_SAMPLES <= out.Length
    modifies out
    ensures forall n :: o <= n < o + GROUP_SAMPLES ==> out[n] == DecodedAt(buf, n - at)
    ensures forall n :: 0 <= n < out.Length && !(o <= n < o + GROUP_SAMPLES) ==> out[n] == old(out[n])
  {
    UnpackGroup(buf, ip, out, o);
    var p := ip + SUBGROUPS_PER_GROUP * SUBGROUP_BYTES;
    var flag := LoadLe32(buf[p], buf[p + 1], buf[p + 2], buf[p + 3]);
    flag := 0;
    ShiftGroup(out, o, flag);
    ZeroFlagAll();
    forall n | o <= n < o + GROUP_SAMPLES
      ensures out[n] == DecodedAt(buf, n - at)
    {
      GroupDecodes(buf, b, k, n - o, ip, n - at);
    }
  }

  /** The six groups of block b, written to out from index o on: the
      block's part of the decoded stream, whose output starts at at. */
  method ConvertBlock(buf: seq<Byte>, b: nat, out: array<Int16>, at: nat, o: nat)
    requires BLOCK_BYTES * (b + 1) <= |buf| && o == at + BLOCK_SAMPLES * b && o + BLOCK_SAMPLES <= out.Length
    modifies out
    ensures forall n :: o <= n < o + BLOCK_SAMPLES ==> out[n] == DecodedAt(buf, n - at)
    ensures forall n :: 0 <= n < out.Length && !(o <= n < o + BLOCK_SAMPLES) ==> out[n] == old(out[n])
  {
    var ip := BLOCK_BYTES * b + HEADER_BYTES;
    var op := o;
    var k := 0;
    while k < GROUPS_PER_BLOCK
      invariant 0 <= k <= GROUPS_PER_BLOCK
      invariant ip == BLOCK_BYTES * b + HEADER_BYTES + GROUP_BYTES * k
      invariant op == o + GROUP_SAMPLES * k
      invariant forall n :: o <= n < op ==> out[n] == DecodedAt(buf, n - at)
      invariant forall n :: 0 <= n < out.Length && !(o <= n < op) ==> out[n] == old(out[n])
    {
      ConvertGroup(buf, b, k, ip, out, at, op);
      ip := ip + GROUP_BYTES;
      op := op + GROUP_SAMPLES;
      k := k + 1;
    }
  }
}
