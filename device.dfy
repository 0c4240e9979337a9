/** The device record of libmirisdr and the operations on it: the per-block
 *  header tracking and sample conversion, the isochronous completion
 *  handler, the streaming status machine with its cancellation pass, and
 *  the frequency, gain and rate setters and getters.
 *
 *  libusb is outside the model. Control transfers go to the `UsbHandle` log
 *  of module RegisterBus. Isochronous packets reach the completion handler
 *  as values. The status of each transfer is one slot of `xfer`. The user's
 *  callback is a log of the calls it receives.
 */
module MiriSdr {
  import opened Bits
  import opened RegisterBus
  import opened SampleDecoder
  import Msi001

  datatype Option<T> = None | Some(value: T)

  const DEFAULT_BUF_NUMBER: nat := 32
  const DEFAULT_ISO_PACKETS: nat := 8
  const DEFAULT_BUF_LENGTH: nat := 3072 * DEFAULT_ISO_PACKETS
  /** The length of one isochronous packet: the buffer length over the
      packet count. */
  const ISO_PACKET_LENGTH: nat := 3072
  /** The size of the completion handler's `outsamples` buffer: three blocks
      of 768 samples for each of the eight packets. */
  const OUT_SAMPLES: nat := 768 * 3 * 8
  /** libusb's LIBUSB_ERROR_INTERRUPTED */
  const LIBUSB_ERROR_INTERRUPTED: int := -10
  const SIZEOF_INT: nat := 4

  datatype AsyncStatus = Inactive | Canceling | Running

  /** libusb's `enum libusb_transfer_status` */
  datatype TransferStatus = Completed | TransferError | TimedOut | Cancelled | Stall | NoDevice | Overflow

  datatype Dongle = Dongle(vid: Uint16, pid: Uint16, name: string)

  const KNOWN_DEVICES: seq<Dongle> := [
    Dongle(0x1df7, 0x2500, "Mirics MSi2500 default (e.g. VTX3D card)"),
    Dongle(0x04bb, 0x0537, "IO-DATA GV-TV100 stick")
  ]

  /** The gains the MSi001 reports, in tenths of a dB. */
  const MSI001_GAINS: seq<int> := [-10, 15, 40, 65, 90, 115, 140, 165, 190, 215,
                                   240, 290, 340, 420, 430, 450, 470, 490]

  // ---------------------------------------------------------------------
  // Block headers

  /** What the driver reports on stderr while decoding: a gap in the sample
      addresses, or a hex dump of a header whose marker bit flipped. */
  datatype Event = LostSamples(expected: Uint32, address: nat) | HeaderDump(header: seq<Byte>)

  /** The stream state kept on the device from block to block:
      `dev->addr` and `dev->headerflag`. */
  datatype StreamState = StreamState(addr: Uint32, headerflag: int)

  /** The sample address a header carries, little-endian in bytes 1..3. */
  function HeaderAddress(h: seq<Byte>): (a: nat)
    requires |h| == HEADER_BYTES
    ensures a < 0x100_0000
  {
    (h[1] as int) + 0x100 * (h[2] as int) + 0x1_0000 * (h[3] as int)
  }

  /** The address the next block should carry: one more, or two more when
      bit 7 of byte 0 is set (`ip[0] >> 7`). */
  function NextAddress(h: seq<Byte>): Uint32
    requires |h| == HEADER_BYTES
  {
    HeaderAddress(h) + (h[0] as int) / 0x80 + 1
  }

  /** `ip[5] & 0x40` */
  predicate MarkerSet(h: seq<Byte>)
    requires |h| == HEADER_BYTES
  {
    BitAnd(h[5], 0x40) != 0
  }

  /** The two branches of the header test that dump the header. */
  predicate Dumps(s: StreamState, h: seq<Byte>)
    requires |h| == HEADER_BYTES
  {
    (MarkerSet(h) && s.headerflag != 0) || (!MarkerSet(h) && s.headerflag == 0)
  }

  function HeaderStep(s: StreamState, h: seq<Byte>): StreamState
    requires |h| == HEADER_BYTES
  {
    var flag := if MarkerSet(h) && s.headerflag != 0 then 0
                else if !MarkerSet(h) && s.headerflag == 0 then 1
                else s.headerflag;
    StreamState(NextAddress(h), flag)
  }

  function HeaderEvents(s: StreamState, h: seq<Byte>): seq<Event>
    requires |h| == HEADER_BYTES
  {
    (if HeaderAddress(h) != s.addr then [LostSamples(s.addr, HeaderAddress(h))] else [])
    + (if Dumps(s, h) then [HeaderDump(h)] else [])
  }

  /** The marker is bit 6 of byte 5. */
  lemma MarkerIsBit6(h: seq<Byte>)
    requires |h| == HEADER_BYTES
    ensures MarkerSet(h) <==> (h[5] as int / 0x40) % 2 == 1
  {
    Pow2Tiny();
    Pow2Succ(7);
    AndMask(h[5], 6, 1, 0x40, 0x40, 2);
  }

  /** From a flag of 0 or 1, the flag after a header is 1 exactly when its
      marker bit is clear; and whatever the flag, the header is dumped
      exactly when the flag changes. */
  lemma FlagFollowsMarker(s: StreamState, h: seq<Byte>)
    requires |h| == HEADER_BYTES
    ensures s.headerflag == 0 || s.headerflag == 1 ==>
              HeaderStep(s, h).headerflag == if (h[5] as int / 0x40) % 2 == 1 then 0 else 1
    ensures Dumps(s, h) <==> HeaderStep(s, h).headerflag != s.headerflag
  {
    MarkerIsBit6(h);
  }

  function BlockHeader(buf: seq<Byte>, b: nat): (h: seq<Byte>)
    requires BLOCK_BYTES * (b + 1) <= |buf|
    ensures |h| == HEADER_BYTES
  {
    buf[BLOCK_BYTES * b .. BLOCK_BYTES * b + HEADER_BYTES]
  }

  /** The stream state after the headers of the first n blocks. */
  function AfterHeaders(buf: seq<Byte>, s: StreamState, n: nat): StreamState
    requires BLOCK_BYTES * n <= |buf|
  {
    if n == 0 then s else HeaderStep(AfterHeaders(buf, s, n - 1), BlockHeader(buf, n - 1))
  }

  /** The event log `log` followed by the events of the first n blocks, in
      order. */
  function HeaderLog(log: seq<Event>, buf: seq<Byte>, s: StreamState, n: nat): seq<Event>
    requires BLOCK_BYTES * n <= |buf|
  {
    if n == 0 then log
    else HeaderLog(log, buf, s, n - 1) + HeaderEvents(AfterHeaders(buf, s, n - 1), BlockHeader(buf, n - 1))
  }

  /** The log that the blocks extend is kept as it is, in front of their
      events. */
  lemma {:induction false} HeaderLogExtends(log: seq<Event>, buf: seq<Byte>, s: StreamState, n: nat)
    requires BLOCK_BYTES * n <= |buf|
    ensures HeaderLog(log, buf, s, n) == log + HeaderLog([], buf, s, n)
  {
    if n > 0 {
      HeaderLogExtends(log, buf, s, n - 1);
    }
  }

  /** One more block of headers, from the state st and the log ev that
      the first b blocks leave. */
  lemma HeadersStep(buf: seq<Byte>, s: StreamState, b: nat, st: StreamState, ev: seq<Event>, ev0: seq<Event>)
    requires BLOCK_BYTES * (b + 1) <= |buf|
    requires st == AfterHeaders(buf, s, b) && ev == HeaderLog(ev0, buf, s, b)
    ensures HeaderStep(st, BlockHeader(buf, b)) == AfterHeaders(buf, s, b + 1)
    ensures ev + HeaderEvents(st, BlockHeader(buf, b)) == HeaderLog(ev0, buf, s, b + 1)
  {
  }

  predicate BinaryFlag(s: StreamState)
  {
    s.headerflag == 0 || s.headerflag == 1
  }

  function MarkerBit(buf: seq<Byte>, b: nat): nat
    requires BLOCK_BYTES * (b + 1) <= |buf|
  {
    (BlockHeader(buf, b)[5] as int / 0x40) % 2
  }

  /** After at least one block the stream state depends only on the last
      header: its successor address, and a flag that is 1 exactly when its
      marker bit is clear. */
  lemma {:induction false} StateAfterHeaders(buf: seq<Byte>, s: StreamState, n: nat)
    requires BLOCK_BYTES * n <= |buf| && BinaryFlag(s)
    ensures BinaryFlag(AfterHeaders(buf, s, n))
    ensures n > 0 ==> AfterHeaders(buf, s, n).addr == NextAddress(BlockHeader(buf, n - 1))
    ensures n > 0 ==> AfterHeaders(buf, s, n).headerflag == 1 - MarkerBit(buf, n - 1)
  {
    if n > 0 {
      StateAfterHeaders(buf, s, n - 1);
      FlagFollowsMarker(AfterHeaders(buf, s, n - 1), BlockHeader(buf, n - 1));
    }
  }

  /** Between two blocks of one packet, the later header is dumped exactly
      when its marker bit differs from the earlier one's. */
  lemma DumpOnToggle(buf: seq<Byte>, s: StreamState, b: nat)
    requires BLOCK_BYTES * (b + 1) <= |buf| && BinaryFlag(s) && b > 0
    ensures Dumps(AfterHeaders(buf, s, b), BlockHeader(buf, b)) <==> MarkerBit(buf, b) != MarkerBit(buf, b - 1)
  {
    StateAfterHeaders(buf, s, b);
    FlagFollowsMarker(AfterHeaders(buf, s, b), BlockHeader(buf, b));
  }

  /** Headers whose addresses follow on from each other, starting at the
      expected address, raise no lost-samples event; and a block whose
      address breaks the chain raises one. */
  lemma {:induction false} ContiguousNoLoss(buf: seq<Byte>, s: StreamState, n: nat)
    requires BLOCK_BYTES * n <= |buf|
    requires n > 0 ==> HeaderAddress(BlockHeader(buf, 0)) == s.addr
    requires forall b :: 0 < b < n ==> HeaderAddress(BlockHeader(buf, b)) == NextAddress(BlockHeader(buf, b - 1))
    ensures forall e :: e in HeaderLog([], buf, s, n) ==> !e.LostSamples?
  {
    if n > 0 {
      ContiguousNoLoss(buf, s, n - 1);
      if n > 1 {
        StateAddrAfter(buf, s, n - 1);
      }
    }
  }

  lemma GapIsLost(buf: seq<Byte>, s: StreamState, b: nat, n: nat)
    requires BLOCK_BYTES * n <= |buf| && 0 < b < n
    requires HeaderAddress(BlockHeader(buf, b)) != NextAddress(BlockHeader(buf, b - 1))
    ensures LostSamples(NextAddress(BlockHeader(buf, b - 1)), HeaderAddress(BlockHeader(buf, b)))
            in HeaderLog([], buf, s, n)
  {
    StateAddrAfter(buf, s, b);
    LogPrefix([], buf, s, b + 1, n);
  }

  lemma StateAddrAfter(buf: seq<Byte>, s: StreamState, n: nat)
    requires BLOCK_BYTES * n <= |buf| && n > 0
    ensures AfterHeaders(buf, s, n).addr == NextAddress(BlockHeader(buf, n - 1))
  {
  }

  lemma {:induction false} LogPrefix(log: seq<Event>, buf: seq<Byte>, s: StreamState, m: nat, n: nat)
    requires m <= n && BLOCK_BYTES * n <= |buf|
    ensures HeaderLog(log, buf, s, m) <= HeaderLog(log, buf, s, n)
    decreases n - m
  {
    if m < n {
      LogPrefix(log, buf, s, m + 1, n);
      LogPrefixStep(log, buf, s, m, n);
    } else {
      assert m == n;
    }
  }

  lemma LogPrefixStep(log: seq<Event>, buf: seq<Byte>, s: StreamState, m: nat, n: nat)
    requires m < n && BLOCK_BYTES * n <= |buf|
    requires HeaderLog(log, buf, s, m + 1) <= HeaderLog(log, buf, s, n)
    ensures HeaderLog(log, buf, s, m) <= HeaderLog(log, buf, s, n)
  {
    var st, ev := AfterHeaders(buf, s, m), HeaderLog(log, buf, s, m);
    HeadersStep(buf, s, m, st, ev, log);
    PrefixTrans(ev, HeaderEvents(st, BlockHeader(buf, m)), HeaderLog(log, buf, s, m + 1), HeaderLog(log, buf, s, n));
  }

  /** a is a prefix of a + e, and so of anything a + e is a prefix of. */
  lemma PrefixTrans<T>(a: seq<T>, e: seq<T>, y: seq<T>, z: seq<T>)
    requires y == a + e && y <= z
    ensures a <= z
  {
    assert z[..|a|] == y[..|a|] == a;
  }

  /** When t differs from s only in the len elements from `at` on, and those
      are d, then t up to at + len is s up to `at` followed by d, and t
      from at + len on is s from there. */
  lemma Splice<T>(t: seq<T>, s: seq<T>, at: nat, len: nat, d: seq<T>)
    requires |t| == |s| && at + len <= |t|
    requires forall n :: 0 <= n < |t| && !(at <= n < at + len) ==> t[n] == s[n]
    requires t[at .. at + len] == d
    ensures t[..at + len] == s[..at] + d
    ensures t[at + len..] == s[at + len..]
  {
    assert t[..at + len] == t[..at] + t[at .. at + len];
    assert t[..at] == s[..at];
  }

  /** Two sequences that agree from i on agree from any later j on. */
  lemma SuffixFrom<T>(t: seq<T>, s: seq<T>, i: nat, j: nat)
    requires i <= j <= |t| == |s| && t[i..] == s[i..]
    ensures t[j..] == s[j..]
  {
    assert t[j..] == t[i..][j - i..];
  }

  /** Block b of a run of `blocks` blocks lies inside the run, in bytes and
      in samples. */
  lemma BlockRoom(b: nat, blocks: nat)
    requires b < blocks
    ensures BLOCK_BYTES * (b + 1) <= BLOCK_BYTES * blocks
    ensures BLOCK_SAMPLES * b + BLOCK_SAMPLES == BLOCK_SAMPLES * (b + 1) <= BLOCK_SAMPLES * blocks
  {
  }

  // ---------------------------------------------------------------------
  // Isochronous packets and transfers

  /** One `libusb_iso_packet_descriptor` with its buffer, if libusb gives one. */
  datatype IsoPacket = IsoPacket(status: TransferStatus, actualLength: nat, buffer: Option<seq<Byte>>)

  /** A call of the user's callback: the samples, and the byte count passed. */
  datatype Delivery = Delivery(samples: seq<Int16>, byteLength: nat)

  /** libusb never reports more bytes than the packet length, and a packet
      buffer holds at least the reported bytes. */
  predicate PacketFits(p: IsoPacket)
  {
    p.actualLength <= ISO_PACKET_LENGTH && (p.buffer.Some? ==> p.actualLength <= |p.buffer.value|)
  }

  predicate Converted(p: IsoPacket)
  {
    p.actualLength > 0 && p.buffer.Some?
  }

  function PacketSamples(p: IsoPacket): seq<Int16>
    requires PacketFits(p)
  {
    if Converted(p) then Decoded(p.buffer.value, p.actualLength) else []
  }

  function PacketState(p: IsoPacket, s: StreamState): StreamState
    requires PacketFits(p)
  {
    if Converted(p) then AfterHeaders(p.buffer.value, s, p.actualLength / BLOCK_BYTES) else s
  }

  /** The event log `log` followed by the events of a packet. */
  function PacketLog(log: seq<Event>, p: IsoPacket, s: StreamState): seq<Event>
    requires PacketFits(p)
  {
    if Converted(p) then HeaderLog(log, p.buffer.value, s, p.actualLength / BLOCK_BYTES) else log
  }

  /** Every packet of a transfer fits its buffer. */
  predicate AllFit(ps: seq<IsoPacket>)
  {
    forall i :: 0 <= i < |ps| ==> PacketFits(ps[i])
  }

  /** The samples of the first n packets of a transfer: those of its
      converted packets, in order. */
  function TransferSamples(ps: seq<IsoPacket>, n: nat): seq<Int16>
    requires AllFit(ps) && n <= |ps|
  {
    if n == 0 then [] else TransferSamples(ps, n - 1) + PacketSamples(ps[n - 1])
  }

  /** The stream state after the headers of the converted packets among
      the first n. */
  function TransferState(ps: seq<IsoPacket>, n: nat, s: StreamState): StreamState
    requires AllFit(ps) && n <= |ps|
  {
    if n == 0 then s else PacketState(ps[n - 1], TransferState(ps, n - 1, s))
  }

  /** The event log `log` followed by the events of the first n packets. */
  function TransferLog(log: seq<Event>, ps: seq<IsoPacket>, n: nat, s: StreamState): seq<Event>
    requires AllFit(ps) && n <= |ps|
  {
    if n == 0 then log
    else PacketLog(TransferLog(log, ps, n - 1, s), ps[n - 1], TransferState(ps, n - 1, s))
  }

  /** One more packet extends the transfer's state and log by that packet's. */
  lemma TransferStep(log: seq<Event>, ps: seq<IsoPacket>, i: nat, s: StreamState, ev: seq<Event>, st: StreamState)
    requires AllFit(ps) && i < |ps|
    requires ev == TransferLog(log, ps, i, s) && st == TransferState(ps, i, s)
    ensures TransferSamples(ps, i + 1) == TransferSamples(ps, i) + PacketSamples(ps[i])
    ensures PacketState(ps[i], st) == TransferState(ps, i + 1, s)
    ensures PacketLog(ev, ps[i], st) == TransferLog(log, ps, i + 1, s)
  {
  }

  /** A packet of at most 3072 bytes holds at most three whole blocks. */
  lemma PacketBound(p: IsoPacket)
    requires PacketFits(p)
    ensures |PacketSamples(p)| <= 3 * BLOCK_SAMPLES
  {
  }

  /** n packets yield at most 2304 n samples, so the eight packets of a
      transfer fill the 18432-sample buffer at most. */
  lemma {:induction false} TransferBound(ps: seq<IsoPacket>, n: nat)
    requires AllFit(ps) && n <= |ps|
    ensures |TransferSamples(ps, n)| <= 3 * BLOCK_SAMPLES * n
  {
    if n > 0 {
      TransferBound(ps, n - 1);
      PacketBound(ps[n - 1]);
      assert 3 * BLOCK_SAMPLES * n == 3 * BLOCK_SAMPLES * (n - 1) + 3 * BLOCK_SAMPLES;
    }
  }

  /** The samples of a transfer of at most eight packets fit the output
      buffer `_libusb_callback` allocates. */
  lemma TransferFits(ps: seq<IsoPacket>, n: nat)
    requires AllFit(ps) && n <= |ps| <= DEFAULT_ISO_PACKETS
    ensures |TransferSamples(ps, n)| <= OUT_SAMPLES
  {
    TransferBound(ps, n);
  }

  // ---------------------------------------------------------------------
  // Transfer slots

  /** The indices of the slots that hold a completed transfer, ascending. */
  function CompletedSlots(s: seq<Option<TransferStatus>>): seq<nat>
  {
    if s == [] then []
    else CompletedSlots(s[..|s| - 1]) + (if s[|s| - 1] == Some(Completed) then [|s| - 1] else [])
  }

  /** CompletedSlots lists exactly the completed, non-null slots, each once
      and in ascending order. */
  lemma {:induction false} CompletedSlotsExact(s: seq<Option<TransferStatus>>)
    ensures forall i :: i in CompletedSlots(s) <==> 0 <= i < |s| && s[i] == Some(Completed)
    ensures forall a, b :: 0 <= a < b < |CompletedSlots(s)| ==> CompletedSlots(s)[a] < CompletedSlots(s)[b]
  {
    if s != [] {
      var p := s[..|s| - 1];
      CompletedSlotsExact(p);
      assert forall i :: 0 <= i < |p| ==> p[i] == s[i];
      forall a | 0 <= a < |CompletedSlots(p)|
        ensures CompletedSlots(p)[a] < |p|
      {
        assert CompletedSlots(p)[a] in CompletedSlots(p);
      }
    }
  }

  lemma NoneCompleted(s: seq<Option<TransferStatus>>)
    ensures CompletedSlots(s) == [] <==> forall i :: 0 <= i < |s| ==> s[i] != Some(Completed)
  {
    CompletedSlotsExact(s);
    if CompletedSlots(s) != [] {
      assert CompletedSlots(s)[0] in CompletedSlots(s);
    }
  }

  // ---------------------------------------------------------------------
  // The device

  /** The frames of the setters, which accept a null device. */
  function DeviceFrame(dev: Device?): set<Device>
  {
    if dev == null then {} else {dev}
  }

  function UsbFrame(dev: Device?): set<UsbHandle>
    reads dev
  {
    if dev == null then {} else {dev.usb}
  }

  class Device {
    /** `dev->devh`, where control transfers go */
    var usb: UsbHandle
    /** `dev->tuner != NULL`; the only tuner is the MSi001 */
    var hasTuner: bool
    var freq: Uint32
    var gain: int
    var rate: Uint32
    /** `dev->cb != NULL` */
    var hasCallback: bool
    /** The calls made to the user's callback. */
    var delivered: seq<Delivery>
    var asyncStatus: AsyncStatus
    /** `dev->xfer`: null, or one slot per transfer (xfer_buf_num of them),
        None for a null transfer pointer, else that transfer's status. */
    var xfer: array?<Option<TransferStatus>>
    /** The slots passed to libusb_cancel_transfer, in order. */
    var cancelled: seq<nat>
    var addr: Uint32
    var headerflag: int
    ghost var events: seq<Event>

    /** The record as `mirisdr_open` leaves it: zero-filled, with the MSi001
        as its tuner. */
    constructor (usb: UsbHandle)
      ensures this.usb == usb && hasTuner
      ensures freq == 0 && gain == 0 && rate == 0 && !hasCallback && delivered == []
      ensures asyncStatus == Inactive && xfer == null && cancelled == []
      ensures addr == 0 && headerflag == 0 && events == []
    {
      this.usb := usb;
      hasTuner := true;
      freq, gain, rate := 0, 0, 0;
      hasCallback := false;
      delivered := [];
      asyncStatus := Inactive;
      xfer := null;
      cancelled := [];
      addr, headerflag := 0, 0;
      events := [];
    }

    function State(): StreamState
      reads this
    {
      StreamState(addr, headerflag)
    }

    /** The header part of one block: the address check, the next expected
        address, and the marker test on byte 5. */
    method ParseHeader(inbuf: seq<Byte>, ip: nat)
      requires ip + HEADER_BYTES <= |inbuf|
      modifies this`addr, this`headerflag, this`events
      ensures State() == HeaderStep(old(State()), inbuf[ip .. ip + HEADER_BYTES])
      ensures events == old(events) + HeaderEvents(old(State()), inbuf[ip .. ip + HEADER_BYTES])
    {
      ghost var h := inbuf[ip .. ip + HEADER_BYTES];
      var address: nat := (inbuf[ip + 1] as int) + 0x100 * (inbuf[ip + 2] as int) + 0x1_0000 * (inbuf[ip + 3] as int);
      assert address == HeaderAddress(h);
      if address != addr {
        events := events + [LostSamples(addr, address)];
      }
      addr := address + (inbuf[ip] as int) / 0x80 + 1;
      if BitAnd(inbuf[ip + 5], 0x40) != 0 && headerflag != 0 {
        events := events + [HeaderDump(inbuf[ip .. ip + HEADER_BYTES])];
        headerflag := 0;
      } else if BitAnd(inbuf[ip + 5], 0x40) == 0 && headerflag == 0 {
        events := events + [HeaderDump(inbuf[ip .. ip + HEADER_BYTES])];
        headerflag := 1;
      }
    }

    /** One pass of the block loop of `mirisdr_convert_samples`: the header
        of block b, then its six groups, written to out after the op samples
        of the blocks before it. */
    method ConvertNextBlock(inbuf: seq<Byte>, b: nat, out: array<Int16>, at: nat, op: nat,
                            ghost s0: StreamState, ghost ev0: seq<Event>)
      requires BLOCK_BYTES * (b + 1) <= |inbuf| && op == BLOCK_SAMPLES * b && at + op + BLOCK_SAMPLES <= out.Length
      requires State() == AfterHeaders(inbuf, s0, b) && events == HeaderLog(ev0, inbuf, s0, b)
      modifies this`addr, this`headerflag, this`events, out
      ensures State() == AfterHeaders(inbuf, s0, b + 1) && events == HeaderLog(ev0, inbuf, s0, b + 1)
      ensures forall n :: at + op <= n < at + op + BLOCK_SAMPLES ==> out[n] == DecodedAt(inbuf, n - at)
      ensures forall n :: 0 <= n < out.Length && !(at + op <= n < at + op + BLOCK_SAMPLES) ==> out[n] == old(out[n])
    {
      HeadersStep(inbuf, s0, b, State(), events, ev0);
      ParseHeader(inbuf, BLOCK_BYTES * b);
      ConvertBlock(inbuf, b, out, at, at + op);
    }

    /** The block loop of `mirisdr_convert_samples` over the first `blocks`
        blocks of `inbuf`. */
    method ConvertBlocks(inbuf: seq<Byte>, out: array<Int16>, at: nat, blocks: nat) returns (op: nat)
      requires BLOCK_BYTES * blocks <= |inbuf| && at + BLOCK_SAMPLES * blocks <= out.Length
      modifies this`addr, this`headerflag, this`events, out
      ensures op == BLOCK_SAMPLES * blocks
      ensures forall n :: at <= n < at + op ==> out[n] == DecodedAt(inbuf, n - at)
      ensures forall n :: 0 <= n < out.Length && !(at <= n < at + op) ==> out[n] == old(out[n])
      ensures State() == AfterHeaders(inbuf, old(State()), blocks)
      ensures events == HeaderLog(old(events), inbuf, old(State()), blocks)
    {
      ghost var s0 := State();
      DivAtLeast(|inbuf|, BLOCK_BYTES, blocks);
      op := 0;
      var block, b := blocks, 0;
      while block > 0
        invariant 0 <= block <= blocks && b == blocks - block && op == BLOCK_SAMPLES * b
        invariant State() == AfterHeaders(inbuf, s0, b)
        invariant events == HeaderLog(old(events), inbuf, s0, b)
        invariant forall n :: at <= n < at + op ==> out[n] == DecodedAt(inbuf, n - at)
        invariant forall n :: 0 <= n < out.Length && !(at <= n < at + op) ==> out[n] == old(out[n])
      {
        block := block - 1;
        BlockRoom(b, blocks);
        ConvertNextBlock(inbuf, b, out, at, op, s0, old(events));
        op := op + BLOCK_SAMPLES;
        b := b + 1;
      }
    }

    /** `mirisdr_convert_samples`: decodes the whole blocks of `length` bytes
        of `inbuf` into `out` from index `at` on, and returns the number of
        samples written. */
    method ConvertSamples(inbuf: seq<Byte>, out: array<Int16>, at: nat, length: nat) returns (op: nat)
      requires length <= |inbuf|
      requires at + BLOCK_SAMPLES * (length / BLOCK_BYTES) <= out.Length
      modifies this`addr, this`headerflag, this`events, out
      ensures op == BLOCK_SAMPLES * (length / BLOCK_BYTES)
      ensures out[at .. at + op] == Decoded(inbuf, length)
      ensures forall n :: 0 <= n < out.Length && !(at <= n < at + op) ==> out[n] == old(out[n])
      ensures State() == AfterHeaders(inbuf, old(State()), length / BLOCK_BYTES)
      ensures events == HeaderLog(old(events), inbuf, old(State()), length / BLOCK_BYTES)
    {
      var blocks := length / BLOCK_BYTES;
      DivAtLeast(|inbuf|, BLOCK_BYTES, blocks);
      op := ConvertBlocks(inbuf, out, at, blocks);
      DecodedByIndex(inbuf, length, out[at .. at + op]);
    }

    /** The body of the packet loop of `_libusb_callback`: a packet that
        reports data and has a buffer is decoded after the total samples
        already in out; any other packet is skipped. */
    method ConvertPacket(pack: IsoPacket, out: array<Int16>, total: nat) returns (len: nat)
      requires PacketFits(pack) && total + |PacketSamples(pack)| <= out.Length
      modifies this`addr, this`headerflag, this`events, out
      ensures len == |PacketSamples(pack)|
      ensures out[..total + len] == old(out[..total]) + PacketSamples(pack)
      ensures out[total + len..] == old(out[total + len..])
      ensures State() == PacketState(pack, old(State()))
      ensures events == PacketLog(old(events), pack, old(State()))
    {
      len := 0;
      if pack.actualLength > 0 {
        var buf := pack.buffer;
        if buf.Some? {
          ghost var before := out[..];
          len := ConvertSamples(buf.value, out, total, pack.actualLength);
          Splice(out[..], before, total, len, PacketSamples(pack));
        }
      }
    }

    /** One turn of the packet loop of `_libusb_callback`: converts packet i
        after the samples of the packets before it. */
    method ConvertNext(packets: seq<IsoPacket>, i: nat, out: array<Int16>, total: nat, ghost s0: StreamState, ghost log0: seq<Event>)
      returns (next: nat)
      requires |packets| <= DEFAULT_ISO_PACKETS && AllFit(packets) && i < |packets| && out.Length == OUT_SAMPLES
      requires total <= out.Length && out[..total] == TransferSamples(packets, i)
      requires State() == TransferState(packets, i, s0) && events == TransferLog(log0, packets, i, s0)
      modifies this`addr, this`headerflag, this`events, out
      ensures next <= out.Length && out[..next] == TransferSamples(packets, i + 1)
      ensures total <= next && out[next..] == old(out[next..])
      ensures State() == TransferState(packets, i + 1, s0) && events == TransferLog(log0, packets, i + 1, s0)
    {
      TransferFits(packets, i + 1);
      TransferStep(log0, packets, i, s0, events, State());
      var len := ConvertPacket(packets[i], out, total);
      next := total + len;
    }

    /** The packet loop of `_libusb_callback`: converts every packet that
        reports data and has a buffer, one after the other into out, and
        returns the number of samples written. */
    method ConvertTransfer(packets: seq<IsoPacket>, out: array<Int16>) returns (total: nat)
      requires |packets| <= DEFAULT_ISO_PACKETS && AllFit(packets) && out.Length == OUT_SAMPLES
      modifies this`addr, this`headerflag, this`events, out
      ensures total <= out.Length && out[..total] == TransferSamples(packets, |packets|)
      ensures out[total..] == old(out[total..])
      ensures State() == TransferState(packets, |packets|, old(State()))
      ensures events == TransferLog(old(events), packets, |packets|, old(State()))
    {
      ghost var s0 := State();
      total := 0;
      var i := 0;
      while i < |packets|
        invariant 0 <= i <= |packets|
        invariant total <= out.Length && out[..total] == TransferSamples(packets, i)
        invariant out[total..] == old(out[total..])
        invariant State() == TransferState(packets, i, s0)
        invariant events == TransferLog(old(events), packets, i, s0)
      {
        ghost var before := out[..];
        var next := ConvertNext(packets, i, out, total, s0, old(events));
        SuffixFrom(before, old(out[..]), total, next);
        total := next;
        i := i + 1;
      }
    }

    /** `_libusb_callback`: converts the packets of a completed transfer into
        one sample buffer, then hands the samples to the user's callback if
        there is one and there are any. */
    method Callback(packets: seq<IsoPacket>)
      requires |packets| <= DEFAULT_ISO_PACKETS && AllFit(packets)
      modifies this`addr, this`headerflag, this`events, this`delivered
      ensures State() == TransferState(packets, |packets|, old(State()))
      ensures events == TransferLog(old(events), packets, |packets|, old(State()))
      ensures var out := TransferSamples(packets, |packets|);
              delivered == old(delivered) + if hasCallback && |out| > 0 then [Delivery(out, 2 * |out|)] else []
    {
      var outsamples := new Int16[OUT_SAMPLES](_ => 0);
      var total := ConvertTransfer(packets, outsamples);
      ghost var out := TransferSamples(packets, |packets|);
      if hasCallback && total > 0 {
        var samples := outsamples[..total];
        assert samples == out && total * 2 == 2 * |out|;
        delivered := delivered + [Delivery(samples, total * 2)];
      } else {
        assert !(hasCallback && |out| > 0);
        assert delivered == old(delivered) + [];
      }
    }

    /** One pass of the `mirisdr_read_async` event loop after
        `libusb_handle_events_timeout` returned `r`: true when the loop ends.
        A pass only starts while the status is not INACTIVE (the loop's
        guard). */
    method PollIteration(r: int) returns (stop: bool)
      requires asyncStatus != Inactive
      modifies this`asyncStatus, this`cancelled
      ensures r < 0 ==> stop == (r != LIBUSB_ERROR_INTERRUPTED)
      ensures r < 0 || old(asyncStatus) != Canceling ==> asyncStatus == old(asyncStatus) && cancelled == old(cancelled)
      ensures r >= 0 && old(asyncStatus) != Canceling ==> !stop
      ensures r >= 0 && old(asyncStatus) == Canceling && xfer == null ==>
                stop && asyncStatus == Inactive && cancelled == old(cancelled)
      ensures r >= 0 && old(asyncStatus) == Canceling && xfer != null ==>
                cancelled == old(cancelled) + CompletedSlots(xfer[..])
                && (asyncStatus == Canceling <==> exists i :: 0 <= i < xfer.Length && xfer[i] == Some(Completed))
                && (asyncStatus == Inactive <==> forall i :: 0 <= i < xfer.Length ==> xfer[i] != Some(Completed))
                && stop == (asyncStatus == Inactive)
    {
      if r < 0 {
        return r != LIBUSB_ERROR_INTERRUPTED;
      }
      stop := false;
      if asyncStatus == Canceling {
        asyncStatus := Inactive;
        if xfer == null {
          return true;
        }
        var i := 0;
        while i < xfer.Length
          invariant 0 <= i <= xfer.Length
          invariant cancelled == old(cancelled) + CompletedSlots(xfer[..i])
          invariant asyncStatus == if CompletedSlots(xfer[..i]) == [] then Inactive else Canceling
        {
          assert xfer[..i + 1][..i] == xfer[..i];
          var slot := xfer[i];
          if slot.Some? {
            if slot.value == Completed {
              cancelled := cancelled + [i];
              asyncStatus := Canceling;
            }
          }
          i := i + 1;
        }
        assert xfer[..i] == xfer[..];
        NoneCompleted(xfer[..]);
        if asyncStatus == Inactive {
          stop := true;
        }
      }
    }
  }

  // ---------------------------------------------------------------------
  // The entry points, which all accept a null device

  /** The set-up part of `mirisdr_read_async`: records the callback and marks
      the stream running. The C function does not return here: it goes on
      into the event loop (`Device.PollIteration`) and returns the last
      result of `libusb_handle_events_timeout`. The 0 of this method only
      marks that the set-up is done. */
  method BeginReadAsync(dev: Device?, callback: bool) returns (r: int)
    modifies DeviceFrame(dev)`hasCallback, DeviceFrame(dev)`asyncStatus
    ensures dev == null ==> r == -1
    ensures dev != null ==> r == 0 && dev.hasCallback == callback && dev.asyncStatus == Running
  {
    if dev == null {
      return -1;
    }
    dev.hasCallback := callback;
    dev.asyncStatus := Running;
    r := 0;
  }

  /** `mirisdr_cancel_async`: only a running stream can be asked to stop. */
  method CancelAsync(dev: Device?) returns (r: int)
    modifies DeviceFrame(dev)`asyncStatus
    ensures dev == null ==> r == -1
    ensures dev != null && old(dev.asyncStatus) == Running ==> r == 0 && dev.asyncStatus == Canceling
    ensures dev != null && old(dev.asyncStatus) != Running ==> r == -2 && dev.asyncStatus == old(dev.asyncStatus)
  {
    if dev == null {
      return -1;
    }
    if dev.asyncStatus == Running {
      dev.asyncStatus := Canceling;
      return 0;
    }
    return -2;
  }

  function GetCenterFreq(dev: Device?): Uint32
    reads dev
  {
    if dev == null || !dev.hasTuner then 0 else dev.freq
  }

  /** `mirisdr_set_center_freq`: the tuner's set_freq runs the whole MSi001
      initialisation for the new frequency, which succeeds, so the frequency
      is recorded. */
  method SetCenterFreq(dev: Device?, freq: Uint32) returns (r: int)
    modifies DeviceFrame(dev)`freq, UsbFrame(dev)`transfers
    ensures dev == null || !dev.hasTuner ==> r == -1
    ensures dev != null && !dev.hasTuner ==> dev.freq == old(dev.freq) && dev.usb.transfers == old(dev.usb.transfers)
    ensures dev != null && dev.hasTuner ==> r == 0 && GetCenterFreq(dev) == freq
    ensures dev != null && dev.hasTuner ==>
              dev.usb.transfers == old(dev.usb.transfers) + Msi001.TunerWritesLog(Msi001.InitWords(freq))
  {
    if dev == null || !dev.hasTuner {
      return -1;
    }
    var s;
    r, s := Msi001.Msi001Init(dev.usb, freq);
    dev.freq := (if r == 0 then freq as int else 0) as Uint32;
  }

  function GetTunerGain(dev: Device?): int
    reads dev
  {
    if dev == null || !dev.hasTuner then 0 else dev.gain
  }

  /** `mirisdr_set_tuner_gain`: the MSi001's set_gain accepts any gain
      without touching the tuner, so the gain is recorded. */
  method SetTunerGain(dev: Device?, gain: int) returns (r: int)
    modifies DeviceFrame(dev)`gain
    ensures dev == null || !dev.hasTuner ==> r == -1
    ensures dev != null && !dev.hasTuner ==> dev.gain == old(dev.gain)
    ensures dev != null && dev.hasTuner ==> r == 0 && GetTunerGain(dev) == gain
  {
    if dev == null || !dev.hasTuner {
      return -1;
    }
    r := 0;
    dev.gain := if r == 0 then gain else 0;
  }

  /** `mirisdr_set_tuner_gain_mode`: the MSi001's set_gain_mode accepts any
      mode and changes nothing. */
  method SetTunerGainMode(dev: Device?, mode: int) returns (r: int)
    ensures r == if dev == null || !dev.hasTuner then -1 else 0
  {
    if dev == null || !dev.hasTuner {
      return -1;
    }
    r := 0;
  }

  function GetSampleRate(dev: Device?): Uint32
    reads dev
  {
    if dev == null then 0 else dev.rate
  }

  /** `mirisdr_set_sample_rate`: the rate is only recorded; the tuner's
      set_bw accepts it without touching the tuner. */
  method SetSampleRate(dev: Device?, sampRate: Uint32) returns (r: int)
    modifies DeviceFrame(dev)`rate
    ensures dev == null ==> r == -1
    ensures dev != null ==> r == 0 && GetSampleRate(dev) == sampRate
  {
    if dev == null {
      return -1;
    }
    r := 0;
    dev.rate := (if r >= 0 then sampRate as int else 0) as Uint32;
  }

  /** `mirisdr_get_tuner_gains`: the number of gains, and the gains
      themselves copied into `gains` when a buffer is given. */
  method GetTunerGains(dev: Device?, gains: array?<int>) returns (n: int)
    requires gains != null ==> |MSI001_GAINS| <= gains.Length
    modifies gains
    ensures dev == null ==> n == -1 && (gains != null ==> gains[..] == old(gains[..]))
    ensures dev != null ==> n == |MSI001_GAINS|
    ensures dev != null && gains != null ==>
              gains[..|MSI001_GAINS|] == MSI001_GAINS && gains[|MSI001_GAINS|..] == old(gains[|MSI001_GAINS|..])
  {
    var len := |MSI001_GAINS| * SIZEOF_INT;
    if dev == null {
      return -1;
    }
    if gains == null {
      return len / SIZEOF_INT;
    }
    forall i | 0 <= i < len / SIZEOF_INT {
      gains[i] := MSI001_GAINS[i];
    }
    return len / SIZEOF_INT;
  }

  predicate Matches(d: Dongle, vid: Uint16, pid: Uint16)
  {
    d.vid == vid && d.pid == pid
  }

  /** `find_known_device`: the first entry of the table with this vendor and
      product id, if any. */
  method FindKnownDevice(vid: Uint16, pid: Uint16) returns (device: Option<nat>)
    ensures device.Some? ==> device.value < |KNOWN_DEVICES| && Matches(KNOWN_DEVICES[device.value], vid, pid)
    ensures device.Some? ==> forall k :: 0 <= k < device.value ==> !Matches(KNOWN_DEVICES[k], vid, pid)
    ensures device.None? ==> forall k :: 0 <= k < |KNOWN_DEVICES| ==> !Matches(KNOWN_DEVICES[k], vid, pid)
  {
    device := None;
    var i := 0;
    while i < |KNOWN_DEVICES|
      invariant 0 <= i <= |KNOWN_DEVICES| && device.None?
      invariant forall k :: 0 <= k < i ==> !Matches(KNOWN_DEVICES[k], vid, pid)
    {
      if KNOWN_DEVICES[i].vid == vid && KNOWN_DEVICES[i].pid == pid {
        device := Some(i);
        break;
      }
      i := i + 1;
    }
  }
}
