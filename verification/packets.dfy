/** The packet decoder of src/packet_codec.c as functions on values: what one
    USB message does to the parsing context and to the device state. */
module Packets {
  import opened Words
  import opened Can
  import opened Timebase
  import opened BusErrors

  const HEADER_LEN: nat := 2
  const STAMPED: mask := 0x80
  const INTERNAL: mask := 0x40
  const EXT_ID: mask := 0x20
  const RTR: mask := 0x10

  const REC_ERROR: byte := 1
  const REC_ANALOG: byte := 2
  const REC_BUSLOAD: byte := 3
  const REC_TS: byte := 4

  /** The received bytes and the byte of memory just behind them, which the
      unchecked read of a status byte can reach. */
  datatype Buf = Buf(bytes: seq<byte>, beyond: byte) {
    function StatusAt(p: nat): byte
      requires p <= |bytes|
    {
      if p < |bytes| then bytes[p] else beyond
    }
  }

  /** The mutable part of msg_context_t. */
  datatype Cursor = Cursor(ptr: nat, stamp: Stamp, recIdx: nat, dataIdx: nat)

  const START := Cursor(HEADER_LEN, Stamp(0, 0), 0, 0)

  /** The kernel's answers while one record is handled. */
  datatype Moment = Moment(netUp: bool, allocOk: bool, clock: int)

  /** What is handed to the network stack; error frames carry a hardware time
      only when their record does. */
  datatype NetEvent =
    | Received(frame: Frame, at: int)
    | Reported(frame: Frame, stampedAt: Option<int>)

  /** The character-device side: the queue of unread frames, oldest first. */
  datatype CharSide = CharSide(open: bool, unread: seq<Msg>, packets: nat)

  datatype Dev = Dev(bus: Bus, timeRef: TimeRef, net: seq<NetEvent>, netPackets: nat, netBytes: nat, chr: CharSide)

  datatype Out = Out(status: Errno, cur: Cursor, dev: Dev)

  function ReadStamp(b: seq<byte>, full: bool, c: Cursor): (r: Option<Cursor>)
    ensures r.Some? ==> r.value.ptr == c.ptr + (if full then 2 else 1) <= |b|
    ensures r.Some? ==> r.value.recIdx == c.recIdx && r.value.dataIdx == c.dataIdx
  {
    if full then
      if c.ptr + 2 > |b| then None
      else Some(c.(ptr := c.ptr + 2, stamp := Stamp.Full(Le16(b, c.ptr))))
    else
      if c.ptr + 1 > |b| then None
      else Some(c.(ptr := c.ptr + 1, stamp := c.stamp.Delta(b[c.ptr])))
  }

  function IdLen(ext: bool): nat { if ext then 4 else 2 }

  function ReadId(b: seq<byte>, p: nat, ext: bool): (r: Option<u32>)
    ensures r.Some? <==> p + IdLen(ext) <= |b|
    ensures r.Some? ==> if ext then EFF_FLAG <= r.value < EFF_FLAG + EFF_RANGE else r.value < SFF_RANGE
  {
    if p + IdLen(ext) > |b| then None
    else if ext then Some(With(Le32(b, p) / 8, EFF_FLAG))
    else Some(Le16(b, p) / 32)
  }

  /** The frame of a data record whose status byte has been read. */
  function ReadFrame(b: seq<byte>, c: Cursor, sl: byte): (r: Option<(Frame, Cursor)>)
    ensures r.Some? ==> WellFormed(r.value.0)
    ensures r.Some? ==> c.ptr + 3 + (if c.dataIdx == 0 then 1 else 0) <= r.value.1.ptr <= |b|
    ensures r.Some? ==> r.value.1.recIdx == c.recIdx && r.value.1.dataIdx == c.dataIdx
  {
    var len := sl % 16;
    var dlc := Min(len, MAX_DLC);
    var ext := Has(sl, EXT_ID);
    var id := ReadId(b, c.ptr, ext);
    if id.None? then None else
    var c1 := ReadStamp(b, c.dataIdx == 0, c.(ptr := c.ptr + IdLen(ext)));
    if c1.None? then None
    else if Has(sl, RTR) then Some((Frame(With(id.value, RTR_FLAG), dlc, ZERO8), c1.value))
    else if c1.value.ptr + len > |b| then None
    else Some((Frame(id.value, dlc, Padded(b, c1.value.ptr, dlc)), c1.value.(ptr := c1.value.ptr + len)))
  }

  /** Whether a data record can be taken at all, before any of it is read. */
  function Gate(dev: Dev, m: Moment): Errno {
    if m.netUp then (if m.allocOk then Ok else NoMem)
    else if !dev.chr.open then Shutdown
    else if |dev.chr.unread| >= RING_SIZE then NoBufs
    else Ok
  }

  /** A decoded frame goes to the network if that is up, and to the character
      device if that is open and had room. */
  function Deliver(dev: Dev, f: Frame, ts16: u16, m: Moment): Dev {
    var at := KernelTime(dev.timeRef, ts16, m.clock);
    var d1 := if m.netUp
              then dev.(net := dev.net + [Received(f, at)],
                        netPackets := dev.netPackets + 1, netBytes := dev.netBytes + f.dlc)
              else dev;
    if dev.chr.open && |dev.chr.unread| < RING_SIZE
    then d1.(chr := CharSide(true, dev.chr.unread + [Msg(at, f)], dev.chr.packets + 1))
    else d1
  }

  function DataRecord(b: seq<byte>, c: Cursor, dev: Dev, sl: byte, m: Moment): Out {
    if Gate(dev, m) != Ok then Out(Gate(dev, m), c, dev) else
    var r := ReadFrame(b, c, sl);
    if r.None? then Out(Inval, c, dev)
    else Out(Ok, r.value.1, Deliver(dev, r.value.0, r.value.1.stamp.ts16, m))
  }

  function ReportOf(dev: Dev, number: byte, m: Moment): Report {
    Report(number, m.netUp, m.allocOk, dev.timeRef.tickCount)
  }

  /** The effect of an error record on the device. */
  function ErrorEffect(dev: Dev, ts16: u16, number: byte, sl: byte, m: Moment): (Errno, Dev) {
    var o := Handle(dev.bus, ReportOf(dev, number, m));
    if o.posted.None? then (o.status, dev.(bus := o.bus)) else
    var at := if Has(sl, STAMPED) then Some(KernelTime(dev.timeRef, ts16, m.clock)) else None;
    (Ok, dev.(bus := o.bus, net := dev.net + [Reported(o.posted.value, at)],
              netPackets := dev.netPackets + 1, netBytes := dev.netBytes + o.posted.value.dlc))
  }

  function TimeEffect(dev: Dev, now: u16, first: bool, m: Moment): Dev {
    dev.(timeRef := if first then SetReference(dev.timeRef, now, m.clock) else UpdateReference(dev.timeRef, now))
  }

  /** Payload bytes a status record of this kind is taken to have. */
  function InfoLen(func: byte, sl: byte): nat {
    if func == REC_ANALOG then 2 else if func == REC_BUSLOAD then 1 else sl % 16
  }

  /** A status record once its function, number and timestamp have been read. */
  function Interpret(b: seq<byte>, c: Cursor, dev: Dev, sl: byte, func: byte, number: byte, m: Moment): Out {
    if func == REC_ERROR then
      var e := ErrorEffect(dev, c.stamp.ts16, number, sl, m);
      Out(e.0, c, e.1)
    else if func == REC_TS then
      if c.ptr + 2 > |b| then Out(Inval, c, dev) else
      var now := Le16(b, c.ptr);
      Out(Ok, c.(stamp := c.stamp.(ts16 := now)), TimeEffect(dev, now, c.recIdx == 0, m))
    else Out(Ok, c, dev)
  }

  function StatusRecord(b: seq<byte>, c: Cursor, dev: Dev, sl: byte, m: Moment): Out {
    if c.ptr + 2 > |b| then Out(Inval, c, dev) else
    var func, number := b[c.ptr], b[c.ptr + 1];
    var c1 := c.(ptr := c.ptr + 2);
    var c2 := if Has(sl, STAMPED) then ReadStamp(b, c.recIdx == 0, c1) else Some(c1);
    if c2.None? then Out(Inval, c1, dev) else
    SkipPayload(|b|, Interpret(b, c2.value, dev, sl, func, number, m), InfoLen(func, sl))
  }

  function SkipPayload(size: nat, o: Out, n: nat): Out {
    if o.status != Ok then o
    else if o.cur.ptr + n > size then o.(status := Inval)
    else o.(cur := o.cur.(ptr := o.cur.ptr + n))
  }

  /** Bytes the records before the cursor must at least have taken. */
  function Charge(c: Cursor): nat
    requires c.dataIdx <= c.recIdx
  {
    HEADER_LEN + 3 * (c.recIdx - c.dataIdx) + 4 * c.dataIdx + (if c.dataIdx > 0 then 1 else 0)
  }

  predicate AtHead(b: Buf, c: Cursor) {
    c.dataIdx <= c.recIdx && Charge(c) <= c.ptr <= |b.bytes|
  }

  /** One turn of the record loop. Only the status byte may lie at the end of
      the buffer, and then the turn fails. */
  function OneRecord(b: Buf, c: Cursor, dev: Dev, m: Moment): (o: Out)
    requires AtHead(b, c)
    ensures o.status == Ok ==> AtHead(b, o.cur) && o.cur.recIdx == c.recIdx + 1 && c.ptr < |b.bytes|
  {
    var sl := b.StatusAt(c.ptr);
    var c1 := c.(ptr := c.ptr + 1);
    if Has(sl, INTERNAL) then
      var o := StatusRecord(b.bytes, c1, dev, sl, m);
      o.(cur := o.cur.(recIdx := o.cur.recIdx + 1))
    else
      var o := DataRecord(b.bytes, c1, dev, sl, m);
      o.(cur := o.cur.(recIdx := o.cur.recIdx + 1, dataIdx := o.cur.dataIdx + 1))
  }

  /** The record loop: stops at `count` records or at the first error. */
  function Records(b: Buf, count: nat, c: Cursor, dev: Dev, env: nat -> Moment): (o: Out)
    requires AtHead(b, c) && c.recIdx <= count
    ensures o.status == Ok ==> AtHead(b, o.cur) && o.cur.recIdx == count
    decreases count - c.recIdx
  {
    if c.recIdx == count then Out(Ok, c, dev) else
    var o := OneRecord(b, c, dev, env(c.recIdx));
    if o.status != Ok then o else Records(b, count, o.cur, o.dev, env)
  }

  function DecodeBuf(b: Buf, dev: Dev, env: nat -> Moment): Out
    requires |b.bytes| >= HEADER_LEN
  {
    Records(b, b.bytes[1], START, dev, env)
  }

  /** A completed URB: a bare header or less is an error unless it is empty. */
  function HandleUrb(b: Buf, dev: Dev, env: nat -> Moment): (Errno, Dev) {
    if |b.bytes| > HEADER_LEN then
      var o := DecodeBuf(b, dev, env);
      (o.status, o.dev)
    else (if |b.bytes| == 0 then Ok else Inval, dev)
  }
}
