/** The receive path in memory: msg_context_t and the part of usb_forwarder_t
    it updates, proved against the functions of `Packets`. */
module Decoder {
  import opened Words
  import opened Can
  import opened Timebase
  import opened BusErrors
  import opened TextLines
  import RxRing
  import opened CharDevice
  import opened Packets
  import Reception

  class Context {
    var ptr: nat
    var ts16: u16
    var prev8: byte
    var recIdx: nat
    var dataIdx: nat

    constructor ()
      ensures View() == START
    {
      ptr, ts16, prev8, recIdx, dataIdx := HEADER_LEN, 0, 0, 0, 0;
    }

    function View(): Cursor
      reads this
    {
      Cursor(ptr, Stamp(ts16, prev8), recIdx, dataIdx)
    }

    method DecodeTimestamp(b: seq<byte>, full: bool) returns (ok: bool)
      modifies this`ptr, this`ts16, this`prev8
      ensures ok == ReadStamp(b, full, old(View())).Some?
      ensures View() == if ok then ReadStamp(b, full, old(View())).value else old(View())
    {
      if full {
        if ptr + 2 > |b| {
          return false;
        }
        ts16 := Le16(b, ptr);
        ptr := ptr + 2;
        prev8 := ts16 % 0x100;
      } else {
        if ptr + 1 > |b| {
          return false;
        }
        var ts8 := b[ptr];
        ptr := ptr + 1;
        if ts8 < prev8 {
          ts16 := (ts16 + 0x100) % WORD16;
        }
        ts16 := ts16 / 0x100 * 0x100;
        ts16 := ts16 + ts8;
        prev8 := ts8;
      }
      ok := true;
    }
  }

  class Forwarder {
    var canState: BusState
    var busOff: nat
    var errorPassive: nat
    var errorWarning: nat
    var rxOver: nat
    var rxErrors: nat
    var netPackets: nat
    var netBytes: nat
    var tvHost0: int
    var tvHost: int
    var tsDev1: u32
    var tsDev2: u32
    var tsTotal: u64
    var tickCount: u32
    const chr: Device
    /** Everything handed to netif_rx. */
    ghost var net: seq<NetEvent>

    ghost predicate Valid()
      reads this, chr, chr.slots
    {
      chr.Valid()
    }

    function Bus(): BusErrors.Bus
      reads this
    {
      BusErrors.Bus(canState, busOff, errorPassive, errorWarning, rxOver, rxErrors)
    }

    function Time(): TimeRef
      reads this
    {
      TimeRef(tvHost0, tvHost, tsDev1, tsDev2, tsTotal, tickCount)
    }

    ghost function Chr(): CharSide
      requires Valid()
      reads this, chr, chr.slots
    {
      CharSide(chr.openCount >= 1, chr.Queue(), chr.packets)
    }

    ghost function View(): Dev
      requires Valid()
      reads this, chr, chr.slots
    {
      Dev(Bus(), Time(), net, netPackets, netBytes, Chr())
    }

    constructor (chr: Device)
      requires chr.Valid()
      ensures Valid() && this.chr == chr
      ensures View() == Dev(BusErrors.Bus(Stopped, 0, 0, 0, 0, 0), CLEARED, [], 0, 0, Chr())
    {
      this.chr := chr;
      canState, busOff, errorPassive, errorWarning, rxOver, rxErrors := Stopped, 0, 0, 0, 0, 0;
      netPackets, netBytes, net := 0, 0, [];
      tvHost0, tvHost, tsDev1, tsDev2, tsTotal, tickCount := 0, 0, 0, 0, 0, 0;
    }

    method ComputeKernelTime(ts: u32, clock: int) returns (at: int)
      ensures at == KernelTime(Time(), ts, clock)
    {
      if tvHost > 0 {
        // a 32-bit difference widened to 64 bits
        var delta: u64 := (ts - tsDev2) % WORD32;
        if ts < tsDev2 {
          delta := delta % WORD16;
        }
        delta := (delta + tsTotal) % WORD64;
        delta := delta * US_PER_TICK % WORD64;
        delta := delta / SHIFTED;
        at := tvHost0 + 1000 * delta;
      } else {
        at := clock;
      }
    }

    method UpdateTimeReference(now: u32)
      modifies this`tsDev2, this`tsTotal
      ensures Time() == UpdateReference(old(Time()), now)
    {
      tsDev2 := now;
      if tvHost > 0 {
        var delta: u32 := (tsDev2 - tsDev1) % WORD32;
        if tsDev2 < tsDev1 {
          delta := delta % WORD16;
        }
        tsTotal := (tsTotal + delta) % WORD64;
      }
    }

    method SetTimeReference(now: u32, clock: int)
      modifies this`tvHost0, this`tvHost, this`tsDev1, this`tsDev2, this`tsTotal, this`tickCount
      ensures Time() == SetReference(old(Time()), now, clock)
    {
      if tvHost0 == 0 {
        tvHost0 := clock;
        tvHost := 0;
      } else if tvHost != 0 {
        if tvHost < tvHost0 || tvHost - tvHost0 > REBASE_NS {
          tvHost0 := tvHost;
          tsTotal := 0;
        }
        tvHost := clock;
        tickCount := (tickCount + 1) % WORD32;
      }
      tsDev1 := tsDev2;
      UpdateTimeReference(now);
    }

    /** The switch of decode_error; `relaxed` when it leaves by its "no error" exits. */
    method NewState(number: byte) returns (relaxed: bool, newState: BusState)
      ensures Judge(canState, number) == if relaxed then Relax else Enter(newState)
    {
      relaxed := false;
      newState := canState;
      if canState == ErrorActive && Has(number, LIGHT) {
        newState := ErrorWarning;
      } else if canState == ErrorActive || canState == ErrorWarning {
        if Has(number, HEAVY) {
          newState := ErrorPassive;
        } else if Has(number, OFF) {
          newState := BusOff;
        } else if Has(number, RXQOVR) || Has(number, QOVR) {
          newState := Max;
        } else if !Has(number, LIGHT) {
          relaxed := true;
        }
      } else if canState == ErrorPassive {
        if Has(number, OFF) {
          newState := BusOff;
        } else if Has(number, LIGHT) {
          newState := ErrorWarning;
        } else if Has(number, RXQOVR) || Has(number, QOVR) {
          newState := Max;
        } else if !Has(number, HEAVY) {
          relaxed := true;
        }
      }
    }

    /** decode_error: moves the bus state and posts an error frame. */
    method DecodeError(ts16: u16, number: byte, sl: byte, m: Moment) returns (err: Errno)
      modifies this`canState, this`busOff, this`errorPassive, this`errorWarning, this`rxOver, this`rxErrors
      modifies this`net, this`netPackets, this`netBytes
      ensures var o := Handle(old(Bus()), Report(number, m.netUp, m.allocOk, tickCount));
              && err == o.status && Bus() == o.bus
              && (o.posted.None? ==> net == old(net) && netPackets == old(netPackets) && netBytes == old(netBytes))
              && (o.posted.Some? ==>
                    && err == Ok
                    && net == old(net) + [Reported(o.posted.value, StampOf(ts16, sl, m))]
                    && netPackets == old(netPackets) + 1
                    && netBytes == old(netBytes) + o.posted.value.dlc)
    {
      if !m.netUp {
        return Ok;
      }
      if number == QOVR && tickCount == 0 {
        return Ok;
      }
      var relaxed, newState := NewState(number);
      hide Judge, KernelTime, ErrorFrame, Count, RxRing.Unread, Has;
      if relaxed {
        canState := ErrorActive;
        return Ok;
      }
      if canState == newState {
        return Ok;
      }
      if !m.allocOk {
        return NoMem;
      }
      var frame := CountError(newState);
      PostError(frame, ts16, sl, m);
      err := Ok;
    }

    /** Counts an error under its heading, stores the state and builds the frame. */
    method CountError(state: BusState) returns (frame: Frame)
      modifies this`canState, this`busOff, this`errorPassive, this`errorWarning, this`rxOver, this`rxErrors
      ensures Bus() == Count(old(Bus()), state) && frame == ErrorFrame(state)
    {
      var newState := state;
      frame := Frame(0, 0, ZERO8);
      match newState {
        case BusOff =>
          frame := frame.(id := ID_BUSOFF);
          busOff := busOff + 1;
        case ErrorPassive =>
          frame := frame.(id := ID_CRTL, data := frame.data[1 := CRTL_PASSIVE]);
          errorPassive := errorPassive + 1;
        case ErrorWarning =>
          frame := frame.(id := ID_CRTL, data := frame.data[1 := CRTL_WARNING]);
          errorWarning := errorWarning + 1;
        case _ =>
          frame := frame.(id := ID_CRTL, data := frame.data[1 := CRTL_OVERFLOW]);
          rxOver := rxOver + 1;
          rxErrors := rxErrors + 1;
          newState := canState;
      }
      canState := newState;
    }

    /** The hardware time of an error frame, if its record carries one. */
    function StampOf(ts16: u16, sl: byte, m: Moment): Option<int>
      reads this
    {
      if Has(sl, STAMPED) then Some(KernelTime(Time(), ts16, m.clock)) else None
    }

    /** Hands an error frame to the network and counts it. */
    method PostError(frame: Frame, ts16: u16, sl: byte, m: Moment)
      modifies this`net, this`netPackets, this`netBytes
      ensures net == old(net) + [Reported(frame, StampOf(ts16, sl, m))]
      ensures netPackets == old(netPackets) + 1 && netBytes == old(netBytes) + frame.dlc
    {
      var at: Option<int> := None;
      if Has(sl, STAMPED) {
        var t := ComputeKernelTime(ts16, m.clock);
        at := Some(t);
      }
      net := net + [Reported(frame, at)];
      netPackets := netPackets + 1;
      netBytes := netBytes + frame.dlc;
    }

    /** decode_status_and_error, from its switch to the length check. */
    method InterpretRecord(ctx: Context, b: seq<byte>, sl: byte, func: byte, number: byte, m: Moment)
      returns (err: Errno)
      requires Valid()
      modifies this, ctx`ts16
      ensures Valid()
      ensures var o := Interpret(b, old(ctx.View()), old(View()), sl, func, number, m);
              err == o.status && View() == o.dev && ctx.View() == o.cur
    {
      hide Handle, SetReference, UpdateReference, RxRing.Unread;
      err := Ok;
      if func == REC_ERROR {
        err := DecodeError(ctx.ts16, number, sl, m);
      } else if func == REC_TS {
        if ctx.ptr + 2 > |b| {
          return Inval;
        }
        ctx.ts16 := Le16(b, ctx.ptr);
        if ctx.recIdx > 0 {
          UpdateTimeReference(ctx.ts16);
        } else {
          SetTimeReference(ctx.ts16, m.clock);
        }
      }
    }

    /** decode_status_and_error. */
    method DecodeStatusAndError(ctx: Context, b: seq<byte>, sl: byte, m: Moment) returns (err: Errno)
      requires Valid()
      modifies this, ctx`ptr, ctx`ts16, ctx`prev8
      ensures Valid()
      ensures var o := StatusRecord(b, old(ctx.View()), old(View()), sl, m);
              err == o.status && View() == o.dev && (err == Ok ==> ctx.View() == o.cur)
    {
      hide RxRing.Unread, Interpret;
      if ctx.ptr + 2 > |b| {
        return Inval;
      }
      var func, number := b[ctx.ptr], b[ctx.ptr + 1];
      ctx.ptr := ctx.ptr + 2;
      if Has(sl, STAMPED) {
        var ok := ctx.DecodeTimestamp(b, ctx.recIdx == 0);
        if !ok {
          return Inval;
        }
      }
      hide ReadStamp;
      err := InterpretRecord(ctx, b, sl, func, number, m);
      if err != Ok {
        return;
      }
      var recLen := sl % 16;
      if func == REC_ANALOG || func == REC_BUSLOAD {
        recLen := if func == REC_ANALOG then 2 else 1;
      }
      if ctx.ptr + recLen > |b| {
        return Inval;
      }
      ctx.ptr := ctx.ptr + recLen;
    }

    /** The parsing half of decode_data. */
    method ParseFrame(ctx: Context, b: seq<byte>, sl: byte) returns (ok: bool, frame: Frame)
      modifies ctx`ptr, ctx`ts16, ctx`prev8
      ensures var r := ReadFrame(b, old(ctx.View()), sl);
              ok == r.Some? && (ok ==> frame == r.value.0 && ctx.View() == r.value.1)
    {
      var recLen := sl % 16;
      frame := Frame(0, 0, ZERO8);
      if Has(sl, EXT_ID) {
        if ctx.ptr + 4 > |b| {
          return false, frame;
        }
        frame := frame.(id := With(Le32(b, ctx.ptr) / 8, EFF_FLAG));
        ctx.ptr := ctx.ptr + 4;
      } else {
        if ctx.ptr + 2 > |b| {
          return false, frame;
        }
        frame := frame.(id := Le16(b, ctx.ptr) / 32);
        ctx.ptr := ctx.ptr + 2;
      }
      frame := frame.(dlc := Min(recLen, MAX_DLC));
      var stamped := ctx.DecodeTimestamp(b, ctx.dataIdx == 0);
      if !stamped {
        return false, frame;
      }
      if Has(sl, RTR) {
        frame := frame.(id := With(frame.id, RTR_FLAG));
      } else {
        if ctx.ptr + recLen > |b| {
          return false, frame;
        }
        frame := frame.(data := Padded(b, ctx.ptr, frame.dlc));
        ctx.ptr := ctx.ptr + recLen;
      }
      ok := true;
    }

    /** decode_data. */
    method DecodeData(ctx: Context, b: seq<byte>, sl: byte, m: Moment) returns (err: Errno)
      requires Valid()
      modifies this, ctx`ptr, ctx`ts16, ctx`prev8, chr, chr.slots
      ensures Valid()
      ensures var o := DataRecord(b, old(ctx.View()), old(View()), sl, m);
              err == o.status && View() == o.dev && (err == Ok ==> ctx.View() == o.cur)
    {
      var unreadCount: int := if chr.openCount < 1 then -1 else chr.unread;
      var writeIdx := chr.writeIdx;
      var hasSlot := 0 <= unreadCount < RING_SIZE;
      if m.netUp && !m.allocOk {
        return NoMem;
      }
      if !m.netUp {
        if unreadCount < 0 {
          return Shutdown;
        }
        if unreadCount >= RING_SIZE {
          return NoBufs;
        }
      }
      var ok, frame := ParseFrame(ctx, b, sl);
      if !ok {
        return Inval;
      }
      hide ReadFrame, Deliver, RxRing.Unread;
      HandOver(frame, ctx.ts16, hasSlot, writeIdx, m);
      err := Ok;
    }

    /** The delivering half of decode_data: to the network, then to the ring. */
    method HandOver(frame: Frame, ts16: u16, hasSlot: bool, writeIdx: nat, m: Moment)
      requires Valid() && Sized(frame)
      requires writeIdx == chr.writeIdx && (hasSlot <==> chr.openCount >= 1 && chr.unread < RING_SIZE)
      modifies this`net, this`netPackets, this`netBytes, chr, chr.slots
      ensures Valid() && View() == Deliver(old(View()), frame, ts16, m)
    {
      hide RxRing.Unread, KernelTime;
      var at := ComputeKernelTime(ts16, m.clock);
      if m.netUp {
        net := net + [Received(frame, at)];
        netPackets := netPackets + 1;
        netBytes := netBytes + frame.dlc;
      }
      if hasSlot {
        chr.Publish(writeIdx, Msg(at, frame));
      }
    }

    /** decode_incoming_buf: the record loop. */
    method DecodeIncomingBuf(b: Buf, env: nat -> Moment) returns (err: Errno)
      requires Valid() && |b.bytes| >= HEADER_LEN
      modifies this, chr, chr.slots
      ensures Valid()
      ensures var o := DecodeBuf(b, old(View()), env);
              err == o.status && View() == o.dev
    {
      var ctx := new Context();
      var count := b.bytes[1];
      ghost var all := DecodeBuf(b, View(), env);
      hide OneRecord;
      err := Ok;
      while ctx.recIdx < count && err == Ok
        invariant Valid()
        invariant err == Ok ==> AtHead(b, ctx.View()) && ctx.recIdx <= count
                                && Records(b, count, ctx.View(), View(), env) == all
        invariant err != Ok ==> err == all.status && View() == all.dev
        decreases count - ctx.recIdx
      {
        err := Turn(ctx, b, env(ctx.recIdx));
      }
    }

    /** One turn of the loop, with the increments that end it. */
    method Turn(ctx: Context, b: Buf, m: Moment) returns (err: Errno)
      requires Valid() && AtHead(b, ctx.View())
      modifies this, ctx, chr, chr.slots
      ensures Valid() && ctx.recIdx == old(ctx.recIdx) + 1
      ensures var o := OneRecord(b, old(ctx.View()), old(View()), m);
              err == o.status && View() == o.dev && (err == Ok ==> ctx.View() == o.cur)
    {
      assert ctx.ptr <= |b.bytes|;
      hide StatusRecord, DataRecord, RxRing.Unread, Has, AtHead;
      var sl := b.StatusAt(ctx.ptr);
      ctx.ptr := ctx.ptr + 1;
      if Has(sl, INTERNAL) {
        err := DecodeStatusAndError(ctx, b.bytes, sl, m);
      } else {
        err := DecodeData(ctx, b.bytes, sl, m);
        ctx.dataIdx := ctx.dataIdx + 1;
      }
      ctx.recIdx := ctx.recIdx + 1;
    }

    /** pcan_decode_and_handle_urb. */
    method DecodeUrb(b: Buf, env: nat -> Moment) returns (err: Errno)
      requires Valid()
      modifies this, chr, chr.slots
      ensures Valid() && (err, View()) == HandleUrb(b, old(View()), env)
    {
      if |b.bytes| > HEADER_LEN {
        err := DecodeIncomingBuf(b, env);
      } else if |b.bytes| == 0 {
        err := Ok;
      } else {
        err := Inval;
      }
    }

    /** usb_read_bulk_callback; `again` when the adapter has the URB once more. */
    method ReadBulkCallback(c: Reception.Completion, ghost inFlight: nat) returns (again: bool)
      requires Valid() && inFlight > 0
      modifies this, chr, chr.slots
      ensures Valid()
      ensures Reception.Pool(if again then inFlight else inFlight - 1, View())
           == Reception.Complete(Reception.Pool(inFlight, old(View())), c)
    {
      if c.stage < Reception.ONE_STARTED {
        return false;
      }
      if c.status.TakenBack? {
        return false;
      }
      hide HandleUrb, RxRing.Unread;
      if c.status.Filled? && |c.buf.bytes| > 0 {
        var err := DecodeUrb(c.buf, c.env);
      }
      again := c.accepted;
    }
  }
}
