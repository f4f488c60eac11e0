/** What one received message does, seen from outside: the character device alone,
    messages cut short, and the message handler of the receive URB. */
module UrbLaws {
  import opened Words
  import opened Can
  import opened Timebase
  import opened BusErrors
  import opened Packets
  import opened Printer
  import opened PacketLaws

  // ---- One record ----

  /** Which data records are refused, and how; a refused one leaves no trace. */
  lemma DataRefused(b: Buf, c: Cursor, dev: Dev, m: Moment)
    requires AtHead(b, c) && b.StatusAt(c.ptr) / 0x40 % 2 == 0
    ensures var o := OneRecord(b, c, dev, m);
            && (o.status == NoMem <==> m.netUp && !m.allocOk)
            && (o.status == Shutdown <==> !m.netUp && !dev.chr.open)
            && (o.status == NoBufs <==> !m.netUp && dev.chr.open && |dev.chr.unread| >= RING_SIZE)
            && (o.status == Inval ==> ReadFrame(b.bytes, c.(ptr := c.ptr + 1), b.StatusAt(c.ptr)).None?)
            && o.status != Again
            && (o.status != Ok ==> o.dev == dev)
  {
    hide ReadFrame, Deliver, StatusRecord;
  }

  /** A record posts at most one error frame, with a time if and only if bit 7 of its
      status byte is set, and then that of its timestamp. */
  lemma PostedTimes(b: Buf, c: Cursor, dev: Dev, m: Moment)
    requires AtHead(b, c) && b.StatusAt(c.ptr) / 0x40 % 2 == 1
    ensures var o := OneRecord(b, c, dev, m);
            o.dev.net != dev.net ==>
              && |o.dev.net| == |dev.net| + 1 && o.dev.net[..|dev.net|] == dev.net
              && var e := o.dev.net[|dev.net|];
                 e.Reported? && e.stampedAt == if b.StatusAt(c.ptr) / 0x80 % 2 == 1
                                               then Some(KernelTime(dev.timeRef, o.cur.stamp.ts16, m.clock)) else None
  {
    hide DataRecord;
    StatusPosts(b.bytes, c.(ptr := c.ptr + 1), dev, b.StatusAt(c.ptr), m);
    hide StatusRecord, KernelTime;
  }

  lemma StatusPosts(b: seq<byte>, c: Cursor, dev: Dev, sl: byte, m: Moment)
    ensures var o := StatusRecord(b, c, dev, sl, m);
            o.dev.net != dev.net ==>
              && |o.dev.net| == |dev.net| + 1 && o.dev.net[..|dev.net|] == dev.net
              && var e := o.dev.net[|dev.net|];
                 e.Reported? && e.stampedAt == if sl / 0x80 % 2 == 1
                                               then Some(KernelTime(dev.timeRef, o.cur.stamp.ts16, m.clock)) else None
  {
    hide ReadStamp, InfoLen, Handle, KernelTime, SetReference, UpdateReference;
  }

  /** An error record whose frame cannot be allocated ends the message with NoMem
      and leaves no trace, and no other status record does so. */
  lemma ErrorWithoutMemory(b: Buf, c: Cursor, dev: Dev, m: Moment)
    requires AtHead(b, c) && b.StatusAt(c.ptr) / 0x40 % 2 == 1
    ensures var o := OneRecord(b, c, dev, m);
            o.status == NoMem <==>
              && c.ptr + 3 <= |b.bytes| && b.bytes[c.ptr + 1] == 1
              && (b.StatusAt(c.ptr) / 0x80 % 2 == 1 ==> c.ptr + (if c.recIdx == 0 then 5 else 4) <= |b.bytes|)
              && Handle(dev.bus, Report(b.bytes[c.ptr + 2], m.netUp, m.allocOk, dev.timeRef.tickCount)).status == NoMem
    ensures var o := OneRecord(b, c, dev, m);
            o.status == NoMem ==> o.dev == dev
  {
    hide DataRecord, InfoLen, KernelTime, SetReference, UpdateReference;
    NoMemoryKeeps(dev.bus, ReportOf(dev, if c.ptr + 3 <= |b.bytes| then b.bytes[c.ptr + 2] else 0, m));
    hide Handle;
  }

  lemma NoMemoryKeeps(bus: Bus, r: Report)
    ensures Handle(bus, r).status == NoMem ==> Handle(bus, r).bus == bus && Handle(bus, r).posted.None?
    ensures Handle(bus, r).status == Ok || Handle(bus, r).status == NoMem
  {
  }

  // ---- The character device alone ----

  ghost predicate AllDown(env: nat -> Moment) {
    forall i: nat :: !env(i).netUp
  }

  /** How a run of records ends that holds the frames `e` while the network is down. */
  function StatusAlone(chr: CharSide, e: seq<Msg>): Errno {
    if e == [] then Ok
    else if !chr.open then Shutdown
    else if |chr.unread| + |e| <= RING_SIZE then Ok
    else NoBufs
  }

  /** The ring gets the first frames that fit, and nothing else happens. */
  predicate QueuedAlone(dev: Dev, n: Meaning, e: seq<Msg>) {
    && n.status == StatusAlone(dev.chr, e)
    && n.dev.chr == Queued(dev.chr, e)
    && n.dev.net == dev.net && n.dev.netPackets == dev.netPackets && n.dev.netBytes == dev.netBytes
    && n.dev.bus == dev.bus
  }

  lemma MeanAlone(r: Record, i: nat, d: nat, s: Stamp, dev: Dev, m: Moment)
    requires r.Valid() && !m.netUp && |dev.chr.unread| <= RING_SIZE
    ensures var n := Mean(r, i, d, s, dev, m);
            && QueuedAlone(dev, n, ExpectedOf(r, i, d, s, dev.timeRef, m))
            && (n.status == Ok ==>
                  n.stamp == StampAfter(r, i, d, s) && n.dev.timeRef == TimeAfter(r, i, dev.timeRef, m))
  {
    hide KernelTime, Record.Content, NextStamp, SetReference, UpdateReference;
  }

  lemma AloneConcat(chr: CharSide, e: seq<Msg>, e1: seq<Msg>)
    requires |chr.unread| <= RING_SIZE
    ensures StatusAlone(chr, e) == Ok ==> StatusAlone(Queued(chr, e), e1) == StatusAlone(chr, e + e1)
    ensures StatusAlone(chr, e) != Ok ==>
              StatusAlone(chr, e + e1) == StatusAlone(chr, e) && Queued(chr, e + e1) == Queued(chr, e)
    ensures |Queued(chr, e).unread| <= RING_SIZE
  {
  }

  /** With the network down the frames of the records go to an open device as long as
      there is room, each once, in order and with its time; the first that finds none
      ends the run with NoBufs, and with Shutdown if the device is not open. Error
      records do nothing. */
  lemma {:induction false} QueuesAlone(rs: seq<Record>, i: nat, d: nat, s: Stamp, dev: Dev, env: nat -> Moment)
    requires AllValid(rs) && AllDown(env) && |dev.chr.unread| <= RING_SIZE
    ensures QueuedAlone(dev, MeanAll(rs, i, d, s, dev, env), Expected(rs, i, d, s, dev.timeRef, env))
    decreases |rs|
  {
    hide Mean, TimeAfter, StampAfter, ExpectedOf, StatusAlone, Queued;
    if rs == [] {
      NothingQueued(dev.chr);
    } else {
      var e := ExpectedOf(rs[0], i, d, s, dev.timeRef, env(i));
      MeanAlone(rs[0], i, d, s, dev, env(i));
      var n := Mean(rs[0], i, d, s, dev, env(i));
      var s1, t1 := StampAfter(rs[0], i, d, s), TimeAfter(rs[0], i, dev.timeRef, env(i));
      var e1 := Expected(rs[1..], i + 1, NextData(rs[0], d), s1, t1, env);
      AloneConcat(dev.chr, e, e1);
      FittingConcat(dev.chr, e, e1);
      if n.status == Ok {
        QueuesAlone(rs[1..], i + 1, NextData(rs[0], d), n.stamp, n.dev, env);
      }
    }
  }

  lemma NothingQueued(chr: CharSide)
    ensures StatusAlone(chr, []) == Ok && Queued(chr, []) == chr
  {
    assert chr.unread + [] == chr.unread;
  }

  // ---- Messages cut short ----

  /** A record that decodes reads only bytes before its end, so it decodes alike in
      every longer message. */
  lemma RecordPrefix(b: Buf, more: Buf, c: Cursor, dev: Dev, m: Moment)
    requires AtHead(b, c) && b.bytes <= more.bytes && OneRecord(b, c, dev, m).status == Ok
    ensures AtHead(more, c) && OneRecord(more, c, dev, m) == OneRecord(b, c, dev, m)
  {
    hide StatusRecord, DataRecord;
    var sl := b.bytes[c.ptr];
    var c1 := c.(ptr := c.ptr + 1);
    if Has(sl, INTERNAL) {
      StatusPrefix(b.bytes, more.bytes, c1, dev, sl, m);
    } else {
      DataPrefix(b.bytes, more.bytes, c1, dev, sl, m);
    }
  }

  lemma DataPrefix(b: seq<byte>, more: seq<byte>, c: Cursor, dev: Dev, sl: byte, m: Moment)
    requires b <= more
    ensures DataRecord(b, c, dev, sl, m).status == Ok ==>
              DataRecord(more, c, dev, sl, m) == DataRecord(b, c, dev, sl, m)
  {
    hide ReadFrame, Deliver;
    if ReadFrame(b, c, sl).Some? {
      FramePrefix(b, more, c, sl);
    }
  }

  lemma FramePrefix(b: seq<byte>, more: seq<byte>, c: Cursor, sl: byte)
    requires b <= more && ReadFrame(b, c, sl).Some?
    ensures ReadFrame(more, c, sl) == ReadFrame(b, c, sl)
  {
    hide ReadId, ReadStamp, With, Padded, Has;
    var ext, len := Has(sl, EXT_ID), sl % 16;
    IdPrefix(b, more, c.ptr, ext);
    var c1 := c.(ptr := c.ptr + IdLen(ext));
    StampPrefix(b, more, c.dataIdx == 0, c1);
    var p := ReadStamp(b, c.dataIdx == 0, c1).value.ptr;
    if !Has(sl, RTR) {
      assert p + len <= |b|;
      PaddedPrefix(b, more, p, Min(len, MAX_DLC));
    }
  }

  lemma IdPrefix(b: seq<byte>, more: seq<byte>, p: nat, ext: bool)
    requires b <= more
    ensures ReadId(b, p, ext).Some? ==> ReadId(more, p, ext) == ReadId(b, p, ext)
  {
    hide With;
  }

  lemma StampPrefix(b: seq<byte>, more: seq<byte>, full: bool, c: Cursor)
    requires b <= more
    ensures ReadStamp(b, full, c).Some? ==> ReadStamp(more, full, c) == ReadStamp(b, full, c)
  {
    hide Stamp.Delta;
  }

  lemma PaddedPrefix(b: seq<byte>, more: seq<byte>, p: nat, n: nat)
    requires b <= more && n <= 8 && p + n <= |b|
    ensures Padded(more, p, n) == Padded(b, p, n)
  {
    assert b[p..p + n] == more[p..p + n];
  }

  lemma StatusPrefix(b: seq<byte>, more: seq<byte>, c: Cursor, dev: Dev, sl: byte, m: Moment)
    requires b <= more
    ensures StatusRecord(b, c, dev, sl, m).status == Ok ==>
              StatusRecord(more, c, dev, sl, m) == StatusRecord(b, c, dev, sl, m)
  {
    hide ErrorEffect, TimeEffect, InfoLen;
  }

  lemma {:induction false} RecordsPrefix(b: Buf, more: Buf, count: nat, c: Cursor, dev: Dev, env: nat -> Moment)
    requires AtHead(b, c) && c.recIdx <= count && b.bytes <= more.bytes && Records(b, count, c, dev, env).status == Ok
    ensures AtHead(more, c) && Records(more, count, c, dev, env) == Records(b, count, c, dev, env)
    decreases count - c.recIdx
  {
    hide OneRecord;
    if c.recIdx < count {
      RecordPrefix(b, more, c, dev, env(c.recIdx));
      var o := OneRecord(b, c, dev, env(c.recIdx));
      RecordsPrefix(b, more, count, o.cur, o.dev, env);
    }
  }

  // ---- The handler of a message ----

  /** A message without content is none; a bare or broken header is an error. */
  lemma ShortMessages(b: Buf, dev: Dev, env: nat -> Moment)
    ensures |b.bytes| == 0 ==> HandleUrb(b, dev, env) == (Ok, dev)
    ensures |b.bytes| == 1 || |b.bytes| == 2 ==> HandleUrb(b, dev, env) == (Inval, dev)
  {
  }

  lemma PrintsSomething(first: byte, rs: seq<Record>)
    requires AllValid(rs) && 0 < |rs| < 0x100
    ensures |PrintMessage(first, rs)| > HEADER_LEN && PrintMessage(first, rs)[1] == |rs|
  {
    FirstByte(rs[0], 0, 0);
    hide PrintRecord;
  }

  /** With the network up, the handler takes a printed message for what it says. */
  lemma PrintedUrb(first: byte, rs: seq<Record>, beyond: byte, dev: Dev, env: nat -> Moment)
    requires AllValid(rs) && 0 < |rs| < 0x100 && AllUp(env)
    ensures var (status, d) := HandleUrb(Buf(PrintMessage(first, rs), beyond), dev, env);
            Delivered(dev, Meaning(status, Stamp(0, 0), d),
                      Expected(rs, 0, 0, Stamp(0, 0), dev.timeRef, env), ErrorReports(rs, 0, dev.timeRef, env))
  {
    PrintsSomething(first, rs);
    PrintedMessageDelivers(first, rs, beyond, dev, env);
    hide DecodeBuf, PrintMessage;
  }

  /** And with the network down. */
  lemma PrintedUrbAlone(first: byte, rs: seq<Record>, beyond: byte, dev: Dev, env: nat -> Moment)
    requires AllValid(rs) && 0 < |rs| < 0x100 && AllDown(env) && |dev.chr.unread| <= RING_SIZE
    ensures var (status, d) := HandleUrb(Buf(PrintMessage(first, rs), beyond), dev, env);
            QueuedAlone(dev, Meaning(status, Stamp(0, 0), d), Expected(rs, 0, 0, Stamp(0, 0), dev.timeRef, env))
  {
    PrintsSomething(first, rs);
    ParserUndoesPrinter(first, rs, beyond, dev, env);
    QueuesAlone(rs, 0, 0, Stamp(0, 0), dev, env);
    hide DecodeBuf, PrintMessage, MeanAll;
  }

  /** A printed message of which any bytes are missing at the end is an error,
      whatever the kernel answers. */
  lemma CutShort(first: byte, rs: seq<Record>, k: nat, beyond: byte, dev: Dev, env: nat -> Moment)
    requires AllValid(rs) && 0 < |rs| < 0x100 && 0 < k < |PrintMessage(first, rs)|
    ensures HandleUrb(Buf(PrintMessage(first, rs)[..k], beyond), dev, env).0 != Ok
  {
    var whole := Buf(PrintMessage(first, rs), beyond);
    var cut := Buf(whole.bytes[..k], beyond);
    PrintsSomething(first, rs);
    ParserUndoesPrinter(first, rs, beyond, dev, env);
    hide PrintMessage, MeanAll;
    if k > HEADER_LEN && DecodeBuf(cut, dev, env).status == Ok {
      RecordsPrefix(cut, whole, |rs|, START, dev, env);
    }
  }
}
