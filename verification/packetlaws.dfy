/** What the decoder guarantees, on arbitrary bytes and on printed messages. */
module PacketLaws {
  import opened Words
  import opened Can
  import opened Timebase
  import opened BusErrors
  import opened Packets
  import opened Printer

  // ---- Arbitrary bytes ----

  /** At every loop head reached without an error the cursor is inside the
      buffer and every record before it has been paid for, and the rest of the
      run is the run from there. */
  lemma {:induction false} LoopHeads(b: Buf, k: nat, count: nat, c: Cursor, dev: Dev, env: nat -> Moment)
    requires AtHead(b, c) && c.recIdx <= k <= count
    ensures var o := Records(b, k, c, dev, env);
            if o.status == Ok
            then AtHead(b, o.cur) && o.cur.recIdx == k
                 && Records(b, count, c, dev, env) == Records(b, count, o.cur, o.dev, env)
            else Records(b, count, c, dev, env) == o
    decreases k - c.recIdx
  {
    if c.recIdx < k {
      var o := OneRecord(b, c, dev, env(c.recIdx));
      if o.status == Ok {
        LoopHeads(b, k, count, o.cur, o.dev, env);
      }
    }
  }

  /** A message that decodes has room for its records: at least three bytes for
      a status record, four for a data record and one for the first timestamp. */
  lemma ConsumptionBound(b: Buf, dev: Dev, env: nat -> Moment)
    requires |b.bytes| >= HEADER_LEN && DecodeBuf(b, dev, env).status == Ok
    ensures var d := DecodeBuf(b, dev, env).cur.dataIdx;
            var s := b.bytes[1] - d;
            0 <= s && 3 * s + 4 * d + (if d > 0 then 1 else 0) <= |b.bytes| - 2
  {
  }

  /** The byte behind the buffer never reaches the device: changing it changes
      neither the resulting state nor whether decoding succeeds. */
  lemma {:induction false} BeyondIrrelevant(
      bytes: seq<byte>, x: byte, y: byte, count: nat, c: Cursor, dev: Dev, env: nat -> Moment)
    requires AtHead(Buf(bytes, x), c) && c.recIdx <= count
    ensures var o, p := Records(Buf(bytes, x), count, c, dev, env), Records(Buf(bytes, y), count, c, dev, env);
            && o.dev == p.dev
            && (o.status == Ok <==> p.status == Ok)
            && (o.status == Ok ==> o == p)
    decreases count - c.recIdx
  {
    if c.recIdx < count {
      var m := env(c.recIdx);
      if c.ptr == |bytes| {
        EndFails(Buf(bytes, x), c, dev, m);
        EndFails(Buf(bytes, y), c, dev, m);
      } else {
        var o := OneRecord(Buf(bytes, x), c, dev, m);
        assert o == OneRecord(Buf(bytes, y), c, dev, m);
        if o.status == Ok {
          BeyondIrrelevant(bytes, x, y, count, o.cur, o.dev, env);
        }
      }
    }
  }

  lemma EndFails(b: Buf, c: Cursor, dev: Dev, m: Moment)
    requires AtHead(b, c) && c.ptr == |b.bytes|
    ensures OneRecord(b, c, dev, m).status != Ok && OneRecord(b, c, dev, m).dev == dev
  {
  }

  function Bytes(net: seq<NetEvent>): nat {
    if net == [] then 0 else Bytes(net[..|net| - 1]) + net[|net| - 1].frame.dlc
  }

  /** The interface statistics are those of the frames handed over. */
  predicate StatsAgree(dev: Dev) {
    dev.netPackets == |dev.net| && dev.netBytes == Bytes(dev.net)
  }

  /** Every frame queued for the character device has at most eight bytes. */
  predicate QueueWellFormed(dev: Dev) {
    |dev.chr.unread| <= RING_SIZE && forall k :: 0 <= k < |dev.chr.unread| ==> WellFormed(dev.chr.unread[k].frame)
  }

  predicate Healthy(dev: Dev) {
    StatsAgree(dev) && QueueWellFormed(dev) && Dormant(dev.timeRef) && dev.bus.state != Max
  }

  lemma HealthyAfterRecord(b: Buf, c: Cursor, dev: Dev, m: Moment)
    requires AtHead(b, c) && Healthy(dev)
    ensures var d := OneRecord(b, c, dev, m).dev;
            StaysHealthy(dev, d, m)
  {
    hide ReadFrame, StatusRecord, Deliver, Healthy;
    var sl := b.StatusAt(c.ptr);
    var c1 := c.(ptr := c.ptr + 1);
    if Has(sl, INTERNAL) {
      HealthyAfterStatus(b.bytes, c1, dev, sl, m);
    } else if Gate(dev, m) == Ok && ReadFrame(b.bytes, c1, sl).Some? {
      var r := ReadFrame(b.bytes, c1, sl).value;
      HealthyAfterDelivery(dev, r.0, r.1.stamp.ts16, m);
    }
  }

  predicate StaysHealthy(dev: Dev, d: Dev, m: Moment) {
    && Healthy(d) && dev.net <= d.net && |d.net| <= |dev.net| + 1
    && (|d.net| > |dev.net| ==> AtClock(d.net[|dev.net|], m.clock))
  }

  lemma HealthyAfterDelivery(dev: Dev, f: Frame, ts16: u16, m: Moment)
    requires Healthy(dev) && WellFormed(f)
    ensures StaysHealthy(dev, Deliver(dev, f, ts16, m), m)
  {
    var d := Deliver(dev, f, ts16, m);
    DormantStays(dev.timeRef, ts16, m.clock);
    hide KernelTime, WellFormed;
    if m.netUp {
      assert d.net[..|dev.net|] == dev.net;
    }
  }

  lemma HealthyAfterStatus(b: seq<byte>, c: Cursor, dev: Dev, sl: byte, m: Moment)
    requires Healthy(dev)
    ensures StaysHealthy(dev, StatusRecord(b, c, dev, sl, m).dev, m)
  {
    hide ReadStamp, InfoLen, ErrorEffect, KernelTime, SetReference, UpdateReference, WellFormed;
    if c.ptr + 2 <= |b| {
      var c1 := c.(ptr := c.ptr + 2);
      var c2 := if Has(sl, STAMPED) then ReadStamp(b, c.recIdx == 0, c1) else Some(c1);
      if c2.Some? {
        HealthyAfterError(dev, c2.value.stamp.ts16, b[c.ptr + 1], sl, m);
        if c2.value.ptr + 2 <= |b| {
          DormantStays(dev.timeRef, Le16(b, c2.value.ptr), m.clock);
        }
      }
    }
  }

  lemma HandleSafe(bus: Bus, r: Report)
    requires bus.state != Max
    ensures Handle(bus, r).bus.state != Max
  {
  }

  lemma HealthyAfterError(dev: Dev, ts16: u16, number: byte, sl: byte, m: Moment)
    requires Healthy(dev)
    ensures StaysHealthy(dev, ErrorEffect(dev, ts16, number, sl, m).1, m)
  {
    HandleSafe(dev.bus, ReportOf(dev, number, m));
    hide Handle, WellFormed;
    var d := ErrorEffect(dev, ts16, number, sl, m).1;
    if d.net != dev.net {
      assert d.net[..|dev.net|] == dev.net;
    }
  }

  predicate AtClock(e: NetEvent, clock: int) {
    match e
    case Received(_, at) => at == clock
    case Reported(_, at) => at == None || at == Some(clock)
  }

  /** For one message with any contents: network statistics count
      exactly what was handed over, queued frames stay well formed, the time
      reference set at bus start never engages, and so every frame handed over
      carries the host clock of one of the records handled. */
  lemma {:induction false} HealthyForever(b: Buf, count: nat, c: Cursor, dev: Dev, env: nat -> Moment)
    requires AtHead(b, c) && c.recIdx <= count && Healthy(dev)
    ensures var d := Records(b, count, c, dev, env).dev;
            && Healthy(d) && dev.net <= d.net
            && forall k :: |dev.net| <= k < |d.net| ==>
                 exists i :: c.recIdx <= i < count && AtClock(d.net[k], env(i).clock)
    decreases count - c.recIdx
  {
    hide OneRecord, Healthy;
    if c.recIdx < count {
      HealthyAfterRecord(b, c, dev, env(c.recIdx));
      var o := OneRecord(b, c, dev, env(c.recIdx));
      if o.status == Ok {
        HealthyForever(b, count, o.cur, o.dev, env);
        var d := Records(b, count, c, dev, env).dev;
        forall k | |dev.net| <= k < |d.net|
          ensures exists i :: c.recIdx <= i < count && AtClock(d.net[k], env(i).clock)
        {
          if k < |o.dev.net| {
            assert d.net[k] == o.dev.net[k];
            assert AtClock(d.net[k], env(c.recIdx).clock);
          }
        }
      }
    }
  }

  /** In a reachable state a record whose number is exactly QOVR is ignored. */
  lemma QovrIgnored(dev: Dev, ts16: u16, sl: byte, m: Moment)
    requires Healthy(dev)
    ensures ErrorEffect(dev, ts16, QOVR, sl, m) == (Ok, dev)
  {
  }

  // ---- Printed messages ----

  /** The frames received by the network, with the times they were given. */
  function Arrivals(net: seq<NetEvent>): seq<Msg> {
    if net == [] then [] else
    var e := net[|net| - 1];
    Arrivals(net[..|net| - 1]) + (if e.Received? then [Msg(e.at, e.frame)] else [])
  }

  function ErrorFrames(net: seq<NetEvent>): seq<Frame> {
    if net == [] then [] else
    var e := net[|net| - 1];
    ErrorFrames(net[..|net| - 1]) + (if e.Reported? then [e.frame] else [])
  }

  ghost predicate AllUp(env: nat -> Moment) {
    forall i: nat :: env(i).netUp && env(i).allocOk
  }

  function TimeAfter(r: Record, i: nat, t: TimeRef, m: Moment): TimeRef
    requires r.Valid()
  {
    if r.Info? && r.func == TIME_RECORD then
      var now := Le16(r.payload, 0);
      if i == 0 then SetReference(t, now, m.clock) else UpdateReference(t, now)
    else t
  }

  function StampAfter(r: Record, i: nat, d: nat, s: Stamp): Stamp
    requires r.Valid()
  {
    var s1 := if r.Timed() then NextStamp(s, FullStamp(r, i, d), r.tick) else s;
    if r.Info? && r.func == TIME_RECORD then s1.(ts16 := Le16(r.payload, 0)) else s1
  }

  /** The frame of a data record with the time it should be given. */
  function ExpectedOf(r: Record, i: nat, d: nat, s: Stamp, t: TimeRef, m: Moment): seq<Msg>
    requires r.Valid()
  {
    if r.Data? then [Msg(KernelTime(t, StampAfter(r, i, d, s).ts16, m.clock), r.Content())] else []
  }

  function Expected(rs: seq<Record>, i: nat, d: nat, s: Stamp, t: TimeRef, env: nat -> Moment): seq<Msg>
    requires AllValid(rs)
  {
    if rs == [] then [] else
    ExpectedOf(rs[0], i, d, s, t, env(i))
    + Expected(rs[1..], i + 1, NextData(rs[0], d), StampAfter(rs[0], i, d, s), TimeAfter(rs[0], i, t, env(i)), env)
  }

  /** An error record with the tick count it is judged under. */
  function ReportsOf(r: Record, t: TimeRef): seq<Report>
    requires r.Valid()
  {
    if r.Info? && r.func == ERROR_RECORD then [Report(r.number, true, true, t.tickCount)] else []
  }

  function ErrorReports(rs: seq<Record>, i: nat, t: TimeRef, env: nat -> Moment): seq<Report>
    requires AllValid(rs)
  {
    if rs == [] then [] else
    ReportsOf(rs[0], t) + ErrorReports(rs[1..], i + 1, TimeAfter(rs[0], i, t, env(i)), env)
  }

  /** The first `room` of `msgs`: what fits into the ring. */
  function Fitting(chr: CharSide, msgs: seq<Msg>): seq<Msg> {
    if !chr.open || |chr.unread| >= RING_SIZE then []
    else msgs[..Min(|msgs|, RING_SIZE - |chr.unread|)]
  }

  lemma {:induction false} HandleAllConcat(bus: Bus, xs: seq<Report>, ys: seq<Report>)
    ensures var (b, p) := HandleAll(bus, xs);
            var (b1, q) := HandleAll(b, ys);
            HandleAll(bus, xs + ys) == (b1, p + q)
  {
    if ys == [] {
      assert xs + ys == xs;
      assert HandleAll(bus, xs).1 + [] == HandleAll(bus, xs).1;
    } else {
      var n := |ys| - 1;
      HandleAllConcat(bus, xs, ys[..n]);
      assert (xs + ys)[..|xs + ys| - 1] == xs + ys[..n];
      hide Handle;
      var (b, p) := HandleAll(bus, xs);
      var (b1, q) := HandleAll(b, ys[..n]);
      var o := Handle(b1, ys[n]);
      if o.posted.Some? {
        assert p + (q + [o.posted.value]) == (p + q) + [o.posted.value];
      }
    }
  }

  lemma NoReports(bus: Bus)
    ensures HandleAll(bus, []) == (bus, [])
  {
  }

  function Queued(chr: CharSide, e: seq<Msg>): CharSide {
    CharSide(chr.open, chr.unread + Fitting(chr, e), chr.packets + |Fitting(chr, e)|)
  }

  lemma FittingConcat(chr: CharSide, e: seq<Msg>, e1: seq<Msg>)
    ensures Queued(Queued(chr, e), e1) == Queued(chr, e + e1)
  {
    var n := Fitting(chr, e);
    if chr.open && |chr.unread| < RING_SIZE && |e| <= RING_SIZE - |chr.unread| {
      assert Fitting(chr, e + e1) == e + Fitting(Queued(chr, e), e1);
      assert chr.unread + (e + Fitting(Queued(chr, e), e1)) == chr.unread + e + Fitting(Queued(chr, e), e1);
    } else {
      assert Fitting(chr, e + e1) == n;
      assert Fitting(Queued(chr, e), e1) == [];
    }
  }

  /** The outcome of a run in which the network is up throughout. */
  predicate Delivered(dev: Dev, n: Meaning, e: seq<Msg>, es: seq<Report>) {
    && n.status == Ok
    && Arrivals(n.dev.net) == Arrivals(dev.net) + e
    && ErrorFrames(n.dev.net) == ErrorFrames(dev.net) + HandleAll(dev.bus, es).1
    && n.dev.bus == HandleAll(dev.bus, es).0
    && n.dev.chr == Queued(dev.chr, e)
  }

  lemma DataDelivered(r: Record, i: nat, d: nat, s: Stamp, dev: Dev, env: nat -> Moment)
    requires r.Valid() && r.Data? && env(i).netUp && env(i).allocOk
    ensures Delivered(dev, Mean(r, i, d, s, dev, env(i)), ExpectedOf(r, i, d, s, dev.timeRef, env(i)), [])
  {
    NoReports(dev.bus);
    hide HandleAll, KernelTime, Record.Content, NextStamp;
    var n := Mean(r, i, d, s, dev, env(i));
    assert n.dev.net[..|dev.net|] == dev.net;
  }

  lemma ErrorDelivered(dev: Dev, ts16: u16, number: byte, sl: byte, m: Moment, s: Stamp)
    requires m.netUp && m.allocOk
    ensures var e := ErrorEffect(dev, ts16, number, sl, m);
            && Delivered(dev, Meaning(e.0, s, e.1), [], [Report(number, true, true, dev.timeRef.tickCount)])
            && e.1.timeRef == dev.timeRef
  {
    var rep := ReportOf(dev, number, m);
    OneReport(dev.bus, rep);
    HandleOk(dev.bus, rep);
    hide HandleAll, KernelTime, Handle;
    var d := ErrorEffect(dev, ts16, number, sl, m).1;
    assert d.net == dev.net || d.net[..|dev.net|] == dev.net;
  }

  lemma OneReport(bus: Bus, r: Report)
    ensures var o := Handle(bus, r);
            HandleAll(bus, [r]) == (o.bus, if o.posted.Some? then [o.posted.value] else [])
  {
    assert [r][..|[r]| - 1] == [];
    NoReports(bus);
    var o := Handle(bus, r);
    var none: seq<Frame> := [];
    assert HandleAll(bus, [r]).1 == if o.posted.Some? then none + [o.posted.value] else none;
    assert o.posted.Some? ==> none + [o.posted.value] == [o.posted.value];
  }

  lemma HandleOk(bus: Bus, r: Report)
    requires r.allocOk
    ensures Handle(bus, r).status == Ok
  {
  }

  lemma MeanDelivers(r: Record, i: nat, d: nat, s: Stamp, dev: Dev, env: nat -> Moment)
    requires r.Valid() && env(i).netUp && env(i).allocOk
    ensures var n := Mean(r, i, d, s, dev, env(i));
            && Delivered(dev, n, ExpectedOf(r, i, d, s, dev.timeRef, env(i)), ReportsOf(r, dev.timeRef))
            && n.stamp == StampAfter(r, i, d, s)
            && n.dev.timeRef == TimeAfter(r, i, dev.timeRef, env(i))
  {
    hide KernelTime, Record.Content, NextStamp, HandleAll, ErrorEffect;
    hide UpdateReference, SetReference, Arrivals, ErrorFrames;
    NoReports(dev.bus);
    assert Arrivals(dev.net) + [] == Arrivals(dev.net) && ErrorFrames(dev.net) + [] == ErrorFrames(dev.net);
    assert Queued(dev.chr, []) == dev.chr;
    if r.Data? {
      DataDelivered(r, i, d, s, dev, env);
    } else if r.func == ERROR_RECORD {
      ErrorDelivered(dev, StampAfter(r, i, d, s).ts16, r.number, r.StatusByte(), env(i), StampAfter(r, i, d, s));
    }
  }

  /** With the network up and memory available every data frame arrives once
      and in order, the ring takes what fits, and the error records are folded
      into the bus state and posted in order. */
  lemma {:induction false} DeliversAll(rs: seq<Record>, i: nat, d: nat, s: Stamp, dev: Dev, env: nat -> Moment)
    requires AllValid(rs) && AllUp(env)
    ensures var n := MeanAll(rs, i, d, s, dev, env);
            Delivered(dev, n, Expected(rs, i, d, s, dev.timeRef, env), ErrorReports(rs, i, dev.timeRef, env))
    decreases |rs|
  {
    hide Mean, HandleAll, TimeAfter, StampAfter, Handle, ExpectedOf, ReportsOf;
    if rs != [] {
      var r, m := rs[0], env(i);
      MeanDelivers(r, i, d, s, dev, env);
      var n := Mean(r, i, d, s, dev, m);
      DeliversAll(rs[1..], i + 1, NextData(r, d), n.stamp, n.dev, env);
      var es := ReportsOf(r, dev.timeRef);
      var es1 := ErrorReports(rs[1..], i + 1, n.dev.timeRef, env);
      HandleAllConcat(dev.bus, es, es1);
      var e := ExpectedOf(r, i, d, s, dev.timeRef, m);
      var e1 := Expected(rs[1..], i + 1, NextData(r, d), n.stamp, n.dev.timeRef, env);
      FittingConcat(dev.chr, e, e1);
    } else {
      assert HandleAll(dev.bus, []) == (dev.bus, []) by { NoReports(dev.bus); }
    }
  }

  /** A printed message decodes without error and to its end, delivers exactly
      its data frames in order, and folds and posts its error records. */
  lemma PrintedMessageDelivers(first: byte, rs: seq<Record>, beyond: byte, dev: Dev, env: nat -> Moment)
    requires AllValid(rs) && |rs| < 0x100 && AllUp(env)
    ensures var b := Buf(PrintMessage(first, rs), beyond);
            var o := DecodeBuf(b, dev, env);
            && o.status == Ok && o.cur.ptr == |b.bytes|
            && Delivered(dev, Meaning(o.status, o.cur.stamp, o.dev),
                         Expected(rs, 0, 0, Stamp(0, 0), dev.timeRef, env), ErrorReports(rs, 0, dev.timeRef, env))
  {
    hide DecodeBuf, MeanAll;
    ParserUndoesPrinter(first, rs, beyond, dev, env);
    DeliversAll(rs, 0, 0, Stamp(0, 0), dev, env);
  }

  // ---- Frames and bytes ----

  lemma ArrivalsAppend(net: seq<NetEvent>, e: NetEvent)
    ensures Arrivals(net + [e]) == Arrivals(net) + (if e.Received? then [Msg(e.at, e.frame)] else [])
  {
    assert (net + [e])[..|net|] == net;
  }

  /** A status record delivers no frame. */
  lemma StatusKeepsFrames(b: seq<byte>, c: Cursor, dev: Dev, sl: byte, m: Moment)
    ensures var d := StatusRecord(b, c, dev, sl, m).dev;
            d.chr == dev.chr && Arrivals(d.net) == Arrivals(dev.net)
  {
    hide ReadStamp, InfoLen, ErrorEffect, UpdateReference, SetReference;
    if c.ptr + 2 <= |b| {
      var c1 := c.(ptr := c.ptr + 2);
      var c2 := if Has(sl, STAMPED) then ReadStamp(b, c.recIdx == 0, c1) else Some(c1);
      if c2.Some? {
        ErrorKeepsFrames(dev, c2.value.stamp.ts16, b[c.ptr + 1], sl, m);
      }
    }
  }

  lemma ErrorKeepsFrames(dev: Dev, ts16: u16, number: byte, sl: byte, m: Moment)
    ensures var d := ErrorEffect(dev, ts16, number, sl, m).1;
            d.chr == dev.chr && Arrivals(d.net) == Arrivals(dev.net)
  {
    hide Handle, KernelTime;
    var d := ErrorEffect(dev, ts16, number, sl, m).1;
    if d.net != dev.net {
      var e := d.net[|dev.net|];
      assert d.net == dev.net + [e];
      ArrivalsAppend(dev.net, e);
      assert Arrivals(dev.net) + [] == Arrivals(dev.net);
    }
  }

  lemma RecordArrives(b: Buf, c: Cursor, dev: Dev, m: Moment)
    requires AtHead(b, c) && m.netUp
    ensures var o := OneRecord(b, c, dev, m);
            o.status == Ok ==> |Arrivals(o.dev.net)| - |Arrivals(dev.net)| == o.cur.dataIdx - c.dataIdx
  {
    hide Arrivals, ReadFrame, StatusRecord, KernelTime;
    var sl := b.StatusAt(c.ptr);
    var c1 := c.(ptr := c.ptr + 1);
    if Has(sl, INTERNAL) {
      StatusKeepsFrames(b.bytes, c1, dev, sl, m);
      StatusCountsNoData(b.bytes, c1, dev, sl, m);
    } else if Gate(dev, m) == Ok && ReadFrame(b.bytes, c1, sl).Some? {
      var r := ReadFrame(b.bytes, c1, sl).value;
      ArrivalsAppend(dev.net, Received(r.0, KernelTime(dev.timeRef, r.1.stamp.ts16, m.clock)));
    }
  }

  lemma StatusCountsNoData(b: seq<byte>, c: Cursor, dev: Dev, sl: byte, m: Moment)
    ensures StatusRecord(b, c, dev, sl, m).cur.dataIdx == c.dataIdx
  {
    hide InfoLen, ErrorEffect, TimeEffect;
  }

  lemma {:induction false} FramesArrive(b: Buf, count: nat, c: Cursor, dev: Dev, env: nat -> Moment)
    requires AtHead(b, c) && c.recIdx <= count && NetworkUp(env)
    ensures var o := Records(b, count, c, dev, env);
            o.status == Ok ==> |Arrivals(o.dev.net)| - |Arrivals(dev.net)| == o.cur.dataIdx - c.dataIdx
    decreases count - c.recIdx
  {
    hide OneRecord, AtHead;
    if c.recIdx < count {
      RecordArrives(b, c, dev, env(c.recIdx));
      var o := OneRecord(b, c, dev, env(c.recIdx));
      if o.status == Ok {
        FramesArrive(b, count, o.cur, o.dev, env);
      }
    }
  }

  ghost predicate NetworkUp(env: nat -> Moment) {
    forall i: nat :: env(i).netUp
  }

  /** What a successful message can deliver is bounded by its size: with n frames
      delivered, the records take 3 bytes each, the frames one more each, and the
      first timestamp one more. */
  lemma FramesFit(b: Buf, dev: Dev, env: nat -> Moment)
    requires |b.bytes| >= HEADER_LEN && NetworkUp(env) && DecodeBuf(b, dev, env).status == Ok
    ensures var n := |Arrivals(DecodeBuf(b, dev, env).dev.net)| - |Arrivals(dev.net)|;
            && 0 <= n <= b.bytes[1]
            && 3 * b.bytes[1] + n + (if n > 0 then 1 else 0) <= |b.bytes| - 2
  {
    FramesArrive(b, b.bytes[1], START, dev, env);
  }

  /** The bound is the best one: for every mix of records some message of
      exactly that size decodes. */
  lemma BoundIsTight(s: nat, d: nat, beyond: byte, dev: Dev, env: nat -> Moment)
    requires s + d < 0x100 && AllUp(env)
    ensures exists b: Buf :: |b.bytes| == 2 + 3 * s + 4 * d + (if d > 0 then 1 else 0)
              && (var o := DecodeBuf(b, dev, env);
                  o.status == Ok && o.cur.ptr == |b.bytes| && |Arrivals(o.dev.net)| == |Arrivals(dev.net)| + d)
  {
    var rs := Smallest(s, d);
    SmallestPrints(s, d, 0, 0, Stamp(0, 0), dev.timeRef, env);
    PrintedMessageDelivers(0, rs, beyond, dev, env);
    var b := Buf(PrintMessage(0, rs), beyond);
    assert |b.bytes| == 2 + |PrintRecords(rs, 0, 0)|;
    hide DecodeBuf, Arrivals, Expected;
    assert |Arrivals(DecodeBuf(b, dev, env).dev.net)| == |Arrivals(dev.net)| + d;
  }

  function Smallest(s: nat, d: nat): (rs: seq<Record>)
    ensures |rs| == s + d && AllValid(rs)
  {
    if s > 0 then [Info(0, 0, false, 0, [], 0)] + Smallest(s - 1, d)
    else if d > 0 then [Data(0, false, true, false, 0, [], 0)] + Smallest(0, d - 1)
    else []
  }

  lemma {:induction false} SmallestPrints(s: nat, d: nat, i: nat, k: nat, st: Stamp, t: TimeRef, env: nat -> Moment)
    ensures |PrintRecords(Smallest(s, d), i, k)| == 3 * s + 4 * d + (if d > 0 && k == 0 then 1 else 0)
    ensures |Expected(Smallest(s, d), i, k, st, t, env)| == d
    decreases s, d
  {
    var rs := Smallest(s, d);
    hide KernelTime, NextStamp, Record.Content;
    if s > 0 {
      assert rs[1..] == Smallest(s - 1, d);
      SmallestPrints(s - 1, d, i + 1, k, StampAfter(rs[0], i, k, st), t, env);
    } else if d > 0 {
      assert rs[1..] == Smallest(0, d - 1);
      SmallestPrints(0, d - 1, i + 1, k + 1, StampAfter(rs[0], i, k, st), t, env);
    }
  }

  /** No TS record, and every tick printed as a low byte is less than one byte
      ahead of the tick printed before it. */
  predicate Paced(rs: seq<Record>, i: nat, d: nat, last: Option<nat>)
    requires AllValid(rs)
  {
    rs == [] ||
    (var r := rs[0];
     && !(r.Info? && r.func == TIME_RECORD)
     && (r.Timed() ==> FullStamp(r, i, d) || (last.Some? && last.value <= r.tick < last.value + 0x100))
     && Paced(rs[1..], i + 1, NextData(r, d), if r.Timed() then Some(r.tick) else last))
  }

  /** The data frames with the kernel time of the true tick. */
  function TrueTimes(rs: seq<Record>, i: nat, t: TimeRef, env: nat -> Moment): seq<Msg>
    requires AllValid(rs)
  {
    if rs == [] then [] else
    (if rs[0].Data? then [Msg(KernelTime(t, rs[0].tick % WORD16, env(i).clock), rs[0].Content())] else [])
    + TrueTimes(rs[1..], i + 1, t, env)
  }

  /** On a paced message every frame is given the time of its true tick. */
  lemma {:induction false} PacedTimes(
      rs: seq<Record>, i: nat, d: nat, s: Stamp, last: Option<nat>, t: TimeRef, env: nat -> Moment)
    requires AllValid(rs) && Paced(rs, i, d, last)
    requires last.Some? ==> s == Following(last.value)
    ensures Expected(rs, i, d, s, t, env) == TrueTimes(rs, i, t, env)
    decreases |rs|
  {
    hide KernelTime, Record.Content, SetReference, UpdateReference, Le16;
    if rs != [] {
      var r := rs[0];
      if r.Timed() && !FullStamp(r, i, d) {
        FollowsStep(last.value, r.tick);
      }
      hide Stamp.Delta;
      var s1 := StampAfter(r, i, d, s);
      PacedTimes(rs[1..], i + 1, NextData(r, d), s1, if r.Timed() then Some(r.tick) else last, t, env);
    }
  }

  /** The register after a list of records. */
  function StampOver(rs: seq<Record>, i: nat, d: nat, s: Stamp): Stamp
    requires AllValid(rs)
  {
    if rs == [] then s else StampOver(rs[1..], i + 1, NextData(rs[0], d), StampAfter(rs[0], i, d, s))
  }

  lemma {:induction false} MeansStamp(rs: seq<Record>, i: nat, d: nat, s: Stamp, dev: Dev, env: nat -> Moment)
    requires AllValid(rs) && AllUp(env)
    ensures MeanAll(rs, i, d, s, dev, env).stamp == StampOver(rs, i, d, s)
    decreases |rs|
  {
    hide Mean, StampAfter, Queued, Arrivals, ErrorFrames, HandleAll, TimeAfter, ExpectedOf, ReportsOf;
    if rs != [] {
      var n := Mean(rs[0], i, d, s, dev, env(i));
      MeanDelivers(rs[0], i, d, s, dev, env);
      MeansStamp(rs[1..], i + 1, NextData(rs[0], d), n.stamp, n.dev, env);
    }
  }

  /** Ticks 240, 261 and 272: a data frame, a TS record and a data frame. */
  function TsBetween(): (rs: seq<Record>)
    ensures AllValid(rs) && |rs| == 3
  {
    [Data(0, false, true, false, 0, [], 0xF0), Info(TIME_RECORD, 0, false, 2, [0x05, 0x01], 0),
     Data(0, false, true, false, 0, [], 0x110)]
  }

  /** A message on which a TS record misleads the low byte that follows: decoding
      it succeeds, and leaves the register a whole byte ahead of the last tick. */
  lemma TsRecordMisleads(first: byte, beyond: byte, dev: Dev, env: nat -> Moment)
    requires AllUp(env)
    ensures var o := DecodeBuf(Buf(PrintMessage(first, TsBetween()), beyond), dev, env);
            o.status == Ok && o.cur.stamp.ts16 == 0x210 && 0x210 == TsBetween()[2].tick + 0x100
  {
    var rs := TsBetween();
    PrintedMessageDelivers(first, rs, beyond, dev, env);
    ParserUndoesPrinter(first, rs, beyond, dev, env);
    MeansStamp(rs, 0, 0, Stamp(0, 0), dev, env);
    hide DecodeBuf, MeanAll, PrintMessage, TsBetween, Expected, ErrorReports, Queued, Arrivals, ErrorFrames, HandleAll;
    StaleCarry();
  }

  lemma StaleCarry()
    ensures StampOver(TsBetween(), 0, 0, Stamp(0, 0)).ts16 == 0x210 == TsBetween()[2].tick + 0x100
  {
    var rs := TsBetween();
    var s1 := StampAfter(rs[0], 0, 0, Stamp(0, 0));
    var s2 := StampAfter(rs[1], 1, 1, s1);
    var s3 := StampAfter(rs[2], 2, 1, s2);
    assert s1 == Stamp(0xF0, 0xF0) && s2 == Stamp(0x105, 0xF0) && s3 == Stamp(0x210, 0x10);
    hide StampAfter;
    assert rs[1..][0] == rs[1] && rs[2..][0] == rs[2] && rs[1..][1..] == rs[2..] && rs[2..][1..] == [];
    assert StampOver(rs[2..], 2, 1, s2) == s3;
    assert StampOver(rs[1..], 1, 1, s1) == s3;
  }

  /** The data frames with the host clock of the moment they were decoded. */
  function HostTimes(rs: seq<Record>, i: nat, env: nat -> Moment): seq<Msg>
    requires AllValid(rs)
  {
    if rs == [] then [] else
    (if rs[0].Data? then [Msg(env(i).clock, rs[0].Content())] else []) + HostTimes(rs[1..], i + 1, env)
  }

  /** While the time reference is dormant, as it is in every reachable state,
      device timestamps have no influence on the times frames are given. */
  lemma {:induction false} DormantTimes(rs: seq<Record>, i: nat, d: nat, s: Stamp, t: TimeRef, env: nat -> Moment)
    requires AllValid(rs) && Dormant(t)
    ensures Expected(rs, i, d, s, t, env) == HostTimes(rs, i, env)
    decreases |rs|
  {
    hide StampAfter, Dormant, KernelTime, SetReference, UpdateReference, Record.Content;
    if rs != [] {
      var r := rs[0];
      var now := if r.Info? && r.func == TIME_RECORD then Le16(r.payload, 0) else StampAfter(r, i, d, s).ts16;
      DormantStays(t, now, env(i).clock);
      DormantTimes(rs[1..], i + 1, NextData(r, d), StampAfter(r, i, d, s), TimeAfter(r, i, t, env(i)), env);
    }
  }

  // ---- The driver's own encoder ----

  function Low29(id: u32): nat { id % EFF_RANGE }

  function EncodedStatus(f: Frame): (r: nat) {
    var s := if Has(f.id, RTR_FLAG) then With(f.dlc, RTR) else f.dlc;
    if Has(f.id, EFF_FLAG) then With(s, EXT_ID) else s
  }

  /** The identifier field; the shifted 11-bit form is cut to 16 bits. */
  function EncodedId(f: Frame): seq<byte> {
    if Has(f.id, EFF_FLAG) then Bytes32(Low29(f.id) * 8 % WORD32) else Bytes16(Low29(f.id) * 32 % WORD16)
  }

  function EncodedData(f: Frame): seq<byte>
    requires f.dlc <= |f.data|
  {
    if Has(f.id, RTR_FLAG) then [] else f.data[..f.dlc]
  }

  /** The bytes the encoder writes for a frame, counter byte aside. */
  function Encoded(f: Frame): seq<byte>
    requires f.dlc <= MAX_DLC && |f.data| == 8
  {
    [2, 1, EncodedStatus(f)] + EncodedId(f) + EncodedData(f)
  }

  /** Frames the network stack may pass to the encoder. */
  predicate Classic(f: Frame) {
    && f.dlc <= MAX_DLC && |f.data| == 8
    && !Has(f.id, ERR_FLAG)
    && (!Has(f.id, EFF_FLAG) ==> Low29(f.id) < SFF_RANGE)
  }

  function AsRecord(f: Frame, tick: nat): (r: Record)
    requires Classic(f)
    ensures r.Valid() && r.Data?
  {
    Data(Low29(f.id), Has(f.id, EFF_FLAG), Has(f.id, RTR_FLAG), false, f.dlc, EncodedData(f), tick)
  }

  /** What is left of a frame on the wire: data beyond the length, and all data
      of a remote frame, is gone. */
  function Canonical(f: Frame): Frame
    requires f.dlc <= MAX_DLC && |f.data| == 8
  {
    f.(data := if Has(f.id, RTR_FLAG) then ZERO8 else Padded(f.data, 0, f.dlc))
  }

  /** The encoder writes what the printer prints, timestamp aside. */
  lemma EncoderPrints(f: Frame, tick: nat)
    requires Classic(f)
    ensures var r := AsRecord(f, tick);
            && Encoded(f)[..2] == [2, 1] && |Encoded(f)| == 3 + |EncodedId(f)| + |EncodedData(f)|
            && EncodedStatus(f) == r.StatusByte()
            && EncodedId(f) == PrintId(r.ext, r.id)
            && EncodedData(f) == r.payload
            && r.Content() == Canonical(f)
  {
    var r := AsRecord(f, tick);
    hide EncodedStatus, EncodedId, EncodedData, PrintId, Canonical, Low29, Has, Record.Content, Record.StatusByte;
    EncodesStatus(f, tick);
    EncodesId(f);
    ContentIsCanonical(f, tick);
  }

  lemma EncodesStatus(f: Frame, tick: nat)
    requires Classic(f)
    ensures EncodedStatus(f) == AsRecord(f, tick).StatusByte()
  {
    hide Low29, EncodedData;
    StatusBits(f.dlc);
  }

  lemma StatusBits(dlc: nat)
    requires dlc <= MAX_DLC
    ensures With(dlc, RTR) == dlc + 0x10 && With(dlc, EXT_ID) == dlc + 0x20 && With(dlc + 0x10, EXT_ID) == dlc + 0x30
  {
  }

  lemma EncodesId(f: Frame)
    requires Classic(f)
    ensures EncodedId(f) == PrintId(Has(f.id, EFF_FLAG), Low29(f.id))
  {
    var n := Low29(f.id);
    assert n < EFF_RANGE;
    hide Low29, Has, Bytes32, Bytes16;
    if Has(f.id, EFF_FLAG) {
      assert n * 8 % WORD32 == n * 8;
    } else {
      assert n * 32 % WORD16 == n * 32;
    }
  }

  lemma ContentIsCanonical(f: Frame, tick: nat)
    requires Classic(f)
    ensures AsRecord(f, tick).Content() == Canonical(f)
  {
    FlagsOf(f.id);
    hide Low29, Has;
    if !Has(f.id, RTR_FLAG) {
      assert Padded(EncodedData(f), 0, f.dlc) == Padded(f.data, 0, f.dlc);
    }
  }

  lemma FlagsOf(id: u32)
    ensures id == Low29(id) + (if Has(id, EFF_FLAG) then EFF_FLAG else 0) + (if Has(id, RTR_FLAG) then RTR_FLAG else 0)
                  + (if Has(id, ERR_FLAG) then ERR_FLAG else 0)
  {
  }

  /** An encoded frame comes back whole: with a timestamp put behind its
      identifier it decodes, into any state, as that frame and nothing else. */
  lemma FrameRoundTrip(f: Frame, tick: nat, beyond: byte, dev: Dev, env: nat -> Moment)
    requires Classic(f) && AllUp(env)
    ensures var p := 3 + |EncodedId(f)|;
            var b := Buf(Encoded(f)[..p] + Bytes16(tick % WORD16) + Encoded(f)[p..], beyond);
            var o := DecodeBuf(b, dev, env);
            && o.status == Ok && o.cur.ptr == |b.bytes|
            && Arrivals(o.dev.net)
               == Arrivals(dev.net) + [Msg(KernelTime(dev.timeRef, tick % WORD16, env(0).clock), Canonical(f))]
            && o.dev.bus == dev.bus
  {
    var r := AsRecord(f, tick);
    var p := 3 + |EncodedId(f)|;
    EncoderPrints(f, tick);
    PrintsOne(r, 2);
    ExpectsOne(r, dev.timeRef, env);
    NoReports(dev.bus);
    PrintedMessageDelivers(2, [r], beyond, dev, env);
    hide DecodeBuf, PrintMessage, PrintId, EncodedStatus, EncodedId, EncodedData, Canonical;
    hide Expected, KernelTime, HandleAll;
    assert Encoded(f)[..p] == [2, 1, r.StatusByte()] + PrintId(r.ext, r.id);
    assert Encoded(f)[p..] == r.payload;
  }

  lemma PrintsOne(r: Record, first: byte)
    requires r.Valid() && r.Data?
    ensures PrintMessage(first, [r])
         == [first, 1, r.StatusByte()] + PrintId(r.ext, r.id) + Bytes16(r.tick % WORD16) + r.payload
  {
    hide Record.StatusByte, PrintId, Bytes16;
    assert [r][1..] == [];
    assert PrintRecords([r], 0, 0) == PrintRecord(r, 0, 0) + [];
  }

  lemma ExpectsOne(r: Record, t: TimeRef, env: nat -> Moment)
    requires r.Valid() && r.Data?
    ensures Expected([r], 0, 0, Stamp(0, 0), t, env) == [Msg(KernelTime(t, r.tick % WORD16, env(0).clock), r.Content())]
    ensures ErrorReports([r], 0, t, env) == []
  {
    hide Record.Content, KernelTime;
    assert [r][1..] == [];
  }

  /** An identifier survives the trip exactly when it is extended or fits 11 bits. */
  lemma IdRoundTrip(f: Frame)
    ensures var ext := Has(f.id, EFF_FLAG);
            var back := ReadId(EncodedId(f), 0, ext);
            && back.Some?
            && (back.value % EFF_RANGE == Low29(f.id) <==> ext || Low29(f.id) < SFF_RANGE)
  {
    var n := Low29(f.id);
    assert n < EFF_RANGE;
    hide Low29, Has, With, Bytes16, Bytes32, Le16, Le32;
    if Has(f.id, EFF_FLAG) {
      ExtendedField(n);
    } else {
      StandardField(n);
    }
  }

  lemma StandardField(n: nat)
    ensures Le16(Bytes16(n * 32 % WORD16), 0) / 32 == n % SFF_RANGE
    ensures n % SFF_RANGE % EFF_RANGE == n % SFF_RANGE
    ensures n % SFF_RANGE == n <==> n < SFF_RANGE
  {
    var k, m := n / 0x800, n % 0x800;
    DivMod16(n * 32, k, 32 * m);
  }

  lemma ExtendedField(n: nat)
    requires n < EFF_RANGE
    ensures With(Le32(Bytes32(n * 8 % WORD32), 0) / 8, EFF_FLAG) % EFF_RANGE == n
  {
    assert n * 8 % WORD32 == n * 8;
    assert With(n, EFF_FLAG) == n + EFF_RANGE * 4;
  }
}
