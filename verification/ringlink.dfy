/** The sequential decoder is one of the runs of the interleaved ring: what is
    proved there for every interleaving covers what the decoder does here. */
module RingLink {
  import opened Words
  import opened Can
  import opened Timebase
  import BusErrors
  import opened Packets
  import opened PacketLaws
  import opened RxRing

  /** The two models agree on the queue, the counter and the frames delivered. */
  predicate Linked(s: State, dev: Dev) {
    && Inv(s) && s.producer.Idle?
    && (s.phase.Open? || s.phase.Closed?)
    && dev.chr == CharSide(s.phase.Open?, s.queue, s.packets)
    && Arrivals(dev.net) == s.net
  }

  lemma {:induction false} Join(s: State, xs: seq<Step>, t: State, ys: seq<Step>, u: State)
    requires Reaches(s, xs, t) && Reaches(t, ys, u)
    ensures Reaches(s, xs + ys, u)
    decreases |xs|
  {
    hide Apply, Enabled;
    if xs == [] {
      assert xs + ys == ys;
    } else {
      Join(Apply(s, xs[0]), xs[1..], t, ys, u);
      assert (xs + ys)[1..] == xs[1..] + ys;
    }
  }

  // ---- The frames the decoder reads ----

  /** The frame of a record, with its time, if the record is a data record that is not
      refused and can be read. */
  function FrameIn(b: Buf, c: Cursor, dev: Dev, m: Moment): seq<Msg>
    requires AtHead(b, c)
  {
    if b.StatusAt(c.ptr) / 0x40 % 2 == 1 then [] else
    FrameAt(b.bytes, c.(ptr := c.ptr + 1), dev, b.StatusAt(c.ptr), m)
  }

  function FrameAt(b: seq<byte>, c: Cursor, dev: Dev, sl: byte, m: Moment): seq<Msg> {
    var r := ReadFrame(b, c, sl);
    if Gate(dev, m) != Ok || r.None? then []
    else [Msg(KernelTime(dev.timeRef, r.value.1.stamp.ts16, m.clock), r.value.0)]
  }

  function FramesIn(b: Buf, count: nat, c: Cursor, dev: Dev, env: nat -> Moment): seq<Msg>
    requires AtHead(b, c) && c.recIdx <= count
    decreases count - c.recIdx
  {
    if c.recIdx == count then [] else
    var o := OneRecord(b, c, dev, env(c.recIdx));
    FrameIn(b, c, dev, env(c.recIdx)) + if o.status != Ok then [] else FramesIn(b, count, o.cur, o.dev, env)
  }

  /** The producer once it has sampled the ring and may decode. */
  function Decoder(s: State, m: Moment): Producer {
    Decoding(if s.phase.Closed? then None else Some(s.unread),
             if s.phase.Open? && s.unread < RING_SIZE then Some(s.writeIdx) else None, m.netUp)
  }

  /** Sampling alone: a record that cannot be taken leaves the ring as it was. */
  lemma Sampling(s: State, dev: Dev, m: Moment) returns (steps: seq<Step>, t: State)
    requires Linked(s, dev)
    ensures Reaches(s, steps, t)
    ensures Gate(dev, m) != Ok ==> t == s
    ensures Gate(dev, m) == Ok ==>
              t == s.(producer := Decoder(s, m))
  {
    assert |s.queue| == s.unread;
    var s1 := Apply(s, SampleCount);
    t := Apply(s1, SampleIndex(m.netUp, m.allocOk));
    steps := [SampleCount, SampleIndex(m.netUp, m.allocOk)];
    hide Inv;
    assert steps[1..][1..] == [];
    assert Reaches(t, [], t);
    assert Reaches(s1, steps[1..], t);
  }

  /** Delivering one frame is: finish, and if there is a slot, copy and publish. */
  lemma Delivering(s: State, t: State, dev: Dev, f: Frame, ts16: u16, m: Moment, steps: seq<Step>)
    returns (r: seq<Step>, u: State)
    requires Linked(s, dev) && Gate(dev, m) == Ok && Reaches(s, steps, t)
    requires t == s.(producer := Decoder(s, m))
    ensures Reaches(s, r, u) && Linked(u, Deliver(dev, f, ts16, m))
    ensures Messages(u.marks) == Messages(s.marks) + [Msg(KernelTime(dev.timeRef, ts16, m.clock), f)]
  {
    hide KernelTime, Arrivals, Reaches, Accepted, Networked, Unread;
    var at := KernelTime(dev.timeRef, ts16, m.clock);
    var msg := Msg(at, f);
    assert |s.queue| == s.unread;
    ArrivalsAppend(dev.net, Received(f, at));
    r, u := Extend(s, steps, t, Finish(msg));
    if u.producer.Copying? {
      r, u := Publishing(s, r, u);
    }
    assert Messages(u.marks) == Messages(s.marks) + [msg];
    RingRefinesFifo(s, r, u);
    hide Inv, Messages;
  }

  lemma Publishing(s: State, steps: seq<Step>, t: State) returns (r: seq<Step>, u: State)
    requires Reaches(s, steps, t) && t.producer.Copying?
    requires t.producer.slot < |t.slots| == RING_SIZE
    ensures Reaches(s, r, u)
    ensures var m := t.producer.msg;
            && u.producer.Idle? && u.phase == t.phase && u.net == t.net && u.marks == t.marks
            && u.queue == t.queue + [m] && u.packets == t.packets + 1
  {
    hide Reaches;
    r, u := Extend(s, steps, t, Copy);
    r, u := Extend(s, r, u, StoreIndex(t.producer.slot));
    r, u := Extend(s, r, u, RaiseCount);
    r, u := Extend(s, r, u, LoadPackets);
    r, u := Extend(s, r, u, StorePackets);
  }

  lemma DataIsARun(b: seq<byte>, c: Cursor, dev: Dev, sl: byte, m: Moment, s: State)
    returns (steps: seq<Step>, u: State)
    requires Linked(s, dev)
    ensures Reaches(s, steps, u) && Linked(u, DataRecord(b, c, dev, sl, m).dev)
    ensures Messages(u.marks) == Messages(s.marks) + FrameAt(b, c, dev, sl, m)
  {
    hide ReadFrame, Deliver, Inv, KernelTime, Messages;
    steps, u := Sampling(s, dev, m);
    assert Messages(s.marks) + [] == Messages(s.marks);
    if Gate(dev, m) == Ok {
      var t := u;
      var r := ReadFrame(b, c, sl);
      if r.None? {
        steps, u := Extend(s, steps, t, Fail);
        assert u == s;
      } else {
        steps, u := Delivering(s, t, dev, r.value.0, r.value.1.stamp.ts16, m, steps);
      }
    }
  }

  /** One turn of the record loop is a run of the ring. */
  lemma RecordIsARun(b: Buf, c: Cursor, dev: Dev, m: Moment, s: State) returns (steps: seq<Step>, u: State)
    requires AtHead(b, c) && Linked(s, dev)
    ensures Reaches(s, steps, u) && Linked(u, OneRecord(b, c, dev, m).dev)
    ensures Messages(u.marks) == Messages(s.marks) + FrameIn(b, c, dev, m)
  {
    hide Linked, Enabled, Apply, StatusRecord, DataRecord, FrameAt, Messages;
    assert Messages(s.marks) + [] == Messages(s.marks);
    var sl := b.StatusAt(c.ptr);
    var c1 := c.(ptr := c.ptr + 1);
    if Has(sl, INTERNAL) {
      steps, u := [], s;
      StatusKeepsFrames(b.bytes, c1, dev, sl, m);
      LinkedAlike(s, dev, StatusRecord(b.bytes, c1, dev, sl, m).dev);
    } else {
      steps, u := DataIsARun(b.bytes, c1, dev, sl, m, s);
    }
  }

  /** Decoding any message is a run of the ring, of just the frames that are in it,
      that ends in agreement. */
  lemma {:induction false} DecoderIsARun(b: Buf, count: nat, c: Cursor, dev: Dev, env: nat -> Moment, s: State)
    returns (steps: seq<Step>, u: State)
    requires AtHead(b, c) && c.recIdx <= count && Linked(s, dev)
    ensures Reaches(s, steps, u) && Linked(u, Records(b, count, c, dev, env).dev)
    ensures Messages(u.marks) == Messages(s.marks) + FramesIn(b, count, c, dev, env)
    decreases count - c.recIdx
  {
    hide Linked, AtHead, OneRecord, Enabled, Apply, FrameIn, Messages;
    steps, u := [], s;
    assert Messages(s.marks) + [] == Messages(s.marks);
    if c.recIdx < count {
      var o := OneRecord(b, c, dev, env(c.recIdx));
      steps, u := RecordIsARun(b, c, dev, env(c.recIdx), s);
      if o.status == Ok {
        var rest, last := DecoderIsARun(b, count, o.cur, o.dev, env, u);
        Join(s, steps, u, rest, last);
        steps, u := steps + rest, last;
      }
    }
  }

  lemma LinkedAlike(s: State, dev: Dev, d: Dev)
    requires Linked(s, dev) && d.chr == dev.chr && Arrivals(d.net) == Arrivals(dev.net)
    ensures Linked(s, d)
  {
  }
}
