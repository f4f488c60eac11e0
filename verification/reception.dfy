/** Completions of the receive URBs: which messages are decoded and which URBs
    go back to the adapter (usb_read_bulk_callback). */
module Reception {
  import opened Words
  import opened Can
  import opened Timebase
  import opened BusErrors
  import opened Packets
  import opened PacketLaws
  import opened Printer
  import opened UrbLaws

  /** How a URB completed: with data, with one of the four statuses that mean
      it was taken back, or with another error. */
  datatype UrbStatus = Filled | TakenBack | Aborted

  const ONE_STARTED: int := 2

  /** One completion: the stage it finds, and whether the adapter takes the URB again. */
  datatype Completion = Completion(stage: int, status: UrbStatus, buf: Buf, env: nat -> Moment, accepted: bool)
  {
    /** The message is decoded. */
    predicate Heard() {
      stage >= ONE_STARTED && status.Filled?
    }

    /** The URB is with the adapter again. */
    predicate Returned() {
      stage >= ONE_STARTED && !status.TakenBack? && accepted
    }
  }

  /** The URBs with the adapter, and the device. */
  datatype Pool = Pool(inFlight: nat, dev: Dev)

  function Complete(p: Pool, c: Completion): Pool
    requires p.inFlight > 0
  {
    if c.stage < ONE_STARTED then p.(inFlight := p.inFlight - 1)
    else match c.status
      case TakenBack => p.(inFlight := p.inFlight - 1)
      case Aborted => p.(inFlight := if c.accepted then p.inFlight else p.inFlight - 1)
      case Filled =>
        Pool(if c.accepted then p.inFlight else p.inFlight - 1,
             if |c.buf.bytes| > 0 then HandleUrb(c.buf, p.dev, c.env).1 else p.dev)
  }

  ghost predicate Reaches(p: Pool, cs: seq<Completion>, q: Pool)
    decreases |cs|
  {
    if cs == [] then p == q else p.inFlight > 0 && Reaches(Complete(p, cs[0]), cs[1..], q)
  }

  function HeardOf(cs: seq<Completion>): seq<Completion> {
    if cs == [] then [] else (if cs[0].Heard() then [cs[0]] else []) + HeardOf(cs[1..])
  }

  function Lost(cs: seq<Completion>): nat {
    if cs == [] then 0 else (if cs[0].Returned() then 0 else 1) + Lost(cs[1..])
  }

  function DecodeEach(cs: seq<Completion>, dev: Dev): Dev {
    if cs == [] then dev else DecodeEach(cs[1..], HandleUrb(cs[0].buf, dev, cs[0].env).1)
  }

  lemma HeardFirst(c: Completion, rest: seq<Completion>, dev: Dev)
    ensures DecodeEach([c] + rest, dev) == DecodeEach(rest, HandleUrb(c.buf, dev, c.env).1)
  {
    assert ([c] + rest)[1..] == rest;
  }

  /** Over any run the device is what decoding the heard messages in order makes
      of it, whatever went wrong in each of them; and a URB is lost only by
      completing while no user is on the bus, by being taken back or by being
      refused, never by a message that does not decode. No step puts a lost URB
      back, so reception lasts for as many losses as there are URBs. */
  lemma {:induction false} ReceptionRun(p: Pool, cs: seq<Completion>, q: Pool)
    requires Reaches(p, cs, q)
    ensures q.dev == DecodeEach(HeardOf(cs), p.dev)
    ensures q.inFlight + Lost(cs) == p.inFlight
    decreases |cs|
  {
    hide HandleUrb, Completion.Heard;
    if cs != [] {
      ReceptionRun(Complete(p, cs[0]), cs[1..], q);
      CompleteDecodes(p, cs[0]);
      if cs[0].Heard() {
        HeardFirst(cs[0], HeardOf(cs[1..]), p.dev);
      } else {
        assert HeardOf(cs) == HeardOf(cs[1..]);
      }
    }
  }

  lemma CompleteDecodes(p: Pool, c: Completion)
    requires p.inFlight > 0
    ensures Complete(p, c).dev == if c.Heard() then HandleUrb(c.buf, p.dev, c.env).1 else p.dev
    ensures Complete(p, c).inFlight == p.inFlight - (if c.Returned() then 0 else 1)
  {
    hide DecodeBuf;
  }

  /** A completion with a printed message delivers it, whether or not the adapter
      takes the URB again; one with no user on the bus, or without data, does nothing. */
  lemma CompletionDelivers(p: Pool, c: Completion, first: byte, rs: seq<Record>)
    requires p.inFlight > 0 && AllValid(rs) && 0 < |rs| < 0x100 && c.buf.bytes == PrintMessage(first, rs)
    ensures !c.Heard() ==> Complete(p, c).dev == p.dev
    ensures c.Heard() && AllUp(c.env) ==>
              Delivered(p.dev, Meaning(Ok, Stamp(0, 0), Complete(p, c).dev),
                        Expected(rs, 0, 0, Stamp(0, 0), p.dev.timeRef, c.env),
                        ErrorReports(rs, 0, p.dev.timeRef, c.env))
    ensures c.Heard() && AllDown(c.env) && |p.dev.chr.unread| <= RING_SIZE ==>
              var e := Expected(rs, 0, 0, Stamp(0, 0), p.dev.timeRef, c.env);
              QueuedAlone(p.dev, Meaning(StatusAlone(p.dev.chr, e), Stamp(0, 0), Complete(p, c).dev), e)
  {
    CompleteDecodes(p, c);
    hide HandleUrb, Complete, Expected, ErrorReports, StatusAlone;
    assert c.buf == Buf(PrintMessage(first, rs), c.buf.beyond);
    if AllUp(c.env) {
      PrintedUrb(first, rs, c.buf.beyond, p.dev, c.env);
    }
    if AllDown(c.env) && |p.dev.chr.unread| <= RING_SIZE {
      PrintedUrbAlone(first, rs, c.buf.beyond, p.dev, c.env);
    }
    hide PrintMessage, Queued, Arrivals, ErrorFrames, HandleAll;
  }

  // ---- Everything else that reaches the device ----

  /** What can happen to the device: a URB completing with a whole message or, so
      that the rest may come between the records of a message too, a single record
      at any cursor; readers taking frames, the character device opened and closed,
      the bus brought up, the interface started and stopped, and the wake that ends
      a restart. */
  datatype Happening =
    | Completes(c: Completion)
    | Handles(b: Buf, at: Cursor, m: Moment)
    | Drains(k: nat)
    | Opens
    | Closes
    | BusComesUp
    | Starts
    | Stops
    | Wakes

  predicate Possible(p: Pool, h: Happening) {
    match h
    case Completes(_) => p.inFlight > 0
    case Handles(b, at, _) => AtHead(b, at)
    case Drains(k) => p.dev.chr.open && k <= |p.dev.chr.unread|
    case Opens => !p.dev.chr.open
    case Closes => p.dev.chr.open
    case _ => true
  }

  function Happen(p: Pool, h: Happening): Pool
    requires Possible(p, h)
  {
    var dev := p.dev;
    match h
    case Completes(c) => Complete(p, c)
    case Handles(b, at, m) => p.(dev := OneRecord(b, at, dev, m).dev)
    case Drains(k) => p.(dev := dev.(chr := dev.chr.(unread := dev.chr.unread[k..])))
    case Opens => p.(dev := dev.(chr := CharSide(true, [], 0)))
    case Closes => p.(dev := dev.(chr := dev.chr.(open := false)))
    case BusComesUp => p.(dev := dev.(timeRef := CLEARED))
    case Starts => p.(dev := dev.(bus := dev.bus.(state := ErrorActive)))
    case Stops => p.(dev := dev.(bus := dev.bus.(state := Stopped)))
    case Wakes => p.(dev := dev.(bus := dev.bus.(state := ErrorActive)))
  }

  ghost predicate Lives(p: Pool, hs: seq<Happening>, q: Pool)
    decreases |hs|
  {
    if hs == [] then p == q else Possible(p, hs[0]) && Lives(Happen(p, hs[0]), hs[1..], q)
  }

  lemma HappeningHealthy(p: Pool, h: Happening)
    requires Possible(p, h) && Healthy(p.dev)
    ensures Healthy(Happen(p, h).dev) && p.dev.net <= Happen(p, h).dev.net
    ensures p.dev.bus.state == BusOff && !(h.Starts? || h.Stops? || h.Wakes?) ==> Happen(p, h).dev.bus == p.dev.bus
  {
    hide WellFormed, Bytes, HandleUrb;
    if h.Completes? {
      CompleteDecodes(p, h.c);
      HealthyUrb(h.c.buf, p.dev, h.c.env);
      if p.dev.bus.state == BusOff {
        OffStaysOff(h.c.buf, p.dev, h.c.env);
      }
      hide Healthy, Complete;
    } else if h.Handles? {
      HealthyAfterRecord(h.b, h.at, p.dev, h.m);
      if p.dev.bus.state == BusOff {
        RecordKeepsOff(h.b, h.at, p.dev, h.m);
      }
      hide Healthy, OneRecord;
    }
  }

  /** The device as allocated; alloc_candev leaves it stopped. */
  const NEW_DEVICE := Dev(Bus(Stopped, 0, 0, 0, 0, 0), CLEARED, [], 0, 0, CharSide(false, [], 0))

  /** Over every life of the device, in whatever order messages of any contents,
      readers, openings and closings, starts and stops come: the network statistics
      count exactly what was handed over, queued frames are well formed, the time
      reference never engages and the marker is never the state. */
  lemma {:induction false} HealthyForLife(p: Pool, hs: seq<Happening>, q: Pool)
    requires Lives(p, hs, q) && Healthy(p.dev)
    ensures Healthy(q.dev) && p.dev.net <= q.dev.net
    decreases |hs|
  {
    hide Healthy, Happen, Possible;
    if hs != [] {
      HappeningHealthy(p, hs[0]);
      HealthyForLife(Happen(p, hs[0]), hs[1..], q);
    }
  }

  /** So every reachable state is healthy. */
  lemma EveryReachableState(inFlight: nat, hs: seq<Happening>, q: Pool)
    requires Lives(Pool(inFlight, NEW_DEVICE), hs, q)
    ensures Healthy(q.dev)
  {
    HealthyForLife(Pool(inFlight, NEW_DEVICE), hs, q);
  }

  /** Bus-off ends only with a start, a stop or the wake of a restart; until then
      no error record has any effect on state or counters. */
  lemma {:induction false} OffUntilRestart(p: Pool, hs: seq<Happening>, q: Pool)
    requires Lives(p, hs, q) && Healthy(p.dev) && p.dev.bus.state == BusOff
    requires forall k :: 0 <= k < |hs| ==> !(hs[k].Starts? || hs[k].Stops? || hs[k].Wakes?)
    ensures q.dev.bus == p.dev.bus
    decreases |hs|
  {
    hide Healthy, Happen, Possible;
    if hs != [] {
      HappeningHealthy(p, hs[0]);
      OffUntilRestart(Happen(p, hs[0]), hs[1..], q);
    }
  }

  lemma OffStaysOff(b: Buf, dev: Dev, env: nat -> Moment)
    requires dev.bus.state == BusOff
    ensures HandleUrb(b, dev, env).1.bus == dev.bus
  {
    if |b.bytes| > HEADER_LEN {
      RecordsKeepOff(b, b.bytes[1], START, dev, env);
    }
  }

  lemma {:induction false} RecordsKeepOff(b: Buf, count: nat, c: Cursor, dev: Dev, env: nat -> Moment)
    requires AtHead(b, c) && c.recIdx <= count && dev.bus.state == BusOff
    ensures Records(b, count, c, dev, env).dev.bus == dev.bus
    decreases count - c.recIdx
  {
    hide OneRecord, AtHead;
    if c.recIdx < count {
      var o := OneRecord(b, c, dev, env(c.recIdx));
      RecordKeepsOff(b, c, dev, env(c.recIdx));
      if o.status == Ok {
        RecordsKeepOff(b, count, o.cur, o.dev, env);
      }
    }
  }

  lemma RecordKeepsOff(b: Buf, c: Cursor, dev: Dev, m: Moment)
    requires AtHead(b, c) && dev.bus.state == BusOff
    ensures OneRecord(b, c, dev, m).dev.bus == dev.bus
  {
    hide ReadFrame, ReadStamp, KernelTime, SetReference, UpdateReference, InfoLen;
  }

  lemma HealthyUrb(b: Buf, dev: Dev, env: nat -> Moment)
    requires Healthy(dev)
    ensures var d := HandleUrb(b, dev, env).1;
            Healthy(d) && dev.net <= d.net
  {
    hide Healthy;
    if |b.bytes| > HEADER_LEN {
      HealthyForever(b, b.bytes[1], START, dev, env);
    }
  }
}
