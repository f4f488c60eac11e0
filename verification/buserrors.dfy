/** The bus-error state machine driven by error records (decode_error). */
module BusErrors {
  import opened Words
  import opened Can

  const RXQOVR: mask := 0x02
  const LIGHT: mask := 0x04
  const HEAVY: mask := 0x08
  const OFF: mask := 0x10
  const QOVR: mask := 0x40

  const ID_BUSOFF: u32 := 0x40
  const ID_CRTL: u32 := 0x04
  const CRTL_OVERFLOW: byte := 0x01
  const CRTL_WARNING: byte := 0x0C
  const CRTL_PASSIVE: byte := 0x30

  /** enum can_state; `Max` is the marker the driver borrows for overruns. */
  datatype BusState = ErrorActive | ErrorWarning | ErrorPassive | BusOff | Stopped | Sleeping | Max

  /** The state and counters an error record can change. */
  datatype Bus = Bus(state: BusState, busOff: nat, errorPassive: nat, errorWarning: nat, rxOver: nat, rxErrors: nat)

  datatype Verdict = Relax | Enter(state: BusState)

  predicate Overrun(number: byte) {
    Has(number, RXQOVR) || Has(number, QOVR)
  }

  /** What a record asks for in an active or warning state, light flag aside. */
  function JudgeBelowPassive(state: BusState, number: byte): Verdict {
    if Has(number, HEAVY) then Enter(ErrorPassive)
    else if Has(number, OFF) then Enter(BusOff)
    else if Overrun(number) then Enter(Max)
    else if !Has(number, LIGHT) then Relax
    else Enter(state)
  }

  function Judge(state: BusState, number: byte): Verdict {
    match state
    case ErrorActive => if Has(number, LIGHT) then Enter(ErrorWarning) else JudgeBelowPassive(state, number)
    case ErrorWarning => JudgeBelowPassive(state, number)
    case ErrorPassive =>
      if Has(number, OFF) then Enter(BusOff)
      else if Has(number, LIGHT) then Enter(ErrorWarning)
      else if Overrun(number) then Enter(Max)
      else if !Has(number, HEAVY) then Relax
      else Enter(state)
    case _ => Enter(state)
  }

  function ErrorFrame(s: BusState): (f: Frame)
    ensures f.dlc == 0 && |f.data| == 8
  {
    match s
    case BusOff => Frame(ID_BUSOFF, 0, ZERO8)
    case ErrorPassive => Frame(ID_CRTL, 0, ZERO8[1 := CRTL_PASSIVE])
    case ErrorWarning => Frame(ID_CRTL, 0, ZERO8[1 := CRTL_WARNING])
    case _ => Frame(ID_CRTL, 0, ZERO8[1 := CRTL_OVERFLOW])
  }

  /** The state and counters once an error frame has been allocated. */
  function Count(bus: Bus, s: BusState): Bus {
    match s
    case BusOff => bus.(state := s, busOff := bus.busOff + 1)
    case ErrorPassive => bus.(state := s, errorPassive := bus.errorPassive + 1)
    case ErrorWarning => bus.(state := s, errorWarning := bus.errorWarning + 1)
    case _ => bus.(rxOver := bus.rxOver + 1, rxErrors := bus.rxErrors + 1)
  }

  /** One error record and its circumstances: the interface is up, an skb can
      be had, and `ticks` time-reference updates have been counted. */
  datatype Report = Report(number: byte, netUp: bool, allocOk: bool, ticks: u32)

  /** A record of number exactly QOVR is ignored until a TS record has been counted,
      which no run of the driver ever does. */
  predicate Ignored(r: Report) {
    r.number == QOVR && r.ticks == 0
  }

  datatype Outcome = Outcome(status: Errno, bus: Bus, posted: Option<Frame>)

  function Handle(bus: Bus, r: Report): Outcome {
    if !r.netUp || Ignored(r) then Outcome(Ok, bus, None)
    else
      match Judge(bus.state, r.number)
      case Relax => Outcome(Ok, bus.(state := ErrorActive), None)
      case Enter(s) =>
        if s == bus.state then Outcome(Ok, bus, None)
        else if !r.allocOk then Outcome(NoMem, bus, None)
        else Outcome(Ok, Count(bus, s), Some(ErrorFrame(s)))
  }

  /** States in which the controller still takes part in the bus. */
  predicate Live(s: BusState) {
    s.ErrorActive? || s.ErrorWarning? || s.ErrorPassive?
  }

  function HandleAll(bus: Bus, rs: seq<Report>): (Bus, seq<Frame>) {
    if rs == [] then (bus, []) else
      var (b, posted) := HandleAll(bus, rs[..|rs| - 1]);
      var o := Handle(b, rs[|rs| - 1]);
      (o.bus, if o.posted.Some? then posted + [o.posted.value] else posted)
  }

  /** No error has been counted. */
  predicate Cleared(bus: Bus) {
    bus.busOff == 0 && bus.errorPassive == 0 && bus.errorWarning == 0 && bus.rxOver == 0 && bus.rxErrors == 0
  }

  /** What a bus that began at `start` keeps: it has posted one frame for every
      error counted. */
  predicate Conserved(start: Bus, b: Bus, posted: nat) {
    && posted == b.busOff + b.errorPassive + b.errorWarning + b.rxOver
    && b.rxErrors == b.rxOver
    && !b.state.Max?
    && (b.busOff == 1 <==> b.state.BusOff? && Live(start.state))
    && b.busOff <= 1
    && (!Live(start.state) ==> b == start)
  }

  /** Over any error records, every posted frame is counted once and under one
      heading, the marker is never stored, bus-off is reached at most once and
      an unlive state is never left. */
  lemma {:induction false} Conservation(bus: Bus, rs: seq<Report>)
    requires !bus.state.Max? && Cleared(bus)
    ensures var (b, posted) := HandleAll(bus, rs);
            Conserved(bus, b, |posted|)
  {
    assert Conserved(bus, bus, 0);
    hide Handle, Conserved;
    if rs != [] {
      var n := |rs| - 1;
      var (b, posted) := HandleAll(bus, rs[..n]);
      Conservation(bus, rs[..n]);
      OneMore(bus, b, |posted|, rs[n]);
    }
  }

  lemma OneMore(start: Bus, b: Bus, posted: nat, r: Report)
    requires Conserved(start, b, posted)
    ensures var o := Handle(b, r);
            Conserved(start, o.bus, posted + if o.posted.Some? then 1 else 0)
  {
    HandleBalances(b, r);
    hide Handle;
  }

  /** One record counts what it posts, and leaves neither bus-off nor any other
      state in which the controller is not on the bus. */
  lemma HandleBalances(bus: Bus, r: Report)
    requires !bus.state.Max?
    ensures var o := Handle(bus, r);
            && o.bus.busOff + o.bus.errorPassive + o.bus.errorWarning + o.bus.rxOver
               == bus.busOff + bus.errorPassive + bus.errorWarning + bus.rxOver + (if o.posted.Some? then 1 else 0)
            && o.bus.rxErrors - o.bus.rxOver == bus.rxErrors - bus.rxOver
            && !o.bus.state.Max?
            && o.bus.busOff - bus.busOff == (if o.bus.state.BusOff? && !bus.state.BusOff? then 1 else 0)
            && (Live(o.bus.state) || o.bus.state.BusOff? <==> Live(bus.state) || bus.state.BusOff?)
            && (!Live(bus.state) ==> o.bus == bus)
  {
    hide Has, Overrun;
  }

  lemma KindsDiffer(s: BusState, t: BusState)
    requires s in {BusOff, ErrorPassive, ErrorWarning, Max} && t in {BusOff, ErrorPassive, ErrorWarning, Max}
    ensures ErrorFrame(s) == ErrorFrame(t) <==> s == t
  {
    var f, g := ErrorFrame(s), ErrorFrame(t);
    assert f.data[1] == g.data[1] ==> s == t;
  }

  function Counter(b: Bus, s: BusState): nat {
    match s
    case BusOff => b.busOff
    case ErrorPassive => b.errorPassive
    case ErrorWarning => b.errorWarning
    case _ => b.rxOver
  }

  /** The frames posted are, kind by kind, as many as the counters say. */
  lemma {:induction false} PostedKinds(bus: Bus, rs: seq<Report>, kind: BusState)
    requires bus.state != Max && Cleared(bus)
    requires kind in {BusOff, ErrorPassive, ErrorWarning, Max}
    ensures var (b, posted) := HandleAll(bus, rs);
            b.state != Max && multiset(posted)[ErrorFrame(kind)] == Counter(b, kind)
  {
    if rs != [] {
      PostedKinds(bus, rs[..|rs| - 1], kind);
      var (b, posted) := HandleAll(bus, rs[..|rs| - 1]);
      var r := rs[|rs| - 1];
      if Handle(b, r).posted.Some? {
        KindsDiffer(Judge(b.state, r.number).state, kind);
      }
    }
  }

  /** In so many words: each counter says how many of its frames were posted. */
  lemma PostedFrames(bus: Bus, rs: seq<Report>)
    requires bus.state != Max && Cleared(bus)
    ensures var (b, posted) := HandleAll(bus, rs);
            && multiset(posted)[Frame(0x40, 0, [0, 0, 0, 0, 0, 0, 0, 0])] == b.busOff
            && multiset(posted)[Frame(0x04, 0, [0, 0x0C, 0, 0, 0, 0, 0, 0])] == b.errorWarning
            && multiset(posted)[Frame(0x04, 0, [0, 0x30, 0, 0, 0, 0, 0, 0])] == b.errorPassive
            && multiset(posted)[Frame(0x04, 0, [0, 0x01, 0, 0, 0, 0, 0, 0])] == b.rxOver
  {
    LiteralFrames();
    hide HandleAll, ErrorFrame;
    PostedKinds(bus, rs, BusOff);
    PostedKinds(bus, rs, ErrorWarning);
    PostedKinds(bus, rs, ErrorPassive);
    PostedKinds(bus, rs, Max);
  }

  /** When each state is entered or kept, when an overrun is posted, and the frames
      themselves, by the bits of the number. Bus-off yields to heavy except in the
      passive state; warning wins over heavy in the active state and over everything
      but bus-off in the passive one. An ignored record changes nothing. */
  lemma WhenReached(bus: Bus, r: Report)
    requires Live(bus.state) && r.netUp && r.allocOk
    ensures r.number == 0x40 && r.ticks == 0 ==> Handle(bus, r) == Outcome(Ok, bus, None)
    ensures r.number != 0x40 || r.ticks > 0 ==>
            var o, n := Handle(bus, r), r.number;
            var light, heavy, off := n / 0x04 % 2 == 1, n / 0x08 % 2 == 1, n / 0x10 % 2 == 1;
            var over := n / 0x02 % 2 == 1 || n / 0x40 % 2 == 1;
            var active, passive := bus.state == ErrorActive, bus.state == ErrorPassive;
            && (o.bus.state == BusOff <==> off && (passive || !(heavy || (active && light))))
            && (o.bus.state == ErrorWarning <==>
                  if active then light else if passive then light && !off else !heavy && !off && (light || over))
            && (o.bus.state == ErrorPassive <==>
                  if passive then !off && !light && (over || heavy) else heavy && !(active && light))
            && (o.posted == Some(Frame(0x04, 0, [0, 0x01, 0, 0, 0, 0, 0, 0])) <==>
                  over && !off && !(light && bus.state != ErrorWarning) && (heavy ==> passive))
            && (o.posted == Some(Frame(0x40, 0, [0, 0, 0, 0, 0, 0, 0, 0])) <==> o.bus.state == BusOff)
            && (o.posted == Some(Frame(0x04, 0, [0, 0x0C, 0, 0, 0, 0, 0, 0])) <==>
                  o.bus.state == ErrorWarning && bus.state != ErrorWarning)
            && (o.posted == Some(Frame(0x04, 0, [0, 0x30, 0, 0, 0, 0, 0, 0])) <==>
                  o.bus.state == ErrorPassive && bus.state != ErrorPassive)
            && (o.posted.Some? <==> o.bus.state == BusOff || (o.bus.state != bus.state && o.bus.state != ErrorActive)
                                    || o.posted == Some(Frame(0x04, 0, [0, 0x01, 0, 0, 0, 0, 0, 0])))
  {
    FlagBits(r.number);
    LiteralFrames();
    KindsDiffer(BusOff, Max);
    KindsDiffer(ErrorPassive, Max);
    KindsDiffer(ErrorWarning, Max);
    KindsDiffer(ErrorWarning, ErrorPassive);
    KindsDiffer(ErrorWarning, BusOff);
    KindsDiffer(ErrorPassive, BusOff);
    hide ErrorFrame, Has, Overrun;
  }

  lemma FlagBits(n: byte)
    ensures Has(n, LIGHT) <==> n / 0x04 % 2 == 1
    ensures Has(n, HEAVY) <==> n / 0x08 % 2 == 1
    ensures Has(n, OFF) <==> n / 0x10 % 2 == 1
    ensures Overrun(n) <==> n / 0x02 % 2 == 1 || n / 0x40 % 2 == 1
  {
  }

  lemma LiteralFrames()
    ensures ErrorFrame(BusOff) == Frame(0x40, 0, [0, 0, 0, 0, 0, 0, 0, 0])
    ensures ErrorFrame(ErrorWarning) == Frame(0x04, 0, [0, 0x0C, 0, 0, 0, 0, 0, 0])
    ensures ErrorFrame(ErrorPassive) == Frame(0x04, 0, [0, 0x30, 0, 0, 0, 0, 0, 0])
    ensures ErrorFrame(Max) == Frame(0x04, 0, [0, 0x01, 0, 0, 0, 0, 0, 0])
  {
  }

  /** A failed allocation reports -ENOMEM, posts nothing and changes nothing. */
  lemma NoMemoryChangesNothing(bus: Bus, r: Report)
    requires bus.state != Max
    ensures Handle(bus, r).status == NoMem <==>
              Handle(bus, r).posted.None? && Handle(bus, r.(allocOk := true)).posted.Some?
    ensures Handle(bus, r).status == NoMem ==> Handle(bus, r).bus == bus && !r.allocOk
  {
  }

  /** A record that keeps arriving unchanged stops producing error frames, from
      every live state and after at most three repetitions, exactly when it says
      bus-off, or is ignored, or reports no overrun and at most one of light and
      heavy. */
  lemma RepeatSettles(bus: Bus, r: Report)
    requires Live(bus.state) && r.netUp && r.allocOk
    ensures Handle(HandleAll(bus, [r, r, r]).0, r).posted.None? <==>
              Has(r.number, OFF) || Ignored(r)
              || (!Overrun(r.number) && !(Has(r.number, LIGHT) && Has(r.number, HEAVY)))
    ensures Has(r.number, OFF) <==> HandleAll(bus, [r, r, r]).0.state == BusOff
  {
    assert [r, r, r][..2] == [r, r] && [r, r][..1] == [r] && [r][..0] == [];
    assert Ignored(r) ==> !Has(r.number, OFF);
    hide ErrorFrame, Has, Overrun, Ignored;
    assert HandleAll(bus, [r]).0 == Handle(bus, r).bus;
    assert HandleAll(bus, [r, r]).0 == Handle(Handle(bus, r).bus, r).bus;
    assert HandleAll(bus, [r, r, r]).0 == Handle(Handle(Handle(bus, r).bus, r).bus, r).bus;
  }
}
