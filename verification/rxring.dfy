/** The 8-slot receive ring: only a write index and an unread count are kept,
    the read index is derived. One producer fills a slot outside the lock and
    publishes it inside, with three stores; consumers take the lock, and `open`
    resets the ring without it, with three stores of its own. */
module RxRing {
  import opened Words
  import opened Can

  function ReadIndex(w: nat, n: nat): (r: nat)
    requires n <= RING_SIZE
    ensures r < RING_SIZE
  {
    (w + RING_SIZE - n) % RING_SIZE
  }

  /** The slot of the `i`-th unread frame: a consumer starts at the read index
      and steps modulo the size. */
  function SlotAt(w: nat, n: nat, i: nat): (r: nat)
    requires w < RING_SIZE && i <= n <= RING_SIZE
    ensures r == if w + i < n then w + i + RING_SIZE - n else if i == n then w else w + i - n
  {
    (ReadIndex(w, n) + i) % RING_SIZE
  }

  /** The unread slots, oldest first. */
  function Unread(slots: seq<Msg>, w: nat, n: nat): (q: seq<Msg>)
    requires |slots| == RING_SIZE && w < RING_SIZE && n <= RING_SIZE
    ensures |q| == n
  {
    seq(n, i requires 0 <= i < n => slots[SlotAt(w, n, i)])
  }

  /** A reader steps from one unread slot to the next. */
  lemma NextSlot(slots: seq<Msg>, w: nat, n: nat, i: nat)
    requires |slots| == RING_SIZE && w < RING_SIZE && i < n <= RING_SIZE
    ensures slots[SlotAt(w, n, i)] == Unread(slots, w, n)[i]
    ensures (SlotAt(w, n, i) + 1) % RING_SIZE == SlotAt(w, n, i + 1)
  {
  }

  lemma PublishAppends(slots: seq<Msg>, w: nat, n: nat)
    requires |slots| == RING_SIZE && w < RING_SIZE && n < RING_SIZE
    ensures Unread(slots, (w + 1) % RING_SIZE, n + 1) == Unread(slots, w, n) + [slots[w]]
  {
    var w1 := if w == RING_SIZE - 1 then 0 else w + 1;
    assert (w + 1) % RING_SIZE == w1;
    var q := Unread(slots, w1, n + 1);
    forall i | 0 <= i <= n
      ensures q[i] == (Unread(slots, w, n) + [slots[w]])[i]
    {
      assert SlotAt(w1, n + 1, i) == if i < n then SlotAt(w, n, i) else w;
    }
  }

  lemma DrainDrops(slots: seq<Msg>, w: nat, n: nat, k: nat)
    requires |slots| == RING_SIZE && w < RING_SIZE && k <= n <= RING_SIZE
    ensures Unread(slots, w, n - k) == Unread(slots, w, n)[k..]
  {
    forall i | 0 <= i < n - k
      ensures Unread(slots, w, n - k)[i] == Unread(slots, w, n)[k..][i]
    {
      assert SlotAt(w, n - k, i) == SlotAt(w, n, k + i);
    }
  }

  /** Filling the write slot of a ring that is not full touches no unread slot. */
  lemma FillInvisible(slots: seq<Msg>, w: nat, n: nat, m: Msg)
    requires |slots| == RING_SIZE && w < RING_SIZE && n < RING_SIZE
    ensures Unread(slots[w := m], w, n) == Unread(slots, w, n)
    ensures forall i :: 0 <= i < n ==> SlotAt(w, n, i) != w
  {
  }

  // ---- The ring under interleaving ----

  /** Where the open call is: its three stores are separate steps, and only an
      open device can be drained. */
  datatype Phase = Closed | Opening | IndexReset | CountReset | Open

  /** The producer inside decode_data. `seen` is the unread count it sampled, or
      None when the device was not open; `slot` is the slot it may fill. From
      Indexed to the end of Loaded it holds the lock, having stored the index, then
      the count, then loaded rx_packets, which is not atomic. `wiped` says whether
      open has since stored the index (in Indexed) or the count, and `zeroed`
      whether it has stored rx_packets since the load. */
  datatype Producer =
    | Idle
    | Sampled(seen: Option<nat>)
    | Decoding(seen: Option<nat>, room: Option<nat>, netUp: bool)
    | Copying(msg: Msg, slot: nat)
    | Copied(msg: Msg, slot: nat)
    | Indexed(msg: Msg, slot: nat, wiped: bool)
    | Raised(wiped: bool)
    | Loaded(value: nat, wiped: bool, zeroed: bool)
  {
    predicate Locks() {
      Indexed? || Raised? || Loaded?
    }

    /** Has raised the count, and not yet counted the frame. */
    predicate Counting() {
      Raised? || Loaded?
    }
  }

  /** A decoded frame with what its producer had sampled. */
  datatype Mark = Mark(msg: Msg, seen: Option<nat>, netUp: bool) {
    predicate Accepted() {
      seen.Some? && seen.value < RING_SIZE
    }
  }

  /** A publication: the frame and the slot it was put in, the slot that raising
      the count made visible and what that held, and whether open had stored the
      index since the producer had. */
  datatype Pub = Pub(msg: Msg, slot: nat, shown: nat, content: Msg, wiped: bool)

  /** The packet counter's history since open's last store of the unread count:
      the count at that time; the frames raised since and counted before open's
      third store; the frame raised before it and counted since, before or after
      the third store; and whether the third store has been undone by an increment
      that was loaded before it. */
  datatype Tally = Tally(carried: nat, early: nat, lostEarly: nat, lostLate: nat, undone: bool)

  /** The ring, the producer and the history of the run: all frames decoded,
      handed to the network and published; what is visible in the ring, and what
      was published and consumed since the unread count was last reset. */
  datatype State = State(
    slots: seq<Msg>, writeIdx: nat, unread: nat, packets: nat, phase: Phase, producer: Producer,
    marks: seq<Mark>, net: seq<Msg>, published: seq<Msg>,
    queue: seq<Msg>, recent: seq<Pub>, consumed: seq<Msg>, tally: Tally)

  datatype Step =
    | SampleCount
    | SampleIndex(up: bool, allocOk: bool)
    | Scribble(part: Msg)
    | Fail
    | Finish(whole: Msg)
    | Copy
    | StoreIndex(slot: nat)
    | RaiseCount
    | LoadPackets
    | StorePackets
    | Drain(k: nat)
    | BeginOpen
    | ResetIndex
    | ResetCount
    | ResetPackets
    | Close

  function SlotFor(seen: Option<nat>, w: nat): Option<nat> {
    if seen.None? || seen.value >= RING_SIZE then None else Some(w)
  }

  /** The slot before the write index. */
  function Before(w: nat): (r: nat)
    requires w < RING_SIZE
    ensures r < RING_SIZE && (r + 1) % RING_SIZE == w
  {
    if w == 0 then RING_SIZE - 1 else w - 1
  }

  /** Open stores the unread count while a frame is being counted. */
  function Wiped(p: Producer): Producer {
    match p
    case Raised(_) => Raised(true)
    case Loaded(value, _, zeroed) => Loaded(value, true, zeroed)
    case _ => p
  }

  /** The packet counter, as an increment under way will leave it but for the one. */
  function Standing(s: State): nat {
    if s.producer.Loaded? then s.producer.value else s.packets
  }

  /** One more frame counted. */
  function Counted(t: Tally, p: Producer, phase: Phase): Tally
    requires p.Loaded?
  {
    if phase.CountReset? then
      if p.wiped then t.(lostEarly := t.lostEarly + 1) else t.(early := t.early + 1)
    else
      t.(undone := t.undone || p.zeroed, lostLate := if p.wiped then t.lostLate + 1 else t.lostLate)
  }

  predicate Enabled(s: State, t: Step) {
    match t
    case SampleCount => s.producer.Idle?
    case SampleIndex(_, _) => s.producer.Sampled?
    case Scribble(_) => s.producer.Decoding? && s.producer.room.Some? && s.producer.room.value < |s.slots|
    case Fail => s.producer.Decoding?
    case Finish(_) => s.producer.Decoding?
    case Copy => s.producer.Copying? && s.producer.slot < |s.slots|
    case StoreIndex(slot) => s.producer.Copied? && s.producer.slot == slot
    case RaiseCount => s.producer.Indexed? && s.writeIdx < |s.slots| == RING_SIZE
    case LoadPackets => s.producer.Raised?
    case StorePackets => s.producer.Loaded?
    case Drain(k) => s.phase.Open? && !s.producer.Locks() && k <= s.unread && k <= |s.queue|
    case BeginOpen => s.phase.Closed?
    case ResetIndex => s.phase.Opening?
    case ResetCount => s.phase.IndexReset?
    case ResetPackets => s.phase.CountReset?
    case Close => s.phase.Open?
  }

  function Apply(s: State, t: Step): State
    requires Enabled(s, t)
  {
    match t
    case SampleCount =>
      s.(producer := Sampled(if s.phase.Closed? then None else Some(s.unread)))
    case SampleIndex(up, allocOk) =>
      var slot := SlotFor(s.producer.seen, s.writeIdx);
      // no memory, or neither sink can take the frame
      if (up && !allocOk) || (!up && slot.None?) then s.(producer := Idle)
      else s.(producer := Decoding(s.producer.seen, slot, up))
    case Scribble(part) => s.(slots := s.slots[s.producer.room.value := part])
    case Fail => s.(producer := Idle)
    case Finish(m) =>
      var p := s.producer;
      s.(marks := s.marks + [Mark(m, p.seen, p.netUp)],
         net := if p.netUp then s.net + [m] else s.net,
         producer := if p.room.Some? then Copying(m, p.room.value) else Idle)
    case Copy =>
      var p := s.producer;
      s.(slots := s.slots[p.slot := p.msg], producer := Copied(p.msg, p.slot))
    case StoreIndex(slot) =>
      s.(writeIdx := (slot + 1) % RING_SIZE, producer := Indexed(s.producer.msg, slot, false))
    case RaiseCount =>
      var p, e := s.producer, Before(s.writeIdx);
      s.(unread := s.unread + 1, producer := Raised(false), published := s.published + [p.msg],
         queue := s.queue + [s.slots[e]], recent := s.recent + [Pub(p.msg, p.slot, e, s.slots[e], p.wiped)])
    case LoadPackets => s.(producer := Loaded(s.packets, s.producer.wiped, false))
    case StorePackets =>
      s.(packets := s.producer.value + 1, producer := Idle, tally := Counted(s.tally, s.producer, s.phase))
    case Drain(k) =>
      s.(unread := s.unread - k, queue := s.queue[k..], consumed := s.consumed + s.queue[..k])
    case BeginOpen => s.(phase := Opening)
    case ResetIndex =>
      s.(writeIdx := 0, phase := IndexReset,
         producer := if s.producer.Indexed? then Indexed(s.producer.msg, s.producer.slot, true) else s.producer)
    case ResetCount =>
      s.(unread := 0, phase := CountReset, queue := [], recent := [], consumed := [],
         producer := Wiped(s.producer),
         tally := Tally(Standing(s), 0, 0, 0, false))
    case ResetPackets =>
      s.(packets := 0, phase := Open, tally := s.tally.(undone := false),
         producer := if s.producer.Loaded? then s.producer.(zeroed := true) else s.producer)
    case Close => s.(phase := Closed)
  }

  predicate Init(s: State) {
    && |s.slots| == RING_SIZE
    && s == State(s.slots, 0, 0, 0, Closed, Idle, [], [], [], [], [], [], Tally(0, 0, 0, 0, false))
  }

  ghost predicate Reaches(s: State, steps: seq<Step>, t: State)
    decreases |steps|
  {
    if steps == [] then s == t
    else Enabled(s, steps[0]) && Reaches(Apply(s, steps[0]), steps[1..], t)
  }

  /** The frames whose producer found room, in order. */
  function Accepted(marks: seq<Mark>): seq<Msg> {
    if marks == [] then [] else
    var m := marks[|marks| - 1];
    Accepted(marks[..|marks| - 1]) + (if m.Accepted() then [m.msg] else [])
  }

  function Networked(marks: seq<Mark>): seq<Msg> {
    if marks == [] then [] else
    var m := marks[|marks| - 1];
    Networked(marks[..|marks| - 1]) + (if m.netUp then [m.msg] else [])
  }

  /** The frame accepted but not yet published. */
  function Pending(p: Producer): seq<Msg> {
    if p.Copying? || p.Copied? || p.Indexed? then [p.msg] else []
  }

  /** The frames published, and what the ring showed for them. */
  function Own(pubs: seq<Pub>): seq<Msg> {
    seq(|pubs|, i requires 0 <= i < |pubs| => pubs[i].msg)
  }

  function Contents(pubs: seq<Pub>): seq<Msg> {
    seq(|pubs|, i requires 0 <= i < |pubs| => pubs[i].content)
  }

  function HeldSlot(p: Producer): Option<nat> {
    match p
    case Decoding(_, slot, _) => slot
    case Copying(_, slot) => Some(slot)
    case Copied(_, slot) => Some(slot)
    case Indexed(_, slot, _) => Some(slot)
    case _ => None
  }

  /** The index the visible slots end before: between the first two stores of a
      publication the index is one ahead of the count. */
  function Top(s: State): nat
    requires s.writeIdx < RING_SIZE
  {
    if s.producer.Indexed? then Before(s.writeIdx) else s.writeIdx
  }

  /** The ring holds the queue, except while open has reset only the index. */
  predicate RingOk(s: State) {
    && |s.slots| == RING_SIZE && s.writeIdx < RING_SIZE && s.unread <= RING_SIZE
    && (!s.phase.IndexReset? ==> Unread(s.slots, Top(s), s.unread) == s.queue)
  }

  /** A producer that saw room still has it, and its slot is the write slot
      unless open has reset the ring under it. */
  predicate ProducerOk(s: State) {
    var p := s.producer;
    && (p.Sampled? && p.seen.Some? ==> p.seen.value <= RING_SIZE && (p.seen.value < RING_SIZE ==> s.unread < RING_SIZE))
    && (p.Decoding? ==> (p.seen.Some? ==> p.seen.value <= RING_SIZE)
                        && (p.room.Some? <==> p.seen.Some? && p.seen.value < RING_SIZE)
                        && (p.netUp || p.room.Some?))
    && (HeldSlot(p).Some? ==> HeldSlot(p).value < RING_SIZE && s.unread < RING_SIZE)
    && (HeldSlot(p).Some? && !p.Indexed? ==> HeldSlot(p).value == s.writeIdx || s.unread == 0 || s.phase.IndexReset?)
    && (p.Indexed? ==>
          && s.writeIdx == (if p.wiped then 0 else (p.slot + 1) % RING_SIZE)
          && (p.wiped ==> s.unread == 0 || s.phase.IndexReset?))
    && (p.Copied? || p.Indexed? ==> p.slot < |s.slots| && s.slots[p.slot] == p.msg)
  }

  /** What is visible is the slot filled, unless open reset the index in between
      and the slot is not the last one. */
  predicate PubOk(p: Pub) {
    && p.slot < RING_SIZE
    && p.shown == (if p.wiped then RING_SIZE - 1 else p.slot)
    && (p.shown == p.slot ==> p.content == p.msg)
  }

  predicate HistoryOk(s: State) {
    && Accepted(s.marks) == s.published + Pending(s.producer)
    && Networked(s.marks) == s.net
    && (forall i :: 0 <= i < |s.marks| ==> s.marks[i].seen.Some? ==> s.marks[i].seen.value <= RING_SIZE)
    && (forall i :: 0 <= i < |s.recent| ==> PubOk(s.recent[i]))
    && (!s.phase.IndexReset? ==> Contents(s.recent) == s.consumed + s.queue)
    && |s.recent| <= |s.published| && s.published[|s.published| - |s.recent|..] == Own(s.recent)
  }

  /** Frames that are in the unread count and soon in rx_packets. */
  function Owed(p: Producer): nat {
    if p.Counting() && !p.wiped then 1 else 0
  }

  /** By how much rx_packets is too large. */
  function Excess(t: Tally): nat {
    if t.undone then t.carried + t.lostEarly + t.lostLate else t.lostLate
  }

  /** By how much it is too small. */
  function Shortfall(t: Tally): nat {
    if t.undone then 0 else t.early
  }

  predicate CountOk(s: State) {
    var p, t := s.producer, s.tally;
    && (if s.phase.CountReset?
        then |s.recent| == t.early + Owed(p) && Standing(s) == t.carried + t.early + t.lostEarly && t.lostLate == 0
        else s.packets + Shortfall(t) + Owed(p) == |s.recent| + Excess(t))
    && t.lostEarly + t.lostLate <= 1
    && (t.lostLate == 1 ==> t.early == 0)
    && (p.Counting() && p.wiped ==> s.recent == [] && t.early == t.lostEarly == t.lostLate == 0)
    && (p.Loaded? ==>
          if p.zeroed
          then s.packets == 0
               && (!s.phase.CountReset? ==>
                     !t.undone && t.lostLate == 0 && p.value == t.carried + t.early + t.lostEarly)
          else s.packets == p.value)
  }

  predicate Inv(s: State) {
    RingOk(s) && ProducerOk(s) && HistoryOk(s) && CountOk(s)
  }

  lemma StepKeepsRing(s: State, t: Step)
    requires Inv(s) && Enabled(s, t)
    ensures RingOk(Apply(s, t))
  {
    hide HistoryOk, CountOk;
    if t.Scribble? {
      SlotWriteKeepsRing(s, s.producer.room.value, t.part);
    } else if t.Copy? {
      SlotWriteKeepsRing(s, s.producer.slot, s.producer.msg);
    } else if t.StoreIndex? {
      IndexKeepsRing(s);
    } else if t.RaiseCount? {
      RaiseKeepsRing(s);
    } else if t.Drain? {
      DrainDrops(s.slots, s.writeIdx, s.unread, t.k);
      hide Unread;
    } else if t.ResetCount? {
      hide ProducerOk;
    } else {
      hide Unread, ProducerOk;
    }
  }

  lemma IndexKeepsRing(s: State)
    requires RingOk(s) && ProducerOk(s) && s.producer.Copied?
    ensures RingOk(Apply(s, StoreIndex(s.producer.slot)))
  {
    var slot := s.producer.slot;
    assert Before((slot + 1) % RING_SIZE) == slot;
    if !s.phase.IndexReset? && slot != s.writeIdx {
      assert Unread(s.slots, slot, 0) == [] == Unread(s.slots, s.writeIdx, 0);
    }
    hide Unread;
  }

  lemma RaiseKeepsRing(s: State)
    requires RingOk(s) && ProducerOk(s) && s.producer.Indexed?
    ensures RingOk(Apply(s, RaiseCount))
  {
    PublishAppends(s.slots, Before(s.writeIdx), s.unread);
    hide Unread;
  }

  lemma SlotWriteKeepsRing(s: State, slot: nat, m: Msg)
    requires RingOk(s) && ProducerOk(s) && HeldSlot(s.producer) == Some(slot) && !s.producer.Indexed?
    ensures slot < |s.slots| && RingOk(s.(slots := s.slots[slot := m]))
  {
    if slot == s.writeIdx {
      FillInvisible(s.slots, slot, s.unread, m);
    }
  }

  lemma StepKeepsProducer(s: State, t: Step)
    requires Inv(s) && Enabled(s, t)
    ensures ProducerOk(Apply(s, t))
  {
    hide HistoryOk, CountOk, Unread;
  }

  lemma StepKeepsCount(s: State, t: Step)
    requires Inv(s) && Enabled(s, t)
    ensures CountOk(Apply(s, t))
  {
    hide HistoryOk, ProducerOk, RingOk;
  }

  lemma FinishKeepsHistory(s: State, m: Msg)
    requires Inv(s) && s.producer.Decoding?
    ensures HistoryOk(Apply(s, Finish(m)))
  {
    hide Accepted, Networked, RingOk, CountOk, Contents, Own, PubOk;
    MarkAppends(s.marks, Mark(m, s.producer.seen, s.producer.netUp));
    var s1 := Apply(s, Finish(m));
    assert s.published + [] == s.published;
    assert Pending(s1.producer) == if s.producer.room.Some? then [m] else [];
  }

  lemma RaiseKeepsHistory(s: State)
    requires Inv(s) && Enabled(s, RaiseCount)
    ensures HistoryOk(Apply(s, RaiseCount))
  {
    hide RingOk, CountOk, Accepted, Networked;
    assert s.writeIdx < RING_SIZE;
    var p, e, n := s.producer, Before(s.writeIdx), |s.published| - |s.recent|;
    var pub := Pub(p.msg, p.slot, e, s.slots[e], p.wiped);
    assert PubOk(pub);
    hide PubOk, ProducerOk;
    assert s.published + [p.msg] + [] == s.published + [p.msg];
    assert Contents(s.recent + [pub]) == Contents(s.recent) + [pub.content];
    assert Own(s.recent + [pub]) == Own(s.recent) + [p.msg];
    assert (s.published + [p.msg])[n..] == s.published[n..] + [p.msg];
    assert s.consumed + s.queue + [pub.content] == s.consumed + (s.queue + [pub.content]);
  }

  lemma StepKeepsHistory(s: State, t: Step)
    requires Inv(s) && Enabled(s, t)
    ensures HistoryOk(Apply(s, t))
  {
    if t.Finish? {
      FinishKeepsHistory(s, t.whole);
    } else if t.RaiseCount? {
      RaiseKeepsHistory(s);
    } else if t.Drain? {
      DrainKeepsHistory(s, t.k);
    } else if t.ResetCount? {
      ResetKeepsHistory(s);
    } else {
      QuietStep(s, t);
      hide Apply, RingOk, ProducerOk, CountOk, Accepted, Networked, PubOk, Own, Contents, Pending;
    }
  }

  lemma DrainKeepsHistory(s: State, k: nat)
    requires Inv(s) && Enabled(s, Drain(k))
    ensures HistoryOk(Apply(s, Drain(k)))
  {
    hide RingOk, ProducerOk, CountOk, Accepted, Networked, PubOk, Own, Contents;
    assert s.queue == s.queue[..k] + s.queue[k..];
    assert s.consumed + s.queue == s.consumed + s.queue[..k] + s.queue[k..];
  }

  lemma ResetKeepsHistory(s: State)
    requires Inv(s) && Enabled(s, ResetCount)
    ensures HistoryOk(Apply(s, ResetCount))
  {
    hide RingOk, ProducerOk, CountOk, Accepted, Networked, PubOk;
    assert s.published[|s.published|..] == [];
  }

  /** The other steps leave the history as it is. */
  lemma QuietStep(s: State, t: Step)
    requires Inv(s) && Enabled(s, t) && !t.Finish? && !t.RaiseCount? && !t.Drain? && !t.ResetCount?
    ensures var u := Apply(s, t);
            && u.marks == s.marks && u.net == s.net
            && u.published == s.published && Pending(u.producer) == Pending(s.producer)
            && u.queue == s.queue && u.recent == s.recent && u.consumed == s.consumed
            && (u.phase.IndexReset? || !s.phase.IndexReset?)
  {
    hide RingOk, HistoryOk, CountOk;
  }

  lemma MarkAppends(marks: seq<Mark>, m: Mark)
    ensures Accepted(marks + [m]) == Accepted(marks) + (if m.Accepted() then [m.msg] else [])
    ensures Networked(marks + [m]) == Networked(marks) + (if m.netUp then [m.msg] else [])
  {
    assert (marks + [m])[..|marks|] == marks;
  }

  lemma StepKeepsInv(s: State, t: Step)
    requires Inv(s) && Enabled(s, t)
    ensures Inv(Apply(s, t))
  {
    StepKeepsRing(s, t);
    StepKeepsProducer(s, t);
    StepKeepsHistory(s, t);
    StepKeepsCount(s, t);
  }

  /** The ring keeps its invariant over every interleaving of the producer's
      steps, drains of any size, closings, and openings store by store. */
  lemma {:induction false} RingRefinesFifo(s: State, steps: seq<Step>, t: State)
    requires Inv(s) && Reaches(s, steps, t)
    ensures Inv(t)
    decreases |steps|
  {
    hide Apply, Enabled, Inv;
    if steps != [] {
      StepKeepsInv(s, steps[0]);
      RingRefinesFifo(Apply(s, steps[0]), steps[1..], t);
    }
  }

  lemma InitInv(s: State)
    requires Init(s)
    ensures Inv(s)
  {
  }

  /** In every reachable state: what readers have taken and what is visible in the
      ring are together what the publications since the last reset have shown, in
      order; and the slot the producer holds is not a visible one, although
      fullness was tested before the lock was taken. */
  lemma EveryInterleaving(s: State, steps: seq<Step>, t: State)
    requires Init(s) && Reaches(s, steps, t)
    ensures |t.slots| == RING_SIZE && t.writeIdx < RING_SIZE && t.unread <= RING_SIZE
    ensures HeldSlot(t.producer).Some? ==> t.unread < RING_SIZE
    ensures !t.phase.IndexReset? ==>
              && t.consumed + Unread(t.slots, Top(t), t.unread) == Contents(t.recent)
              && (HeldSlot(t.producer).Some? ==>
                    forall i :: 0 <= i < t.unread ==> SlotAt(Top(t), t.unread, i) != HeldSlot(t.producer).value)
  {
    InitInv(s);
    RingRefinesFifo(s, steps, t);
    hide CountOk, Unread, Contents, Own, PubOk;
  }

  // ---- When the ring is a FIFO ----

  /** How much of open's reset has fallen between the first two stores of the
      publication under way, if one is there. */
  datatype Between = Outside | Begun(slot: nat) | IndexIn(slot: nat) | BothIn(slot: nat)

  function Onward(b: Between, t: Step): Between {
    match t
    case StoreIndex(slot) => Begun(slot)
    case ResetIndex => if b.Outside? then b else IndexIn(b.slot)
    case ResetCount => if b.IndexIn? then BothIn(b.slot) else b
    case RaiseCount => Outside
    case _ => b
  }

  /** Somewhere in the run open stores both index and count, in this order,
      between the first two stores of a publication to a slot other than the last. */
  predicate Straddles(steps: seq<Step>, b: Between)
    decreases |steps|
  {
    steps != []
    && ((steps[0].RaiseCount? && b.BothIn? && b.slot != RING_SIZE - 1) || Straddles(steps[1..], Onward(b, steps[0])))
  }

  function Where(s: State): Between {
    if !s.producer.Indexed? then Outside
    else if !s.producer.wiped then Begun(s.producer.slot)
    else if s.phase.IndexReset? then IndexIn(s.producer.slot)
    else BothIn(s.producer.slot)
  }

  /** Every publication since the last reset made its own slot visible. */
  predicate OwnShown(s: State) {
    !s.phase.IndexReset? ==> forall i :: 0 <= i < |s.recent| ==> s.recent[i].shown == s.recent[i].slot
  }

  ghost predicate AlwaysOwnShown(s: State, steps: seq<Step>, t: State)
    requires Reaches(s, steps, t)
    decreases |steps|
  {
    OwnShown(s) && (steps == [] || AlwaysOwnShown(Apply(s, steps[0]), steps[1..], t))
  }

  lemma StepShows(s: State, t: Step)
    requires Inv(s) && Enabled(s, t) && OwnShown(s)
    ensures var away := t.RaiseCount? && Where(s).BothIn? && Where(s).slot != RING_SIZE - 1;
            OwnShown(Apply(s, t)) <==> !away
    ensures Where(Apply(s, t)) == Onward(Where(s), t)
  {
    hide RingOk, HistoryOk, CountOk;
    if t.RaiseCount? && !s.phase.IndexReset? {
      var u := Apply(s, t);
      assert u.recent[|s.recent|].shown == u.recent[|s.recent|].slot <==>
        !(s.producer.wiped && s.producer.slot != RING_SIZE - 1);
    }
  }

  /** Along any run every publication shows the slot it has filled, if and only if
      the first two stores of open never both fall between the first two stores of
      one publication, to a slot other than the last. */
  lemma {:induction false} OwnShownExactly(s: State, steps: seq<Step>, t: State)
    requires Inv(s) && OwnShown(s) && Reaches(s, steps, t)
    ensures AlwaysOwnShown(s, steps, t) <==> !Straddles(steps, Where(s))
    decreases |steps|
  {
    hide Apply, Enabled, Inv, OwnShown, Where, Onward;
    if steps != [] {
      StepKeepsInv(s, steps[0]);
      StepShows(s, steps[0]);
      if OwnShown(Apply(s, steps[0])) {
        OwnShownExactly(Apply(s, steps[0]), steps[1..], t);
      }
    }
  }

  lemma {:induction false} AtTheEnd(s: State, steps: seq<Step>, t: State)
    requires Reaches(s, steps, t) && AlwaysOwnShown(s, steps, t)
    ensures OwnShown(t)
    decreases |steps|
  {
    hide Apply, Enabled, OwnShown;
    if steps != [] {
      AtTheEnd(Apply(s, steps[0]), steps[1..], t);
    }
  }

  /** So on every such run the ring is a FIFO: readers have taken, and the ring
      holds, exactly the last frames published, in order. */
  lemma Fifo(s: State, steps: seq<Step>, t: State)
    requires Init(s) && Reaches(s, steps, t) && !Straddles(steps, Outside) && !t.phase.IndexReset?
    ensures |t.slots| == RING_SIZE && t.writeIdx < RING_SIZE && t.unread <= RING_SIZE
    ensures var taken := t.consumed + Unread(t.slots, Top(t), t.unread);
            |taken| <= |t.published| && taken == t.published[|t.published| - |taken|..]
  {
    InitInv(s);
    OwnShownExactly(s, steps, t);
    AtTheEnd(s, steps, t);
    RingRefinesFifo(s, steps, t);
    assert forall i :: 0 <= i < |t.recent| ==> PubOk(t.recent[i]);
    assert Contents(t.recent) == Own(t.recent);
  }

  function Messages(marks: seq<Mark>): seq<Msg> {
    seq(|marks|, i requires 0 <= i < |marks| => marks[i].msg)
  }

  /** The decoded frames less those that met a full ring. */
  function NotMetFull(marks: seq<Mark>): seq<Msg> {
    if marks == [] then [] else
    var m := marks[|marks| - 1];
    NotMetFull(marks[..|marks| - 1]) + (if m.seen == Some(RING_SIZE) then [] else [m.msg])
  }

  lemma {:induction false} UpAndOpen(marks: seq<Mark>)
    requires forall i :: 0 <= i < |marks| ==> marks[i].netUp && marks[i].seen.Some? && marks[i].seen.value <= RING_SIZE
    ensures Networked(marks) == Messages(marks) && Accepted(marks) == NotMetFull(marks)
  {
    if marks != [] {
      UpAndOpen(marks[..|marks| - 1]);
    }
  }

  /** While the network is up and the device open, every decoded frame has gone
      to the network once and in order, and the frames queued, with the one
      about to be, are the decoded ones less those whose producer sampled 8. */
  lemma DualDelivery(s: State, steps: seq<Step>, t: State)
    requires Init(s) && Reaches(s, steps, t)
    requires forall i :: 0 <= i < |t.marks| ==> t.marks[i].netUp && t.marks[i].seen.Some?
    ensures t.net == Messages(t.marks)
    ensures t.published + Pending(t.producer) == NotMetFull(t.marks)
  {
    InitInv(s);
    RingRefinesFifo(s, steps, t);
    UpAndOpen(t.marks);
  }

  // ---- The packet counter ----

  /** On an open device, with no publication holding the lock, rx_packets is too
      small by the frames raised after open's second store and counted before its
      third, unless the third was undone; it is too large by a frame raised before
      the second store and counted after the third, and, if the third was undone,
      by all that was counted before the second and by a frame raised before the
      second and counted between the two. It is never both. */
  lemma PacketsCounted(s: State, steps: seq<Step>, t: State)
    requires Init(s) && Reaches(s, steps, t) && t.phase.Open? && !t.producer.Locks()
    ensures t.packets + Shortfall(t.tally) == |t.consumed| + t.unread + Excess(t.tally)
    ensures t.packets == |t.consumed| + t.unread <==> Shortfall(t.tally) == Excess(t.tally) == 0
    ensures t.packets < |t.consumed| + t.unread <==> Shortfall(t.tally) > 0
    ensures t.packets > |t.consumed| + t.unread <==> Excess(t.tally) > 0
    ensures t.tally.lostEarly + t.tally.lostLate <= 1
  {
    InitInv(s);
    RingRefinesFifo(s, steps, t);
    hide PubOk, Own;
    assert |Contents(t.recent)| == |t.consumed| + |t.queue|;
  }

  // ---- Runs that show each failure ----

  lemma Extend(s: State, steps: seq<Step>, t: State, x: Step) returns (r: seq<Step>, u: State)
    requires Reaches(s, steps, t) && Enabled(t, x)
    ensures r == steps + [x] && u == Apply(t, x) && Reaches(s, r, u)
    decreases |steps|
  {
    hide Apply, Enabled;
    r, u := steps + [x], Apply(t, x);
    if steps == [] {
      assert r[1..] == [];
    } else {
      var r1, u1 := Extend(Apply(s, steps[0]), steps[1..], t, x);
      assert r[1..] == r1;
    }
  }

  /** A first frame copied to its slot just as the device is being opened. */
  lemma FirstCopied(s: State, m: Msg) returns (r: seq<Step>, t: State)
    requires Init(s)
    ensures Reaches(s, r, t) && t.phase.Opening? && t.producer == Copied(m, 0)
    ensures t.slots == s.slots[0 := m] && t.writeIdx == t.unread == t.packets == 0
    ensures t.consumed == [] && t.queue == [] && t.published == []
  {
    r, t := [], s;
    r, t := Extend(s, r, t, BeginOpen);
    r, t := Extend(s, r, t, SampleCount);
    r, t := Extend(s, r, t, SampleIndex(true, true));
    r, t := Extend(s, r, t, Finish(m));
    r, t := Extend(s, r, t, Copy);
    hide Reaches;
  }

  /** Open's index and count between index and count of a publication: the device
      is open with one unread frame, and it is not the one published. */
  lemma StaleFrameShown(s: State, m: Msg)
    requires Init(s)
    ensures exists steps, t :: Reaches(s, steps, t) && t.phase.Open? && t.producer.Idle? && t.published == [m]
              && |t.slots| == RING_SIZE && t.writeIdx == 0 && t.unread == 1
              && Unread(t.slots, 0, 1) == [s.slots[RING_SIZE - 1]]
  {
    var r, t := FirstStraddled(s, m);
    r, t := FinishOpen(s, r, t);
    hide Reaches, Unread;
    OneVisible(t.slots);
  }

  lemma FinishOpen(s: State, steps: seq<Step>, t: State) returns (r: seq<Step>, u: State)
    requires Reaches(s, steps, t) && t.phase.CountReset? && t.producer.Raised?
    ensures Reaches(s, r, u) && u.phase.Open? && u.producer.Idle?
    ensures u.slots == t.slots && u.writeIdx == t.writeIdx && u.unread == t.unread && u.published == t.published
  {
    hide Reaches;
    r, u := Extend(s, steps, t, LoadPackets);
    r, u := Extend(s, r, u, StorePackets);
    r, u := Extend(s, r, u, ResetPackets);
  }

  lemma FirstStraddled(s: State, m: Msg) returns (r: seq<Step>, t: State)
    requires Init(s)
    ensures Reaches(s, r, t) && t.phase.CountReset? && t.producer.Raised? && t.published == [m]
    ensures t.slots == s.slots[0 := m] && t.writeIdx == 0 && t.unread == 1
  {
    hide Reaches;
    r, t := FirstCopied(s, m);
    r, t := Extend(s, r, t, StoreIndex(0));
    r, t := Extend(s, r, t, ResetIndex);
    r, t := Extend(s, r, t, ResetCount);
    r, t := Extend(s, r, t, RaiseCount);
  }

  lemma OneVisible(slots: seq<Msg>)
    requires |slots| == RING_SIZE
    ensures Unread(slots, 0, 1) == [slots[RING_SIZE - 1]]
  {
    assert SlotAt(0, 1, 0) == RING_SIZE - 1;
  }

  /** A frame raised and counted between open's last two stores: one too few. */
  lemma PacketsCanRunShort(s: State, m: Msg)
    requires Init(s)
    ensures exists steps, t :: Reaches(s, steps, t) && t.phase.Open? && t.producer.Idle?
              && t.packets == 0 && t.unread == 1
  {
    var r, t := FirstCopied(s, m);
    hide Reaches;
    r, t := Extend(s, r, t, ResetIndex);
    r, t := Extend(s, r, t, ResetCount);
    r, t := Extend(s, r, t, StoreIndex(0));
    r, t := Extend(s, r, t, RaiseCount);
    r, t := Extend(s, r, t, LoadPackets);
    r, t := Extend(s, r, t, StorePackets);
    r, t := Extend(s, r, t, ResetPackets);
  }

  /** All of open between the raise and the count of a publication: one too many. */
  lemma PacketsCanRunOver(s: State, m: Msg)
    requires Init(s)
    ensures exists steps, t :: Reaches(s, steps, t) && t.phase.Open? && t.producer.Idle?
              && t.packets == 1 && t.unread == 0 && t.consumed == []
  {
    var r, t := FirstCopied(s, m);
    hide Reaches;
    r, t := Extend(s, r, t, StoreIndex(0));
    r, t := Extend(s, r, t, RaiseCount);
    r, t := Extend(s, r, t, ResetIndex);
    r, t := Extend(s, r, t, ResetCount);
    r, t := Extend(s, r, t, ResetPackets);
    r, t := Extend(s, r, t, LoadPackets);
    r, t := Extend(s, r, t, StorePackets);
  }

  /** Open's third store between load and store of an increment: it is undone, and
      the count of the session before stays in. */
  lemma PacketsCanKeepOldCount(s: State, m: Msg)
    requires Init(s)
    ensures exists steps, t :: Reaches(s, steps, t) && t.phase.Open? && t.producer.Idle?
              && t.packets == 2 && t.unread == 1 && t.consumed == []
  {
    var r, t := OneSession(s, m);
    r, t := SecondRaised(s, r, t, m);
    hide Reaches;
    r, t := Extend(s, r, t, LoadPackets);
    r, t := Extend(s, r, t, ResetPackets);
    r, t := Extend(s, r, t, StorePackets);
  }

  /** A first session with one frame, closed again. */
  lemma OneSession(s: State, m: Msg) returns (r: seq<Step>, t: State)
    requires Init(s)
    ensures Reaches(s, r, t) && t.phase.Closed? && t.producer.Idle? && t.packets == 1 && |t.slots| == RING_SIZE
  {
    r, t := FirstCopied(s, m);
    hide Reaches;
    r, t := Extend(s, r, t, ResetIndex);
    r, t := Extend(s, r, t, ResetCount);
    r, t := Extend(s, r, t, ResetPackets);
    r, t := Extend(s, r, t, StoreIndex(0));
    r, t := Extend(s, r, t, RaiseCount);
    r, t := Extend(s, r, t, LoadPackets);
    r, t := Extend(s, r, t, StorePackets);
    r, t := Extend(s, r, t, Close);
  }

  /** A second open up to its second store, and a frame raised then. */
  lemma SecondRaised(s: State, steps: seq<Step>, t: State, m: Msg) returns (r: seq<Step>, u: State)
    requires Reaches(s, steps, t) && t.phase.Closed? && t.producer.Idle? && |t.slots| == RING_SIZE
    ensures Reaches(s, r, u) && u.phase.CountReset? && u.producer == Raised(false)
    ensures u.packets == t.packets && u.unread == 1 && u.consumed == []
  {
    hide Reaches;
    r, u := Extend(s, steps, t, BeginOpen);
    r, u := Extend(s, r, u, ResetIndex);
    r, u := Extend(s, r, u, ResetCount);
    r, u := Extend(s, r, u, SampleCount);
    r, u := Extend(s, r, u, SampleIndex(true, true));
    r, u := Extend(s, r, u, Finish(m));
    r, u := Extend(s, r, u, Copy);
    r, u := Extend(s, r, u, StoreIndex(0));
    r, u := Extend(s, r, u, RaiseCount);
  }
}
