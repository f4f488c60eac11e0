/** The transmit side of the network interface: ten URB contexts, a count of
    active ones and a queue that is stopped and woken. */
module TxQueue {
  import opened Words
  import opened Sums

  /** Transmit contexts of the network half. */
  const MAX_TX: nat := 10

  datatype TxStatus = TxOk | TxBusy

  /** Outcome of usb_submit_urb: taken, or refused because the device is gone,
      because the cable is, or for another reason. */
  datatype Submitted = Taken | NoDevice | Unplugged | Failed

  /** What a transmit request finds, and the length of its frame. */
  datatype Request = Request(listenOnly: bool, invalid: bool, submitted: Submitted, len: nat)

  /** The contexts and the kernel's echo slots, which hold the frames in flight
      (here their lengths); the queue; and the statistics, with the counter
      (`shared`) that the encoder writes into messages. */
  datatype Tx = Tx(echo: seq<nat>, slots: seq<Option<nat>>, active: int, awake: bool, present: bool,
                   dropped: nat, sent: nat, bytes: nat, shared: nat)

  predicate Busy(e: nat) { e != 0 }

  /** The first context whose echo index is zero. */
  function FirstFree(echo: seq<nat>): (r: Option<nat>)
    ensures r.Some? ==> r.value < |echo| && echo[r.value] == 0 && forall j :: 0 <= j < r.value ==> echo[j] != 0
    ensures r.None? ==> forall j :: 0 <= j < |echo| ==> echo[j] != 0
  {
    FirstFreeFrom(echo, 0)
  }

  function FirstFreeFrom(echo: seq<nat>, i: nat): (r: Option<nat>)
    requires i <= |echo|
    ensures r.Some? ==> i <= r.value < |echo| && echo[r.value] == 0 && forall j :: i <= j < r.value ==> echo[j] != 0
    ensures r.None? ==> forall j :: i <= j < |echo| ==> echo[j] != 0
    decreases |echo| - i
  {
    if i == |echo| then None else if echo[i] == 0 then Some(i) else FirstFreeFrom(echo, i + 1)
  }

  /** pcan_net_start_transmit as one step. */
  function StartTransmit(t: Tx, r: Request): (TxStatus, Tx) {
    if r.listenOnly then (TxOk, t.(dropped := t.dropped + 1))
    else if r.invalid then (TxOk, t)
    else
      var i := FirstFree(t.echo);
      if i.None? then (TxBusy, t) else (TxOk, SubmitFrom(t, i.value, r))
  }

  /** From the choice of a free context on. */
  function SubmitFrom(t: Tx, i: nat, r: Request): Tx
    requires i < |t.echo|
  {
    match r.submitted
    case Taken =>
      t.(echo := t.echo[i := i + 1], slots := PutEcho(t.slots, i, r.len),
         active := t.active + 1, awake := t.awake && t.active + 1 < MAX_TX)
    case NoDevice => t.(slots := FreeEchoSlot(t.slots, i), present := false)
    case _ => t.(slots := FreeEchoSlot(t.slots, i), dropped := t.dropped + 1)
  }

  /** The kernel stores a frame only in an empty slot. */
  function PutEcho(slots: seq<Option<nat>>, i: nat, len: nat): (r: seq<Option<nat>>)
    ensures |r| == |slots|
  {
    if i < |slots| && slots[i].None? then slots[i := Some(len)] else slots
  }

  function FreeEchoSlot(slots: seq<Option<nat>>, i: nat): (r: seq<Option<nat>>)
    ensures |r| == |slots|
  {
    if i < |slots| then slots[i := None] else slots
  }

  /** The length of the frame a context's echo index names, 0 if there is none. */
  function EchoLen(t: Tx, i: nat): nat
    requires i < |t.echo|
  {
    if 0 < t.echo[i] <= |t.slots| && t.slots[t.echo[i] - 1].Some? then t.slots[t.echo[i] - 1].value else 0
  }

  /** usb_write_bulk_callback as one step, for the context `i`. */
  function Complete(t: Tx, i: nat, ok: bool): Tx
    requires i < |t.echo|
  {
    var t1 := t.(active := t.active - 1);
    if !t.present then t1
    else
      var t2 := t1.(echo := t.echo[i := 0],
                    slots := if t.echo[i] > 0 then FreeEchoSlot(t.slots, t.echo[i] - 1) else t.slots);
      if ok
      then t2.(sent := t.sent + 1, bytes := t.bytes + EchoLen(t, i), shared := t.shared + 1, awake := true)
      else t2
  }

  datatype Step = Transmit(r: Request) | Done(i: nat, ok: bool) | RestartWake

  /** The stack transmits only while the queue is awake, and only a submitted
      context completes. */
  predicate Enabled(t: Tx, s: Step) {
    match s
    case Transmit(r) => t.awake && t.present
    case Done(i, _) => i < |t.echo| && t.echo[i] != 0
    case RestartWake => true
  }

  function Apply(t: Tx, s: Step): Tx
    requires Enabled(t, s)
  {
    match s
    case Transmit(r) => StartTransmit(t, r).1
    case Done(i, ok) => Complete(t, i, ok)
    case RestartWake => t.(awake := true)
  }

  ghost predicate Reaches(t: Tx, ss: seq<Step>, u: Tx)
    decreases |ss|
  {
    if ss == [] then t == u else Enabled(t, ss[0]) && Reaches(Apply(t, ss[0]), ss[1..], u)
  }

  const ALL_FREE: seq<nat> := [0, 0, 0, 0, 0, 0, 0, 0, 0, 0]
  const ALL_EMPTY: seq<Option<nat>> := [None, None, None, None, None, None, None, None, None, None]

  /** As the interface comes up: contexts free and the queue started. */
  predicate Init(t: Tx) {
    t == Tx(ALL_FREE, ALL_EMPTY, 0, true, true, 0, 0, 0, 0)
  }

  /** The counter is the number of busy contexts, each has a frame in its own echo
      slot and no other slot is taken. */
  predicate Core(t: Tx) {
    && |t.echo| == |t.slots| == MAX_TX
    && (forall i :: 0 <= i < MAX_TX ==> t.echo[i] == 0 || t.echo[i] == i + 1)
    && (forall i :: 0 <= i < MAX_TX ==> (t.slots[i].Some? <==> t.echo[i] != 0))
    && t.active == CountIf(t.echo, Busy)
    && t.shared == t.sent
  }

  /** And an awake queue has a free context, which a restart wake may break. */
  predicate Inv(t: Tx) {
    Core(t) && (t.awake ==> t.active < MAX_TX)
  }

  lemma InitInv(t: Tx)
    requires Init(t)
    ensures Inv(t)
  {
    CountAll(t.echo, Busy);
  }

  lemma StepKeepsCore(t: Tx, s: Step)
    requires Core(t) && Enabled(t, s) && t.present
    ensures Core(Apply(t, s))
  {
    hide CountIf;
    match s
    case Transmit(r) =>
      var i := FirstFree(t.echo);
      if i.Some? {
        CountUpdate(t.echo, i.value, i.value + 1, Busy);
      }
    case Done(i, ok) => CountUpdate(t.echo, i, 0, Busy);
    case RestartWake =>
  }

  lemma StepKeepsInv(t: Tx, s: Step)
    requires Inv(t) && Enabled(t, s) && t.present && !s.RestartWake?
    ensures Inv(Apply(t, s))
    ensures s.Transmit? ==> StartTransmit(t, s.r).0 == TxOk
  {
    StepKeepsCore(t, s);
    hide CountIf;
    CountAll(t.echo, Busy);
    if s.Done? {
      CountUpdate(t.echo, s.i, 0, Busy);
    }
  }

  /** Without restart wakes and until the device goes, the invariant survives
      every run of submits, refusals and completions in any order, so the next
      transmit never finds all contexts taken. */
  lemma {:induction false} NeverBusy(t: Tx, ss: seq<Step>, u: Tx, r: Request)
    requires Inv(t) && t.present && Reaches(t, ss, u) && u.present && u.awake
    requires forall k :: 0 <= k < |ss| ==> !ss[k].RestartWake?
    ensures Inv(u) && StartTransmit(u, r).0 == TxOk
    decreases |ss|
  {
    if ss == [] {
      StepKeepsInv(u, Transmit(r));
    } else {
      StepKeepsInv(t, ss[0]);
      var t1 := Apply(t, ss[0]);
      if !t1.present {
        StaysAbsent(t1, ss[1..], u);
      }
      NeverBusy(t1, ss[1..], u, r);
    }
  }

  lemma {:induction false} StaysAbsent(t: Tx, ss: seq<Step>, u: Tx)
    requires Reaches(t, ss, u) && !t.present
    ensures !u.present
    decreases |ss|
  {
    if ss != [] {
      StaysAbsent(Apply(t, ss[0]), ss[1..], u);
    }
  }

  /** A transmit is refused exactly when every context is taken, whatever has woken
      the queue; a restart wake is what lets the stack try then. */
  lemma BusyExactly(t: Tx, r: Request)
    requires Core(t) && !r.listenOnly && !r.invalid
    ensures StartTransmit(t, r).0 == TxBusy <==> t.active == MAX_TX
    ensures StartTransmit(t, r).0 == TxBusy ==> (Inv(t) <==> !t.awake)
    ensures t.active == MAX_TX ==>
              Apply(t, RestartWake).awake && StartTransmit(Apply(t, RestartWake), r).0 == TxBusy
  {
    CountAll(t.echo, Busy);
  }

  /** That is no idle case: ten submissions and a restart lead to it. */
  lemma BusyAfterRestart(t: Tx, r: Request)
    requires Init(t) && !r.listenOnly && !r.invalid && r.submitted.Taken?
    ensures exists ss, u :: Reaches(t, ss, u) && u.awake && u.present && StartTransmit(u, r).0 == TxBusy
  {
    InitInv(t);
    var ss, u := Submissions(t, r, MAX_TX);
    CountAll(u.echo, Busy);
    ss, u := Later(t, ss, u, RestartWake);
    hide Reaches;
  }

  lemma {:induction false} Submissions(t: Tx, r: Request, k: nat) returns (ss: seq<Step>, u: Tx)
    requires Init(t) && !r.listenOnly && !r.invalid && r.submitted.Taken? && k <= MAX_TX
    ensures Reaches(t, ss, u) && Inv(u) && u.present && u.active == k && (k < MAX_TX ==> u.awake)
  {
    InitInv(t);
    ss, u := [], t;
    if k > 0 {
      ss, u := Submissions(t, r, k - 1);
      CountAll(u.echo, Busy);
      StepKeepsInv(u, Transmit(r));
      ss, u := Later(t, ss, u, Transmit(r));
      hide Reaches, CountIf;
    }
  }

  lemma Later(t: Tx, ss: seq<Step>, u: Tx, s: Step) returns (r: seq<Step>, v: Tx)
    requires Reaches(t, ss, u) && Enabled(u, s)
    ensures r == ss + [s] && v == Apply(u, s) && Reaches(t, r, v)
    decreases |ss|
  {
    hide Apply, Enabled;
    r, v := ss + [s], Apply(u, s);
    if ss == [] {
      assert r[1..] == [];
    } else {
      var r1, v1 := Later(Apply(t, ss[0]), ss[1..], u, s);
      assert r[1..] == r1;
    }
  }

  /** Only a successful completion, or a restart, wakes the queue: failed
      completions free every context and leave it stopped. */
  lemma {:induction false} FailuresNeverWake(t: Tx, ss: seq<Step>, u: Tx)
    requires Reaches(t, ss, u) && !t.awake
    requires forall k :: 0 <= k < |ss| ==> ss[k].Done? && !ss[k].ok
    ensures !u.awake && u.sent == t.sent
    decreases |ss|
  {
    if ss != [] {
      FailuresNeverWake(Apply(t, ss[0]), ss[1..], u);
    }
  }

  function Len(slot: Option<nat>): nat {
    if slot.Some? then slot.value else 0
  }

  /** Bytes of the frames in the slots. */
  function InSlots(slots: seq<Option<nat>>): nat {
    if slots == [] then 0 else
    InSlots(slots[..|slots| - 1]) + Len(slots[|slots| - 1])
  }

  lemma {:induction false} SlotsUpdate(slots: seq<Option<nat>>, i: nat, x: Option<nat>)
    requires i < |slots|
    ensures InSlots(slots[i := x]) == InSlots(slots) - Len(slots[i]) + Len(x)
  {
    var n := |slots| - 1;
    if i < n {
      SlotsUpdate(slots[..n], i, x);
      assert slots[i := x][..n] == slots[..n][i := x];
    } else {
      assert slots[i := x][..n] == slots[..n];
    }
  }

  /** Bytes of the frame a step hands to the adapter. */
  function Taken(t: Tx, s: Step): nat {
    if s.Transmit? && !s.r.listenOnly && !s.r.invalid && FirstFree(t.echo).Some? && s.r.submitted.Taken?
    then s.r.len else 0
  }

  /** Bytes of the frame a failed completion gives up. */
  function GivenUp(t: Tx, s: Step): nat {
    if s.Done? && !s.ok && s.i < |t.echo| then EchoLen(t, s.i) else 0
  }

  function TakenOver(t: Tx, ss: seq<Step>, u: Tx): nat
    requires Reaches(t, ss, u)
    decreases |ss|
  {
    if ss == [] then 0 else Taken(t, ss[0]) + TakenOver(Apply(t, ss[0]), ss[1..], u)
  }

  function GivenUpOver(t: Tx, ss: seq<Step>, u: Tx): nat
    requires Reaches(t, ss, u)
    decreases |ss|
  {
    if ss == [] then 0 else GivenUp(t, ss[0]) + GivenUpOver(Apply(t, ss[0]), ss[1..], u)
  }

  lemma StepBalances(t: Tx, s: Step)
    requires Core(t) && Enabled(t, s) && t.present
    ensures var u := Apply(t, s);
            u.bytes + GivenUp(t, s) + InSlots(u.slots) == t.bytes + Taken(t, s) + InSlots(t.slots)
  {
    hide InSlots, CountIf;
    match s
    case Transmit(r) =>
      var i := FirstFree(t.echo);
      if i.Some? {
        SlotsUpdate(t.slots, i.value, Some(r.len));
        SlotsUpdate(t.slots, i.value, None);
      }
    case Done(i, ok) =>
      SlotsUpdate(t.slots, i, None);
    case RestartWake =>
  }

  /** While the device stays, every byte the adapter has taken is counted as sent
      once, was given up by a failed completion, or is still in an echo slot. */
  lemma {:induction false} BytesAccounted(t: Tx, ss: seq<Step>, u: Tx)
    requires Core(t) && t.present && Reaches(t, ss, u) && u.present
    ensures u.bytes + GivenUpOver(t, ss, u) + InSlots(u.slots) == t.bytes + TakenOver(t, ss, u) + InSlots(t.slots)
    decreases |ss|
  {
    hide Core, Enabled, Apply, Taken, GivenUp, InSlots;
    if ss != [] {
      var t1 := Apply(t, ss[0]);
      if !t1.present {
        StaysAbsent(t1, ss[1..], u);
      }
      StepKeepsCore(t, ss[0]);
      StepBalances(t, ss[0]);
      BytesAccounted(t1, ss[1..], u);
    }
  }

  /** How often each thing has happened in a run: frames completed successfully on
      an attached interface, frames dropped (in listen-only mode, or refused by an
      adapter that is not gone), and refusals by an adapter that is. */
  datatype Counts = Counts(sent: nat, dropped: nat, gone: nat) {
    function Plus(c: Counts): Counts {
      Counts(sent + c.sent, dropped + c.dropped, gone + c.gone)
    }
  }

  function Happens(t: Tx, s: Step): Counts {
    match s
    case Done(_, ok) => Counts(if ok && t.present then 1 else 0, 0, 0)
    case RestartWake => Counts(0, 0, 0)
    case Transmit(r) =>
      if r.listenOnly then Counts(0, 1, 0)
      else if r.invalid || !(exists i :: 0 <= i < |t.echo| && t.echo[i] == 0) then Counts(0, 0, 0)
      else match r.submitted
        case Taken => Counts(0, 0, 0)
        case NoDevice => Counts(0, 0, 1)
        case _ => Counts(0, 1, 0)
  }

  function HappensOver(t: Tx, ss: seq<Step>, u: Tx): Counts
    requires Reaches(t, ss, u)
    decreases |ss|
  {
    if ss == [] then Counts(0, 0, 0) else Happens(t, ss[0]).Plus(HappensOver(Apply(t, ss[0]), ss[1..], u))
  }

  lemma StepTallies(t: Tx, s: Step)
    requires Enabled(t, s)
    ensures var u, c := Apply(t, s), Happens(t, s);
            && u.sent == t.sent + c.sent && u.shared == t.shared + c.sent && u.dropped == t.dropped + c.dropped
            && (u.present <==> t.present && c.gone == 0)
  {
    hide PutEcho, FreeEchoSlot, EchoLen;
    if s.Transmit? && !s.r.listenOnly && !s.r.invalid {
      var i := FirstFree(t.echo);
      assert i.Some? <==> exists i :: 0 <= i < |t.echo| && t.echo[i] == 0;
    }
  }

  /** Over any run the statistics and the counter the encoder writes are these
      tallies, and the interface is detached exactly after a refusal by a gone adapter. */
  lemma {:induction false} Tallied(t: Tx, ss: seq<Step>, u: Tx)
    requires Reaches(t, ss, u)
    ensures var c := HappensOver(t, ss, u);
            && u.sent == t.sent + c.sent && u.shared == t.shared + c.sent && u.dropped == t.dropped + c.dropped
            && (u.present <==> t.present && c.gone == 0)
    decreases |ss|
  {
    hide Apply, Enabled, Happens;
    if ss != [] {
      StepTallies(t, ss[0]);
      Tallied(Apply(t, ss[0]), ss[1..], u);
    }
  }

  /** The queue is stopped by exactly the submission that takes the last context, and
      woken by exactly a successful completion or a restart. */
  lemma QueueRule(t: Tx, s: Step)
    requires Inv(t) && Enabled(t, s) && t.present
    ensures var u := Apply(t, s);
            && (t.awake && !u.awake <==>
                  s.Transmit? && t.echo != u.echo && forall i :: 0 <= i < MAX_TX ==> u.echo[i] != 0)
            && (!t.awake && u.awake <==> !t.awake && (s.RestartWake? || (s.Done? && s.ok)))
  {
    StepKeepsCore(t, s);
    CountAll(t.echo, Busy);
    CountAll(Apply(t, s).echo, Busy);
    if s.Transmit? {
      var i := FirstFree(t.echo);
      if i.Some? {
        CountUpdate(t.echo, i.value, i.value + 1, Busy);
        assert t.echo[i.value := i.value + 1] != t.echo;
      }
    }
    hide CountIf, PutEcho, FreeEchoSlot, EchoLen;
  }

  /** Once the interface is detached nothing is submitted, and completions lower the
      counter, each by one, and leave contexts, echoes and statistics as they are. */
  lemma {:induction false} DetachedKeeps(t: Tx, ss: seq<Step>, u: Tx)
    requires Reaches(t, ss, u) && !t.present
    ensures u == t.(active := u.active, awake := u.awake)
    ensures u.active == t.active - Completions(ss)
    decreases |ss|
  {
    if ss != [] {
      DetachedKeeps(Apply(t, ss[0]), ss[1..], u);
    }
  }

  function Completions(ss: seq<Step>): nat {
    if ss == [] then 0 else (if ss[0].Done? then 1 else 0) + Completions(ss[1..])
  }

  // ---- Statement by statement ----

  /** Where a context is: at rest, being submitted, with the USB core, or in its
      completion after the counter was lowered and after the echo was released. */
  datatype Stage = Rest | Submitting | Flying | Lowered | Released

  datatype Context = Context(echo: nat, skb: Option<nat>, stage: Stage)

  /** The submitting call, which the stack serialises. */
  datatype Submitter =
    | Outside
    | Chosen(i: nat)
    | Stored(i: nat)
    | Counted(i: nat)
    | Checking
    | Refused(i: nat)
    | EchoFreed(i: nat)
    | EchoCleared

  /** `made` echoes have been stored so far, numbered from 0; `gone` lists the
      released ones; `wakes` completions have yet to wake the queue. */
  datatype Fine = Fine(ctx: seq<Context>, active: int, awake: bool, wakes: nat,
                       sub: Submitter, made: nat, gone: seq<nat>)

  datatype Move =
    | Choose(i: nat)
    | Store
    | CountUp
    | Submit(ok: bool)
    | Check
    | FreeEcho
    | ClearRefused
    | CountBack
    | CountDown(i: nat)
    | GetEcho(i: nat)
    | Clear(i: nat, ok: bool)
    | Wake
    | Restart

  predicate InStage(f: Fine, i: nat, s: Stage) {
    i < |f.ctx| && f.ctx[i].stage == s
  }

  /** The search reads one context after the other while completions clear them, so
      of the one it chooses only that it is free is known. */
  predicate Possible(f: Fine, m: Move) {
    match m
    case Choose(i) => f.sub.Outside? && f.awake && i < |f.ctx| && f.ctx[i].echo == 0
    case Store => f.sub.Chosen? && f.sub.i < |f.ctx|
    case CountUp => f.sub.Stored?
    case Submit(_) => f.sub.Counted? && f.sub.i < |f.ctx|
    case Check => f.sub.Checking?
    case FreeEcho => f.sub.Refused? && f.sub.i < |f.ctx|
    case ClearRefused => f.sub.EchoFreed? && f.sub.i < |f.ctx|
    case CountBack => f.sub.EchoCleared?
    case CountDown(i) => InStage(f, i, Flying)
    case GetEcho(i) => InStage(f, i, Lowered)
    case Clear(i, _) => InStage(f, i, Released)
    case Wake => f.wakes > 0
    case Restart => true
  }

  /** The echo slot a context names: its index less one. */
  function EchoSlot(f: Fine, i: nat): Option<nat>
    requires i < |f.ctx|
  {
    if 0 < f.ctx[i].echo <= |f.ctx| then Some(f.ctx[i].echo - 1) else None
  }

  /** Releases whatever the slot holds. */
  function Release(f: Fine, slot: Option<nat>): Fine
    requires slot.Some? ==> slot.value < |f.ctx|
  {
    if slot.None? || f.ctx[slot.value].skb.None? then f
    else f.(ctx := f.ctx[slot.value := f.ctx[slot.value].(skb := None)], gone := f.gone + [f.ctx[slot.value].skb.value])
  }

  function SetStage(f: Fine, i: nat, s: Stage): Fine
    requires i < |f.ctx|
  {
    f.(ctx := f.ctx[i := f.ctx[i].(stage := s)])
  }

  function Free(f: Fine, i: nat): Fine
    requires i < |f.ctx|
  {
    f.(ctx := f.ctx[i := f.ctx[i].(echo := 0, stage := Rest)])
  }

  function Do(f: Fine, m: Move): Fine
    requires Possible(f, m)
  {
    match m
    case Choose(i) => f.(ctx := f.ctx[i := f.ctx[i].(echo := i + 1, stage := Submitting)], sub := Chosen(i))
    case Store =>
      var i := f.sub.i;
      f.(ctx := f.ctx[i := f.ctx[i].(skb := Some(f.made))], made := f.made + 1, sub := Stored(i))
    case CountUp => f.(active := f.active + 1, sub := Counted(f.sub.i))
    case Submit(ok) =>
      var i := f.sub.i;
      if ok then SetStage(f, i, Flying).(sub := Checking) else f.(sub := Refused(i))
    case Check => f.(awake := f.awake && f.active < MAX_TX, sub := Outside)
    case FreeEcho => Release(f, EchoSlot(f, f.sub.i)).(sub := EchoFreed(f.sub.i))
    case ClearRefused => Free(f, f.sub.i).(sub := EchoCleared)
    case CountBack => f.(active := f.active - 1, sub := Outside)
    case CountDown(i) => SetStage(f, i, Lowered).(active := f.active - 1)
    case GetEcho(i) => SetStage(Release(f, EchoSlot(f, i)), i, Released)
    case Clear(i, ok) => Free(f, i).(wakes := if ok then f.wakes + 1 else f.wakes)
    case Wake => f.(awake := true, wakes := f.wakes - 1)
    case Restart => f.(awake := true)
  }

  ghost predicate FineReaches(f: Fine, ms: seq<Move>, g: Fine)
    decreases |ms|
  {
    if ms == [] then f == g else Possible(f, ms[0]) && FineReaches(Do(f, ms[0]), ms[1..], g)
  }

  predicate HasEcho(c: Context) { c.echo != 0 }
  predicate IsFlying(c: Context) { c.stage == Flying }
  predicate HoldsSkb(c: Context) { c.skb.Some? }

  /** The context the submitter holds, with whether its echo is stored. */
  function Held(s: Submitter): Option<(nat, bool)> {
    match s
    case Chosen(i) => Some((i, false))
    case Stored(i) => Some((i, true))
    case Counted(i) => Some((i, true))
    case Refused(i) => Some((i, true))
    case EchoFreed(i) => Some((i, false))
    case _ => None
  }

  /** Whether the counter includes the submitter's context, still not flying. */
  function Ahead(s: Submitter): nat {
    if s.Counted? || s.Refused? || s.EchoFreed? || s.EchoCleared? then 1 else 0
  }

  /** The echo index says whether a context is in use, and then names it. */
  predicate StageOk(f: Fine, i: nat)
    requires i < |f.ctx|
  {
    var c := f.ctx[i];
    && (c.echo == if c.stage == Rest then 0 else i + 1)
    && (c.stage == Submitting <==> Held(f.sub).Some? && Held(f.sub).value.0 == i)
  }

  /** An echo is stored exactly between its put and its release. */
  predicate SkbOk(f: Fine, i: nat)
    requires i < |f.ctx|
  {
    var c := f.ctx[i];
    && (c.skb.Some? <==> c.stage == Flying || c.stage == Lowered || Held(f.sub) == Some((i, true)))
    && (c.skb.Some? ==> c.skb.value < f.made && c.skb.value !in f.gone)
  }

  predicate ContextOk(f: Fine, i: nat)
    requires i < |f.ctx|
  {
    StageOk(f, i) && SkbOk(f, i)
  }

  predicate EchoesDistinct(f: Fine) {
    && (forall i, j :: 0 <= i < j < |f.ctx| && f.ctx[i].skb.Some? ==> f.ctx[i].skb != f.ctx[j].skb)
    && (forall i, j :: 0 <= i < j < |f.gone| ==> f.gone[i] != f.gone[j])
    && (forall i :: 0 <= i < |f.gone| ==> f.gone[i] < f.made)
  }

  predicate FineInv(f: Fine) {
    && |f.ctx| == MAX_TX
    && (Held(f.sub).Some? ==> Held(f.sub).value.0 < MAX_TX)
    && (forall i :: 0 <= i < MAX_TX ==> ContextOk(f, i))
    && EchoesDistinct(f)
    && f.active == CountIf(f.ctx, IsFlying) + Ahead(f.sub)
    && |f.gone| + CountIf(f.ctx, HoldsSkb) == f.made
    && (f.sub.EchoCleared? ==> !NoRoom(f))
  }

  /** Every context is in use. */
  predicate NoRoom(f: Fine) {
    forall i :: 0 <= i < |f.ctx| ==> f.ctx[i].echo != 0
  }

  /** The context a move changes. */
  function Touched(f: Fine, m: Move): nat {
    match m
    case Choose(i) => i
    case CountDown(i) => i
    case GetEcho(i) => i
    case Clear(i, _) => i
    case Store => if f.sub.Chosen? then f.sub.i else 0
    case Submit(_) => if f.sub.Counted? then f.sub.i else 0
    case FreeEcho => if f.sub.Refused? then f.sub.i else 0
    case ClearRefused => if f.sub.EchoFreed? then f.sub.i else 0
    case _ => 0
  }

  lemma InvAt(f: Fine, i: nat)
    requires FineInv(f) && i < MAX_TX
    ensures |f.ctx| == MAX_TX && ContextOk(f, i)
    ensures Held(f.sub).Some? ==> Held(f.sub).value.0 < MAX_TX
  {
  }

  /** A context that holds an echo releases its own. */
  lemma ReleasesOwn(f: Fine, i: nat)
    requires FineInv(f) && i < MAX_TX && f.ctx[i].skb.Some?
    ensures EchoSlot(f, i) == Some(i)
    ensures Release(f, EchoSlot(f, i))
         == f.(ctx := f.ctx[i := f.ctx[i].(skb := None)], gone := f.gone + [f.ctx[i].skb.value])
  {
    hide CountIf, EchoesDistinct;
    assert ContextOk(f, i);
  }

  /** The move that releases an echo, if it is one. */
  predicate Releasing(m: Move) {
    m.FreeEcho? || m.GetEcho?
  }

  lemma ReleaseKeepsSkb(f: Fine, m: Move, i: nat)
    requires FineInv(f) && Possible(f, m) && Releasing(m) && i < MAX_TX && |Do(f, m).ctx| == MAX_TX
    ensures SkbOk(Do(f, m), i)
  {
    var t := Touched(f, m);
    assert ContextOk(f, t) && ContextOk(f, i);
    ReleasesOwn(f, t);
    assert i < t || t < i ==> f.ctx[i].skb.Some? ==> f.ctx[i].skb != f.ctx[t].skb;
    hide CountIf, Release, EchoSlot, EchoesDistinct;
  }

  lemma ReleaseKeepsEchoes(f: Fine, m: Move)
    requires FineInv(f) && Possible(f, m) && Releasing(m)
    ensures EchoesDistinct(Do(f, m))
  {
    var t := Touched(f, m);
    assert ContextOk(f, t);
    ReleasesOwn(f, t);
    hide CountIf, Release, EchoSlot;
  }

  lemma MoveKeepsStage(f: Fine, m: Move, i: nat)
    requires FineInv(f) && Possible(f, m) && i < MAX_TX
    ensures var g := Do(f, m);
            && |g.ctx| == MAX_TX
            && (Held(g.sub).Some? ==> Held(g.sub).value.0 < MAX_TX)
            && StageOk(g, i)
  {
    hide FineInv, SkbOk;
    InvAt(f, i);
    InvAt(f, Touched(f, m));
    if Releasing(m) {
      ReleaseKeepsStages(f, m);
      hide Release, EchoSlot, Do;
    }
  }

  lemma ReleaseKeepsStages(f: Fine, m: Move)
    requires FineInv(f) && Possible(f, m) && Releasing(m)
    ensures var t, g := Touched(f, m), Do(f, m);
            && t < |f.ctx| == MAX_TX
            && g.ctx == f.ctx[t := f.ctx[t].(skb := None, stage := if m.GetEcho? then Released else Submitting)]
            && g.sub == if m.GetEcho? then f.sub else EchoFreed(t)
  {
    hide CountIf, EchoesDistinct;
    assert ContextOk(f, Touched(f, m));
    ReleasesOwn(f, Touched(f, m));
  }

  lemma MoveKeepsSkb(f: Fine, m: Move, i: nat)
    requires FineInv(f) && Possible(f, m) && i < MAX_TX && |Do(f, m).ctx| == MAX_TX
    ensures SkbOk(Do(f, m), i)
  {
    if Releasing(m) {
      ReleaseKeepsSkb(f, m, i);
    } else {
      hide CountIf, Release;
      if m.Store? {
        assert f.made !in f.gone;
      }
      hide EchoesDistinct;
      assert ContextOk(f, Touched(f, m)) && ContextOk(f, i);
    }
  }

  lemma MoveKeepsContexts(f: Fine, m: Move)
    requires FineInv(f) && Possible(f, m)
    ensures var g := Do(f, m);
            && |g.ctx| == MAX_TX
            && (Held(g.sub).Some? ==> Held(g.sub).value.0 < MAX_TX)
            && forall i :: 0 <= i < MAX_TX ==> ContextOk(g, i)
  {
    MoveKeepsStage(f, m, 0);
    forall i | 0 <= i < MAX_TX
      ensures ContextOk(Do(f, m), i)
    {
      MoveKeepsStage(f, m, i);
      MoveKeepsSkb(f, m, i);
      hide Do, StageOk, SkbOk;
    }
    hide Do, StageOk, SkbOk, Possible, FineInv;
  }

  lemma MoveKeepsEchoes(f: Fine, m: Move)
    requires FineInv(f) && Possible(f, m)
    ensures EchoesDistinct(Do(f, m))
  {
    if Releasing(m) {
      ReleaseKeepsEchoes(f, m);
    } else {
      hide CountIf, Release;
      forall i | 0 <= i < MAX_TX
        ensures f.ctx[i].skb.Some? ==> f.ctx[i].skb.value < f.made
      {
        assert ContextOk(f, i);
      }
    }
  }

  lemma OnlyTouched(f: Fine, m: Move)
    requires FineInv(f) && Possible(f, m)
    ensures var g, i := Do(f, m), Touched(f, m);
            i < MAX_TX && |g.ctx| == MAX_TX && g.ctx == f.ctx[i := g.ctx[i]]
  {
    hide CountIf, EchoesDistinct;
    assert ContextOk(f, Touched(f, m));
  }

  function One(b: bool): nat { if b then 1 else 0 }

  lemma MoveBalances(f: Fine, m: Move)
    requires FineInv(f) && Possible(f, m) && |Do(f, m).ctx| == MAX_TX && Touched(f, m) < MAX_TX
    ensures var g, i := Do(f, m), Touched(f, m);
            && g.active - f.active == One(IsFlying(g.ctx[i])) - One(IsFlying(f.ctx[i])) + Ahead(g.sub) - Ahead(f.sub)
            && |g.gone| - |f.gone| + One(HoldsSkb(g.ctx[i])) - One(HoldsSkb(f.ctx[i])) == g.made - f.made
  {
    hide FineInv;
    InvAt(f, Touched(f, m));
    if Releasing(m) {
      ReleasesOwn(f, Touched(f, m));
      hide Release, EchoSlot;
    } else {
      hide Release, EchoSlot, SkbOk;
    }
  }

  lemma MoveKeepsCounts(f: Fine, m: Move)
    requires FineInv(f) && Possible(f, m)
    ensures var g := Do(f, m);
            && g.active == CountIf(g.ctx, IsFlying) + Ahead(g.sub)
            && |g.gone| + CountIf(g.ctx, HoldsSkb) == g.made
  {
    var g, i := Do(f, m), Touched(f, m);
    OnlyTouched(f, m);
    MoveBalances(f, m);
    hide Do, Touched, Possible, CountIf, EchoesDistinct, ContextOk;
    CountUpdate(f.ctx, i, g.ctx[i], IsFlying);
    CountUpdate(f.ctx, i, g.ctx[i], HoldsSkb);
  }

  /** The context a refusal has cleared stays free until the submitter is out. */
  lemma MoveKeepsRoom(f: Fine, m: Move)
    requires FineInv(f) && Possible(f, m) && Do(f, m).sub.EchoCleared?
    ensures !NoRoom(Do(f, m))
  {
    hide CountIf, EchoesDistinct;
    OnlyTouched(f, m);
    var g, i := Do(f, m), Touched(f, m);
    assert ContextOk(f, i);
    if Releasing(m) {
      ReleasesOwn(f, i);
    }
    hide Release, EchoSlot;
    if m.ClearRefused? {
      assert g.ctx[i].echo == 0;
    } else {
      var j :| 0 <= j < |f.ctx| && f.ctx[j].echo == 0;
      assert g.ctx[j].echo == 0;
    }
  }

  lemma MoveKeepsInv(f: Fine, m: Move)
    requires FineInv(f) && Possible(f, m)
    ensures FineInv(Do(f, m))
  {
    MoveKeepsContexts(f, m);
    MoveKeepsEchoes(f, m);
    MoveKeepsCounts(f, m);
    if Do(f, m).sub.EchoCleared? {
      MoveKeepsRoom(f, m);
    }
    hide Do, Possible, NoRoom, CountIf, EchoesDistinct, ContextOk;
  }

  lemma {:induction false} FineRun(f: Fine, ms: seq<Move>, g: Fine)
    requires FineInv(f) && FineReaches(f, ms, g)
    ensures FineInv(g)
    decreases |ms|
  {
    hide FineInv, Do, Possible;
    if ms != [] {
      MoveKeepsInv(f, ms[0]);
      FineRun(Do(f, ms[0]), ms[1..], g);
    }
  }

  predicate FineInit(f: Fine) {
    f == Fine(seq(MAX_TX, _ => Context(0, None, Rest)), 0, true, 0, Outside, 0, [])
  }

  lemma FineInitInv(f: Fine)
    requires FineInit(f)
    ensures FineInv(f)
  {
    CountAll(f.ctx, IsFlying);
    CountAll(f.ctx, HoldsSkb);
    assert forall i :: 0 <= i < MAX_TX ==> ContextOk(f, i);
  }

  /** Even with every handler split at its stores, in every reachable state: a
      context that is busy names its own echo slot; no echo is released twice,
      and every echo stored is either still in a slot or released; and the
      counter exceeds the busy contexts, then by one, if and only if a refused
      submission has freed its context and has yet to lower the counter while no
      completion is between its own decrement and its release of the context. */
  lemma FineTransmit(f: Fine, ms: seq<Move>, g: Fine)
    requires FineInit(f) && FineReaches(f, ms, g)
    ensures |g.ctx| == MAX_TX
    ensures forall i :: 0 <= i < MAX_TX && g.ctx[i].echo != 0 ==> EchoSlot(g, i) == Some(i)
    ensures forall i, j :: 0 <= i < j < |g.gone| ==> g.gone[i] != g.gone[j]
    ensures |g.gone| + CountIf(g.ctx, HoldsSkb) == g.made
    ensures forall i :: 0 <= i < MAX_TX && (InStage(g, i, Lowered) || g.sub == Refused(i)) ==> g.ctx[i].skb.Some?
    ensures g.active <= CountIf(g.ctx, HasEcho) + 1
    ensures g.active > CountIf(g.ctx, HasEcho) <==>
              g.sub.EchoCleared? && forall i :: 0 <= i < MAX_TX ==> g.ctx[i].stage == Rest || g.ctx[i].stage == Flying
  {
    FineInitInv(f);
    FineRun(f, ms, g);
    forall i | 0 <= i < MAX_TX
      ensures g.ctx[i].echo != 0 ==> EchoSlot(g, i) == Some(i)
      ensures InStage(g, i, Lowered) || g.sub == Refused(i) ==> g.ctx[i].skb.Some?
      ensures IsFlying(g.ctx[i]) ==> HasEcho(g.ctx[i])
      ensures HasEcho(g.ctx[i]) <==> g.ctx[i].stage != Rest
    {
      assert ContextOk(g, i);
    }
    hide CountIf, EchoesDistinct;
    if Held(g.sub).Some? {
      // the held context has an echo but is not flying
      var i := Held(g.sub).value.0;
      assert ContextOk(g, i);
      var rest := g.ctx[i := g.ctx[i].(stage := Flying)];
      CountUpdate(g.ctx, i, rest[i], IsFlying);
      CountUpdate(g.ctx, i, rest[i], HasEcho);
      CountMonotone(rest, IsFlying, HasEcho);
    } else {
      CountMonotone(g.ctx, IsFlying, HasEcho);
    }
  }

  // ---- When an awake queue has no context left ----

  /** The stack may transmit, and would be told NETDEV_TX_BUSY: only the submitter
      takes contexts, so a search that finds none free began in such a state. */
  predicate AwakeFull(f: Fine) {
    f.awake && f.sub.Outside? && NoRoom(f)
  }

  /** With no context free: the submitter finds the counter below ten and leaves
      the queue awake, or a completion or a restart wakes it while no one submits. */
  predicate LeavesFull(f: Fine, m: Move) {
    NoRoom(f) && ((m.Check? && f.awake && f.active < MAX_TX) || ((m.Wake? || m.Restart?) && f.sub.Outside?))
  }

  predicate NoRestart(ms: seq<Move>) {
    forall k :: 0 <= k < |ms| ==> !ms[k].Restart?
  }

  lemma FillsExactly(f: Fine, m: Move)
    requires FineInv(f) && Possible(f, m) && !AwakeFull(f)
    ensures AwakeFull(Do(f, m)) <==> LeavesFull(f, m)
  {
    hide CountIf, EchoesDistinct, NoRoom;
    OnlyTouched(f, m);
    var g, i := Do(f, m), Touched(f, m);
    assert ContextOk(f, i);
    if Releasing(m) {
      ReleasesOwn(f, i);
    }
    hide Release, EchoSlot, ContextOk;
    if g.sub.Outside? && g.awake {
      SameRoom(f, m);
    }
  }

  /** Outside a submission only the clear of a completion changes who has room. */
  lemma SameRoom(f: Fine, m: Move)
    requires FineInv(f) && Possible(f, m) && Do(f, m).sub.Outside?
    ensures NoRoom(Do(f, m)) <==> NoRoom(f) && !m.Clear?
  {
    hide CountIf, EchoesDistinct;
    OnlyTouched(f, m);
    var g, i := Do(f, m), Touched(f, m);
    assert ContextOk(f, i);
    if Releasing(m) {
      ReleasesOwn(f, i);
    }
    hide Release, EchoSlot;
    assert m.Clear? ==> g.ctx[i].echo == 0;
    assert !m.Clear? ==> g.ctx[i].echo == f.ctx[i].echo;
    assert forall j :: 0 <= j < MAX_TX && j != i ==> g.ctx[j].echo == f.ctx[j].echo;
  }

  ghost predicate NeverFull(f: Fine, ms: seq<Move>, g: Fine)
    requires FineReaches(f, ms, g)
    decreases |ms|
  {
    !AwakeFull(f) && (ms == [] || NeverFull(Do(f, ms[0]), ms[1..], g))
  }

  ghost predicate EverLeavesFull(f: Fine, ms: seq<Move>, g: Fine)
    requires FineReaches(f, ms, g)
    decreases |ms|
  {
    ms != [] && (LeavesFull(f, ms[0]) || EverLeavesFull(Do(f, ms[0]), ms[1..], g))
  }

  lemma {:induction false} FullExactly(f: Fine, ms: seq<Move>, g: Fine)
    requires FineInv(f) && !AwakeFull(f) && FineReaches(f, ms, g)
    ensures NeverFull(f, ms, g) <==> !EverLeavesFull(f, ms, g)
    decreases |ms|
  {
    hide FineInv, AwakeFull, LeavesFull, Do, Possible;
    if ms != [] {
      MoveKeepsInv(f, ms[0]);
      FillsExactly(f, ms[0]);
      if !AwakeFull(Do(f, ms[0])) {
        FullExactly(Do(f, ms[0]), ms[1..], g);
      }
    }
  }

  /** Along every run of the interface NETDEV_TX_BUSY stays out of reach if and
      only if no submission ends, awake, with all contexts in use and the counter
      below ten, and no wake, be it of a completion or of a restart, arrives between
      submissions with all of them in use. */
  lemma BusyAtFineGrainExactly(f: Fine, ms: seq<Move>, g: Fine)
    requires FineInit(f) && FineReaches(f, ms, g)
    ensures NeverFull(f, ms, g) <==> !EverLeavesFull(f, ms, g)
  {
    FineInitInv(f);
    assert f.ctx[0].echo == 0;
    FullExactly(f, ms, g);
  }

  /** The first of these: the counter is below ten with no context free exactly
      while a completion is between its decrement and its clear. */
  lemma CheckWindow(f: Fine)
    requires FineInv(f) && f.sub.Checking? && NoRoom(f)
    ensures f.active < MAX_TX <==> exists i :: InStage(f, i, Lowered) || InStage(f, i, Released)
  {
    CountAll(f.ctx, IsFlying);
    hide CountIf, EchoesDistinct;
    if f.active < MAX_TX {
      var i :| 0 <= i < |f.ctx| && !IsFlying(f.ctx[i]);
      assert ContextOk(f, i);
      assert InStage(f, i, Lowered) || InStage(f, i, Released);
    }
  }

  // ---- What the split costs ----

  /** The first `k` contexts with the USB core, the queue awake. */
  function Flight(k: nat): Fine
    requires k <= MAX_TX
  {
    Fine(seq(MAX_TX, (i: nat) => if i < k then Context(i + 1, Some(i), Flying) else Context(0, None, Rest)),
         k, true, 0, Outside, k, [])
  }

  lemma {:induction false} Append(f: Fine, ms: seq<Move>, g: Fine, m: Move) returns (r: seq<Move>)
    requires FineReaches(f, ms, g) && Possible(g, m)
    ensures r == ms + [m] && FineReaches(f, r, Do(g, m))
    decreases |ms|
  {
    hide Do, Possible;
    r := ms + [m];
    if ms == [] {
      assert r[1..] == [];
    } else {
      var r1 := Append(Do(f, ms[0]), ms[1..], g, m);
      assert r[1..] == r1;
    }
  }

  /** One whole submission that is taken. */
  lemma SubmitOne(f: Fine, ms: seq<Move>, g: Fine, i: nat) returns (r: seq<Move>)
    requires FineReaches(f, ms, g) && Possible(g, Choose(i)) && i < MAX_TX && |g.ctx| == MAX_TX
    ensures NoRestart(ms) ==> NoRestart(r)
    ensures FineReaches(f, r, g.(ctx := g.ctx[i := Context(i + 1, Some(g.made), Flying)],
                                 active := g.active + 1, made := g.made + 1, awake := g.awake && g.active + 1 < MAX_TX))
  {
    var g1 := Do(g, Choose(i));
    var g2 := Do(g1, Store);
    var g3 := Do(g2, CountUp);
    var g4 := Do(g3, Submit(true));
    var g5 := Do(g4, Check);
    assert g5.ctx == g.ctx[i := Context(i + 1, Some(g.made), Flying)];
    hide Do;
    r := Append(f, ms, g, Choose(i));
    r := Append(f, r, g1, Store);
    r := Append(f, r, g2, CountUp);
    r := Append(f, r, g3, Submit(true));
    r := Append(f, r, g4, Check);
  }

  lemma {:induction false} FillUp(k: nat) returns (ms: seq<Move>)
    requires k < MAX_TX
    ensures FineReaches(Flight(0), ms, Flight(k)) && NoRestart(ms)
  {
    if k == 0 {
      ms := [];
    } else {
      ms := FillUp(k - 1);
      var g := Flight(k - 1);
      ms := SubmitOne(Flight(0), ms, g, k - 1);
      assert g.ctx[k - 1 := Context(k, Some(k - 1), Flying)] == Flight(k).ctx;
    }
  }

  /** Between a completion's counter decrement and its clear, the tenth submission
      finds the counter at nine and leaves the queue awake with no context free:
      at this grain NETDEV_TX_BUSY is reachable. */
  lemma BusyAtFineGrain(f: Fine)
    requires FineInit(f)
    ensures exists ms, g :: FineReaches(f, ms, g) && NoRestart(ms) && AwakeFull(g)
                            && |g.ctx| == MAX_TX && g.active < MAX_TX
  {
    assert f.ctx == Flight(0).ctx;
    var ms := FillUp(9);
    var g := Flight(9);
    ms := Append(f, ms, g, CountDown(0));
    var h := Do(g, CountDown(0));
    assert forall j :: 0 <= j < 9 ==> h.ctx[j].echo == j + 1;
    ms := SubmitOne(f, ms, h, 9);
    var last := h.(ctx := h.ctx[9 := Context(10, Some(9), Flying)], active := 9, made := 10);
    assert last.ctx[9].echo == 10 && forall i :: 0 <= i < 9 ==> last.ctx[i].echo == i + 1;
  }

  /** The second, the late wake of a completion: nine are flying, one completes but its wake is late, two more
      are submitted and the queue is stopped; then the wake comes, with all ten
      contexts with the USB core and no completion under way. */
  lemma BusyAfterLateWake(f: Fine)
    requires FineInit(f)
    ensures exists ms, g :: FineReaches(f, ms, g) && NoRestart(ms) && AwakeFull(g)
                            && |g.ctx| == MAX_TX && g.active == MAX_TX
                            && forall i :: 0 <= i < MAX_TX ==> g.ctx[i].stage == Flying
  {
    assert f.ctx == Flight(0).ctx;
    var ms := FillUp(9);
    var g;
    ms, g := CompleteFirst(f, ms);
    ms, g := Refill(f, ms, g);
    hide FineReaches, Flight;
    assert InStage(g, 0, Flying);
  }

  /** Two submissions, which stop the queue, and the late wake. */
  lemma Refill(f: Fine, ms: seq<Move>, g: Fine) returns (r: seq<Move>, last: Fine)
    requires FineReaches(f, ms, g)
    requires g == Flight(9).(ctx := Flight(9).ctx[0 := Context(0, None, Rest)], active := 8, wakes := 1, gone := [0])
    ensures NoRestart(ms) ==> NoRestart(r)
    ensures FineReaches(f, r, last) && AwakeFull(last) && |last.ctx| == MAX_TX && last.active == MAX_TX
    ensures forall i :: 0 <= i < MAX_TX ==> last.ctx[i].stage == Flying
  {
    hide FineReaches;
    r := SubmitOne(f, ms, g, 0);
    var h := g.(ctx := g.ctx[0 := Context(1, Some(9), Flying)], active := 9, made := 10);
    assert forall j :: 0 <= j < 9 ==> h.ctx[j].echo == j + 1;
    r := SubmitOne(f, r, h, 9);
    var u := h.(ctx := h.ctx[9 := Context(10, Some(10), Flying)], active := 10, made := 11, awake := false);
    r := Append(f, r, u, Wake);
    last := Do(u, Wake);
    assert forall i :: 0 <= i < MAX_TX ==> last.ctx[i].echo == i + 1;
  }

  /** The first of nine completes, up to its wake. */
  lemma CompleteFirst(f: Fine, ms: seq<Move>) returns (r: seq<Move>, g: Fine)
    requires FineReaches(f, ms, Flight(9))
    ensures FineReaches(f, r, g) && (NoRestart(ms) ==> NoRestart(r))
    ensures g == Flight(9).(ctx := Flight(9).ctx[0 := Context(0, None, Rest)], active := 8, wakes := 1, gone := [0])
  {
    hide FineReaches;
    var a := Flight(9);
    r := Append(f, ms, a, CountDown(0));
    var b := Do(a, CountDown(0));
    r := Append(f, r, b, GetEcho(0));
    var c := Do(b, GetEcho(0));
    r := Append(f, r, c, Clear(0, true));
    g := Do(c, Clear(0, true));
    assert g.ctx == a.ctx[0 := Context(0, None, Rest)];
    assert g.gone == [0];
  }

  /** A refused submission just before its last store: the counter is one, and no
      context is in use. */
  lemma CounterExceeds(f: Fine)
    requires FineInit(f)
    ensures exists ms, g :: FineReaches(f, ms, g) && g.active == 1 && CountIf(g.ctx, HasEcho) == 0
  {
    var ms, g := RefuseFirst(f);
    CountAll(g.ctx, HasEcho);
    hide FineReaches;
    assert g.active == 1;
  }

  lemma RefuseFirst(f: Fine) returns (ms: seq<Move>, g: Fine)
    requires FineInit(f)
    ensures FineReaches(f, ms, g) && g.active == 1 && |g.ctx| == MAX_TX
    ensures forall i :: 0 <= i < MAX_TX ==> !HasEcho(g.ctx[i])
  {
    var g1 := Do(f, Choose(0));
    var g2 := Do(g1, Store);
    var g3 := Do(g2, CountUp);
    var g4 := Do(g3, Submit(false));
    var g5 := Do(g4, FreeEcho);
    g := Do(g5, ClearRefused);
    assert g.ctx == f.ctx[0 := Context(0, None, Rest)];
    hide Do;
    ms := Append(f, [], f, Choose(0));
    ms := Append(f, ms, g1, Store);
    ms := Append(f, ms, g2, CountUp);
    ms := Append(f, ms, g3, Submit(false));
    ms := Append(f, ms, g4, FreeEcho);
    ms := Append(f, ms, g5, ClearRefused);
  }
}
