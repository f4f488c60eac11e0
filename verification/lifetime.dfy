/** Unplugging: operations in flight are counted, and the state is freed by a
    work item that reschedules itself until none is left. */
module Lifetime {
  import opened Words

  const CONNECTED: int := 1
  const ONE_STARTED: int := 2

  /** An operation in flight: how often it is counted in pending_ops, whether it
      has yet to send its inner command, and whether it sleeps as a reader. */
  datatype Op = Op(depth: nat, nests: bool, blocked: bool)

  /** The destroy work: not queued, queued, or between its two checks. */
  datatype Work = Idle | Scheduled | Rechecking

  datatype Life = Life(stage: int, users: nat, pending: int, ops: seq<Op>, work: Work, plugged: bool, freed: bool)

  datatype Step =
    | BeginFile
    | BeginCommand(nests: bool)
    | Nest(k: nat)
    | Unnest(k: nat)
    | Block(k: nat)
    | Wake(k: nat)
    | End(k: nat)
    | UserStart
    | UserStop
    | Plugout
    | RunWork
    | Recheck

  /** A step of an operation already in flight. */
  predicate OfOp(t: Step) {
    t.Nest? || t.Unnest? || t.Block? || t.Wake? || t.End?
  }

  predicate Enabled(s: Life, t: Step) {
    !s.freed &&
    match t
    case BeginFile => true
    case BeginCommand(_) => true
    case Nest(k) => k < |s.ops| && !s.ops[k].blocked && s.ops[k].nests && s.ops[k].depth == 1
    case Unnest(k) => k < |s.ops| && !s.ops[k].blocked && s.ops[k].depth > 1
    // the wait condition of a reader is true once the stage is below ONE_STARTED
    case Block(k) => k < |s.ops| && !s.ops[k].blocked && s.ops[k].depth == 1 && s.stage >= ONE_STARTED
    case Wake(k) => k < |s.ops| && s.ops[k].blocked
    case End(k) => k < |s.ops| && !s.ops[k].blocked && s.ops[k].depth == 1
    case UserStart => s.plugged
    case UserStop => s.users > 0
    case Plugout => s.plugged
    case RunWork => s.work == Scheduled
    case Recheck => s.work == Rechecking
  }

  function SetOp(s: Life, k: nat, o: Op): Life
    requires k < |s.ops|
  {
    s.(ops := s.ops[k := o])
  }

  function Awake(ops: seq<Op>): seq<Op> {
    seq(|ops|, i requires 0 <= i < |ops| => ops[i].(blocked := false))
  }

  /** The work puts itself back, after forcing the stage down and waking readers. */
  function Reschedule(s: Life): Life {
    s.(stage := 0, ops := Awake(s.ops), work := Scheduled)
  }

  /** Precheck and increment are one step, and so is the plugout. */
  function Apply(s: Life, t: Step): Life
    requires Enabled(s, t)
  {
    match t
    case BeginFile =>
      if s.stage < ONE_STARTED then s else s.(pending := s.pending + 1, ops := s.ops + [Op(1, false, false)])
    case BeginCommand(nests) =>
      if s.stage < CONNECTED then s else s.(pending := s.pending + 1, ops := s.ops + [Op(1, nests, false)])
    case Nest(k) =>
      if s.stage < CONNECTED then SetOp(s, k, s.ops[k].(nests := false))
      else SetOp(s, k, s.ops[k].(nests := false, depth := 2)).(pending := s.pending + 1)
    case Unnest(k) => SetOp(s, k, s.ops[k].(depth := s.ops[k].depth - 1)).(pending := s.pending - 1)
    case Block(k) => SetOp(s, k, s.ops[k].(blocked := true))
    case Wake(k) => SetOp(s, k, s.ops[k].(blocked := false))
    case End(k) => s.(pending := s.pending - 1, ops := s.ops[..k] + s.ops[k + 1..])
    case UserStart => s.(users := s.users + 1, stage := s.stage + 1)
    case UserStop => s.(users := s.users - 1, stage := s.stage - 1)
    case Plugout => s.(plugged := false, stage := 0, work := Scheduled)
    case RunWork => if s.pending > 0 then Reschedule(s) else s.(work := Rechecking)
    case Recheck => if s.pending > 0 then Reschedule(s) else s.(work := Idle, freed := true)
  }

  ghost predicate Reaches(s: Life, ts: seq<Step>, u: Life)
    decreases |ts|
  {
    if ts == [] then s == u else Enabled(s, ts[0]) && Reaches(Apply(s, ts[0]), ts[1..], u)
  }

  predicate Init(s: Life) {
    s == Life(CONNECTED, 0, 0, [], Idle, true, false)
  }

  function Depth(ops: seq<Op>): nat {
    if ops == [] then 0 else Depth(ops[..|ops| - 1]) + ops[|ops| - 1].depth
  }

  /** Work left in an operation; every step of its own lowers it once no reader
      can block any more. */
  function OpRank(o: Op): nat {
    2 * o.depth + (if o.nests then 3 else 0) + (if o.blocked then 1 else 0)
  }

  function Rank(ops: seq<Op>): nat {
    if ops == [] then 0 else Rank(ops[..|ops| - 1]) + OpRank(ops[|ops| - 1])
  }

  lemma {:induction false} SetSums(ops: seq<Op>, k: nat, o: Op)
    requires k < |ops|
    ensures Depth(ops[k := o]) == Depth(ops) - ops[k].depth + o.depth
    ensures Rank(ops[k := o]) == Rank(ops) - OpRank(ops[k]) + OpRank(o)
  {
    var n := |ops| - 1;
    if k < n {
      SetSums(ops[..n], k, o);
      assert ops[k := o][..n] == ops[..n][k := o];
    } else {
      assert ops[k := o][..n] == ops[..n];
    }
  }

  lemma {:induction false} RemoveSums(ops: seq<Op>, k: nat)
    requires k < |ops|
    ensures Depth(ops[..k] + ops[k + 1..]) == Depth(ops) - ops[k].depth
    ensures Rank(ops[..k] + ops[k + 1..]) == Rank(ops) - OpRank(ops[k])
  {
    var n := |ops| - 1;
    var rest := ops[..k] + ops[k + 1..];
    if k < n {
      RemoveSums(ops[..n], k);
      assert rest[..|rest| - 1] == ops[..n][..k] + ops[..n][k + 1..];
    } else {
      assert rest == ops[..n];
    }
  }

  lemma AppendSums(ops: seq<Op>, o: Op)
    ensures Depth(ops + [o]) == Depth(ops) + o.depth && Rank(ops + [o]) == Rank(ops) + OpRank(o)
  {
    assert (ops + [o])[..|ops|] == ops;
  }

  lemma {:induction false} AwakeSums(ops: seq<Op>)
    ensures Depth(Awake(ops)) == Depth(ops) && Rank(Awake(ops)) <= Rank(ops)
    ensures (exists k :: 0 <= k < |ops| && ops[k].blocked) ==> Rank(Awake(ops)) < Rank(ops)
  {
    if ops != [] {
      AwakeSums(ops[..|ops| - 1]);
      assert Awake(ops)[..|ops| - 1] == Awake(ops[..|ops| - 1]);
    }
  }

  lemma {:induction false} DepthCovers(ops: seq<Op>)
    requires forall k :: 0 <= k < |ops| ==> ops[k].depth >= 1
    ensures Depth(ops) >= |ops|
  {
    if ops != [] {
      DepthCovers(ops[..|ops| - 1]);
    }
  }

  /** pending_ops counts the operations in flight, nested commands twice; the
      stage is positive only while plugged in; and nothing is freed under one. */
  predicate Inv(s: Life) {
    && s.pending == Depth(s.ops)
    && OpsOk(s.ops)
    && (if s.plugged then s.stage == CONNECTED + s.users && s.work == Idle && !s.freed else s.stage <= 0)
    && (s.freed ==> s.ops == [])
    && (s.work == Idle ==> s.plugged || s.freed)
  }

  lemma OpStepSums(s: Life, t: Step)
    requires Inv(s) && Enabled(s, t) && OfOp(t)
    ensures var u := Apply(s, t);
            && u.pending == Depth(u.ops)
            && (s.stage < CONNECTED ==> Rank(u.ops) < Rank(s.ops))
            && |u.ops| <= |s.ops|
  {
    match t
    case Nest(k) => SetSums(s.ops, k, Apply(s, t).ops[k]);
    case Unnest(k) => SetSums(s.ops, k, Apply(s, t).ops[k]);
    case Block(k) => SetSums(s.ops, k, Apply(s, t).ops[k]);
    case Wake(k) => SetSums(s.ops, k, Apply(s, t).ops[k]);
    case End(k) => RemoveSums(s.ops, k);
  }

  lemma OpStepKeepsInv(s: Life, t: Step)
    requires Inv(s) && Enabled(s, t) && OfOp(t)
    ensures Inv(Apply(s, t))
  {
    OpStepSums(s, t);
    OpStepKeepsOps(s, t);
    hide Depth, Rank, Awake;
  }

  predicate OpsOk(ops: seq<Op>) {
    forall k :: 0 <= k < |ops| ==> 1 <= ops[k].depth <= 2 && (ops[k].blocked ==> ops[k].depth == 1)
  }

  lemma OpStepKeepsOps(s: Life, t: Step)
    requires OpsOk(s.ops) && Enabled(s, t) && OfOp(t)
    ensures OpsOk(Apply(s, t).ops)
  {
    if t.End? {
      var u := Apply(s, t).ops;
      assert forall k :: 0 <= k < |u| ==> u[k] == if k < t.k then s.ops[k] else s.ops[k + 1];
    }
  }

  lemma BeginKeepsInv(s: Life, t: Step)
    requires Inv(s) && Enabled(s, t) && (t.BeginFile? || t.BeginCommand?)
    ensures Inv(Apply(s, t))
  {
    var o := Op(1, if t.BeginFile? then false else t.nests, false);
    AppendSums(s.ops, o);
    assert OpsOk(s.ops + [o]);
    hide Depth, Rank, OpsOk;
  }

  lemma StepKeepsInv(s: Life, t: Step)
    requires Inv(s) && Enabled(s, t)
    ensures Inv(Apply(s, t))
  {
    if OfOp(t) {
      OpStepKeepsInv(s, t);
    } else if t.BeginFile? || t.BeginCommand? {
      BeginKeepsInv(s, t);
    } else {
      AwakeSums(s.ops);
      DepthCovers(s.ops);
      hide Depth, Rank;
    }
  }

  lemma {:induction false} RunKeepsInv(s: Life, ts: seq<Step>, u: Life)
    requires Inv(s) && Reaches(s, ts, u)
    ensures Inv(u)
    decreases |ts|
  {
    if ts != [] {
      StepKeepsInv(s, ts[0]);
      RunKeepsInv(Apply(s, ts[0]), ts[1..], u);
    }
  }

  /** Over every run of any number of operations: the count is positive while one
      is in flight, and the state is freed only after the plugout and only when
      none is. */
  lemma SafeLifetime(s: Life, ts: seq<Step>, u: Life)
    requires Init(s) && Reaches(s, ts, u)
    ensures u.ops != [] ==> u.pending > 0
    ensures u.ops == [] <==> u.pending == 0
    ensures u.freed ==> !u.plugged && u.ops == []
  {
    RunKeepsInv(s, ts, u);
    DepthCovers(u.ops);
  }

  // ---- Every accepted operation is in flight until it ends ----

  /** The step lets an operation in: a file operation needs a user on the bus, a
      command only a plugged adapter. */
  predicate Accepts(s: Life, t: Step) {
    (t.BeginFile? && s.stage >= 2) || (t.BeginCommand? && s.stage >= 1)
  }

  function AcceptedOver(s: Life, ts: seq<Step>, u: Life): nat
    requires Reaches(s, ts, u)
    decreases |ts|
  {
    if ts == [] then 0
    else (if Accepts(s, ts[0]) then 1 else 0) + AcceptedOver(Apply(s, ts[0]), ts[1..], u)
  }

  function Ends(ts: seq<Step>): nat {
    if ts == [] then 0 else (if ts[0].End? then 1 else 0) + Ends(ts[1..])
  }

  /** An accepted operation is counted, and an inner command of one once more; what
      ends is taken off; and only the second
      of two checks that find none in flight frees. */
  lemma StepCounts(s: Life, t: Step)
    requires Inv(s) && Enabled(s, t)
    ensures var u := Apply(s, t);
            && |u.ops| == |s.ops| + (if Accepts(s, t) then 1 else 0) - (if t.End? then 1 else 0)
            && u.pending == s.pending + (if Accepts(s, t) || (t.Nest? && s.stage >= 1) then 1
                                         else if t.End? || t.Unnest? then -1 else 0)
            && (u.freed && !s.freed ==> t == Recheck && s.pending == 0)
            && (u.work == Rechecking && s.work != Rechecking ==> t == RunWork && s.pending == 0)
  {
    hide Depth, Rank;
  }

  /** Over every run the operations in flight are those accepted less those ended. */
  lemma {:induction false} InFlight(s: Life, ts: seq<Step>, u: Life)
    requires Inv(s) && Reaches(s, ts, u)
    ensures |u.ops| == |s.ops| + AcceptedOver(s, ts, u) - Ends(ts)
    decreases |ts|
  {
    hide Inv, Enabled, Apply, Accepts;
    if ts != [] {
      StepCounts(s, ts[0]);
      StepKeepsInv(s, ts[0]);
      InFlight(Apply(s, ts[0]), ts[1..], u);
    }
  }

  /** So when the state is freed every operation ever accepted has ended. */
  lemma FreedAfterAll(s: Life, ts: seq<Step>, u: Life)
    requires Init(s) && Reaches(s, ts, u)
    ensures u.freed ==> AcceptedOver(s, ts, u) == Ends(ts)
    ensures u.pending == 0 <==> AcceptedOver(s, ts, u) == Ends(ts)
  {
    InFlight(s, ts, u);
    SafeLifetime(s, ts, u);
  }

  /** Steps that operations in flight take in a run. */
  function OpSteps(ts: seq<Step>): nat {
    if ts == [] then 0 else (if OfOp(ts[0]) then 1 else 0) + OpSteps(ts[1..])
  }

  predicate NoneBlocked(s: Life) {
    forall k :: 0 <= k < |s.ops| ==> !s.ops[k].blocked
  }

  lemma UnpluggedStep(s: Life, t: Step)
    requires Inv(s) && !s.plugged && Enabled(s, t)
    ensures var u := Apply(s, t);
            && !u.plugged && Inv(u)
            && |u.ops| <= |s.ops|
            && Rank(u.ops) + (if OfOp(t) then 1 else 0) <= Rank(s.ops)
            && (NoneBlocked(s) ==> NoneBlocked(u))
  {
    StepKeepsInv(s, t);
    if OfOp(t) {
      OpStepSums(s, t);
    } else {
      AwakeSums(s.ops);
    }
    hide Depth, Rank;
  }

  /** After the plugout no operation starts, a reader that has been woken never
      blocks again, and the operations in flight can take no more steps in all
      than the rank they have left, whatever else runs. */
  lemma {:induction false} OperationsDrain(s: Life, ts: seq<Step>, u: Life)
    requires Inv(s) && !s.plugged && Reaches(s, ts, u)
    ensures !u.plugged && |u.ops| <= |s.ops|
    ensures OpSteps(ts) + Rank(u.ops) <= Rank(s.ops)
    ensures NoneBlocked(s) ==> NoneBlocked(u)
    decreases |ts|
  {
    if ts != [] {
      UnpluggedStep(s, ts[0]);
      OperationsDrain(Apply(s, ts[0]), ts[1..], u);
    }
  }

  /** Every reschedule wakes every blocked reader, and then each operation in
      flight has a step to take. */
  lemma RescheduleWakesAll(s: Life, t: Step)
    requires Inv(s) && Enabled(s, t) && (t == RunWork || t == Recheck) && s.ops != []
    ensures var u := Apply(s, t);
            && u.work == Scheduled && NoneBlocked(u) && u.stage < ONE_STARTED && |u.ops| == |s.ops|
            && Inv(u) && !u.freed
            && forall k :: 0 <= k < |u.ops| ==> OfOp(OwnStep(u, k)) && Enabled(u, OwnStep(u, k))
  {
    DepthCovers(s.ops);
    StepKeepsInv(s, t);
  }

  /** The step an unblocked operation can take next. */
  function OwnStep(s: Life, k: nat): (t: Step)
    requires Inv(s) && !s.freed && k < |s.ops| && !s.ops[k].blocked
    ensures OfOp(t) && Enabled(s, t)
  {
    if s.ops[k].depth > 1 then Unnest(k) else if s.ops[k].nests then Nest(k) else End(k)
  }

  function WorkStep(s: Life): Step {
    if s.work == Rechecking then Recheck else RunWork
  }

  /** From every unplugged state the operations in flight and the work item alone
      lead on to the free, without any frame or signal to wake a reader. */
  lemma {:induction false} AlwaysFinishes(s: Life) returns (ts: seq<Step>, u: Life)
    requires Inv(s) && !s.plugged
    ensures Reaches(s, ts, u) && u.freed
    ensures forall k :: 0 <= k < |ts| ==> !ts[k].Wake? && (OfOp(ts[k]) || ts[k] == RunWork || ts[k] == Recheck)
    decreases Rank(s.ops), if s.freed then 0 else if s.work == Rechecking then 1 else 2
  {
    DepthCovers(s.ops);
    if s.freed {
      return [], s;
    }
    var t := WorkStep(s);
    if s.ops != [] && !s.ops[0].blocked {
      t := OwnStep(s, 0);
    }
    AwakeSums(s.ops);
    UnpluggedStep(s, t);
    hide Depth, Rank;
    var rest, last := AlwaysFinishes(Apply(s, t));
    ts, u := [t] + rest, last;
    assert ts[1..] == rest;
  }

  // ---- The handlers in memory ----

  datatype Transfer = Sent(pending: int) | Received(pending: int)

  class Adapter {
    var stage: int
    var users: nat
    var pending: int
    var work: Work
    var plugged: bool
    var freed: bool
    /** Who is in flight: the kernel's threads, not a field of the driver. */
    ghost var ops: seq<Op>
    /** The USB transfers of commands so far, with the count during each. */
    ghost var transfers: seq<Transfer>

    ghost function View(): Life
      reads this
    {
      Life(stage, users, pending, ops, work, plugged, freed)
    }

    constructor ()
      ensures Init(View()) && transfers == []
    {
      stage, users, pending, work, plugged, freed, ops := CONNECTED, 0, 0, Idle, true, false, [];
      transfers := [];
    }

    /** The precheck and increment of a file operation. */
    method TryBegin() returns (ok: bool)
      requires !freed
      modifies this`pending, this`ops
      ensures View() == Apply(old(View()), BeginFile) && ok == (stage >= 2)
      ensures ok ==> pending == old(pending) + 1 && ops == old(ops) + [Op(1, false, false)]
      ensures !ok ==> pending == old(pending) && ops == old(ops)
    {
      if stage < ONE_STARTED {
        return false;
      }
      pending := pending + 1;
      ops := ops + [Op(1, false, false)];
      ok := true;
    }

    /** The decrement that ends the operation `k`. */
    method End(ghost k: nat)
      requires Enabled(View(), Step.End(k))
      modifies this`pending, this`ops
      ensures View() == Apply(old(View()), Step.End(k))
    {
      pending := pending - 1;
      ops := ops[..k] + ops[k + 1..];
    }

    /** pcan_responsive_command: counted itself, and once more while its inner
        one-way command runs; every count is taken back. */
    method ResponsiveCommand(sendOk: bool, recvOk: bool) returns (ok: bool)
      requires !freed && Inv(View())
      modifies this`pending, this`ops, this`transfers
      ensures View() == old(View()) && ok == (stage >= 1 && sendOk && recvOk)
      ensures transfers == old(transfers)
                + (if stage < 1 then [] else [Sent(pending + 2)] + if sendOk then [Received(pending + 1)] else [])
    {
      if stage < CONNECTED {
        return false;
      }
      pending := pending + 1;
      ghost var k := |ops|;
      ghost var before := ops;
      ops := ops + [Op(1, true, false)];
      var inner := OnewayCommand(Some(k), sendOk);
      ok := false;
      if inner {
        transfers := transfers + [Received(pending)];
        ok := recvOk;
      }
      pending := pending - 1;
      ops := ops[..k];
      assert ops == before;
    }

    /** pcan_oneway_command, by itself or called from the operation `caller`. */
    method OnewayCommand(ghost caller: Option<nat>, sendOk: bool) returns (ok: bool)
      requires !freed && (caller.Some? ==> Enabled(View(), Nest(caller.value)))
      modifies this`pending, this`ops, this`transfers
      ensures pending == old(pending)
      ensures ops == if caller.Some? then old(ops)[caller.value := Op(1, false, false)] else old(ops)
      ensures ok == (stage >= 1 && sendOk)
      ensures transfers == old(transfers) + if stage < 1 then [] else [Sent(pending + 1)]
    {
      if stage < CONNECTED {
        if caller.Some? {
          ops := ops[caller.value := ops[caller.value].(nests := false)];
        }
        return false;
      }
      ghost var before := ops;
      pending := pending + 1;
      if caller.Some? {
        ops := ops[caller.value := Op(2, false, false)];
      } else {
        ops := ops + [Op(1, false, false)];
      }
      transfers := transfers + [Sent(pending)];
      ok := sendOk;
      pending := pending - 1;
      ops := if caller.Some? then ops[caller.value := Op(1, false, false)] else before;
    }

    /** pcan_usb_plugout. */
    method PlugOut()
      requires Enabled(View(), Step.Plugout)
      modifies this`stage, this`work, this`plugged
      ensures View() == Apply(old(View()), Step.Plugout)
    {
      stage := 0;
      plugged := false;
      work := Scheduled;
    }

    /** destroy_usb_forwarder up to its sleep, and from there on. */
    method DestroyWork(second: bool)
      requires Enabled(View(), if second then Recheck else RunWork)
      modifies this`stage, this`work, this`freed, this`ops
      ensures View() == Apply(old(View()), if second then Recheck else RunWork)
    {
      if pending > 0 {
        stage := 0;
        ops := Awake(ops);
        work := Scheduled;
      } else if !second {
        work := Rechecking;
      } else {
        work := Idle;
        freed := true;
      }
    }
  }
}
