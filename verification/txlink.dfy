/** The transmit handlers as single steps are runs of the machine that splits
    them at their stores: what holds for every interleaving holds for them. */
module TxLink {
  import opened Words
  import opened TxQueue

  predicate SameContext(c: Context, echo: nat, slot: Option<nat>, i: nat) {
    && c.echo == echo && (if echo == 0 then c.stage == Rest else echo == i + 1 && c.stage == Flying)
    && (c.skb.Some? <==> echo != 0) && (slot.Some? <==> echo != 0)
  }

  /** No handler is under way, and the two models agree on the contexts, the
      counter and the queue. */
  predicate Matches(f: Fine, t: Tx) {
    && |f.ctx| == |t.echo| == |t.slots| == MAX_TX && t.present
    && f.sub.Outside? && f.wakes == 0
    && f.active == t.active && f.awake == t.awake
    && forall i :: 0 <= i < MAX_TX ==> SameContext(f.ctx[i], t.echo[i], t.slots[i], i)
  }

  lemma SubmissionIsARun(f: Fine, t: Tx, r: Request, i: nat) returns (ms: seq<Move>, g: Fine)
    requires Matches(f, t) && t.awake && !r.listenOnly && !r.invalid && FirstFree(t.echo).Some?
    requires i == FirstFree(t.echo).value && r.submitted != NoDevice
    ensures FineReaches(f, ms, g) && Matches(g, StartTransmit(t, r).1)
  {
    assert FineReaches(f, [], f);
    forall j | 0 <= j <= i
      ensures f.ctx[j].echo == t.echo[j]
    {
      assert SameContext(f.ctx[j], t.echo[j], t.slots[j], j);
    }
    if r.submitted == Taken {
      ms := SubmitOne(f, [], f, i);
      g := f.(ctx := f.ctx[i := Context(i + 1, Some(f.made), Flying)],
              active := f.active + 1, made := f.made + 1, awake := f.awake && f.active + 1 < MAX_TX);
    } else {
      ms, g := RefuseOne(f, i);
    }
  }

  /** One whole submission that is refused takes everything back but the echo. */
  lemma RefuseOne(f: Fine, i: nat) returns (ms: seq<Move>, g: Fine)
    requires Possible(f, Choose(i)) && i < MAX_TX && |f.ctx| == MAX_TX
    ensures FineReaches(f, ms, g)
    ensures g == f.(ctx := f.ctx[i := Context(0, None, Rest)], made := f.made + 1, gone := f.gone + [f.made])
  {
    var g1 := Do(f, Choose(i));
    var g2 := Do(g1, Store);
    var g3 := Do(g2, CountUp);
    var g4 := Do(g3, Submit(false));
    var g5 := Do(g4, FreeEcho);
    var g6 := Do(g5, ClearRefused);
    g := Do(g6, CountBack);
    assert g.ctx == f.ctx[i := Context(0, None, Rest)];
    hide Do;
    ms := Append(f, [], f, Choose(i));
    ms := Append(f, ms, g1, Store);
    ms := Append(f, ms, g2, CountUp);
    ms := Append(f, ms, g3, Submit(false));
    ms := Append(f, ms, g4, FreeEcho);
    ms := Append(f, ms, g5, ClearRefused);
    ms := Append(f, ms, g6, CountBack);
  }

  lemma CompletionIsARun(f: Fine, t: Tx, i: nat, ok: bool) returns (ms: seq<Move>, g: Fine)
    requires Matches(f, t) && i < MAX_TX && t.echo[i] != 0
    ensures FineReaches(f, ms, g) && Matches(g, Complete(t, i, ok))
  {
    assert SameContext(f.ctx[i], t.echo[i], t.slots[i], i);
    var g1 := Do(f, CountDown(i));
    var g2 := Do(g1, GetEcho(i));
    g := Do(g2, Clear(i, ok));
    assert g.ctx == f.ctx[i := Context(0, None, Rest)];
    ms := Append(f, [], f, CountDown(i));
    ms := Append(f, ms, g1, GetEcho(i));
    ms := Append(f, ms, g2, Clear(i, ok));
    if ok {
      ms := Append(f, ms, g, Wake);
      g := Do(g, Wake);
    }
    hide FineReaches;
  }

  /** While the device stays, every run of whole handlers is a run of their
      parts that ends in agreement. */
  lemma {:induction false} HandlersAreRuns(f: Fine, t: Tx, ss: seq<Step>, u: Tx) returns (ms: seq<Move>, g: Fine)
    requires Matches(f, t) && Reaches(t, ss, u) && u.present
    ensures FineReaches(f, ms, g) && Matches(g, u)
    decreases |ss|
  {
    ms, g := [], f;
    if ss != [] {
      var t1 := Apply(t, ss[0]);
      if !t1.present {
        StaysAbsent(t1, ss[1..], u);
      }
      ms, g := HandlerIsARun(f, t, ss[0]);
      var rest, last := HandlersAreRuns(g, t1, ss[1..], u);
      JoinMoves(f, ms, g, rest, last);
      ms, g := ms + rest, last;
    }
  }

  lemma HandlerIsARun(f: Fine, t: Tx, s: Step) returns (ms: seq<Move>, g: Fine)
    requires Matches(f, t) && Enabled(t, s) && Apply(t, s).present
    ensures FineReaches(f, ms, g) && Matches(g, Apply(t, s))
  {
    ms, g := [], f;
    match s
    case Transmit(r) =>
      var i := FirstFree(t.echo);
      if !r.listenOnly && !r.invalid && i.Some? {
        ms, g := SubmissionIsARun(f, t, r, i.value);
      }
    case Done(i, ok) =>
      ms, g := CompletionIsARun(f, t, i, ok);
    case RestartWake =>
      ms := Append(f, [], f, Restart);
      g := Do(f, Restart);
  }

  lemma {:induction false} JoinMoves(f: Fine, xs: seq<Move>, g: Fine, ys: seq<Move>, h: Fine)
    requires FineReaches(f, xs, g) && FineReaches(g, ys, h)
    ensures FineReaches(f, xs + ys, h)
    decreases |xs|
  {
    hide Do, Possible;
    if xs == [] {
      assert xs + ys == ys;
    } else {
      JoinMoves(Do(f, xs[0]), xs[1..], g, ys, h);
      assert (xs + ys)[1..] == xs[1..] + ys;
    }
  }
}
