/** Histories of the character device: frames arrive while the three calls take
    them out, in any order. */
module Readers {
  import opened Words
  import opened Can
  import opened RxRing
  import opened TextLines
  import opened CharDevice

  /** A frame offered to the ring, or a call of a reader. */
  datatype Event = Enqueue(m: Msg) | Take(c: Call)

  predicate Sane(es: seq<Event>) {
    forall i :: 0 <= i < |es| ==> es[i].Enqueue? ==> Sized(es[i].m.frame)
  }

  datatype Answer = Single(rd: RdMsg) | Listed(fds: seq<FdMsg>) | Chars(text: string) | Refused(err: Errno)

  function AnswerTo(c: Call, q: seq<Msg>, h: Host): Answer
    requires AllSized(q)
  {
    if c == Batch(0) || (c.Lines? && c.count <= LINE_MAX) then Refused(Inval)
    else if q == [] then Refused(Again)
    else
      var taken := q[..Takes(c, |q|)];
      match c
      case One => Single(AsRd(q[0]))
      case Batch(_) => Listed(AsFds(taken, h))
      case Lines(_) => Chars(Text(taken, h))
  }

  /** A full ring does not take the frame. */
  function Offered(q: seq<Msg>, m: Msg): seq<Msg> {
    if |q| < RING_SIZE then q + [m] else q
  }

  /** The answers of all calls, in order, and the queue left. */
  function Serve(q: seq<Msg>, es: seq<Event>, h: Host): (r: (seq<Answer>, seq<Msg>))
    requires AllSized(q) && Sane(es)
    ensures AllSized(r.1)
    decreases |es|
  {
    if es == [] then ([], q) else
    match es[0]
    case Enqueue(m) => Serve(Offered(q, m), es[1..], h)
    case Take(c) =>
      var (answers, rest) := Serve(q[Takes(c, |q|)..], es[1..], h);
      ([AnswerTo(c, q, h)] + answers, rest)
  }

  /** The frames the ring took, when it held `n` at the beginning. */
  function Admitted(n: nat, es: seq<Event>): (r: seq<Msg>)
    requires Sane(es)
    ensures AllSized(r)
    decreases |es|
  {
    if es == [] then [] else
    match es[0]
    case Enqueue(m) => if n < RING_SIZE then [m] + Admitted(n + 1, es[1..]) else Admitted(n, es[1..])
    case Take(c) => Admitted(n - Takes(c, n), es[1..])
  }

  /** The device itself gives these answers: any history, call by call. */
  method Replay(dev: Device, es: seq<Event>, h: Host) returns (answers: seq<Answer>)
    requires dev.Valid() && Sane(es)
    modifies dev, dev.slots, dev.textBuf, dev.fdList
    ensures dev.Valid() && (answers, dev.Queue()) == Serve(old(dev.Queue()), es, h)
    ensures dev.packets == old(dev.packets) + |Admitted(old(dev.unread), es)|
    ensures dev.openCount == old(dev.openCount)
    decreases |es|
  {
    hide Unread, AsRd, AsFds, Text;
    if es == [] {
      return [];
    }
    if es[0].Take? {
      var a := Ask(dev, es[0].c, h);
      hide AnswerTo, Takes;
      var more := Replay(dev, es[1..], h);
      answers := [a] + more;
    } else {
      if dev.unread < RING_SIZE {
        dev.Publish(dev.writeIdx, es[0].m);
      }
      answers := Replay(dev, es[1..], h);
    }
  }

  /** One call. */
  method Ask(dev: Device, c: Call, h: Host) returns (a: Answer)
    requires dev.Valid()
    modifies dev`unread, dev.textBuf, dev.fdList
    ensures dev.Valid() && a == AnswerTo(c, old(dev.Queue()), h)
    ensures dev.Queue() == old(dev.Queue())[Takes(c, |old(dev.Queue())|)..]
  {
    match c
    case One =>
      hide Unread, AsRd;
      var err, rd := dev.ReadMsg();
      a := if err == Ok then Single(rd) else Refused(err);
    case Batch(want) =>
      a := AskBatch(dev, want, h);
    case Lines(count) =>
      a := AskLines(dev, count, h);
  }

  method AskBatch(dev: Device, want: nat, h: Host) returns (a: Answer)
    requires dev.Valid()
    modifies dev`unread, dev.fdList
    ensures dev.Valid() && a == AnswerTo(Batch(want), old(dev.Queue()), h)
    ensures dev.Queue() == old(dev.Queue())[Takes(Batch(want), |old(dev.Queue())|)..]
  {
    hide Unread, AsFds;
    var err, count := dev.RecvMsgs(want, h);
    a := if err == Ok then Listed(dev.fdList[..count]) else Refused(err);
  }

  method AskLines(dev: Device, count: nat, h: Host) returns (a: Answer)
    requires dev.Valid()
    modifies dev`unread, dev.textBuf
    ensures dev.Valid() && a == AnswerTo(Lines(count), old(dev.Queue()), h)
    ensures dev.Queue() == old(dev.Queue())[Takes(Lines(count), |old(dev.Queue())|)..]
  {
    hide Unread, Text, Takes;
    var err, n := dev.ReadText(count, h);
    a := if err == Ok then Chars(dev.textBuf[..n]) else Refused(err);
  }

  // ---- What the answers show ----

  function Shows(a: Answer): seq<View> {
    match a
    case Single(rd) => [View(Picture(rd.id % EFF_RANGE, rd.len, rd.data), Own(rd.msecs, rd.usecs))]
    case Listed(fds) => seq(|fds|, i requires 0 <= i < |fds| => Entry(fds[i]))
    case Chars(text) => ReadBack(text)
    case Refused(_) => []
  }

  function Entry(fd: FdMsg): View {
    View(Picture(fd.id, fd.len, fd.data), Wall(fd.sec, fd.usec))
  }

  function AllShown(answers: seq<Answer>): seq<View> {
    if answers == [] then [] else Shows(answers[0]) + AllShown(answers[1..])
  }

  /** The view is one of this frame at its time: milliseconds and microseconds of the
      frame's own time, seconds and microseconds of the host's, or the date of the
      host's seconds with the microseconds and the name of the device. */
  predicate Depicts(v: View, m: Msg, h: Host)
    requires Sized(m.frame)
  {
    var wall := h.busUp + m.hwtstamp - h.base;
    v.picture == PictureOf(m.frame) &&
    match v.clock
    case Own(ms, us) =>
      && (m.hwtstamp >= 0 ==> 0 <= us < 1000 && 1000 * ms + us == m.hwtstamp / 1000)
      && (m.hwtstamp < 0 ==> -1000 < us <= 0 && 1000 * ms + us == -(-m.hwtstamp / 1000))
    case Wall(sec, us) => 0 <= us < 1_000_000 && 1_000_000 * sec + us == wall / 1000
    case Dated(date, us, name) =>
      var d := h.cal(wall / 1_000_000_000);
      && date == [d.year + 1900, d.month + 1, d.day, d.hour, d.minute, d.second]
      && us < 1_000_000 && us == wall / 1000 - 1_000_000 * (wall / 1_000_000_000)
      && name == h.name
  }

  predicate DepictAll(vs: seq<View>, q: seq<Msg>, h: Host)
    requires AllSized(q)
  {
    |vs| == |q| && forall i :: 0 <= i < |q| ==> Depicts(vs[i], q[i], h)
  }

  lemma SplitMicros(t: int)
    ensures t % 1_000_000_000 / 1000 == t / 1000 - 1_000_000 * (t / 1_000_000_000)
  {
    var s, r := t / 1_000_000_000, t % 1_000_000_000;
    assert t == 1_000_000_000 * s + r;
    var k, l := r / 1000, r % 1000;
    assert t == 1000 * (1_000_000 * s + k) + l;
  }

  lemma SingleDepicts(m: Msg, h: Host)
    requires Sized(m.frame)
    ensures DepictAll(Shows(Single(AsRd(m))), [m], h)
  {
    OwnTime(m);
    hide Trunc;
  }

  lemma EntryDepicts(m: Msg, h: Host)
    requires Sized(m.frame)
    ensures Depicts(Entry(AsFd(m, h)), m, h)
  {
    SplitMicros(WallTime(h, m));
  }

  lemma LineDepicts(m: Msg, h: Host)
    requires Sized(m.frame)
    ensures Depicts(ViewOf(h, m), m, h)
  {
    SplitMicros(WallTime(h, m));
  }

  /** Whatever the call, its answer shows exactly the frames it takes, each with its
      own time. */
  lemma AnswerDepicts(c: Call, q: seq<Msg>, h: Host)
    requires AllSized(q)
    ensures DepictAll(Shows(AnswerTo(c, q, h)), q[..Takes(c, |q|)], h)
  {
    var taken := q[..Takes(c, |q|)];
    hide Depicts, AsRd, AsFd, Entry, ViewOf, Text, ReadBack;
    if AnswerTo(c, q, h).Single? {
      assert taken == [q[0]];
      SingleDepicts(q[0], h);
    } else if AnswerTo(c, q, h).Listed? {
      forall i | 0 <= i < |taken|
        ensures Depicts(Entry(AsFds(taken, h)[i]), taken[i], h)
      {
        EntryDepicts(taken[i], h);
      }
    } else if AnswerTo(c, q, h).Chars? {
      ReadsBack(taken, h);
      forall i | 0 <= i < |taken|
        ensures Depicts(Views(taken, h)[i], taken[i], h)
      {
        LineDepicts(taken[i], h);
      }
    }
  }

  lemma ShownCons(a: Answer, rest: seq<Answer>)
    ensures AllShown([a] + rest) == Shows(a) + AllShown(rest)
  {
    assert ([a] + rest)[1..] == rest;
  }

  lemma DepictConcat(vs: seq<View>, q: seq<Msg>, ws: seq<View>, r: seq<Msg>, h: Host)
    requires AllSized(q) && AllSized(r) && DepictAll(vs, q, h) && DepictAll(ws, r, h)
    ensures DepictAll(vs + ws, q + r, h)
  {
    hide Depicts;
  }

  /** The frames all calls take, in order. */
  function Taken(q: seq<Msg>, es: seq<Event>): (r: seq<Msg>)
    requires AllSized(q) && Sane(es)
    ensures AllSized(r)
    decreases |es|
  {
    if es == [] then [] else
    match es[0]
    case Enqueue(m) => Taken(Offered(q, m), es[1..])
    case Take(c) => q[..Takes(c, |q|)] + Taken(q[Takes(c, |q|)..], es[1..])
  }

  lemma {:induction false} AnswersDepict(q: seq<Msg>, es: seq<Event>, h: Host)
    requires AllSized(q) && Sane(es)
    ensures DepictAll(AllShown(Serve(q, es, h).0), Taken(q, es), h)
    decreases |es|
  {
    hide Shows, AnswerTo, Depicts, Takes, DepictAll;
    if es == [] {
      assert DepictAll([], [], h) by { NoneDepicted(h); }
    } else {
      match es[0]
      case Enqueue(m) => AnswersDepict(Offered(q, m), es[1..], h);
      case Take(c) =>
        var k := Takes(c, |q|);
        var more := Serve(q[k..], es[1..], h).0;
        AnswersDepict(q[k..], es[1..], h);
        AnswerDepicts(c, q, h);
        ShownCons(AnswerTo(c, q, h), more);
        DepictConcat(Shows(AnswerTo(c, q, h)), q[..k], AllShown(more), Taken(q[k..], es[1..]), h);
    }
  }

  lemma NoneDepicted(h: Host)
    ensures DepictAll([], [], h)
  {
  }

  lemma {:induction false} TakenAndLeft(q: seq<Msg>, es: seq<Event>, h: Host)
    requires AllSized(q) && Sane(es)
    ensures Taken(q, es) + Serve(q, es, h).1 == q + Admitted(|q|, es)
    decreases |es|
  {
    hide AnswerTo, Takes;
    if es == [] {
      assert q + [] == q;
    } else {
      match es[0]
      case Enqueue(m) =>
        TakenAndLeft(Offered(q, m), es[1..], h);
        if |q| < RING_SIZE {
          Associates(q, [m], Admitted(|q| + 1, es[1..]));
        }
      case Take(c) =>
        var k := Takes(c, |q|);
        TakenAndLeft(q[k..], es[1..], h);
        Regroup(q, k, Taken(q[k..], es[1..]), Serve(q[k..], es[1..], h).1, Admitted(|q| - k, es[1..]));
    }
  }

  lemma Regroup(q: seq<Msg>, k: nat, taken: seq<Msg>, rest: seq<Msg>, more: seq<Msg>)
    requires k <= |q| && taken + rest == q[k..] + more
    ensures (q[..k] + taken) + rest == q + more
  {
    Associates(q[..k], taken, rest);
    Rejoins(q, k, more);
  }

  lemma Associates<T>(a: seq<T>, b: seq<T>, c: seq<T>)
    ensures (a + b) + c == a + (b + c)
  {
  }

  lemma Rejoins(q: seq<Msg>, k: nat, more: seq<Msg>)
    requires k <= |q|
    ensures q[..k] + (q[k..] + more) == q + more
  {
  }

  /** Whatever mix of calls runs: the frames taken and those left are together what
      was queued, in order, none lost, doubled or overtaken; and the answers show
      exactly those taken, in order, each with its own time. */
  lemma ReadersConserve(q: seq<Msg>, es: seq<Event>, h: Host)
    requires AllSized(q) && Sane(es)
    ensures var (answers, rest) := Serve(q, es, h);
            && Taken(q, es) + rest == q + Admitted(|q|, es)
            && DepictAll(AllShown(answers), Taken(q, es), h)
  {
    TakenAndLeft(q, es, h);
    AnswersDepict(q, es, h);
    hide Depicts, Serve, Taken, Admitted;
  }

  function Singles(k: nat): (r: seq<Event>)
    ensures Sane(r)
  {
    seq(k, _ => Take(One))
  }

  /** The same history with every call replaced by as many single removals. */
  function OneByOne(n: nat, es: seq<Event>): (r: seq<Event>)
    requires Sane(es)
    ensures Sane(r)
    decreases |es|
  {
    if es == [] then [] else
    match es[0]
    case Enqueue(_) => [es[0]] + OneByOne(if n < RING_SIZE then n + 1 else n, es[1..])
    case Take(c) => Singles(Takes(c, n)) + OneByOne(n - Takes(c, n), es[1..])
  }

  lemma {:induction false} SinglesTake(q: seq<Msg>, k: nat, es: seq<Event>, h: Host)
    requires AllSized(q) && k <= |q| && Sane(es)
    ensures Taken(q, Singles(k) + es) == q[..k] + Taken(q[k..], es)
    ensures Serve(q, Singles(k) + es, h).1 == Serve(q[k..], es, h).1
    decreases k
  {
    hide AnswerTo;
    if k == 0 {
      assert Singles(0) + es == es && q[0..] == q;
      assert q[..0] + Taken(q, es) == Taken(q, es);
    } else {
      var all := Singles(k) + es;
      assert all[1..] == Singles(k - 1) + es && all[0] == Take(One);
      assert Takes(One, |q|) == 1;
      assert Taken(q, all) == q[..1] + Taken(q[1..], all[1..]) && Serve(q, all, h).1 == Serve(q[1..], all[1..], h).1;
      hide Taken, Serve, Takes, Singles;
      SinglesTake(q[1..], k - 1, es, h);
      assert q[1..][k - 1..] == q[k..];
      Associates(q[..1], q[1..][..k - 1], Taken(q[k..], es));
      assert q[..1] + q[1..][..k - 1] == q[..k];
    }
  }

  lemma {:induction false} SameTaken(q: seq<Msg>, es: seq<Event>, h: Host)
    requires AllSized(q) && Sane(es)
    ensures Taken(q, OneByOne(|q|, es)) == Taken(q, es)
    ensures Serve(q, OneByOne(|q|, es), h).1 == Serve(q, es, h).1
    decreases |es|
  {
    hide AnswerTo, Takes;
    if es != [] {
      match es[0]
      case Enqueue(m) =>
        SameTaken(Offered(q, m), es[1..], h);
        var all := [es[0]] + OneByOne(|Offered(q, m)|, es[1..]);
        assert all[1..] == OneByOne(|Offered(q, m)|, es[1..]);
      case Take(c) =>
        var k := Takes(c, |q|);
        SameTaken(q[k..], es[1..], h);
        SinglesTake(q, k, OneByOne(|q| - k, es[1..]), h);
    }
  }

  /** In any history of the ring a batch of `k` and a text of `k` lines take the frames
      that `k` single messages take, leave the same queue and show the same pictures,
      each frame with its own time. */
  lemma ReadersAgree(q: seq<Msg>, es: seq<Event>, h: Host)
    requires AllSized(q) && Sane(es)
    ensures var (answers, rest) := Serve(q, es, h);
            var (singles, rest1) := Serve(q, OneByOne(|q|, es), h);
            var vs, ws := AllShown(answers), AllShown(singles);
            && rest1 == rest
            && DepictAll(vs, Taken(q, es), h) && DepictAll(ws, Taken(q, es), h)
            && |vs| == |ws| && forall i :: 0 <= i < |vs| ==> vs[i].picture == ws[i].picture
  {
    SameTaken(q, es, h);
    AnswersDepict(q, es, h);
    AnswersDepict(q, OneByOne(|q|, es), h);
    hide Serve, Taken, OneByOne, AllShown;
    var vs, ws, taken := AllShown(Serve(q, es, h).0), AllShown(Serve(q, OneByOne(|q|, es), h).0), Taken(q, es);
    forall i | 0 <= i < |vs|
      ensures vs[i].picture == ws[i].picture
    {
      assert Depicts(vs[i], taken[i], h) && Depicts(ws[i], taken[i], h);
    }
    hide Depicts;
  }

  /** Frame by frame a batch tells as much as single messages, save that the
      identifier is without its flags; both tell the type, by the flags and the size
      of the identifier: error, remote, extended or standard. */
  lemma BatchAsSingles(q: seq<Msg>, i: nat, h: Host)
    requires AllSized(q) && i < |q|
    ensures var fd, rd, f := AsFds(q, h)[i], AsRd(q[i]), q[i].frame;
            && rd.id == f.id && rd.len == f.dlc && rd.data == f.data[..f.dlc]
            && rd.kind == (if f.id / 0x2000_0000 % 2 == 1 then 0x80
                           else if f.id / 0x4000_0000 % 2 == 1 then 0x01
                           else if f.id >= 0x800 then 0x02 else 0x00)
            && fd.id == rd.id % 0x2000_0000 && fd.flags == rd.kind + 0x0300_0000 && fd.kind == 1
            && fd.len == rd.len && fd.data == rd.data
  {
    TypeCodes(q[i].frame.id);
    hide MsgType;
  }
}
