/** One CAN bus shared by the network interface and the character device: the
    stage counter, the open count and the commands sent to the adapter. */
module SharedBus {
  import opened Words
  import opened Timebase
  import opened BusErrors
  import CharDevice
  import RxRing

  const CONNECTED: int := 1
  const ONE_STARTED: int := 2

  datatype Command = SetSilent | SetVcc | SwitchBusOn | SwitchBusOff | InitController

  /** A command sent and whether the adapter took it. */
  datatype Sent = Sent(command: Command, ok: bool)

  /** The adapter: newer revisions take a silent-mode command, and any command
      may fail, with -ENODEV if the adapter is gone. */
  datatype Adapter =
    Adapter(newer: bool, silentOk: bool, vccOk: bool, onOk: bool, offOk: bool, initOk: bool, gone: bool)

  datatype Result = Done | TooMany | CommandFailed

  /** `netUp` and `chrOpen` are the users as the kernel sees them; `attached` says
      that the network interface has not been detached. */
  datatype Share = Share(stage: int, openCount: int, netUp: bool, chrOpen: bool, attached: bool,
                         canState: BusState, timeRef: TimeRef, sent: seq<Sent>)

  /** Sends `cs` until one fails. */
  function SendUntil(cs: seq<Sent>): (seq<Sent>, bool) {
    if cs == [] then ([], true)
    else if !cs[0].ok then ([cs[0]], false)
    else var (rest, ok) := SendUntil(cs[1..]); ([cs[0]] + rest, ok)
  }

  function StartCommands(a: Adapter): seq<Sent> {
    (if a.newer then [Sent(SetSilent, a.silentOk)] else []) + [Sent(SetVcc, a.vccOk), Sent(SwitchBusOn, a.onOk)]
  }

  function StopCommands(a: Adapter): seq<Sent> {
    [Sent(SwitchBusOff, a.offOk), Sent(InitController, a.initOk)]
  }

  function Open(s: Share, a: Adapter): (Result, Share) {
    if s.openCount + 1 > 1 then (TooMany, s)
    else
      var s1 := s.(openCount := s.openCount + 1, stage := s.stage + 1);
      if s1.stage > ONE_STARTED then (Done, s1.(chrOpen := true))
      else
        var (cs, ok) := SendUntil(StartCommands(a));
        var s2 := s1.(timeRef := CLEARED, sent := s1.sent + cs);
        if ok then (Done, s2.(chrOpen := true))
        else (CommandFailed, s2.(stage := s2.stage - 1, openCount := s2.openCount - 1))
  }

  function StopBusIfLast(s: Share, a: Adapter): Share {
    if s.stage < ONE_STARTED then s.(sent := s.sent + SendUntil(StopCommands(a)).0) else s
  }

  function Release(s: Share, a: Adapter): Share {
    StopBusIfLast(s.(openCount := s.openCount - 1, chrOpen := false, stage := s.stage - 1), a)
  }

  function Start(s: Share, a: Adapter): (Result, Share) {
    var s1 := s.(stage := s.stage + 1);
    if s1.stage > ONE_STARTED then (Done, s1.(netUp := true, canState := ErrorActive))
    else
      var (cs, ok) := SendUntil(StartCommands(a));
      var s2 := s1.(timeRef := CLEARED, sent := s1.sent + cs);
      if ok then (Done, s2.(netUp := true, canState := ErrorActive))
      else (CommandFailed, s2.(stage := s2.stage - 1, attached := s2.attached && !a.gone))
  }

  function Stop(s: Share, a: Adapter): Share {
    StopBusIfLast(s.(netUp := false, canState := Stopped, stage := s.stage - 1), a)
  }

  datatype Call = CallOpen | CallRelease | CallStart | CallStop

  /** The kernel releases only what it opened, starts an attached interface that
      is down and stops one that is up; anyone may try to open. */
  predicate Enabled(s: Share, c: Call) {
    match c
    case CallOpen => true
    case CallRelease => s.chrOpen
    case CallStart => !s.netUp && s.attached
    case CallStop => s.netUp
  }

  function Apply(s: Share, c: Call, a: Adapter): Share
    requires Enabled(s, c)
  {
    match c
    case CallOpen => Open(s, a).1
    case CallRelease => Release(s, a)
    case CallStart => Start(s, a).1
    case CallStop => Stop(s, a)
  }

  ghost predicate Reaches(s: Share, cs: seq<(Call, Adapter)>, t: Share)
    decreases |cs|
  {
    if cs == [] then s == t else Enabled(s, cs[0].0) && Reaches(Apply(s, cs[0].0, cs[0].1), cs[1..], t)
  }

  function Users(s: Share): int {
    (if s.netUp then 1 else 0) + (if s.chrOpen then 1 else 0)
  }

  datatype Power = Off | On | Wrong

  function Switched(p: Power, c: Sent): Power {
    if c.command == SwitchBusOn then (if p != Off then Wrong else if c.ok then On else Off)
    else if c.command == SwitchBusOff then (if p == On then Off else Wrong)
    else p
  }

  /** The bus as the commands ask for it; `Wrong` if it was ever asked to go on
      while on, or off while off, whether the adapter took the command or not. A refused
      bus-off counts as asked for, a refused bus-on does not. */
  function PowerAfter(sent: seq<Sent>): Power {
    if sent == [] then Off else Switched(PowerAfter(sent[..|sent| - 1]), sent[|sent| - 1])
  }

  /** Whether the adapter itself is on the bus: it follows the commands it took. */
  predicate Powered(sent: seq<Sent>) {
    sent != [] &&
    (var c := sent[|sent| - 1];
     if c.ok && c.command == SwitchBusOn then true
     else if c.ok && c.command == SwitchBusOff then false
     else Powered(sent[..|sent| - 1]))
  }

  /** The last bus-off was refused, and no bus-on has been taken since. */
  predicate OffRefused(sent: seq<Sent>) {
    sent != [] &&
    (var c := sent[|sent| - 1];
     if c.ok && c.command == SwitchBusOn then false
     else if c.command == SwitchBusOff then !c.ok
     else OffRefused(sent[..|sent| - 1]))
  }

  lemma {:induction false} PoweredExactly(sent: seq<Sent>)
    requires PowerAfter(sent) != Wrong
    ensures Powered(sent) <==> PowerAfter(sent) == On || OffRefused(sent)
  {
    if sent != [] {
      PoweredExactly(sent[..|sent| - 1]);
    }
  }

  predicate Inv(s: Share) {
    && s.stage == CONNECTED + Users(s)
    && s.openCount == (if s.chrOpen then 1 else 0)
    && PowerAfter(s.sent) == (if Users(s) > 0 then On else Off)
  }

  predicate Plugged(s: Share) {
    s == Share(CONNECTED, 0, false, false, true, Stopped, s.timeRef, [])
  }

  lemma SendCons(c: Sent, rest: seq<Sent>)
    ensures SendUntil([c] + rest)
         == if c.ok then ([c] + SendUntil(rest).0, SendUntil(rest).1) else ([c], false)
  {
    assert ([c] + rest)[1..] == rest;
  }

  /** What a start sends, case by case. */
  lemma StartSends(a: Adapter)
    ensures var silent, vcc, on := Sent(SetSilent, a.silentOk), Sent(SetVcc, a.vccOk), Sent(SwitchBusOn, a.onOk);
            SendUntil(StartCommands(a)) ==
              if a.newer && !a.silentOk then ([silent], false)
              else ((if a.newer then [silent] else []) + (if a.vccOk then [vcc, on] else [vcc]), a.vccOk && a.onOk)
  {
    var silent, vcc, on := Sent(SetSilent, a.silentOk), Sent(SetVcc, a.vccOk), Sent(SwitchBusOn, a.onOk);
    SendCons(on, []);
    SendCons(vcc, [on]);
    SendCons(silent, [vcc, on]);
    assert [on] + [] == [on] && [vcc] + [on] == [vcc, on];
    assert [silent] + [vcc, on] == [silent, vcc, on];
    assert StartCommands(a) == if a.newer then [silent] + [vcc, on] else [vcc] + [on];
    var none: seq<Sent> := [];
    assert none + [vcc, on] == [vcc, on] && none + [vcc] == [vcc];
  }

  lemma StopSends(a: Adapter)
    ensures var off, init := Sent(SwitchBusOff, a.offOk), Sent(InitController, a.initOk);
            SendUntil(StopCommands(a)).0 == if a.offOk then [off, init] else [off]
  {
    var off, init := Sent(SwitchBusOff, a.offOk), Sent(InitController, a.initOk);
    SendCons(init, []);
    SendCons(off, [init]);
    assert [init] + [] == [init] && [off] + [init] == [off, init];
  }

  lemma PowerAppend(sent: seq<Sent>, cs: seq<Sent>, c: Sent)
    ensures PowerAfter(sent + (cs + [c])) == Switched(PowerAfter(sent + cs), c)
  {
    var all := sent + (cs + [c]);
    assert all[..|all| - 1] == sent + cs;
  }

  /** Starting commands switch the bus on exactly when all are taken. */
  lemma StartPower(sent: seq<Sent>, a: Adapter)
    requires PowerAfter(sent) == Off
    ensures var (cs, ok) := SendUntil(StartCommands(a));
            && PowerAfter(sent + cs) == (if ok then On else Off)
            && (ok <==> (a.newer ==> a.silentOk) && a.vccOk && a.onOk)
  {
    var silent, vcc, on := Sent(SetSilent, a.silentOk), Sent(SetVcc, a.vccOk), Sent(SwitchBusOn, a.onOk);
    StartSends(a);
    hide SendUntil, PowerAfter, StartCommands;
    var none: seq<Sent> := [];
    var pre := if a.newer then [silent] else none;
    assert sent + none == sent && none + [silent] == [silent];
    PowerAppend(sent, none, silent);
    PowerAppend(sent, pre, vcc);
    PowerAppend(sent, pre + [vcc], on);
    assert pre + [vcc] + [on] == pre + [vcc, on];
    assert SendUntil(StartCommands(a)).0 ==
      if a.newer && !a.silentOk then [silent] else if a.vccOk then pre + [vcc, on] else pre + [vcc];
  }

  lemma StopPower(sent: seq<Sent>, a: Adapter)
    requires PowerAfter(sent) == On
    ensures PowerAfter(sent + SendUntil(StopCommands(a)).0) == Off
  {
    var off, init := Sent(SwitchBusOff, a.offOk), Sent(InitController, a.initOk);
    StopSends(a);
    hide SendUntil, PowerAfter, StopCommands;
    var none: seq<Sent> := [];
    assert sent + none == sent && none + [off] == [off] && [off] + [init] == [off, init];
    PowerAppend(sent, none, off);
    PowerAppend(sent, [off], init);
  }

  lemma CallKeepsInv(s: Share, c: Call, a: Adapter)
    requires Inv(s) && Enabled(s, c)
    ensures Inv(Apply(s, c, a))
  {
    if Users(s) == 0 {
      StartPower(s.sent, a);
    } else {
      StopPower(s.sent, a);
    }
    hide PowerAfter, SendUntil;
  }

  /** While plugged in, whatever opens, releases, starts and stops come in what
      order and with what failures: stage is one more than the users, the open
      count is 0 or 1, and the bus is switched on only by the first user and
      off only by the last. */
  lemma {:induction false} SharedCounting(s: Share, cs: seq<(Call, Adapter)>, t: Share)
    requires Inv(s) && Reaches(s, cs, t)
    ensures Inv(t)
    decreases |cs|
  {
    if cs != [] {
      CallKeepsInv(s, cs[0].0, cs[0].1);
      SharedCounting(Apply(s, cs[0].0, cs[0].1), cs[1..], t);
    }
  }

  /** The adapter is on the bus exactly while there is a user, and after the last
      one exactly when it refused to be switched off and was not switched on since. */
  lemma AdapterFollows(s: Share, cs: seq<(Call, Adapter)>, t: Share)
    requires Plugged(s) && Reaches(s, cs, t)
    ensures Powered(t.sent) <==> Users(t) > 0 || OffRefused(t.sent)
  {
    SharedCounting(s, cs, t);
    PoweredExactly(t.sent);
  }

  /** A refused open or failed start leaves users and counters as they were, and
      can only happen to a second opener or to the first user. */
  lemma FailureRestores(s: Share, a: Adapter)
    requires Inv(s)
    ensures var (r, t) := Open(s, a);
            && (r == TooMany <==> s.chrOpen)
            && (r == TooMany ==> t == s)
            && (r == CommandFailed ==> Users(s) == 0 && t == s.(timeRef := CLEARED, sent := t.sent))
            && (r == Done <==> t.chrOpen && !s.chrOpen)
    ensures !s.netUp ==>
              var (r, t) := Start(s, a);
              && (r == Done || r == CommandFailed)
              && (r == CommandFailed ==>
                    Users(s) == 0 && t == s.(timeRef := CLEARED, sent := t.sent, attached := s.attached && !a.gone))
              && (r == Done <==> t.netUp)
  {
    hide SendUntil;
  }

  /** The time reference is cleared exactly when the bus is brought up. */
  lemma ClearedAtBusStart(s: Share, c: Call, a: Adapter)
    requires Inv(s) && Enabled(s, c)
    ensures Users(s) == 0 && Users(Apply(s, c, a)) == 1 ==> Apply(s, c, a).timeRef == CLEARED && Dormant(CLEARED)
    ensures Users(s) > 0 ==> Apply(s, c, a).timeRef == s.timeRef
  {
    hide SendUntil;
  }

  /** A start that succeeds makes the interface error-active, a stop makes it
      stopped, and the character device leaves the state alone. */
  lemma CanStateFollows(s: Share, c: Call, a: Adapter)
    requires Inv(s) && Enabled(s, c)
    ensures var t := Apply(s, c, a);
            t.canState == if c == CallStop then Stopped
                          else if c == CallStart && t.netUp then ErrorActive
                          else s.canState
  {
    hide SendUntil;
  }

  /** What the adapter is told, command by command: nothing while there is another
      user; else silent mode on newer revisions, external voltage off and bus on, each
      only if the one before was taken, for a first user, and bus off and, if that was
      taken, a reset of the controller for the last. */
  lemma CommandsSent(s: Share, c: Call, a: Adapter)
    requires Inv(s) && Enabled(s, c)
    ensures var t := Apply(s, c, a);
            t.sent == s.sent +
              if Users(s) == 0 && (c == CallOpen || c == CallStart) then
                var silent := if a.newer then [Sent(SetSilent, a.silentOk)] else [];
                if a.newer && !a.silentOk then silent
                else silent + [Sent(SetVcc, a.vccOk)] + (if a.vccOk then [Sent(SwitchBusOn, a.onOk)] else [])
              else if Users(s) == 1 && (c == CallRelease || c == CallStop) then
                [Sent(SwitchBusOff, a.offOk)] + (if a.offOk then [Sent(InitController, a.initOk)] else [])
              else []
  {
    StartSends(a);
    StopSends(a);
    hide SendUntil, StartCommands, StopCommands, PowerAfter;
    assert s.sent + [] == s.sent;
  }

  // ---- The calls in memory ----

  class Bus {
    const chr: CharDevice.Device
    var stage: int
    var netUp: bool
    var chrOpen: bool
    var attached: bool
    var canState: BusState
    var timeRef: TimeRef
    ghost var sent: seq<Sent>

    ghost function View(): Share
      reads this, chr
    {
      Share(stage, chr.openCount, netUp, chrOpen, attached, canState, timeRef, sent)
    }

    constructor (chr: CharDevice.Device)
      requires chr.openCount == 0
      ensures this.chr == chr && Plugged(View())
    {
      this.chr := chr;
      stage, netUp, chrOpen, attached, canState := CONNECTED, false, false, true, Stopped;
      timeRef, sent := CLEARED, [];
    }

    method Send(c: Command, ok: bool) returns (err: bool)
      modifies this`sent
      ensures err == !ok && sent == old(sent) + [Sent(c, ok)]
    {
      sent := sent + [Sent(c, ok)];
      err := !ok;
    }

    /** The commands of a first start, in order, until one fails. */
    method SwitchOn(a: Adapter) returns (err: bool)
      modifies this`sent
      ensures (sent, !err) == (old(sent) + SendUntil(StartCommands(a)).0, SendUntil(StartCommands(a)).1)
    {
      StartSends(a);
      hide SendUntil, StartCommands;
      if a.newer {
        err := Send(SetSilent, a.silentOk);
        if err {
          return;
        }
      }
      err := Send(SetVcc, a.vccOk);
      if err {
        assert sent == old(sent) + SendUntil(StartCommands(a)).0;
        return;
      }
      err := Send(SwitchBusOn, a.onOk);
      assert sent == old(sent) + SendUntil(StartCommands(a)).0;
    }

    /** usbdrv_reset_bus, switching off. */
    method SwitchOff(a: Adapter)
      modifies this`sent
      ensures sent == old(sent) + SendUntil(StopCommands(a)).0
    {
      StopSends(a);
      hide SendUntil, StopCommands;
      var err := Send(SwitchBusOff, a.offOk);
      if !err {
        err := Send(InitController, a.initOk);
      }
    }

    /** pcan_chardev_open, once the adapter of the file has been found; only a
        second opener leaves the ring alone. */
    method ChardevOpen(a: Adapter) returns (r: Result)
      requires chr.Valid()
      modifies this, chr`openCount, chr`writeIdx, chr`unread, chr`packets
      ensures chr.Valid() && (r, View()) == Open(old(View()), a)
      ensures if r == TooMany then chr.Queue() == old(chr.Queue()) && chr.packets == old(chr.packets)
              else chr.Queue() == [] && chr.packets == 0
    {
      hide RxRing.Unread;
      chr.openCount := chr.openCount + 1;
      if chr.openCount > 1 {
        chr.openCount := chr.openCount - 1;
        return TooMany;
      }
      chr.Reset();
      stage := stage + 1;
      if stage > ONE_STARTED {
        chrOpen := true;
        return Done;
      }
      timeRef := CLEARED;
      var err := SwitchOn(a);
      hide SendUntil;
      if err {
        stage := stage - 1;
        chr.openCount := chr.openCount - 1;
        return CommandFailed;
      }
      chrOpen := true;
      r := Done;
    }

    /** pcan_chardev_release. */
    method ChardevRelease(a: Adapter)
      requires chr.openCount > 0
      modifies this, chr`openCount
      ensures View() == Release(old(View()), a)
    {
      hide SendUntil;
      chr.openCount := chr.openCount - 1;
      chrOpen := false;
      stage := stage - 1;
      if stage < ONE_STARTED {
        SwitchOff(a);
      }
    }

    /** start_can_interface. */
    method StartCanInterface(a: Adapter) returns (r: Result)
      modifies this
      ensures (r, View()) == Start(old(View()), a)
    {
      stage := stage + 1;
      if stage <= ONE_STARTED {
        timeRef := CLEARED;
        var err := SwitchOn(a);
        hide SendUntil;
        if err {
          stage := stage - 1;
          if a.gone {
            attached := false;
          }
          return CommandFailed;
        }
      }
      netUp := true;
      canState := ErrorActive;
      r := Done;
    }

    /** pcan_net_stop. */
    method NetStop(a: Adapter)
      modifies this
      ensures View() == Stop(old(View()), a)
    {
      hide SendUntil;
      stage := stage - 1;
      netUp := false;
      canState := Stopped;
      if stage < ONE_STARTED {
        SwitchOff(a);
      }
    }
  }
}
