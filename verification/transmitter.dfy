/** The transmit path in memory: the encoder, the context search and the
    completion callback, proved against `TxQueue` and `PacketLaws`. */
module Transmitter {
  import opened Words
  import opened Can
  import opened BusErrors
  import opened Packets
  import PacketLaws
  import opened TxQueue

  const TX_BUF: nat := 64

  /** Copies bytes into the buffer at `p`. */
  method Put(obuf: array<byte>, p: nat, bs: seq<byte>) returns (next: nat)
    requires p + |bs| <= obuf.Length
    modifies obuf
    ensures next == p + |bs|
    ensures obuf[..next] == old(obuf[..p]) + bs
    ensures forall k :: next <= k < obuf.Length ==> obuf[k] == old(obuf[k])
  {
    forall k | 0 <= k < |bs| {
      obuf[p + k] := bs[k];
    }
    next := p + |bs|;
  }

  /** pcan_encode_frame_to_buf, up to the counter byte. */
  method EncodeFrame(f: Frame, obuf: array<byte>) returns (n: nat)
    requires f.dlc <= MAX_DLC && |f.data| == 8 && obuf.Length == TX_BUF
    modifies obuf
    ensures n == |PacketLaws.Encoded(f)| <= 15
    ensures obuf[..n] == PacketLaws.Encoded(f)
    ensures forall k :: n <= k < obuf.Length ==> obuf[k] == old(obuf[k])
  {
    n := Put(obuf, 0, [2, 1]);
    var status := f.dlc;
    if Has(f.id, RTR_FLAG) {
      status := With(status, RTR);
    }
    if Has(f.id, EFF_FLAG) {
      status := With(status, EXT_ID);
      n := Put(obuf, n, [status]);
      n := Put(obuf, n, Bytes32(f.id % EFF_RANGE * 8 % WORD32));
    } else {
      n := Put(obuf, n, [status]);
      n := Put(obuf, n, Bytes16(f.id % EFF_RANGE * 32 % WORD16));
    }
    assert obuf[..n] == [2, 1, PacketLaws.EncodedStatus(f)] + PacketLaws.EncodedId(f);
    ghost var head := [2, 1, PacketLaws.EncodedStatus(f)] + PacketLaws.EncodedId(f);
    if !Has(f.id, RTR_FLAG) {
      n := Put(obuf, n, f.data[..f.dlc]);
    } else {
      assert head + [] == head;
    }
  }

  class NetQueue {
    /** Echo indices: the network half, then the character-device half. */
    const echo: array<nat>
    /** The kernel's echo slots: the lengths of the frames they hold. */
    const slots: array<Option<nat>>
    /** Which contexts still own their URB. */
    const urb: array<bool>
    var active: int
    var awake: bool
    var present: bool
    var dropped: nat
    var sent: nat
    var bytes: nat
    var shared: nat
    var canState: BusState

    predicate Valid()
      reads this
    {
      echo.Length == 2 * MAX_TX && urb.Length == 2 * MAX_TX && slots.Length == MAX_TX
    }

    function View(): Tx
      requires Valid()
      reads this, echo, slots
    {
      Tx(echo[..MAX_TX], slots[..], active, awake, present, dropped, sent, bytes, shared)
    }

    /** As plugged in: every context allocated and free, the queue started. */
    constructor ()
      ensures Valid() && Init(View())
      ensures forall i :: 0 <= i < 2 * MAX_TX ==> urb[i] && echo[i] == 0
      ensures fresh(echo) && fresh(urb) && fresh(slots)
    {
      echo := new nat[2 * MAX_TX];
      urb := new bool[2 * MAX_TX];
      slots := new Option<nat>[MAX_TX](_ => None);
      active, awake, present, dropped, sent, bytes, shared := 0, true, true, 0, 0, 0, 0;
      canState := Stopped;
      new;
      var i := 0;
      while i < 2 * MAX_TX
        invariant 0 <= i <= 2 * MAX_TX
        invariant forall j :: 0 <= j < i ==> urb[j] && echo[j] == 0
        modifies echo, urb
      {
        urb[i], echo[i] := true, 0;
        i := i + 1;
      }
    }

    /** pcan_net_start_transmit. */
    method StartTransmit(f: Frame, obuf: array<byte>, r: Request) returns (status: TxStatus)
      requires Valid() && obuf.Length == TX_BUF
      requires !r.listenOnly && !r.invalid ==> f.dlc <= MAX_DLC && |f.data| == 8
      requires !r.listenOnly && !r.invalid ==> r.len == f.dlc
      modifies this, echo, slots, obuf
      ensures Valid() && canState == old(canState) && (status, View()) == TxQueue.StartTransmit(old(View()), r)
      ensures forall i :: MAX_TX <= i < 2 * MAX_TX ==> echo[i] == old(echo[i])
      ensures !r.listenOnly && !r.invalid && status == TxOk ==> PacketLaws.Encoded(f) <= obuf[..]
      ensures status == TxBusy ==> obuf[..] == old(obuf[..])
    {
      status := TxOk;
      if r.listenOnly {
        dropped := dropped + 1;
        return;
      }
      if r.invalid {
        return;
      }
      var i: nat := 0;
      while i < MAX_TX && echo[i] != 0
        invariant 0 <= i <= MAX_TX
        invariant FirstFreeFrom(echo[..MAX_TX], i) == FirstFree(echo[..MAX_TX])
      {
        i := i + 1;
      }
      if i == MAX_TX {
        return TxBusy;
      }
      var n := EncodeFrame(f, obuf);
      assert obuf[..n] <= obuf[..];
      Submit(i, r);
      hide SubmitFrom;
    }

    /** The submission from the free context `i`, taken back if it is refused. */
    method Submit(i: nat, r: Request)
      requires Valid() && i < MAX_TX && echo[i] == 0
      modifies this, echo, slots
      ensures Valid() && canState == old(canState) && View() == SubmitFrom(old(View()), i, r)
      ensures forall j :: MAX_TX <= j < 2 * MAX_TX ==> echo[j] == old(echo[j])
    {
      ghost var was, held := echo[..MAX_TX], slots[..];
      var index: nat := i + 1;
      echo[i] := index;
      assert echo[..MAX_TX] == was[i := index];
      if slots[i].None? {
        slots[i] := Some(r.len);
      }
      assert slots[..] == PutEcho(held, i, r.len);
      active := active + 1;
      if r.submitted != Taken {
        slots[i] := None;
        assert slots[..] == FreeEchoSlot(held, i);
        echo[i] := 0;
        assert echo[..MAX_TX] == was;
        active := active - 1;
        if r.submitted == NoDevice {
          present := false;
        } else {
          dropped := dropped + 1;
        }
      } else if active >= MAX_TX {
        awake := false;
      }
    }

    /** usb_write_bulk_callback for the context `i`. */
    method WriteBulkCallback(i: nat, ok: bool)
      requires Valid() && i < MAX_TX
      modifies this, echo, slots
      ensures Valid() && canState == old(canState) && View() == Complete(old(View()), i, ok)
      ensures forall j :: MAX_TX <= j < 2 * MAX_TX ==> echo[j] == old(echo[j])
    {
      active := active - 1;
      if !present {
        return;
      }
      var len := GetEcho(echo[i]);
      echo[i] := 0;
      assert echo[..MAX_TX] == old(echo[..MAX_TX])[i := 0];
      if ok {
        shared := shared + 1;
        sent := sent + 1;
        bytes := bytes + len;
        awake := true;
      }
    }

    /** can_get_echo_skb: takes the frame out of the slot an index names. */
    method GetEcho(index: nat) returns (len: nat)
      requires Valid()
      modifies slots
      ensures slots[..] == if index > 0 then FreeEchoSlot(old(slots[..]), index - 1) else old(slots[..])
      ensures len == if 0 < index <= MAX_TX then Len(old(slots[index - 1])) else 0
    {
      len := 0;
      if 0 < index <= MAX_TX {
        len := Len(slots[index - 1]);
        slots[index - 1] := None;
      }
    }

    /** pcan_net_wake_up. */
    method WakeUp()
      requires Valid()
      modifies this`awake, this`canState
      ensures Valid() && View() == Apply(old(View()), RestartWake) && canState == ErrorActive
    {
      canState := ErrorActive;
      awake := true;
    }

    /** usbdrv_unlink_all_urbs, transmit part: frees here exactly the URBs that
        are not with the USB core, each once. */
    method UnlinkAll() returns (freed: seq<nat>)
      requires Valid()
      modifies this`active, urb
      ensures Valid() && View() == old(View()).(active := 0)
      ensures forall i :: 0 <= i < 2 * MAX_TX ==> urb[i] == (old(urb[i]) && echo[i] != 0)
      ensures forall k :: 0 <= k < |freed| ==> freed[k] < 2 * MAX_TX && old(urb[freed[k]]) && echo[freed[k]] == 0
      ensures forall i :: 0 <= i < 2 * MAX_TX && old(urb[i]) && echo[i] == 0 ==> i in freed
      ensures forall j, k :: 0 <= j < k < |freed| ==> freed[j] < freed[k]
    {
      freed := [];
      var i := 0;
      while i < 2 * MAX_TX
        invariant 0 <= i <= 2 * MAX_TX
        invariant forall j :: 0 <= j < i ==> urb[j] == (old(urb[j]) && echo[j] != 0)
        invariant forall j :: i <= j < 2 * MAX_TX ==> urb[j] == old(urb[j])
        invariant forall k :: 0 <= k < |freed| ==> freed[k] < i && old(urb[freed[k]]) && echo[freed[k]] == 0
        invariant forall j :: 0 <= j < i && old(urb[j]) && echo[j] == 0 ==> j in freed
        invariant forall j, k :: 0 <= j < k < |freed| ==> freed[j] < freed[k]
      {
        if urb[i] && echo[i] == 0 {
          urb[i] := false;
          freed := freed + [i];
        }
        i := i + 1;
      }
      active := 0;
    }
  }
}
