/** The character device: the ring in memory, its publication by the receive
    path and the three calls that take frames out of it. */
module CharDevice {
  import opened Words
  import opened Can
  import opened RxRing
  import opened TextLines

  const READ_BUF: nat := 641

  const TYPE_STANDARD: byte := 0x00
  const TYPE_RTR: byte := 0x01
  const TYPE_EXTENDED: byte := 0x02
  const TYPE_STATUS: byte := 0x80
  const FD_STAMPED: nat := 0x0300_0000
  const FD_CAN20: nat := 1

  function MsgType(id: u32): byte {
    if Has(id, ERR_FLAG) then TYPE_STATUS
    else if Has(id, RTR_FLAG) then TYPE_RTR
    else if id >= SFF_RANGE then TYPE_EXTENDED
    else TYPE_STANDARD
  }

  /** What read_msg returns for a frame. */
  datatype RdMsg = RdMsg(id: u32, kind: byte, len: nat, data: seq<byte>, msecs: int, usecs: int)

  /** What fd_recv_msgs returns for a frame, with its host time. */
  datatype FdMsg = FdMsg(id: nat, kind: nat, flags: nat, len: nat, data: seq<byte>, sec: int, usec: int)

  function AsRd(m: Msg): RdMsg
    requires Sized(m.frame)
  {
    var f := m.frame;
    // C division truncates; hardware times are not negative in practice
    var ms := Trunc(m.hwtstamp, 1000000);
    RdMsg(f.id, MsgType(f.id), f.dlc, f.data[..f.dlc], ms, Trunc(m.hwtstamp, 1000) - ms * 1000)
  }

  function AsFd(m: Msg, h: Host): FdMsg
    requires Sized(m.frame)
  {
    var f := m.frame;
    FdMsg(f.id % EFF_RANGE, FD_CAN20, MsgType(f.id) + FD_STAMPED, f.dlc, f.data[..f.dlc],
          WallSeconds(h, m), WallMicros(h, m))
  }

  /** Division as in C, toward zero. */
  function Trunc(a: int, b: int): int
    requires b > 0
  {
    if a >= 0 then a / b else -(-a / b)
  }

  function AsFds(q: seq<Msg>, h: Host): (r: seq<FdMsg>)
    requires AllSized(q)
    ensures |r| == |q|
  {
    seq(|q|, i requires 0 <= i < |q| => AsFd(q[i], h))
  }

  /** Frames a text read of `count` bytes may take. */
  function TextRoom(count: nat): int {
    count / 80 + (if count % 80 != 0 then 0 else -1)
  }

  class Device {
    const slots: array<Msg>
    const textBuf: array<char>
    const fdList: array<FdMsg>
    var writeIdx: nat
    var unread: nat
    var packets: nat
    var openCount: nat

    ghost predicate Valid()
      reads this, slots
    {
      && slots.Length == RING_SIZE && textBuf.Length == READ_BUF && fdList.Length == RING_SIZE
      && writeIdx < RING_SIZE && unread <= RING_SIZE
      && AllSized(slots[..])
    }

    ghost function Queue(): (q: seq<Msg>)
      requires Valid()
      reads this, slots
      ensures |q| == unread && AllSized(q)
    {
      Unread(slots[..], writeIdx, unread)
    }

    /** A device as allocated: zeroed, closed and empty. */
    constructor ()
      ensures Valid() && Queue() == [] && packets == 0 && openCount == 0
      ensures fresh(slots) && fresh(textBuf) && fresh(fdList)
    {
      slots := new Msg[RING_SIZE](_ => Msg(0, Frame(0, 0, ZERO8)));
      textBuf := new char[READ_BUF](_ => '\0');
      fdList := new FdMsg[RING_SIZE](_ => FdMsg(0, 0, 0, 0, [], 0, 0));
      writeIdx, unread, packets, openCount := 0, 0, 0, 0;
    }

    /** The three stores of open, taken together. */
    method Reset()
      requires Valid()
      modifies this`writeIdx, this`unread, this`packets
      ensures Valid() && Queue() == [] && packets == 0
    {
      writeIdx := 0;
      unread := 0;
      packets := 0;
    }

    /** Fills the slot sampled earlier and publishes it; there must be room. */
    method Publish(slot: nat, m: Msg)
      requires Valid() && slot == writeIdx && unread < RING_SIZE && Sized(m.frame)
      modifies this`writeIdx, this`unread, this`packets, slots
      ensures Valid() && Queue() == old(Queue()) + [m]
      ensures packets == old(packets) + 1
    {
      FillInvisible(slots[..], slot, unread, m);
      ghost var was := slots[..];
      slots[slot] := m;
      assert slots[..] == was[slot := m];
      PublishAppends(slots[..], slot, unread);
      writeIdx := (slot + 1) % RING_SIZE;
      unread := unread + 1;
      packets := packets + 1;
    }

    /** Lowers the unread count, which removes the oldest frames. */
    method Drop(k: nat)
      requires Valid() && k <= unread
      modifies this`unread
      ensures Valid() && Queue() == old(Queue())[k..]
    {
      DrainDrops(slots[..], writeIdx, unread, k);
      unread := unread - k;
    }

    /** The locked part of read_msg: takes the oldest frame. */
    method ReadMsg() returns (err: Errno, msg: RdMsg)
      requires Valid()
      modifies this`unread
      ensures Valid()
      ensures err == (if old(Queue()) == [] then Again else Ok)
      ensures err == Ok ==> msg == AsRd(old(Queue())[0])
      ensures Queue() == old(Queue())[Takes(One, |old(Queue())|)..]
    {
      msg := RdMsg(0, 0, 0, [], 0, 0);
      var readIdx := ReadIndex(writeIdx, unread);
      if unread <= 0 {
        return Again, msg;
      }
      assert readIdx == SlotAt(writeIdx, unread, 0);
      msg := AsRd(slots[readIdx]);
      Drop(1);
      err := Ok;
    }

    /** The body of fd_recv_msgs after its waiting part: takes up to `want`
        frames into the shared list, oldest first. */
    method RecvMsgs(want: nat, h: Host) returns (err: Errno, count: nat)
      requires Valid()
      modifies this`unread, fdList
      ensures Valid()
      ensures err == (if want == 0 then Inval else if old(Queue()) == [] then Again else Ok)
      ensures err == Ok ==> count == Min(want, |old(Queue())|)
                              && fdList[..count] == AsFds(old(Queue())[..count], h)
      ensures Queue() == old(Queue())[Takes(Batch(want), |old(Queue())|)..]
    {
      count := 0;
      if want == 0 {
        return Inval, count;
      }
      var readIdx := ReadIndex(writeIdx, unread);
      if unread <= 0 {
        return Again, count;
      }
      count := if want > unread then unread else want;
      ghost var q := Queue();
      assert readIdx == SlotAt(writeIdx, unread, 0);
      hide Unread, SlotAt, ReadIndex;
      var i := 0;
      while i < count
        invariant 0 <= i <= count <= unread == |q|
        invariant Valid() && Queue() == q
        invariant readIdx == SlotAt(writeIdx, unread, i)
        invariant fdList[..i] == AsFds(q[..i], h)
      {
        NextSlot(slots[..], writeIdx, unread, i);
        hide Takes;
        fdList[i] := AsFd(slots[readIdx], h);
        readIdx := (readIdx + 1) % RING_SIZE;
        i := i + 1;
        assert q[..i] == q[..i - 1] + [q[i - 1]];
      }
      Drop(count);
      err := Ok;
    }

    /** The first `n` characters of the text buffer. */
    ghost function Written(n: nat): (s: string)
      requires n <= textBuf.Length
      reads textBuf
      ensures |s| == n
    {
      textBuf[..n]
    }

    /** Appends `s` to the text written so far. */
    method Emit(ptr: nat, s: string) returns (next: nat)
      requires ptr + |s| <= textBuf.Length
      modifies textBuf
      ensures next == ptr + |s|
      ensures Written(next) == old(Written(ptr)) + s
    {
      forall k | 0 <= k < |s| {
        textBuf[ptr + k] := s[k];
      }
      next := ptr + |s|;
    }

    /** Writes the data bytes of a line one by one. */
    method EmitData(ptr: nat, data: seq<byte>) returns (next: nat)
      requires ptr + 3 * |data| <= textBuf.Length
      modifies textBuf
      ensures next == ptr + 3 * |data|
      ensures Written(next) == old(Written(ptr)) + DataText(data)
    {
      next := ptr;
      var j := 0;
      ghost var before := Written(ptr);
      assert data[..0] == [] && before + [] == before;
      while j < |data|
        invariant 0 <= j <= |data|
        invariant next == ptr + 3 * j
        invariant Written(next) == before + DataText(data[..j])
      {
        DataTextStep(data, j);
        ByteTextWidth(data[j]);
        hide DataText, ByteText, Written;
        next := Emit(next, ByteText(data[j]));
        assert before + DataText(data[..j]) + ByteText(data[j]) == before + (DataText(data[..j]) + ByteText(data[j]));
        j := j + 1;
      }
      assert data[..j] == data;
    }

    /** Writes one line, field by field. */
    method EmitLine(ptr: nat, h: Host, m: Msg) returns (next: nat)
      requires Sized(m.frame) && ptr + |Line(h, m)| <= textBuf.Length
      modifies textBuf
      ensures next == ptr + |Line(h, m)|
      ensures Written(next) == old(Written(ptr)) + Line(h, m)
    {
      LineParts(h, m);
      hide Prefix, DataText, Line, Written;
      ghost var before := Written(ptr);
      var data := m.frame.data[..m.frame.dlc];
      next := Emit(ptr, Prefix(h, m));
      next := EmitData(next, data);
      next := Emit(next, "\n");
      assert before + Prefix(h, m) + DataText(data) + "\n" == before + (Prefix(h, m) + DataText(data) + "\n");
    }

    /** Writes the line of the `i`-th unread frame. */
    method EmitSlot(ptr: nat, i: nat, readIdx: nat, h: Host) returns (next: nat)
      requires Valid() && i < unread && readIdx == SlotAt(writeIdx, unread, i)
      requires ptr <= 80 * i && Written(ptr) == Text(Queue()[..i], h)
      modifies textBuf
      ensures next <= 80 * (i + 1) <= textBuf.Length
      ensures Written(next) == Text(Queue()[..i + 1], h)
    {
      NextSlot(slots[..], writeIdx, unread, i);
      var m := slots[readIdx];
      LineParts(h, m);
      TextStep(Queue(), i, h);
      hide Unread, SlotAt, Text, Line, Prefix, DataText, Written;
      next := EmitLine(ptr, h, m);
    }

    /** Writes the lines of the `room` oldest frames, which stay queued. */
    method EmitFrames(room: nat, h: Host) returns (n: nat)
      requires Valid() && room <= unread
      modifies textBuf
      ensures n <= 80 * room && n <= 640 < textBuf.Length
      ensures Written(n) == Text(Queue()[..room], h)
    {
      var readIdx := ReadIndex(writeIdx, unread);
      n := 0;
      ghost var q := Queue();
      assert readIdx == SlotAt(writeIdx, unread, 0);
      NothingWritten(h);
      hide Unread, SlotAt, ReadIndex, Text, Written;
      var i := 0;
      while i < room
        invariant 0 <= i <= room && Valid() && Queue() == q
        invariant readIdx == SlotAt(writeIdx, unread, i)
        invariant n <= 80 * i && Written(n) == Text(q[..i], h)
      {
        n, readIdx := EmitNext(n, i, readIdx, h);
        i := i + 1;
      }
    }

    lemma NothingWritten(h: Host)
      requires Valid()
      ensures Written(0) == Text(Queue()[..0], h)
    {
      assert Queue()[..0] == [];
    }

    /** Writes one line and steps to the next slot. */
    method EmitNext(ptr: nat, i: nat, readIdx: nat, h: Host) returns (next: nat, nextIdx: nat)
      requires Valid() && i < unread && readIdx == SlotAt(writeIdx, unread, i)
      requires ptr <= 80 * i && Written(ptr) == Text(Queue()[..i], h)
      modifies textBuf
      ensures next <= 80 * (i + 1) && next <= textBuf.Length
      ensures Written(next) == Text(Queue()[..i + 1], h)
      ensures nextIdx == SlotAt(writeIdx, unread, i + 1)
    {
      NextSlot(slots[..], writeIdx, unread, i);
      hide Unread, SlotAt, Text, Written;
      next := EmitSlot(ptr, i, readIdx, h);
      nextIdx := (readIdx + 1) % RING_SIZE;
    }

    /** A read of `count` bytes after its waiting part: one line for each frame
        taken, always fewer bytes than asked for and never beyond the buffer. */
    method ReadText(count: nat, h: Host) returns (err: Errno, n: nat)
      requires Valid()
      modifies this`unread, textBuf
      ensures Valid()
      ensures err == (if count <= LINE_MAX then Inval else if old(Queue()) == [] then Again else Ok)
      ensures err == Ok ==>
                var k := Takes(Lines(count), |old(Queue())|);
                && 0 < k
                && n <= textBuf.Length && Written(n) == Text(old(Queue())[..k], h)
                && n <= 80 * ((count - 1) / 80) < count && n <= 640
      ensures Queue() == old(Queue())[Takes(Lines(count), |old(Queue())|)..]
    {
      n := 0;
      LinesTake(count, unread);
      hide Takes, TextRoom, Text, Written, AllSized, Unread;
      if count <= LINE_MAX {
        return Inval, n;
      }
      var room := TextRoom(count);
      if unread <= 0 {
        return Again, n;
      }
      if room > unread {
        room := unread;
      }
      n := EmitFrames(room, h);
      Drop(room);
      err := Ok;
    }
  }

  /** The milliseconds and the microseconds of a single message are those of the
      frame's time, both cut toward zero. */
  lemma OwnTime(m: Msg)
    requires Sized(m.frame)
    ensures var r := AsRd(m);
            && (m.hwtstamp >= 0 ==> 0 <= r.usecs < 1000 && 1000 * r.msecs + r.usecs == m.hwtstamp / 1000)
            && (m.hwtstamp < 0 ==> -1000 < r.usecs <= 0 && 1000 * r.msecs + r.usecs == -(-m.hwtstamp / 1000))
  {
  }

  /** A read takes as many frames as lines of 80 fit strictly below `count`. */
  lemma TextRoomExact(count: nat)
    requires count > LINE_MAX
    ensures TextRoom(count) == (count - 1) / 80 >= 1
    ensures 80 * TextRoom(count) < count <= 80 * TextRoom(count) + 80
  {
    var q, r := count / 80, count % 80;
    assert count == 80 * q + r;
    if r == 0 {
      assert (count - 1) / 80 == q - 1;
    } else {
      assert (count - 1) / 80 == q;
    }
  }

  /** The message type of a decoded frame is never an error, and tells remote,
      extended and standard apart. */
  lemma TypeOfDecoded(id: u32)
    requires DecodedId(id)
    ensures MsgType(id) != TYPE_STATUS
    ensures MsgType(id) == TYPE_RTR <==> Has(id, RTR_FLAG)
    ensures MsgType(id) == TYPE_EXTENDED <==> !Has(id, RTR_FLAG) && Has(id, EFF_FLAG)
  {
  }

  /** The codes themselves, by the flag bits of any identifier. */
  lemma TypeCodes(id: u32)
    ensures MsgType(id) == if id / 0x2000_0000 % 2 == 1 then 0x80
                           else if id / 0x4000_0000 % 2 == 1 then 0x01
                           else if id >= 0x800 then 0x02 else 0x00
    ensures FD_CAN20 == 1 && FD_STAMPED == 0x0100_0000 + 0x0200_0000
  {
  }

  /** fd_recv_msgs masks the identifier: two decoded identifiers it shows alike
      are the same exactly unless one is an extended and one a standard remote. */
  lemma MaskedIdDetermines(a: u32, b: u32)
    requires DecodedId(a) && DecodedId(b)
    requires a % EFF_RANGE == b % EFF_RANGE && MsgType(a) == MsgType(b)
    ensures a == b <==> !Has(a, RTR_FLAG) || (Has(a, EFF_FLAG) <==> Has(b, EFF_FLAG))
  {
    TypeOfDecoded(a);
    TypeOfDecoded(b);
  }

  // ---- What a call takes ----

  /** One call of a reader: a single message, a batch, or text for `count` bytes. */
  datatype Call = One | Batch(want: nat) | Lines(count: nat)

  /** Frames a call takes from a queue of `n`. */
  function Takes(c: Call, n: nat): (k: nat)
    ensures k <= n
  {
    match c
    case One => Min(1, n)
    case Batch(want) => Min(want, n)
    case Lines(count) => if count <= LINE_MAX then 0 else Min((count - 1) / 80, n)
  }

  lemma LinesTake(count: nat, n: nat)
    ensures count <= LINE_MAX || n == 0 ==> Takes(Lines(count), n) == 0
    ensures count > LINE_MAX ==>
              && TextRoom(count) == (count - 1) / 80 >= 1
              && 80 * ((count - 1) / 80) < count
              && Takes(Lines(count), n) == if TextRoom(count) > n then n else TextRoom(count)
  {
    if count > LINE_MAX {
      TextRoomExact(count);
    }
  }
}
