/** The wire format read the other way: abstract records, the bytes that carry
    them, and what they mean for the device. The decoder is proved against it. */
module Printer {
  import opened Words
  import opened Can
  import opened Timebase
  import opened BusErrors
  import opened Packets

  const ERROR_RECORD: byte := 1
  const TIME_RECORD: byte := 4

  /** A data record, or a status record with its function code; analog and bus-load
      records (2 and 3) have a payload of fixed length. */
  datatype Record =
    | Data(id: nat, ext: bool, rtr: bool, mark: bool, len: nat, payload: seq<byte>, tick: nat)
    | Info(func: byte, number: byte, stamped: bool, low: nat, payload: seq<byte>, tick: nat)
  {
    predicate Valid() {
      match this
      case Data(id, ext, rtr, mark, len, payload, tick) =>
        && id < (if ext then EFF_RANGE else SFF_RANGE)
        && len < 16
        && |payload| == (if rtr then 0 else len)
      case Info(func, number, stamped, low, payload, tick) =>
        && low < 0x40
        && |payload| == (if func == 2 then 2 else if func == 3 then 1 else low % 16)
        && (func == TIME_RECORD ==> |payload| >= 2)
    }

    function StatusByte(): (r: byte)
      requires Valid()
      ensures Data? ==> r % 16 == len && !Has(r, INTERNAL) && (Has(r, EXT_ID) <==> ext) && (Has(r, RTR) <==> rtr)
      ensures Info? ==> r % 16 == low % 16 && Has(r, INTERNAL) && (Has(r, STAMPED) <==> stamped)
    {
      match this
      case Data(id, ext, rtr, mark, len, payload, tick) =>
        var high := (if rtr then 1 else 0) + (if ext then 2 else 0) + (if mark then 8 else 0);
        var s := len + 0x10 * high;
        assert s / 0x10 == high && s / 0x20 == high / 2 && s / 0x40 == high / 4;
        s
      case Info(func, number, stamped, low, payload, tick) =>
        0x40 + low + (if stamped then 0x80 else 0)
    }

    /** The frame a data record stands for. */
    function Content(): (f: Frame)
      requires Valid() && Data?
      ensures WellFormed(f)
    {
      var id1 := if ext then id + EFF_FLAG else id;
      if rtr then Frame(id1 + RTR_FLAG, Min(len, MAX_DLC), ZERO8)
      else Frame(id1, Min(len, MAX_DLC), Padded(payload, 0, Min(len, MAX_DLC)))
    }

    /** Whether the record carries a timestamp. */
    predicate Timed() {
      Data? || stamped
    }
  }

  function PrintId(ext: bool, id: nat): (r: seq<byte>)
    requires id < (if ext then EFF_RANGE else SFF_RANGE)
    ensures |r| == IdLen(ext)
  {
    if ext then Bytes32(id * 8) else Bytes16(id * 32)
  }

  function PrintStamp(full: bool, tick: nat): seq<byte> {
    if full then Bytes16(tick % WORD16) else [tick % 0x100]
  }

  /** A status record carries a full timestamp when it is the first record of
      its message, a data record when it is the first data record. */
  predicate FullStamp(r: Record, i: nat, d: nat) {
    if r.Data? then d == 0 else i == 0
  }

  function PrintRecord(r: Record, i: nat, d: nat): seq<byte>
    requires r.Valid()
  {
    var stamp := PrintStamp(FullStamp(r, i, d), r.tick);
    match r
    case Data(id, ext, rtr, mark, len, payload, tick) =>
      [r.StatusByte()] + (PrintId(ext, id) + (stamp + payload))
    case Info(func, number, stamped, low, payload, tick) =>
      [r.StatusByte(), func, number] + ((if stamped then stamp else []) + payload)
  }

  predicate AllValid(rs: seq<Record>) {
    forall k :: 0 <= k < |rs| ==> rs[k].Valid()
  }

  function NextData(r: Record, d: nat): nat {
    if r.Data? then d + 1 else d
  }

  function PrintRecords(rs: seq<Record>, i: nat, d: nat): seq<byte>
    requires AllValid(rs)
  {
    if rs == [] then [] else PrintRecord(rs[0], i, d) + PrintRecords(rs[1..], i + 1, NextData(rs[0], d))
  }

  /** A whole message; the first header byte is not looked at by the decoder. */
  function PrintMessage(first: byte, rs: seq<Record>): (r: seq<byte>)
    requires AllValid(rs) && |rs| < 0x100
    ensures |r| >= HEADER_LEN
  {
    [first, |rs|] + PrintRecords(rs, 0, 0)
  }

  /** What a record means, given the timestamp register before it. */
  datatype Meaning = Meaning(status: Errno, stamp: Stamp, dev: Dev)

  function NextStamp(s: Stamp, full: bool, tick: nat): Stamp {
    if full then Following(tick) else s.Delta(tick % 0x100)
  }

  function Mean(r: Record, i: nat, d: nat, s: Stamp, dev: Dev, m: Moment): Meaning
    requires r.Valid()
  {
    var s1 := if r.Timed() then NextStamp(s, FullStamp(r, i, d), r.tick) else s;
    if r.Data? then
      if Gate(dev, m) != Ok then Meaning(Gate(dev, m), s, dev)
      else Meaning(Ok, s1, Deliver(dev, r.Content(), s1.ts16, m))
    else if r.func == ERROR_RECORD then
      var e := ErrorEffect(dev, s1.ts16, r.number, r.StatusByte(), m);
      Meaning(e.0, s1, e.1)
    else if r.func == TIME_RECORD then
      var now := Le16(r.payload, 0);
      Meaning(Ok, s1.(ts16 := now), TimeEffect(dev, now, i == 0, m))
    else Meaning(Ok, s1, dev)
  }

  function MeanAll(rs: seq<Record>, i: nat, d: nat, s: Stamp, dev: Dev, env: nat -> Moment): Meaning
    requires AllValid(rs)
  {
    if rs == [] then Meaning(Ok, s, dev) else
    var o := Mean(rs[0], i, d, s, dev, env(i));
    if o.status != Ok then o else MeanAll(rs[1..], i + 1, NextData(rs[0], d), o.stamp, o.dev, env)
  }

  // ---- Parser undoes printer ----

  lemma ReadsId(b: seq<byte>, p: nat, ext: bool, id: nat, rest: seq<byte>)
    requires id < (if ext then EFF_RANGE else SFF_RANGE)
    requires p <= |b| && b[p..] == PrintId(ext, id) + rest
    ensures ReadId(b, p, ext) == Some(if ext then id + EFF_FLAG else id)
    ensures b[p + IdLen(ext)..] == rest
  {
    var bs := PrintId(ext, id);
    assert forall k :: 0 <= k < |bs| ==> b[p + k] == b[p..][k] == bs[k];
    assert b[p + IdLen(ext)..] == b[p..][IdLen(ext)..];
    if ext {
      assert Le32(b, p) == Le32(bs, 0) == id * 8;
    } else {
      assert Le16(b, p) == Le16(bs, 0) == id * 32;
    }
  }

  lemma ReadsStamp(b: seq<byte>, full: bool, c: Cursor, tick: nat, rest: seq<byte>)
    requires c.ptr <= |b| && b[c.ptr..] == PrintStamp(full, tick) + rest
    ensures var r := ReadStamp(b, full, c);
            && r.Some?
            && r.value == c.(ptr := r.value.ptr, stamp := NextStamp(c.stamp, full, tick))
            && b[r.value.ptr..] == rest
  {
    var bs := PrintStamp(full, tick);
    assert forall k :: 0 <= k < |bs| ==> b[c.ptr + k] == b[c.ptr..][k] == bs[k];
    assert b[c.ptr + |bs|..] == b[c.ptr..][|bs|..];
    if full {
      assert Le16(b, c.ptr) == Le16(bs, 0) == tick % WORD16;
      assert tick % WORD16 % 0x100 == tick % 0x100;
    }
  }

  lemma DataParts(b: seq<byte>, c: Cursor, r: Record, i: nat, rest: seq<byte>)
    requires r.Valid() && r.Data?
    requires 0 < c.ptr <= |b| && b[c.ptr - 1..] == PrintRecord(r, i, c.dataIdx) + rest
    ensures var c1 := c.(ptr := c.ptr + IdLen(r.ext));
            var o := ReadStamp(b, c.dataIdx == 0, c1);
            && ReadId(b, c.ptr, r.ext) == Some(if r.ext then r.id + EFF_FLAG else r.id)
            && o.Some?
            && o.value == c.(ptr := o.value.ptr, stamp := NextStamp(c.stamp, c.dataIdx == 0, r.tick))
            && b[o.value.ptr..] == r.payload + rest
  {
    var stamp := PrintStamp(c.dataIdx == 0, r.tick);
    var tail := stamp + (r.payload + rest);
    var all := b[c.ptr - 1..];
    assert all == [r.StatusByte()] + (PrintId(r.ext, r.id) + tail);
    assert b[c.ptr..] == all[1..] == PrintId(r.ext, r.id) + tail;
    ReadsId(b, c.ptr, r.ext, r.id, tail);
    ReadsStamp(b, c.dataIdx == 0, c.(ptr := c.ptr + IdLen(r.ext)), r.tick, r.payload + rest);
  }

  lemma PaddedFromPayload(b: seq<byte>, p: nat, payload: seq<byte>, rest: seq<byte>, dlc: nat)
    requires p <= |b| && b[p..] == payload + rest && dlc <= 8 && dlc <= |payload|
    ensures p + |payload| <= |b| && b[p + |payload|..] == rest
    ensures Padded(b, p, dlc) == Padded(payload, 0, dlc)
  {
    assert b[p + |payload|..] == b[p..][|payload|..] == rest;
    assert b[p..p + dlc] == b[p..][..dlc] == payload[..dlc];
  }

  lemma RtrBit(id: nat)
    requires id < EFF_RANGE || EFF_FLAG <= id < EFF_FLAG + EFF_RANGE
    ensures With(id, RTR_FLAG) == id + RTR_FLAG
  {
  }

  lemma ReadsData(b: seq<byte>, c: Cursor, r: Record, i: nat, rest: seq<byte>)
    requires r.Valid() && r.Data?
    requires 0 < c.ptr <= |b| && b[c.ptr - 1..] == PrintRecord(r, i, c.dataIdx) + rest
    ensures var o := ReadFrame(b, c, r.StatusByte());
            && o.Some?
            && o.value.0 == r.Content()
            && o.value.1 == c.(ptr := o.value.1.ptr, stamp := NextStamp(c.stamp, c.dataIdx == 0, r.tick))
            && b[o.value.1.ptr..] == rest
  {
    DataParts(b, c, r, i, rest);
    RtrBit(if r.ext then r.id + EFF_FLAG else r.id);
    hide PrintRecord, ReadStamp, ReadId, NextStamp, Padded, With;
    var p := ReadStamp(b, c.dataIdx == 0, c.(ptr := c.ptr + IdLen(r.ext))).value.ptr;
    var dlc := if r.rtr then 0 else Min(r.len, MAX_DLC);
    PaddedFromPayload(b, p, r.payload, rest, dlc);
  }

  lemma ReadsInfo(b: seq<byte>, c: Cursor, r: Record, d: nat, rest: seq<byte>)
    requires r.Valid() && r.Info?
    requires 0 < c.ptr <= |b| && b[c.ptr - 1..] == PrintRecord(r, c.recIdx, d) + rest
    ensures c.ptr + 2 <= |b| && b[c.ptr] == r.func && b[c.ptr + 1] == r.number
    ensures var c1 := c.(ptr := c.ptr + 2);
            var o := if r.stamped then ReadStamp(b, c.recIdx == 0, c1) else Some(c1);
            && o.Some?
            && o.value == c.(ptr := o.value.ptr,
                             stamp := if r.stamped then NextStamp(c.stamp, c.recIdx == 0, r.tick) else c.stamp)
            && b[o.value.ptr..] == r.payload + rest
  {
    var stamp := if r.stamped then PrintStamp(c.recIdx == 0, r.tick) else [];
    var all := b[c.ptr - 1..];
    assert all == [r.StatusByte(), r.func, r.number] + (stamp + (r.payload + rest));
    assert all[1] == b[c.ptr] && all[2] == b[c.ptr + 1];
    assert b[c.ptr + 2..] == all[3..] == stamp + (r.payload + rest);
    if r.stamped {
      ReadsStamp(b, c.recIdx == 0, c.(ptr := c.ptr + 2), r.tick, r.payload + rest);
    }
  }

  predicate Agrees(o: Out, n: Meaning, b: Buf, d: nat, rest: seq<byte>) {
    && o.status == n.status && o.dev == n.dev
    && (o.status == Ok ==>
        && o.cur.stamp == n.stamp
        && o.cur.dataIdx == d
        && o.cur.ptr <= |b.bytes| && b.bytes[o.cur.ptr..] == rest)
  }

  lemma FirstByte(r: Record, i: nat, d: nat)
    requires r.Valid()
    ensures |PrintRecord(r, i, d)| > 0 && PrintRecord(r, i, d)[0] == r.StatusByte()
  {
  }

  lemma ReadsDataRecord(b: Buf, c: Cursor, r: Record, rest: seq<byte>, dev: Dev, m: Moment)
    requires AtHead(b, c) && r.Valid() && r.Data?
    requires b.bytes[c.ptr..] == PrintRecord(r, c.recIdx, c.dataIdx) + rest
    ensures Agrees(OneRecord(b, c, dev, m), Mean(r, c.recIdx, c.dataIdx, c.stamp, dev, m), b, c.dataIdx + 1, rest)
  {
    hide ReadFrame, Deliver, Gate, PrintRecord, StatusRecord, Record.Content;
    assert PrintRecord(r, c.recIdx, c.dataIdx)[0] == r.StatusByte() by { FirstByte(r, c.recIdx, c.dataIdx); }
    assert b.bytes[c.ptr] == b.bytes[c.ptr..][0] == r.StatusByte();
    ReadsData(b.bytes, c.(ptr := c.ptr + 1), r, c.recIdx, rest);
  }

  lemma ReadsStatusRecord(b: Buf, c: Cursor, r: Record, rest: seq<byte>, dev: Dev, m: Moment)
    requires AtHead(b, c) && r.Valid() && r.Info?
    requires b.bytes[c.ptr..] == PrintRecord(r, c.recIdx, c.dataIdx) + rest
    ensures Agrees(OneRecord(b, c, dev, m), Mean(r, c.recIdx, c.dataIdx, c.stamp, dev, m), b, c.dataIdx, rest)
  {
    hide Interpret, PrintRecord, DataRecord, ReadStamp, Mean, PrintStamp;
    var bs := b.bytes;
    var sl := r.StatusByte();
    FirstByte(r, c.recIdx, c.dataIdx);
    assert bs[c.ptr] == bs[c.ptr..][0] == sl;
    var c1 := c.(ptr := c.ptr + 1);
    ReadsInfo(bs, c1, r, c1.dataIdx, rest);
    var c2 := c1.(ptr := c1.ptr + 2);
    var c3 := if r.stamped then ReadStamp(bs, c.recIdx == 0, c2).value else c2;
    assert InfoLen(r.func, sl) == InfoLen(r.func, r.low) == |r.payload|;
    var o := SkipPayload(|bs|, Interpret(bs, c3, dev, sl, r.func, r.number, m), |r.payload|);
    assert StatusRecord(bs, c1, dev, sl, m) == o;
    MeansInfo(bs, c3, r, rest, dev, m, c.dataIdx, c.stamp);
  }

  lemma MeansInfo(b: seq<byte>, c: Cursor, r: Record, rest: seq<byte>, dev: Dev, m: Moment, d: nat, s: Stamp)
    requires r.Valid() && r.Info? && c.ptr <= |b| && b[c.ptr..] == r.payload + rest
    requires c.stamp == if r.stamped then NextStamp(s, c.recIdx == 0, r.tick) else s
    ensures var o := SkipPayload(|b|, Interpret(b, c, dev, r.StatusByte(), r.func, r.number, m), |r.payload|);
            var n := Mean(r, c.recIdx, d, s, dev, m);
            && o.status == n.status && o.dev == n.dev
            && (o.status == Ok ==> o.cur == c.(ptr := c.ptr + |r.payload|, stamp := n.stamp) && b[o.cur.ptr..] == rest)
  {
    InterpretsInfo(b, c, r, rest, dev, m);
    assert b[c.ptr + |r.payload|..] == b[c.ptr..][|r.payload|..] == rest;
  }

  lemma InterpretsInfo(b: seq<byte>, c: Cursor, r: Record, rest: seq<byte>, dev: Dev, m: Moment)
    requires r.Valid() && r.Info? && c.ptr <= |b| && b[c.ptr..] == r.payload + rest
    ensures var o := Interpret(b, c, dev, r.StatusByte(), r.func, r.number, m);
            && o.cur.ptr == c.ptr
            && (r.func == ERROR_RECORD ==>
                && o == Out(o.status, c, o.dev)
                && (o.status, o.dev) == ErrorEffect(dev, c.stamp.ts16, r.number, r.StatusByte(), m))
            && (r.func == TIME_RECORD ==>
                o == Out(Ok, c.(stamp := c.stamp.(ts16 := Le16(r.payload, 0))),
                         TimeEffect(dev, Le16(r.payload, 0), c.recIdx == 0, m)))
  {
    if r.func == TIME_RECORD {
      assert b[c.ptr] == b[c.ptr..][0] && b[c.ptr + 1] == b[c.ptr..][1];
      assert Le16(b, c.ptr) == Le16(r.payload, 0);
    }
  }

  lemma ReadsRecord(b: Buf, c: Cursor, r: Record, rest: seq<byte>, dev: Dev, m: Moment)
    requires AtHead(b, c) && r.Valid()
    requires b.bytes[c.ptr..] == PrintRecord(r, c.recIdx, c.dataIdx) + rest
    ensures Agrees(OneRecord(b, c, dev, m), Mean(r, c.recIdx, c.dataIdx, c.stamp, dev, m), b,
                   NextData(r, c.dataIdx), rest)
  {
    if r.Data? {
      ReadsDataRecord(b, c, r, rest, dev, m);
    } else {
      ReadsStatusRecord(b, c, r, rest, dev, m);
    }
  }

  lemma {:induction false} ReadsRecords(b: Buf, count: nat, c: Cursor, rs: seq<Record>, dev: Dev, env: nat -> Moment)
    requires AtHead(b, c) && AllValid(rs) && c.recIdx + |rs| == count
    requires b.bytes[c.ptr..] == PrintRecords(rs, c.recIdx, c.dataIdx)
    ensures var o, n := Records(b, count, c, dev, env), MeanAll(rs, c.recIdx, c.dataIdx, c.stamp, dev, env);
            && o.status == n.status && o.dev == n.dev
            && (o.status == Ok ==> o.cur.stamp == n.stamp && o.cur.ptr == |b.bytes|)
    decreases |rs|
  {
    hide OneRecord, Mean;
    if rs != [] {
      var rest := PrintRecords(rs[1..], c.recIdx + 1, NextData(rs[0], c.dataIdx));
      ReadsRecord(b, c, rs[0], rest, dev, env(c.recIdx));
      var o := OneRecord(b, c, dev, env(c.recIdx));
      if o.status == Ok {
        ReadsRecords(b, count, o.cur, rs[1..], o.dev, env);
      }
    }
  }

  /** For every list of records and every answer of the kernel, decoding the
      printed message has exactly the meaning of the records, and on success
      the cursor ends at the end of the buffer. */
  lemma ParserUndoesPrinter(first: byte, rs: seq<Record>, beyond: byte, dev: Dev, env: nat -> Moment)
    requires AllValid(rs) && |rs| < 0x100
    ensures var b := Buf(PrintMessage(first, rs), beyond);
            var o, n := DecodeBuf(b, dev, env), MeanAll(rs, 0, 0, Stamp(0, 0), dev, env);
            && o.status == n.status && o.dev == n.dev
            && (o.status == Ok ==> o.cur.ptr == |b.bytes| && o.cur.stamp == n.stamp)
  {
    var b := Buf(PrintMessage(first, rs), beyond);
    assert b.bytes[HEADER_LEN..] == PrintRecords(rs, 0, 0);
    ReadsRecords(b, |rs|, START, rs, dev, env);
  }
}
