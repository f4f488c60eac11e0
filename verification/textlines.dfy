/** The line of text a read returns for each frame (sprintf in pcan_chardev_read). */
module TextLines {
  import opened Words
  import opened Can

  const LINE_MAX: nat := 80
  const HEX := "0123456789ABCDEF"

  /** `%0<w>d` and `%0<w>X`: at least `w` digits. */
  function Dec(v: nat, w: nat): (s: string)
    ensures s != []
  {
    var w1 := if w > 0 then w - 1 else 0;
    if v < 10 then seq(w1, _ => '0') + [HEX[v]] else Dec(v / 10, w1) + [HEX[v % 10]]
  }

  function Hex(v: nat, w: nat): (s: string)
    ensures s != []
  {
    var w1 := if w > 0 then w - 1 else 0;
    if v < 16 then seq(w1, _ => '0') + [HEX[v]] else Hex(v / 16, w1) + [HEX[v % 16]]
  }

  function Pow10(w: nat): nat { if w == 0 then 1 else 10 * Pow10(w - 1) }

  function Pow16(w: nat): nat { if w == 0 then 1 else 16 * Pow16(w - 1) }

  function HexDigit(c: char): nat {
    if '0' <= c <= '9' then c as int - '0' as int
    else if 'A' <= c <= 'F' then c as int - 'A' as int + 10
    else 0
  }

  /** The number a row of hexadecimal digits denotes. */
  function HexValue(s: string): nat {
    if s == [] then 0 else 16 * HexValue(s[..|s| - 1]) + HexDigit(s[|s| - 1])
  }

  lemma DigitValue(d: nat)
    requires d < 16
    ensures HexDigit(HEX[d]) == d
  {
  }

  lemma {:induction false} ZerosValue(n: nat)
    ensures HexValue(seq(n, _ => '0')) == 0
  {
    if n > 0 {
      ZerosValue(n - 1);
      assert seq(n, _ => '0')[..n - 1] == seq(n - 1, _ => '0');
    }
  }

  /** Padded hexadecimal has the width asked for and reads back as the number. */
  lemma {:induction false} HexExact(v: nat, w: nat)
    requires 0 < w && v < Pow16(w)
    ensures |Hex(v, w)| == w && HexValue(Hex(v, w)) == v
  {
    if v < 16 {
      ZerosValue(w - 1);
      ValueOfLast(seq(w - 1, _ => '0'), v);
    } else {
      assert Pow16(1) == 16 * Pow16(0);
      HexExact(v / 16, w - 1);
      ValueOfLast(Hex(v / 16, w - 1), v % 16);
    }
    hide HexValue;
  }

  lemma ValueOfLast(s: string, d: nat)
    requires d < 16
    ensures HexValue(s + [HEX[d]]) == 16 * HexValue(s) + d
  {
    DigitValue(d);
    assert (s + [HEX[d]])[..|s|] == s;
  }

  function DecValue(s: string): nat {
    if s == [] then 0 else 10 * DecValue(s[..|s| - 1]) + HexDigit(s[|s| - 1])
  }

  lemma {:induction false} ZerosDec(n: nat)
    ensures DecValue(seq(n, _ => '0')) == 0
  {
    if n > 0 {
      ZerosDec(n - 1);
      assert seq(n, _ => '0')[..n - 1] == seq(n - 1, _ => '0');
    }
  }

  lemma DecOfLast(s: string, d: nat)
    requires d < 10
    ensures DecValue(s + [HEX[d]]) == 10 * DecValue(s) + d
  {
    DigitValue(d);
    assert (s + [HEX[d]])[..|s|] == s;
  }

  /** Padded decimal has the width asked for and reads back as the number. */
  lemma {:induction false} DecExact(v: nat, w: nat)
    requires 0 < w && v < Pow10(w)
    ensures |Dec(v, w)| == w && DecValue(Dec(v, w)) == v
  {
    if v < 10 {
      ZerosDec(w - 1);
      DecOfLast(seq(w - 1, _ => '0'), v);
    } else {
      assert Pow10(1) == 10 * Pow10(0);
      DecExact(v / 10, w - 1);
      DecOfLast(Dec(v / 10, w - 1), v % 10);
    }
    hide DecValue;
  }

  /** struct tm, with the field ranges the C library keeps: years from 1900 on,
      months from 0 on. */
  datatype RawDate = RawDate(year: nat, month: nat, day: nat, hour: nat, minute: nat, second: nat)

  type Date = d: RawDate | d.year + 1900 < 10000 && d.month + 1 < 100 && d.day < 100 && d.hour < 100
                           && d.minute < 100 && d.second < 100
    witness RawDate(0, 0, 0, 0, 0, 0)

  /** A device name: "pcanusb" and a two-digit minor number. */
  type DevName = s: string | |s| == 9 witness "pcanusb32"

  /** What the host adds to a frame: its calendar, the time at which the bus came up
      by its clock, the base of the frames' times, both in nanoseconds, and the name
      of the device. */
  datatype Host = Host(cal: int -> Date, busUp: int, base: int, name: DevName)

  /** The host time of a frame, in nanoseconds, and its parts. */
  function WallTime(h: Host, m: Msg): int { h.busUp + (m.hwtstamp - h.base) }

  function WallSeconds(h: Host, m: Msg): int { WallTime(h, m) / 1_000_000_000 }

  function WallMicros(h: Host, m: Msg): (r: nat)
    ensures r < 1_000_000
  {
    WallTime(h, m) % 1_000_000_000 / 1000
  }

  function Joined(y: string, mo: string, d: string, h: string, mi: string, s: string, us: string): string {
    "(" + y + "-" + mo + "-" + d + " " + h + ":" + mi + ":" + s + "." + us + ")"
  }

  function When(d: Date, micros: nat): string {
    Joined(Dec(d.year + 1900, 4), Dec(d.month + 1, 2), Dec(d.day, 2),
           Dec(d.hour, 2), Dec(d.minute, 2), Dec(d.second, 2), Dec(micros, 6))
  }

  function Prefix(h: Host, m: Msg): string {
    When(h.cal(WallSeconds(h, m)), WallMicros(h, m)) + ("  " + h.name + "  ")
    + Hex(m.frame.id % EFF_RANGE, 8) + ("  [" + Dec(m.frame.dlc, 0) + "] ")
  }

  function ByteText(b: byte): string { " " + Hex(b, 2) }

  function DataText(data: seq<byte>): string {
    if data == [] then "" else DataText(data[..|data| - 1]) + ByteText(data[|data| - 1])
  }

  predicate Sized(f: Frame) {
    f.dlc <= MAX_DLC && |f.data| == 8
  }

  predicate AllSized(q: seq<Msg>) {
    forall i :: 0 <= i < |q| ==> Sized(q[i].frame)
  }

  function Line(h: Host, m: Msg): string
    requires Sized(m.frame)
  {
    Prefix(h, m) + DataText(m.frame.data[..m.frame.dlc]) + "\n"
  }

  // ---- What a line says ----

  /** What every reader shows of a frame. */
  datatype Picture = Picture(id: nat, len: nat, data: seq<nat>)

  /** And of its time: the frame's own, the host's, or the date a line shows. */
  datatype Clock =
    | Own(msecs: int, usecs: int)
    | Wall(sec: int, usec: int)
    | Dated(date: seq<nat>, micros: nat, name: string)

  datatype View = View(picture: Picture, clock: Clock)

  function PictureOf(f: Frame): Picture
    requires Sized(f)
  {
    Picture(f.id % EFF_RANGE, f.dlc, f.data[..f.dlc])
  }

  /** Year, month from 1 on, day, hour, minute and second of a host time. */
  function DateOf(h: Host, m: Msg): seq<nat> {
    var d := h.cal(WallSeconds(h, m));
    [d.year + 1900, d.month + 1, d.day, d.hour, d.minute, d.second]
  }

  function ViewOf(h: Host, m: Msg): View
    requires Sized(m.frame)
  {
    View(PictureOf(m.frame), Dated(DateOf(h, m), WallMicros(h, m), h.name))
  }

  /** The date digits of a line. */
  function ReadDate(s: string): seq<nat>
    requires |s| >= 28
  {
    [DecValue(s[1..5]), DecValue(s[6..8]), DecValue(s[9..11]),
     DecValue(s[12..14]), DecValue(s[15..17]), DecValue(s[18..20])]
  }

  /** The frame, its time and the device a line of `len` data bytes shows. */
  function ReadLine(s: string, len: nat): View
    requires 56 + 3 * len <= |s|
  {
    View(Picture(HexValue(s[41..49]), len, seq(len, j requires 0 <= j < len => HexValue(s[3 * j + 56..3 * j + 58]))),
         Dated(ReadDate(s), DecValue(s[21..27]), s[30..39]))
  }

  lemma DateSlices(y: string, mo: string, d: string, h: string, mi: string, s: string, us: string)
    requires |y| == 4 && |mo| == |d| == |h| == |mi| == |s| == 2 && |us| == 6
    ensures var all := Joined(y, mo, d, h, mi, s, us);
            && |all| == 28
            && all[1..5] == y && all[6..8] == mo && all[9..11] == d && all[12..14] == h
            && all[15..17] == mi && all[18..20] == s && all[21..27] == us
  {
  }

  lemma Pow10Values()
    ensures Pow10(2) == 100 && Pow10(4) == 10000 && Pow10(6) == 1_000_000
  {
    assert Pow10(2) == 10 * Pow10(1) && Pow10(4) == 10 * Pow10(3) && Pow10(6) == 10 * Pow10(5);
    assert Pow10(3) == 10 * Pow10(2) && Pow10(5) == 10 * Pow10(4) && Pow10(1) == 10 * Pow10(0);
  }

  lemma WhenExact(d: Date, micros: nat)
    requires micros < 1_000_000
    ensures |When(d, micros)| == 28
    ensures ReadDate(When(d, micros)) == [d.year + 1900, d.month + 1, d.day, d.hour, d.minute, d.second]
    ensures DecValue(When(d, micros)[21..27]) == micros
  {
    Pow10Values();
    hide Dec, DecValue, Pow10, Joined;
    DecExact(d.year + 1900, 4);
    DecExact(d.month + 1, 2);
    DecExact(d.day, 2);
    DecExact(d.hour, 2);
    DecExact(d.minute, 2);
    DecExact(d.second, 2);
    DecExact(micros, 6);
    DateSlices(Dec(d.year + 1900, 4), Dec(d.month + 1, 2), Dec(d.day, 2),
               Dec(d.hour, 2), Dec(d.minute, 2), Dec(d.second, 2), Dec(micros, 6));
  }

  lemma Pow16Values()
    ensures Pow16(2) == 0x100 && Pow16(8) == 0x1_0000_0000
  {
    assert Pow16(1) == 16 * Pow16(0);
    assert Pow16(3) == 16 * Pow16(2) && Pow16(5) == 16 * Pow16(4) && Pow16(7) == 16 * Pow16(6);
    assert Pow16(2) == 16 * Pow16(1) && Pow16(4) == 16 * Pow16(3) && Pow16(6) == 16 * Pow16(5);
  }

  lemma PrefixSlices(when: string, name: string, id: string, len: string)
    requires |when| == 28 && |name| == 9 && |id| == 8 && |len| == 1
    ensures var all := when + ("  " + name + "  ") + id + ("  [" + len + "] ");
            && |all| == 55 && all[..28] == when && all[30..39] == name && all[41..49] == id && all[52] == len[0]
  {
  }

  lemma PrefixExact(h: Host, m: Msg)
    requires Sized(m.frame)
    ensures var p := Prefix(h, m);
            && |p| == 55
            && ReadDate(p) == DateOf(h, m) && DecValue(p[21..27]) == WallMicros(h, m) && p[30..39] == h.name
            && HexValue(p[41..49]) == m.frame.id % EFF_RANGE && HexDigit(p[52]) == m.frame.dlc
  {
    var d, us := h.cal(WallSeconds(h, m)), WallMicros(h, m);
    var id, len := m.frame.id % EFF_RANGE, m.frame.dlc;
    WhenExact(d, us);
    Pow16Values();
    HexExact(id, 8);
    OneDigit(len);
    hide When, Dec, Hex, DecValue, HexValue, HexDigit, WallSeconds, WallMicros, Pow16;
    PrefixSlices(When(d, us), h.name, Hex(id, 8), Dec(len, 0));
    SameDate(Prefix(h, m), When(d, us));
  }

  /** A line's date is in its first 28 characters. */
  lemma SameDate(s: string, when: string)
    requires |when| == 28 && when <= s
    ensures ReadDate(s) == ReadDate(when) && s[21..27] == when[21..27]
  {
    hide DecValue;
    assert s[1..5] == when[1..5] && s[6..8] == when[6..8] && s[9..11] == when[9..11];
    assert s[12..14] == when[12..14] && s[15..17] == when[15..17] && s[18..20] == when[18..20];
  }

  lemma OneDigit(d: nat)
    requires d < 10
    ensures |Dec(d, 0)| == 1 && HexDigit(Dec(d, 0)[0]) == d
  {
    var zero: seq<char> := [];
    assert Dec(d, 0) == zero + [HEX[d]] == [HEX[d]];
    DigitValue(d);
  }

  lemma {:induction false} DataWidth(data: seq<byte>)
    ensures |DataText(data)| == 3 * |data|
    ensures forall j :: 0 <= j < |data| ==> HexValue(DataText(data)[3 * j + 1..3 * j + 3]) == data[j]
  {
    if data != [] {
      var n := |data| - 1;
      DataWidth(data[..n]);
      Pow16Values();
      HexExact(data[n], 2);
      hide Hex, HexValue, Pow16;
      var before := DataText(data[..n]);
      var all := DataText(data);
      assert all == before + ByteText(data[n]);
      hide DataText;
      forall j | 0 <= j < |data|
        ensures HexValue(all[3 * j + 1..3 * j + 3]) == data[j]
      {
        if j < n {
          assert all[3 * j + 1..3 * j + 3] == before[3 * j + 1..3 * j + 3];
          assert data[..n][j] == data[j];
        } else {
          assert all[3 * j + 1..3 * j + 3] == Hex(data[n], 2);
        }
      }
    }
  }

  lemma LineParts(h: Host, m: Msg)
    requires Sized(m.frame)
    ensures Line(h, m) == Prefix(h, m) + DataText(m.frame.data[..m.frame.dlc]) + "\n"
    ensures |Prefix(h, m)| == 55 && |DataText(m.frame.data[..m.frame.dlc])| == 3 * m.frame.dlc
    ensures |Line(h, m)| == 56 + 3 * m.frame.dlc <= LINE_MAX
  {
    PrefixExact(h, m);
    DataWidth(m.frame.data[..m.frame.dlc]);
    hide Prefix, DataText;
  }

  /** A line is 56 characters and three more for every data byte, so never more
      than 80; and the date and the microseconds, the device, the identifier, the
      length and the data can be read back from it, whatever text follows. */
  lemma LineExact(h: Host, m: Msg, rest: string)
    requires Sized(m.frame)
    ensures var s, len := Line(h, m) + rest, m.frame.dlc;
            && |Line(h, m)| == 56 + 3 * len <= LINE_MAX
            && HexDigit(s[52]) == len && ReadLine(s, len) == ViewOf(h, m)
  {
    hide Line, Prefix, DataText, HexValue, HexDigit, DecValue, WallMicros, DateOf, ReadDate, ReadLine, ViewOf;
    var p, data := Prefix(h, m), m.frame.data[..m.frame.dlc];
    PrefixExact(h, m);
    LineParts(h, m);
    DataWidth(data);
    assert forall j :: 0 <= j < |data| ==> data[j] == m.frame.data[j];
    LineReads(h, m, p, DataText(data), rest);
  }

  lemma LineReads(h: Host, m: Msg, p: string, d: string, rest: string)
    requires Sized(m.frame) && |p| == 55 && |d| == 3 * m.frame.dlc
    requires ReadDate(p) == DateOf(h, m) && DecValue(p[21..27]) == WallMicros(h, m) && p[30..39] == h.name
    requires HexValue(p[41..49]) == m.frame.id % EFF_RANGE && HexDigit(p[52]) == m.frame.dlc
    requires forall j :: 0 <= j < m.frame.dlc ==> HexValue(d[3 * j + 1..3 * j + 3]) == m.frame.data[j]
    ensures var s := p + d + "\n" + rest;
            HexDigit(s[52]) == m.frame.dlc && ReadLine(s, m.frame.dlc) == ViewOf(h, m)
  {
    hide HexValue, HexDigit, DecValue, WallMicros, DateOf, ReadDate;
    var len, s := m.frame.dlc, p + d + "\n" + rest;
    assert s[..55] == p && s[55..55 + |d|] == d;
    PrefixReads(s, p);
    DataReads(s, d, m.frame.data[..len]);
    var read := ReadLine(s, len);
    assert read.picture.data == m.frame.data[..len];
  }

  lemma PrefixReads(s: string, p: string)
    requires |p| == 55 <= |s| && s[..55] == p
    ensures ReadDate(s) == ReadDate(p) && DecValue(s[21..27]) == DecValue(p[21..27]) && s[30..39] == p[30..39]
    ensures s[41..49] == p[41..49] && s[52] == p[52]
  {
    SameDate(s, p[..28]);
    SameDate(p, p[..28]);
    hide ReadDate, DecValue;
    assert s[30..39] == p[30..39] && s[41..49] == p[41..49];
  }

  lemma DataReads(s: string, d: string, data: seq<byte>)
    requires |d| == 3 * |data| && 55 + |d| <= |s| && s[55..55 + |d|] == d
    requires forall j :: 0 <= j < |data| ==> HexValue(d[3 * j + 1..3 * j + 3]) == data[j]
    ensures forall j :: 0 <= j < |data| ==> 3 * j + 58 <= |s| && HexValue(s[3 * j + 56..3 * j + 58]) == data[j]
  {
    hide HexValue;
    forall j | 0 <= j < |data|
      ensures 3 * j + 58 <= |s| && HexValue(s[3 * j + 56..3 * j + 58]) == data[j]
    {
      var x, y := s[3 * j + 56..3 * j + 58], d[3 * j + 1..3 * j + 3];
      assert x[0] == s[55..55 + |d|][3 * j + 1] == y[0] && x[1] == s[55..55 + |d|][3 * j + 2] == y[1];
      assert x == y;
    }
  }

  lemma ByteTextWidth(b: byte)
    ensures |ByteText(b)| == 3
  {
    Pow16Values();
    HexExact(b, 2);
  }

  lemma DataTextStep(data: seq<byte>, j: nat)
    requires j < |data|
    ensures DataText(data[..j + 1]) == DataText(data[..j]) + ByteText(data[j])
  {
    assert data[..j + 1][..j] == data[..j];
  }

  // ---- Texts ----

  /** The text for a row of queued frames. */
  function Text(q: seq<Msg>, h: Host): string
    requires AllSized(q)
  {
    if q == [] then "" else Text(q[..|q| - 1], h) + Line(h, q[|q| - 1])
  }

  lemma TextStep(q: seq<Msg>, i: nat, h: Host)
    requires i < |q| && AllSized(q)
    ensures Text(q[..i + 1], h) == Text(q[..i], h) + Line(h, q[i])
  {
    assert q[..i + 1][..i] == q[..i];
  }

  function Views(q: seq<Msg>, h: Host): (r: seq<View>)
    requires AllSized(q)
    ensures |r| == |q|
  {
    seq(|q|, i requires 0 <= i < |q| => ViewOf(h, q[i]))
  }

  /** What a text shows: each line says itself how long it is. */
  function ReadBack(s: string): seq<View>
    decreases |s|
  {
    if |s| < 56 then [] else
    var len := HexDigit(s[52]);
    var end := 56 + 3 * len;
    if |s| < end then [] else [ReadLine(s, len)] + ReadBack(s[end..])
  }

  lemma ReadsLine(h: Host, m: Msg, rest: string)
    requires Sized(m.frame)
    ensures ReadBack(Line(h, m) + rest) == [ViewOf(h, m)] + ReadBack(rest)
  {
    LineExact(h, m, rest);
    hide Line, ReadLine, ViewOf, HexDigit;
    var s := Line(h, m) + rest;
    assert s[|Line(h, m)|..] == rest;
  }

  lemma {:induction false} TextCons(q: seq<Msg>, h: Host)
    requires q != [] && AllSized(q)
    ensures Text(q, h) == Line(h, q[0]) + Text(q[1..], h)
  {
    hide Line;
    var n := |q| - 1;
    if n > 0 {
      TextCons(q[..n], h);
      assert q[1..][..n - 1] == q[..n][1..];
    }
  }

  lemma ViewsCons(q: seq<Msg>, h: Host)
    requires q != [] && AllSized(q)
    ensures Views(q, h) == [ViewOf(h, q[0])] + Views(q[1..], h)
  {
    hide ViewOf;
  }

  lemma EmptyText(h: Host)
    ensures ReadBack(Text([], h)) == [] == Views([], h)
  {
  }

  /** Every text a read returns can be read back as the frames it was made of, with
      their dates and the device. */
  lemma {:induction false} ReadsBack(q: seq<Msg>, h: Host)
    requires AllSized(q)
    ensures ReadBack(Text(q, h)) == Views(q, h)
  {
    hide Text, Line, ReadBack, Views, ViewOf;
    if q == [] {
      EmptyText(h);
    } else {
      TextCons(q, h);
      ReadsLine(h, q[0], Text(q[1..], h));
      ReadsBack(q[1..], h);
      ViewsCons(q, h);
    }
  }
}
