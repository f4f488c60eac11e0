/** Device timestamps: the 16-bit counter rebuilt from full words and low
    bytes, and the reference that maps ticks to kernel time. */
module Timebase {
  import opened Words

  /** The two context fields a timestamp updates: `ts16` and `prev_ts8`. */
  datatype Stamp = Stamp(ts16: u16, prev8: byte) {
    static function Full(w: u16): Stamp {
      Stamp(w, w % 0x100)
    }

    function Delta(b: byte): Stamp {
      var carried := if b < prev8 then (ts16 + 0x100) % WORD16 else ts16;
      Stamp(carried / 0x100 * 0x100 + b, b)
    }
  }

  /** The register that has followed the device counter up to tick `t`. */
  function Following(t: nat): Stamp {
    Stamp(t % WORD16, t % 0x100)
  }

  /** The register at a tick split into turns, high byte and low byte. */
  lemma FollowingParts(a: nat, h: nat, lo: nat)
    requires h < 0x100 && lo < 0x100
    ensures Following(WORD16 * a + 0x100 * h + lo) == Stamp(0x100 * h + lo, lo)
  {
    var t := WORD16 * a + 0x100 * h + lo;
    DivMod16(t, a, 0x100 * h + lo);
    DivMod8(t, 0x100 * a + h, lo);
  }

  /** A low byte against a remembered byte moves the high byte by the carry. */
  lemma DeltaParts(h: nat, lo: nat, stale: byte, b: byte)
    requires h < 0x100 && lo < 0x100
    ensures var h1 := if b >= stale then h else if h == 0xFF then 0 else h + 1;
            Stamp(0x100 * h + lo, stale).Delta(b) == Stamp(0x100 * h1 + b, b)
  {
    var up := 0x100 * h + lo + 0x100;
    DivMod16(up, if h == 0xFF then 1 else 0, if h == 0xFF then lo else up);
    DivMod8(0x100 * h + lo, h, lo);
    DivMod8(up % WORD16, if h == 0xFF then 0 else h + 1, lo);
  }

  /** A low byte advances the register by less than one byte, wherever the
      counter really is. */
  lemma DeltaAdvances(t0: nat, r: nat)
    requires r < 0x100
    ensures Following(t0).Delta((t0 + r) % 0x100) == Following(t0 + r)
  {
    var a, h, lo := t0 / WORD16, t0 % WORD16 / 0x100, t0 % WORD16 % 0x100;
    assert t0 == WORD16 * a + 0x100 * h + lo;
    var wrap := lo + r >= 0x100;
    var b := if wrap then lo + r - 0x100 else lo + r;
    var h1 := if !wrap then h else if h == 0xFF then 0 else h + 1;
    var a1 := if wrap && h == 0xFF then a + 1 else a;
    assert t0 + r == WORD16 * a1 + 0x100 * h1 + b;
    FollowingParts(a, h, lo);
    FollowingParts(a1, h1, b);
    DeltaParts(h, lo, lo, b);
  }

  lemma FollowsStep(t0: nat, t: nat)
    requires t0 <= t < t0 + 0x100
    ensures Following(t0).Delta(t % 0x100) == Following(t)
  {
    DeltaAdvances(t0, t - t0);
  }

  /** A low byte is unwrapped correctly exactly when the counter has advanced,
      up to whole turns of the 16-bit counter, by less than one byte. */
  lemma DeltaExact(t0: nat, t: nat)
    requires t0 <= t
    ensures Following(t0).Delta(t % 0x100).ts16 == t % WORD16 <==> (t - t0) % WORD16 < 0x100
  {
    var q, r := (t - t0) / 0x100, (t - t0) % 0x100;
    var low := (t0 + r) / 0x100;
    assert t == t0 + r + 0x100 * q;
    DivMod8(t, low + q, (t0 + r) % 0x100);
    DeltaAdvances(t0, r);
    TurnsOnly(t0 + r, q);
    WithinByte(q, r);
  }

  lemma WithinByte(q: nat, r: nat)
    requires r < 0x100
    ensures (r + 0x100 * q) % WORD16 < 0x100 <==> q % 0x100 == 0
  {
    var k, m := q / 0x100, q % 0x100;
    DivMod16(r + 0x100 * q, k, 0x100 * m + r);
  }

  lemma TurnsOnly(a: nat, q: nat)
    ensures (a + 0x100 * q) % WORD16 == a % WORD16 <==> q % 0x100 == 0
  {
    var k, m := q / 0x100, q % 0x100;
    var d, e := a / WORD16, a % WORD16;
    var s := e + 0x100 * m;
    if s < WORD16 {
      DivMod16(a + 0x100 * q, d + k, s);
    } else {
      DivMod16(a + 0x100 * q, d + k + 1, s - WORD16);
    }
  }

  /** The register after one full word and then low bytes. */
  function Replay(w: u16, lows: seq<byte>): Stamp {
    if lows == [] then Stamp.Full(w)
    else Replay(w, lows[..|lows| - 1]).Delta(lows[|lows| - 1])
  }

  function Lows(ticks: seq<nat>): (r: seq<byte>) {
    seq(|ticks|, i requires 0 <= i < |ticks| => ticks[i] % 0x100)
  }

  predicate ClosePace(ticks: seq<nat>) {
    forall i :: 0 <= i < |ticks| - 1 ==> ticks[i] <= ticks[i + 1] < ticks[i] + 0x100
  }

  /** Any number of low bytes after one full word keep the register on the
      true tick, over any number of turns of the 16-bit counter. */
  lemma {:induction false} UnwrapsTicks(ticks: seq<nat>)
    requires ticks != [] && ClosePace(ticks)
    ensures Replay(ticks[0] % WORD16, Lows(ticks[1..])) == Following(ticks[|ticks| - 1])
  {
    var n := |ticks| - 1;
    if n == 0 {
      assert ticks[0] % WORD16 % 0x100 == ticks[0] % 0x100;
    } else {
      hide Stamp.Delta, Following;
      UnwrapsTicks(ticks[..n]);
      assert ticks[..n][1..] == ticks[1..n];
      assert Lows(ticks[1..])[..n - 1] == Lows(ticks[1..n]);
      FollowsStep(ticks[n - 1], ticks[n]);
    }
  }

  /** A TS record replaces `ts16` but leaves `prev_ts8`, so the next low byte
      is right exactly when the stale byte and the true one agree on the carry. */
  lemma DeltaAfterTsRecord(t0: nat, stale: byte, t: nat)
    requires t0 <= t < t0 + 0x100
    ensures Stamp(t0 % WORD16, stale).Delta(t % 0x100).ts16 == t % WORD16
            <==> (t % 0x100 < stale <==> t % 0x100 < t0 % 0x100)
  {
    var a, h, lo := t0 / WORD16, t0 % WORD16 / 0x100, t0 % WORD16 % 0x100;
    assert t0 == WORD16 * a + 0x100 * h + lo;
    FollowingParts(a, h, lo);
    FollowsStep(t0, t);
    DeltaParts(h, lo, lo, t % 0x100);
    DeltaParts(h, lo, stale, t % 0x100);
  }

  /** pcan_time_ref_t; host times in nanoseconds. */
  datatype TimeRef = TimeRef(tvHost0: int, tvHost: int, tsDev1: u32, tsDev2: u32, tsTotal: u64, tickCount: u32)

  /** The reference as cleared when the bus is brought up. */
  const CLEARED := TimeRef(0, 0, 0, 0, 0, 0)

  const US_PER_TICK: int := 44739243
  const SHIFTED: int := 0x10_0000
  const REBASE_NS: int := 4_200_000_000_000

  /** Ticks from `since` to `now` as the driver subtracts them: the 32-bit
      difference, cut to 16 bits when the counter has turned over. */
  function TickDiff(now: u32, since: u32): (r: u32) {
    var d := (now - since) % WORD32;
    if now < since then d % WORD16 else d
  }

  function AddedMicros(t: TimeRef, ts: u32): (r: u64) {
    (TickDiff(ts, t.tsDev2) + t.tsTotal) % WORD64 * US_PER_TICK % WORD64 / SHIFTED
  }

  function KernelTime(t: TimeRef, ts: u32, clock: int): int {
    if t.tvHost > 0 then t.tvHost0 + 1000 * AddedMicros(t, ts) else clock
  }

  function UpdateReference(t: TimeRef, now: u32): TimeRef {
    var t1 := t.(tsDev2 := now);
    if t.tvHost > 0 then t1.(tsTotal := (t.tsTotal + TickDiff(now, t.tsDev1)) % WORD64) else t1
  }

  function SetReference(t: TimeRef, now: u32, clock: int): TimeRef {
    var t1 :=
      if t.tvHost0 == 0 then t.(tvHost0 := clock, tvHost := 0)
      else if t.tvHost != 0 then
        // the comparison is unsigned, so a negative delta is a large one
        var far := t.tvHost < t.tvHost0 || t.tvHost - t.tvHost0 > REBASE_NS;
        var t2 := if far then t.(tvHost0 := t.tvHost, tsTotal := 0) else t;
        t2.(tvHost := clock, tickCount := (t.tickCount + 1) % WORD32)
      else t;
    UpdateReference(t1.(tsDev1 := t1.tsDev2), now)
  }

  /** The reference never engages. */
  predicate Dormant(t: TimeRef) {
    t.tvHost == 0 && t.tsTotal == 0 && t.tickCount == 0
  }

  lemma DormantStays(t: TimeRef, now: u32, clock: int)
    requires Dormant(t)
    ensures Dormant(SetReference(t, now, clock)) && Dormant(UpdateReference(t, now))
    ensures KernelTime(t, now, clock) == clock
  {
  }

  /** Ticks since the reference, counted on the 16-bit device counter. */
  function Elapsed(t: TimeRef, ts: u16): nat
    requires t.tsDev2 < WORD16
  {
    t.tsTotal + (ts - t.tsDev2) % WORD16
  }

  lemma TickDiffIn16Bits(now: u16, since: u16)
    ensures TickDiff(now, since) == (now - since) % WORD16
  {
    if now < since {
      assert (now - since) % WORD32 == now - since + WORD32;
      DivMod16(now - since + WORD32, 0xFFFF, now - since + WORD16);
      DivMod16(now - since, -1, now - since + WORD16);
    }
  }

  /** 42.666... us a tick, as a multiplication and a shift: never early, late by
      at most n / (3 * 2^20) + 1 us, no 64-bit overflow below 2^38 ticks, and
      exact precisely while the accumulated excess stays under the next third. */
  lemma FixedPointAccuracy(t: TimeRef, ts: u16)
    requires t.tsDev2 < WORD16
    requires Elapsed(t, ts) < 0x40_0000_0000
    ensures var n, us := Elapsed(t, ts), AddedMicros(t, ts);
            && n * US_PER_TICK < WORD64
            && us == n * US_PER_TICK / SHIFTED
            && 128 * n / 3 <= us
            && us <= 128 * n / 3 + n / (3 * SHIFTED) + 1
            && (us == 128 * n / 3 <==> n < SHIFTED * (3 - 2 * n % 3))
  {
    var n := Elapsed(t, ts);
    TickDiffIn16Bits(ts, t.tsDev2);
    Mod64(n);
    ProductFits(n);
    Mod64(n * US_PER_TICK);
    ScaleAccuracy(n);
  }

  lemma ProductFits(n: nat)
    requires n < 0x40_0000_0000
    ensures n * US_PER_TICK < WORD64
  {
    assert n * 44739243 <= 0x40_0000_0000 * 44739243;
  }

  lemma ScaleAccuracy(n: nat)
    ensures var us := n * US_PER_TICK / SHIFTED;
            && 128 * n / 3 <= us <= 128 * n / 3 + n / (3 * SHIFTED) + 1
            && (us == 128 * n / 3 <==> n < SHIFTED * (3 - 2 * n % 3))
  {
    // 3 * US_PER_TICK == 128 * SHIFTED + 1
    var us, base, rest := n * US_PER_TICK / SHIFTED, 128 * n / 3, 128 * n % 3;
    assert rest == 2 * n % 3;
    var over := n * US_PER_TICK % SHIFTED;
    assert 3 * (us * SHIFTED + over) == 128 * SHIFTED * n + n;
    assert 128 * n == 3 * base + rest;
    assert 3 * SHIFTED * (us - base) == SHIFTED * rest + n - 3 * over;
    var e, f := n / (3 * SHIFTED), n % (3 * SHIFTED);
    assert n == 3 * SHIFTED * e + f;
  }

  /** Later device times never map to earlier kernel times. */
  lemma KernelTimeMonotone(t: TimeRef, ts: u16, u: TimeRef, us: u16, clock: int)
    requires t.tvHost > 0 && u.tvHost > 0 && t.tvHost0 == u.tvHost0
    requires t.tsDev2 < WORD16 && u.tsDev2 < WORD16
    requires Elapsed(t, ts) <= Elapsed(u, us) < 0x40_0000_0000
    ensures KernelTime(t, ts, clock) <= KernelTime(u, us, clock)
  {
    FixedPointAccuracy(t, ts);
    FixedPointAccuracy(u, us);
  }

  /** With an engaged reference a frame's time is the base and its elapsed ticks. */
  lemma KernelTimeExact(t: TimeRef, ts: u16, clock: int)
    requires t.tsDev2 < WORD16 && Elapsed(t, ts) < 0x40_0000_0000
    ensures KernelTime(t, ts, clock)
         == if t.tvHost > 0 then t.tvHost0 + Elapsed(t, ts) * 44739243 / 0x10_0000 * 1000 else clock
  {
    FixedPointAccuracy(t, ts);
  }

  /** Ticks between two records on the 16-bit counter. */
  function Gap(now: u16, since: u16): nat {
    (now - since) % WORD16
  }

  /** What a first-record TS record stores. Of a cleared reference: the clock, as the
      base, and nothing else that will ever be used. Of an engaged one: the clock and
      the tick, one more update, and the ticks since the last, unless the host times
      are more than 4200 s apart or in the wrong order, when the base moves up. */
  lemma FirstTsStores(t: TimeRef, now: u16, clock: int)
    requires t.tsDev1 < WORD16 && t.tsDev2 < WORD16 && t.tsTotal < 0x40_0000_0000
    ensures var u := SetReference(t, now, clock);
            && u.tsDev1 == t.tsDev2 && u.tsDev2 == now
            && (t.tvHost0 == 0 ==>
                  u.tvHost0 == clock && u.tvHost == 0 && u.tsTotal == t.tsTotal && u.tickCount == t.tickCount)
            && (t.tvHost0 != 0 && t.tvHost == 0 ==> u.tvHost0 == t.tvHost0 && u.tvHost == 0 && u.tsTotal == t.tsTotal)
            && (t.tvHost0 != 0 && t.tvHost != 0 ==>
                  var far := t.tvHost < t.tvHost0 || t.tvHost > t.tvHost0 + 4200 * 1_000_000_000;
                  && u.tvHost == clock && u.tickCount == (t.tickCount + 1) % WORD32
                  && u.tvHost0 == (if far then t.tvHost else t.tvHost0)
                  && (clock > 0 ==> u.tsTotal == (if far then 0 else t.tsTotal) + Gap(now, t.tsDev2)))
  {
    TickDiffIn16Bits(now, t.tsDev2);
    Mod64(t.tsTotal + Gap(now, t.tsDev2));
    Mod64(Gap(now, t.tsDev2));
    hide TickDiff;
  }

  /** With an engaged reference near its base, a first-record TS record gives its own
      tick the time that the reference before it gave. */
  lemma FirstTsContinuous(t: TimeRef, now: u16, clock: int, later: int)
    requires t.tsDev1 < WORD16 && t.tsDev2 < WORD16 && t.tsTotal < 0x10_0000_0000
    requires t.tvHost0 != 0 && t.tvHost > 0 && clock > 0
    requires t.tvHost0 <= t.tvHost <= t.tvHost0 + 4200 * 1_000_000_000
    ensures KernelTime(SetReference(t, now, clock), now, later) == KernelTime(t, now, later)
  {
    FirstTsStores(t, now, clock);
    var u := SetReference(t, now, clock);
    assert Gap(now, now) == 0;
    FixedPointAccuracy(t, now);
    FixedPointAccuracy(u, now);
    hide SetReference, AddedMicros, US_PER_TICK;
  }

  /** A later TS record counts the ticks since the tick before the last first-record
      one, so it does the same if and only if that and the last tick are the same. */
  lemma LaterTsContinuous(t: TimeRef, now: u16)
    requires t.tsDev1 < WORD16 && t.tsDev2 < WORD16 && t.tsTotal < 0x10_0000_0000 && t.tvHost > 0
    ensures var u := UpdateReference(t, now);
            && u == t.(tsDev2 := now, tsTotal := t.tsTotal + Gap(now, t.tsDev1))
            && (Elapsed(u, now) == Elapsed(t, now) <==> t.tsDev1 == t.tsDev2)
  {
    TickDiffIn16Bits(now, t.tsDev1);
    Mod64(t.tsTotal + Gap(now, t.tsDev1));
    SameGap(now, t.tsDev1, t.tsDev2);
    assert Gap(now, now) == 0;
    hide TickDiff;
  }

  lemma SameGap(now: u16, a: u16, b: u16)
    ensures Gap(now, a) == Gap(now, b) <==> a == b
  {
    DivMod16(now - a, if now < a then -1 else 0, if now < a then now - a + WORD16 else now - a);
    DivMod16(now - b, if now < b then -1 else 0, if now < b then now - b + WORD16 else now - b);
  }
}
