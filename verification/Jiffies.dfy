/** common/common.h, kernel/monitor.c: division of 64 by 32 bits by doubling and halving, and the jiffies that are
    derived from it. All machine words are explicit, so that the absence of overflow is part of what is proved. */
module Jiffies {
  import opened Bytes

  type u64 = x: int | 0 <= x < 0x1_0000_0000_0000_0000

  function Pow2(k: nat): (p: nat)
    ensures p > 0
  {
    if k == 0 then 1 else 2 * Pow2(k - 1)
  }

  lemma Times(a: int, b: int, c: int)
    ensures (a + b) * c == a * c + b * c
  {
  }

  /** The first step: divide the high word. */
  method Reduce(n: u64, base: u32) returns (res: u64, rem: u64)
    requires base > 0
    ensures res * base + rem == n && rem < base * 0x1_0000_0000
  {
    rem := n;
    res := 0;
    var high: u32 := rem / 0x1_0000_0000;
    if high >= base {
      var h: u32 := high / base;
      var m: u32 := high % base;
      HighWord(n, high, h, m, base);
      var hb: u32 := h * base;
      res := h * 0x1_0000_0000;
      rem := rem - hb * 0x1_0000_0000;
      assert res * base == hb * 0x1_0000_0000;
    }
  }

  lemma HighWord(n: u64, high: u32, h: u32, m: u32, base: u32)
    requires base > 0 && high == n / 0x1_0000_0000 && h == high / base && m == high % base
    ensures 0 <= h * base <= high && h * base + m == high && m < base
    ensures 0 <= n - h * base * 0x1_0000_0000 < base * 0x1_0000_0000
  {
    assert high == base * (high / base) + high % base;
    assert n == high * 0x1_0000_0000 + n % 0x1_0000_0000;
    assert n - h * base * 0x1_0000_0000 == m * 0x1_0000_0000 + n % 0x1_0000_0000;
  }

  /** The doubling loop: base shifted until it reaches rem or the sign bit. */
  method Double(rem: u64, base: u32) returns (b: u64, d: u64, ghost k: nat)
    requires base > 0
    ensures d == Pow2(k) && b == d * base && rem as int < 2 * (b as int)
  {
    b, d, k := base, 1, 0;
    while b < 0x8000_0000_0000_0000 && b < rem
      invariant d == Pow2(k) && b == d * base && b > 0
      decreases 0x1_0000_0000_0000_0000 - b
    {
      Doubled(b, d, base);
      b := b + b;
      d := d + d;
      k := k + 1;
    }
  }

  lemma Doubled(b: u64, d: u64, base: u32)
    requires b == d * base && base > 0 && b < 0x8000_0000_0000_0000
    ensures b + b == (d + d) * base && d <= b
  {
    Times(d, d, base);
    Larger(d, base);
  }

  lemma Larger(d: nat, base: int)
    requires base > 0
    ensures d <= d * base
  {
    assert d * base == d * (base - 1) + d;
    assert d * (base - 1) >= 0;
  }

  lemma Halved(k: nat, d: u64, b: u64, base: u32)
    requires d == Pow2(k) && b == d * base && d > 1
    ensures k > 0 && d / 2 == Pow2(k - 1) && b / 2 == d / 2 * base && 2 * (b / 2) == b
  {
    var e := Pow2(k - 1);
    assert d == 2 * e;
    Times(e, e, base);
  }

  /** The halving loop, which subtracts and counts. */
  method Halve(n: u64, base: u32, res0: u64, rem0: u64, b0: u64, d0: u64, ghost k0: nat) returns (res: u64, rem: u64)
    requires base > 0 && d0 == Pow2(k0) && b0 == d0 * base && rem0 as int < 2 * (b0 as int) && res0 * base + rem0 == n
    ensures res * base + rem == n && rem < base
  {
    res, rem := res0, rem0;
    var b, d := b0, d0;
    ghost var k := k0;
    while d > 0
      invariant res * base + rem == n
      invariant if d > 0 then d == Pow2(k) && b == d * base && rem as int < 2 * (b as int) else rem < base
    {
      if rem >= b {
        Counted(n, res, rem, b, d, base);
        rem := rem - b;
        res := res + d;
      }
      if d > 1 {
        Halved(k, d, b, base);
        k := k - 1;
      }
      b := b / 2;
      d := d / 2;
    }
  }

  lemma Counted(n: u64, res: u64, rem: u64, b: u64, d: u64, base: u32)
    requires base > 0 && b == d * base && rem >= b && res * base + rem == n
    ensures (res + d) * base + (rem - b) == n && res + d <= n
  {
    Times(res, d, base);
    Larger(res + d, base);
  }

  /** co_div64_32: exact quotient and remainder; no intermediate value leaves its machine word. */
  method Div64(n: u64, base: u32) returns (res: u64, rem: u32)
    requires base > 0
    ensures res == n / base && rem == n % base
  {
    var q, r := Reduce(n, base);
    var b, d, k := Double(r, base);
    var q', r' := Halve(n, base, q, r, b, d, k);
    Unique(n, base, q', r');
    res, rem := q', r';
  }

  lemma Unique(n: int, base: int, q: int, r: int)
    requires base > 0 && n == q * base + r && 0 <= r < base
    ensures q == n / base && r == n % base
  {
    var q', r' := n / base, n % base;
    assert n == base * q' + r';
    assert (q - q') * base == r' - r by {
      Times(q, -q', base);
    }
    if q > q' {
      Larger(q - q' - 1, base);
      Times(q - q' - 1, 1, base);
    } else if q < q' {
      Larger(q' - q - 1, base);
      Times(q' - q - 1, 1, base);
      Times(q' - q, q - q', base);
    }
  }

  // ---- jiffies

  /** timestamp, timestamp_reminder, timestamp_freq. */
  datatype Clock = Clock(stamp: u64, rem: u64, freq: u64)

  /** What the 32-bit parameter of co_div64_32 receives of the frequency. */
  function Base(freq: u64): (b: u32) { freq % 0x1_0000_0000 }

  /** The division is not by zero. */
  predicate Ticking(c: Clock) { Base(c.freq) > 0 }

  /** The frequency fits that parameter. */
  predicate Narrow(c: Clock) { 0 < c.freq < 0x1_0000_0000 }

  /** callback_return_jiffies in the machine's arithmetic: sum, product and the returned word may wrap around. */
  function Tick(c: Clock, now: u64): (r: (Clock, u32))
    requires Ticking(c)
    ensures Ticking(r.0) && r.0.freq == c.freq
  {
    if now > c.stamp then
      var diff := (c.rem + 100 * (now - c.stamp) % 0x1_0000_0000_0000_0000) % 0x1_0000_0000_0000_0000;
      (Clock(now, diff % Base(c.freq), c.freq), Word(diff / Base(c.freq)))
    else (c, 0)
  }

  /** The low word. */
  function Word(x: u64): (w: u32) { x % 0x1_0000_0000 }

  function Later(c: Clock, now: u64): (t: u64) { if now > c.stamp then now else c.stamp }

  const W: nat := 0x1_0000_0000
  const WW: nat := 0x1_0000_0000_0000_0000

  /** The timer's due: 100 times the ticks since the last timestamp, and the remainder kept. */
  function Due(c: Clock, now: u64): (full: nat)
    requires now > c.stamp
  {
    c.rem + 100 * (now - c.stamp)
  }

  /** What the high words of the frequency, of the quotient and of the due would have contributed cancels out; where
      they are all zero, nothing was cut. */
  predicate Lossless(c: Clock, now: u64)
    requires Ticking(c) && now > c.stamp
  {
    var q := Due(c, now) % WW / Base(c.freq);
    q % W * (c.freq / W) == q / W * Base(c.freq) + Due(c, now) / WW * W
  }

  /** A tick loses nothing exactly then, whatever the frequency. */
  lemma TickLosslessIff(c: Clock, now: u64)
    requires Ticking(c) && now > c.stamp
    ensures Conserves(c, now) <==> Lossless(c, now)
  {
    TickIs(c, now);
    TalliesIff(Tick(c, now), c.freq, Due(c, now));
  }

  lemma TalliesIff(t: (Clock, u32), freq: nat, full: nat)
    requires freq % W > 0 && t.0.rem == full % WW % (freq % W) && t.1 == full % WW / (freq % W) % W
    ensures var q := full % WW / (freq % W);
      Tallies(t, freq, full) <==> q % W * (freq / W) == q / W * (freq % W) + full / WW * W
  {
    Sums(freq, freq % W, full, full % WW, full / WW, full % WW / (freq % W));
  }

  lemma TickIs(c: Clock, now: u64)
    requires Ticking(c) && now > c.stamp
    ensures var diff, b := Due(c, now) % WW, Base(c.freq);
      Tick(c, now) == (Clock(now, diff % b, c.freq), diff / b % W)
  {
    SumWraps(c.rem, 100 * (now - c.stamp));
  }

  lemma Sums(freq: nat, b: nat, full: nat, diff: nat, k: nat, q: int)
    requires 0 < b == freq % W && full == k * WW + diff && q == diff / b
    ensures q % W * freq + diff % b == full <==> q % W * (freq / W) == q / W * b + k * W
  {
    DivMod(diff, b);
    Positive(diff, b);
    assert WW == W * W;
    HighWords(freq / W, b, q / W, q % W, k);
    assert freq == freq / W * W + b && q == q / W * W + q % W;
  }

  lemma Positive(x: nat, b: nat)
    requires b > 0
    ensures x / b >= 0
  {
  }

  lemma SumWraps(a: u64, n: nat)
    ensures (a + n % 0x1_0000_0000_0000_0000) % 0x1_0000_0000_0000_0000 == (a + n) % WW
  {
  }

  /** With frequency d * W + b, quotient c * W + j and k wraps of the due. */
  lemma HighWords(d: nat, b: nat, c: nat, j: nat, k: nat)
    ensures j * (d * W + b) == (c * W + j) * b + k * (W * W) <==> j * d == c * b + k * W
  {
    var x, y := j * d, c * b + k * W;
    Times(d * W, b, j);
    Times(c * W, j, b);
    assert j * (d * W) == x * W && c * W * b == c * b * W;
    assert x * W == y * W <==> x == y;
  }

  /** A tick of a clock whose frequency fits 32 bits loses nothing exactly when the ticks since the last one amount to
      less than 2^32 jiffies. */
  lemma TickConservesIff(c: Clock, now: u64)
    requires Narrow(c)
    ensures var (c', j) := Tick(c, now);
      c'.stamp == Later(c, now) && (now > c.stamp ==>
        (j * c.freq + c'.rem == c.rem + 100 * (now - c.stamp) <==>
          c.rem + 100 * (now - c.stamp) < c.freq * 0x1_0000_0000))
  {
    if now > c.stamp {
      var full := c.rem + 100 * (now - c.stamp);
      if full < c.freq * 0x1_0000_0000 {
        Kept(c, now, full);
      } else {
        Below(Tick(c, now).1, c.freq, Tick(c, now).0.rem);
      }
    }
  }

  lemma Kept(c: Clock, now: u64, full: nat)
    requires Narrow(c) && now > c.stamp && full == c.rem + 100 * (now - c.stamp) < c.freq * 0x1_0000_0000
    ensures Tick(c, now).1 * c.freq + Tick(c, now).0.rem == full
  {
    Exact(full, c.freq);
    Fits(full, c.freq);
    TickIs(c, now);
    SmallModulo(full, WW);
    SmallModulo(c.freq, W);
  }

  lemma SmallModulo(x: nat, m: nat)
    requires x < m
    ensures x % m == x
  {
  }

  /** No time is lost between the two timestamps. */
  predicate Conserves(c: Clock, now: u64)
    requires Ticking(c) && now > c.stamp
  {
    Tallies(Tick(c, now), c.freq, Due(c, now))
  }

  /** Jiffies and remainder make up the due. */
  predicate Tallies(t: (Clock, u32), freq: nat, full: nat) { t.1 * freq + t.0.rem == full }

  /** A tick that comes in time. */
  predicate Timely(c: Clock, now: u64) {
    now > c.stamp && c.rem + 100 * (now - c.stamp) < c.freq * 0x1_0000_0000
    && c.rem + 100 * (now - c.stamp) < 0x1_0000_0000_0000_0000
  }

  /** Every tick in time is exact if and only if the frequency fits the parameter of the division. */
  lemma FrequencyIff(freq: u64)
    requires Base(freq) > 0
    ensures (forall c: Clock, now: u64 :: c.freq == freq && Timely(c, now) ==> Conserves(c, now)) <==>
      freq < 0x1_0000_0000
  {
    if freq < 0x1_0000_0000 {
      forall c: Clock, now: u64 | c.freq == freq && Timely(c, now) ensures Conserves(c, now) {
        TickConservesIff(c, now);
      }
    } else {
      var b := Base(freq);
      var c := Clock(0, if b >= 100 then b - 100 else 0, freq);
      CutFrequency(c, b);
      assert !Conserves(c, 1);
    }
  }

  lemma CutFrequency(c: Clock, b: u32)
    requires c.freq >= 0x1_0000_0000 && b == Base(c.freq) > 0 && c.stamp == 0 &&
      c.rem == if b >= 100 then b - 100 else 0
    ensures Timely(c, 1) && !Conserves(c, 1)
  {
    var full := c.rem + 100;
    var q := full / b;
    NoWrap(c.rem, 100);
    DivMod(full, b);
    OneAtLeast(full, b);
    NoTruncation(q);
    assert Tick(c, 1) == (Clock(1, full % b, c.freq), q);
    Times(c.freq - b, b, q);
    Larger(q - 1, c.freq - b);
  }

  lemma OneAtLeast(full: nat, b: nat)
    requires 0 < b <= full < 0x1_0000_0000
    ensures 1 <= full / b <= full
  {
    var q := full / b;
    assert full == b * q + full % b;
    if q >= 1 {
      Larger(q, b);
    }
  }

  lemma Exact(full: nat, freq: int)
    requires 0 < freq < 0x1_0000_0000 && full < freq * 0x1_0000_0000
    ensures full < 0x1_0000_0000_0000_0000 && full / freq < 0x1_0000_0000 &&
      Word(full / freq) * freq + full % freq == full
  {
    Fits(full, freq);
    NoTruncation(full / freq);
    DivMod(full, freq);
  }

  lemma NoWrap(a: u64, b: nat)
    requires a as int + b < 0x1_0000_0000_0000_0000
    ensures (a + b % 0x1_0000_0000_0000_0000) % 0x1_0000_0000_0000_0000 == a + b
  {
  }

  lemma NoTruncation(q: nat)
    requires q < 0x1_0000_0000
    ensures q % 0x1_0000_0000 == q
  {
  }

  lemma DivMod(x: nat, freq: int)
    requires freq > 0
    ensures x / freq * freq + x % freq == x
  {
  }

  lemma Below(j: u32, freq: int, rem: int)
    requires 0 <= rem < freq
    ensures j * freq + rem < freq * 0x1_0000_0000
  {
    var k := 0xFFFF_FFFF - j;
    assert k * freq >= 0;
    Times(j, k, freq);
  }

  lemma Fits(full: nat, freq: int)
    requires 0 < freq < 0x1_0000_0000 && full < freq * 0x1_0000_0000
    ensures full < 0x1_0000_0000_0000_0000 && full / freq < 0x1_0000_0000
  {
    var q := full / freq;
    assert full == freq * q + full % freq;
    Scale(q, 0x1_0000_0000, freq);
  }

  lemma Scale(q: int, m: int, freq: nat)
    ensures q >= m ==> freq * q >= freq * m
  {
    if q >= m {
      Times(q - m, m, freq);
      assert (q - m) * freq >= 0;
    }
  }

  // ---- runs

  /** No tick of the run loses anything. */
  predicate InTime(c: Clock, nows: seq<u64>)
    requires Ticking(c)
    decreases |nows|
  {
    nows == [] || ((nows[0] > c.stamp ==> Lossless(c, nows[0])) && InTime(Tick(c, nows[0]).0, nows[1..]))
  }

  /** Ticks less than 2^32 jiffies apart, of a clock whose frequency fits 32 bits. */
  predicate Regular(c: Clock, nows: seq<u64>)
    requires Narrow(c)
    decreases |nows|
  {
    nows == [] ||
    (c.rem + 100 * (Later(c, nows[0]) - c.stamp) < c.freq * 0x1_0000_0000 && Regular(Tick(c, nows[0]).0, nows[1..]))
  }

  lemma {:induction false} RegularInTime(c: Clock, nows: seq<u64>)
    requires Narrow(c) && Regular(c, nows)
    ensures InTime(c, nows)
    decreases |nows|
  {
    if nows != [] {
      RegularInTime(Tick(c, nows[0]).0, nows[1..]);
      if nows[0] > c.stamp {
        TickConservesIff(c, nows[0]);
        TickLosslessIff(c, nows[0]);
      }
    }
  }

  function Final(c: Clock, nows: seq<u64>): (r: Clock)
    requires Ticking(c)
    decreases |nows|
  {
    if nows == [] then c else Final(Tick(c, nows[0]).0, nows[1..])
  }

  function Total(c: Clock, nows: seq<u64>): (n: nat)
    requires Ticking(c)
    decreases |nows|
  {
    if nows == [] then 0 else Tick(c, nows[0]).1 + Total(Tick(c, nows[0]).0, nows[1..])
  }

  function Latest(t: u64, nows: seq<u64>): (r: u64)
    decreases |nows|
  {
    if nows == [] then t else Latest(if nows[0] > t then nows[0] else t, nows[1..])
  }

  /** Over any run of timestamps, backward ones included, jiffies do not drift: together with the stored remainder
      they account for exactly the ticks up to the latest timestamp. */
  lemma {:induction false} NoDrift(c: Clock, nows: seq<u64>)
    requires Ticking(c) && InTime(c, nows)
    ensures Final(c, nows).stamp == Latest(c.stamp, nows) && Final(c, nows).freq == c.freq
    ensures Total(c, nows) * c.freq + Final(c, nows).rem == c.rem + 100 * (Latest(c.stamp, nows) - c.stamp)
    decreases |nows|
  {
    if nows != [] {
      var (c', j) := Tick(c, nows[0]);
      if nows[0] > c.stamp {
        TickLosslessIff(c, nows[0]);
      }
      NoDrift(c', nows[1..]);
      Times(j, Total(c', nows[1..]), c.freq);
    }
  }

  lemma {:induction false} RemBelow(c: Clock, nows: seq<u64>)
    requires Narrow(c) && c.rem < c.freq
    ensures Final(c, nows).rem < c.freq && Final(c, nows).freq == c.freq
    decreases |nows|
  {
    if nows != [] {
      RemBelow(Tick(c, nows[0]).0, nows[1..]);
    }
  }

  lemma QuotientIs(j: nat, freq: nat, rem: nat, x: int)
    requires rem < freq && j * freq + rem == x
    ensures x / freq == j
  {
    assert j * freq >= 0;
    var k := x / freq - j;
    DivMod(x, freq);
    Times(j, k, freq);
    if k != 0 {
      AtLeast(k, freq);
    }
  }

  lemma AtLeast(k: int, freq: nat)
    requires k != 0
    ensures k * freq >= freq || k * freq + freq <= 0
  {
  }

  /** At any time as many jiffies have been handed out as have passed: the whole part of 100 times the time, if no tick
      came too late. */
  lemma {:induction false} JiffiesExact(c: Clock, nows: seq<u64>)
    requires Narrow(c) && c.rem < c.freq && InTime(c, nows)
    ensures Total(c, nows) == (c.rem + 100 * (Latest(c.stamp, nows) - c.stamp)) / c.freq
  {
    WholePart(c, nows, c.rem + 100 * (Latest(c.stamp, nows) - c.stamp));
  }

  lemma {:induction false} WholePart(c: Clock, nows: seq<u64>, full: int)
    requires Narrow(c) && c.rem < c.freq && InTime(c, nows)
    requires full == c.rem + 100 * (Latest(c.stamp, nows) - c.stamp)
    ensures Total(c, nows) == full / c.freq
  {
    AccountsFor(c, nows, full);
    RemBelow(c, nows);
    var j := Total(c, nows);
    QuotientIs(j, c.freq, Final(c, nows).rem, full);
  }

  lemma {:induction false} AccountsFor(c: Clock, nows: seq<u64>, full: int)
    requires Ticking(c) && InTime(c, nows) && full == c.rem + 100 * (Latest(c.stamp, nows) - c.stamp)
    ensures Total(c, nows) * c.freq + Final(c, nows).rem == full
  {
    NoDrift(c, nows);
  }

  /** A pause of 2^32 + 4 jiffies is reported as 4. */
  lemma LongPauseLosesTime()
    ensures Tick(Clock(0, 0, 1), 42_949_673) == (Clock(42_949_673, 0, 1), 4)
  {
  }

  class Timer {
    var clock: Clock

    /** callback_return_jiffies, with the division that the code does. */
    method ReturnJiffies(now: u64) returns (jiffies: u32)
      requires Ticking(clock)
      modifies this
      ensures (clock, jiffies) == Tick(old(clock), now)
    {
      if now > clock.stamp {
        var diff: u64 := (clock.rem + 100 * (now - clock.stamp) % 0x1_0000_0000_0000_0000) % 0x1_0000_0000_0000_0000;
        var q, r := Div64(diff, Base(clock.freq));
        clock := Clock(now, r, clock.freq);
        jiffies := Word(q);
      } else {
        jiffies := 0;
      }
    }
  }
}
