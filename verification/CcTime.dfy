/** The timing of caption frames: times in another scale, rounded to the nearest unit. */
module CcTime {
  import opened Bytes
  import opened KmpFormat

  const CLOCK_FREQ: nat := 1000000

  /** A time in another scale, in 64-bit arithmetic, rounded. */
  function Rescale(time: int, cur: nat, new_: nat): (t: i64)
    requires cur > 0
  {
    var t: nat := (time % U64 * new_ % U64 + cur / 2) % U64 / cur;
    ToI64(t)
  }

  /** The timing of a caption frame. */
  function Timing(start: i64, end: i64, timescale: nat, lastCreated: i64): Frame {
    var dts, pts := Rescale(start, CLOCK_FREQ, timescale), Rescale(end, CLOCK_FREQ, timescale);
    var delay := ToI32((pts - dts) % U32);
    Frame(ToI64((lastCreated - delay) % U64), dts, 0, delay)
  }

  lemma ModSmall(x: nat, m: nat)
    requires x < m
    ensures x % m == x
  {
  }

  lemma Divided(x: nat, n: nat)
    requires n > 0
    ensures x / n * n <= x < x / n * n + n
  {
  }

  lemma MulMono(a: nat, b: nat, n: nat)
    requires a <= b
    ensures a * n <= b * n && n * a <= n * b
  {
  }

  lemma MulStrict(a: nat, b: nat, n: nat)
    requires a * n < b * n
    ensures a < b
  {
    if b <= a {
      MulMono(b, a, n);
    }
  }

  /** p is at most half of n away from x. */
  predicate Near(p: int, x: int, n: nat) { 2 * (p - x) <= n && 2 * (x - p) <= n }

  /** Dividing with half of the divisor added rounds to the nearest. */
  lemma Rounded(x: nat, n: nat, q: nat)
    requires n > 0 && q == (x + n / 2) / n
    ensures Near(q * n, x, n)
  {
    Divided(x + n / 2, n);
  }

  lemma Halved(y: nat, n: nat)
    requires n >= 2 && y < U64
    ensures 0 <= y / n < U64 / 2
  {
    Divided(y, n);
    MulMono(2, n, y / n);
  }

  /** Without overflow. */
  lemma RescaleIs(time: nat, cur: nat, new_: nat)
    requires cur >= 2 && time * new_ + cur / 2 < U64
    ensures 0 <= Rescale(time, cur, new_) == (time * new_ + cur / 2) / cur
  {
    var y := time * new_ + cur / 2;
    if new_ == 0 {
      assert time * new_ == 0 && time % U64 * new_ == 0;
    } else {
      MulMono(1, new_, time);
      ModSmall(time, U64);
    }
    ModSmall(time * new_, U64);
    ModSmall(y, U64);
    Halved(y, cur);
  }

  /** Without overflow, the nearest time in the other scale. */
  lemma RescaleNearest(time: nat, cur: nat, new_: nat)
    requires cur >= 2 && time * new_ + cur / 2 < U64
    ensures var t := Rescale(time, cur, new_);
      t >= 0 && Near(t * cur, time * new_, cur)
  {
    RescaleIs(time, cur, new_);
    hide Rescale, Near;
    Rounded(time * new_, cur, Rescale(time, cur, new_));
  }

  lemma Next(p: nat, n: nat)
    ensures (p + 1) * n == p * n + n
  {
  }

  lemma InOrder(p: nat, q: nat, n: nat, x: nat, y: nat)
    requires p * n <= x <= y < q * n + n
    ensures p <= q
  {
    Next(q, n);
    MulStrict(p, q + 1, n);
  }

  lemma Compared(p: nat, q: nat, n: nat, x: nat, y: nat)
    requires p * n <= x <= y < q * n + n
    ensures p <= q && (y - x >= n ==> p < q)
  {
    InOrder(p, q, n, x, y);
    if y - x >= n {
      Next(p, n);
      InOrder(p + 1, q, n, x + n, y);
    }
  }

  lemma Quotients(x: nat, y: nat, n: nat)
    requires n > 0 && x <= y
    ensures x / n <= y / n && (y - x >= n ==> x / n < y / n)
  {
    Divided(x, n);
    Divided(y, n);
    Compared(x / n, y / n, n, x, y);
  }

  /** A later time is not earlier in the other scale, and later by a unit if it is by one. */
  lemma RescaleLater(a: nat, b: nat, cur: nat, new_: nat)
    requires cur >= 2 && a <= b && b * new_ + cur / 2 < U64
    ensures a * new_ <= b * new_ && Rescale(a, cur, new_) <= Rescale(b, cur, new_)
    ensures b * new_ - a * new_ >= cur ==> Rescale(a, cur, new_) < Rescale(b, cur, new_)
  {
    MulMono(a, b, new_);
    RescaleIs(a, cur, new_);
    RescaleIs(b, cur, new_);
    hide Rescale;
    Quotients(a * new_ + cur / 2, b * new_ + cur / 2, cur);
  }

  /** Without overflow, a caption frame starts and ends at the times nearest to those of the
      caption, its duration is not negative, and positive if it lasts at least a unit, and
      its creation time is earlier than the last one by that duration. */
  lemma TimingNearest(start: i64, end: i64, timescale: nat, lastCreated: i64)
    requires 0 <= start <= end && end * timescale + CLOCK_FREQ / 2 < U64
    requires end * timescale - start * timescale < 0x7fff_fffe * CLOCK_FREQ
    requires lastCreated >= -0x7fff_ffff_0000_0000
    ensures var f := Timing(start, end, timescale, lastCreated);
      && Near(f.dts * CLOCK_FREQ, start * timescale, CLOCK_FREQ)
      && Near((f.dts + f.ptsDelay) * CLOCK_FREQ, end * timescale, CLOCK_FREQ)
      && f.ptsDelay >= 0 && (end * timescale - start * timescale >= CLOCK_FREQ ==> f.ptsDelay > 0)
      && f.created + f.ptsDelay == lastCreated && f.fl == 0
  {
    MulMono(start, end, timescale);
    RescaleNearest(start, CLOCK_FREQ, timescale);
    RescaleNearest(end, CLOCK_FREQ, timescale);
    RescaleLater(start, end, CLOCK_FREQ, timescale);
    var dts, pts := Rescale(start, CLOCK_FREQ, timescale), Rescale(end, CLOCK_FREQ, timescale);
    DelayFits(start * timescale, end * timescale, dts, pts);
    TimingIs(start, end, timescale, lastCreated, dts, pts);
  }

  lemma DelayFits(x: nat, y: nat, dts: int, pts: int)
    requires Near(dts * CLOCK_FREQ, x, CLOCK_FREQ) && Near(pts * CLOCK_FREQ, y, CLOCK_FREQ)
    requires x <= y && y - x < 0x7fff_fffe * CLOCK_FREQ
    ensures pts - dts < 0x8000_0000
  {
  }

  lemma TimingIs(start: i64, end: i64, timescale: nat, lastCreated: i64, dts: i64, pts: i64)
    requires dts == Rescale(start, CLOCK_FREQ, timescale) && pts == Rescale(end, CLOCK_FREQ, timescale)
    requires 0 <= pts - dts < 0x8000_0000 && lastCreated >= -0x7fff_ffff_0000_0000
    ensures Timing(start, end, timescale, lastCreated) == Frame(lastCreated - (pts - dts), dts, 0, pts - dts)
  {
    hide Rescale;
    ModSmall(pts - dts, U32);
    var delay := pts - dts;
    if lastCreated >= delay {
      ModSmall(lastCreated - delay, U64);
    } else {
      ModNegative(delay - lastCreated, U64);
    }
  }

  lemma ModNegative(x: nat, m: nat)
    requires 0 < x < m
    ensures (0 - x) % m == m - x
  {
  }
}
