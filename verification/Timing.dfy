/** Spreading events over a time window with jitter; instants and durations are nanoseconds, arithmetic is exact. */
module Timing {
  import opened GoNumbers

  function Interval(spread: int, total: int): real
    requires total > 0
  {
    spread as real / total as real
  }

  /** The even position of an event in the window. */
  function Even(spread: int, index: int, total: int): real
    requires total > 0
  {
    index as real * Interval(spread, total)
  }

  /** Up to `range` either way; `draw` is a random number in [-1, 1). */
  function Jitter(range: real, draw: real): int {
    Truncate(draw * range)
  }

  /** The offset before any clamp, from the even position, the interval and the draw. */
  function RawOffset(even: real, interval: real, draw: real): int {
    Truncate(even) + Jitter(interval * 0.4, draw)
  }

  function Clamp(offset: int, spread: int): int {
    var raised := if offset < 0 then 0 else offset;
    if raised > spread then spread else raised
  }

  function Offset(spread: int, index: int, total: int, draw: real): int
    requires total > 0
  {
    Clamp(RawOffset(Even(spread, index, total), Interval(spread, total), draw), spread)
  }

  /** When the event with this index happens. */
  function EventTime(now: int, spread: int, index: int, total: int, draw: real): int
    requires total > 0
  {
    if spread == 0 then now else now - (spread - Offset(spread, index, total, draw))
  }

  predicate Drawn(draw: real) {
    -1.0 <= draw < 1.0
  }

  /** calculateJitteredTime and, where the window is not empty, calculateEventTime. */
  method CalculateJitteredTime(now: int, spread: int, index: int, total: int, draw: real) returns (at: int)
    requires total > 0
    ensures at == EventTime(now, spread, index, total, draw)
    ensures spread >= 0 ==> now - spread <= at <= now
  {
    if spread == 0 {
      return now;
    }
    var interval := Interval(spread, total);
    var baseOffset := Truncate(Even(spread, index, total));
    var jitterRange := interval * 0.4;
    var jitter := Jitter(jitterRange, draw);
    var offset := baseOffset + jitter;
    if offset < 0 {
      offset := 0;
    }
    if offset > spread {
      offset := spread;
    }
    at := now - (spread - offset);
  }

  // ---- Products -----------------------------------------------------------------------------------

  lemma {:induction false} ProductIsMonotone(x: real, y: real, b: real)
    requires x <= y && b >= 0.0
    ensures x * b <= y * b
  {}

  lemma {:induction false} ProductDistributes(x: real, y: real, b: real)
    ensures (x + y) * b == x * b + y * b
  {}

  lemma {:induction false} EvenPositions(spread: int, index: int, total: int)
    requires spread >= 0 && 0 <= index < total
    ensures Interval(spread, total) >= 0.0
    ensures Even(spread, index, total) + Interval(spread, total) <= spread as real
    ensures Even(spread, 0, total) == 0.0
    ensures Even(spread, total - 1, total) == spread as real - Interval(spread, total)
  {
    var b, n := Interval(spread, total), total as real;
    assert n * b == spread as real;
    ProductIsMonotone(index as real + 1.0, n, b);
    ProductDistributes(index as real, 1.0, b);
    ProductDistributes((total - 1) as real, 1.0, b);
  }

  lemma {:induction false} EvenlyApart(spread: int, i: int, j: int, total: int)
    requires spread >= 0 && 0 <= i < j < total
    ensures Even(spread, j, total) - Even(spread, i, total) == Even(spread, j - i, total) >= Interval(spread, total)
  {
    var b := Interval(spread, total);
    ProductDistributes((j - i) as real, i as real, b);
    ProductIsMonotone(1.0, (j - i) as real, b);
  }

  // ---- One event ----------------------------------------------------------------------------------

  lemma {:induction false} JitterIsSmall(range: real, draw: real)
    requires range >= 0.0 && Drawn(draw)
    ensures -range <= Jitter(range, draw) as real <= range
  {
    ProductIsMonotone(-1.0, draw, range);
    ProductIsMonotone(draw, 1.0, range);
    TruncateStaysWithin(draw * range, range);
  }

  /** Before clamping, the offset is within 0.4 intervals of the even position, or less than a nanosecond below that. */
  lemma {:induction false} RawOffsetIsClose(even: real, interval: real, draw: real)
    requires even >= 0.0 && interval >= 0.0 && Drawn(draw)
    ensures even - 0.4 * interval - 1.0 < RawOffset(even, interval, draw) as real <= even + 0.4 * interval
  {
    JitterIsSmall(interval * 0.4, draw);
    TruncateIsClose(even);
  }

  /** The jitter is there: the offset follows the draw, 0.4 intervals either way, but for two nanoseconds. */
  lemma {:induction false} JitterFollowsDraw(even: real, interval: real, draw: real)
    requires even >= 0.0
    ensures even + 0.4 * interval * draw - 2.0 < RawOffset(even, interval, draw) as real
                                               < even + 0.4 * interval * draw + 1.0
  {
    TruncateIsClose(even);
    TruncateIsClose(draw * (interval * 0.4));
    assert draw * (interval * 0.4) == 0.4 * interval * draw;
  }

  /** Two draws for an event after the first differ by 0.4 intervals times their difference, but for 3 nanoseconds. */
  lemma {:induction false} DrawsSpread(now: int, spread: int, index: int, total: int, a: real, b: real)
    requires spread > 0 && 0 < index < total && Drawn(a) && Drawn(b)
    ensures
      var d := (EventTime(now, spread, index, total, a) - EventTime(now, spread, index, total, b)) as real;
      var meant := 0.4 * Interval(spread, total) * a - 0.4 * Interval(spread, total) * b;
      meant - 3.0 < d < meant + 3.0
  {
    ClampsRarelyFire(spread, index, total, a);
    ClampsRarelyFire(spread, index, total, b);
    FirstOrLater(spread, index, total);
    JitterFollowsDraw(Even(spread, index, total), Interval(spread, total), a);
    JitterFollowsDraw(Even(spread, index, total), Interval(spread, total), b);
  }

  lemma {:induction false} ClampsAt(spread: int, even: real, interval: real, draw: real)
    requires spread > 0 && interval > 0.0 && Drawn(draw)
    requires (even == 0.0 || even >= interval) && even + interval <= spread as real
    ensures RawOffset(even, interval, draw) < spread
    ensures even != 0.0 ==> RawOffset(even, interval, draw) >= 0
  {
    RawOffsetIsClose(even, interval, draw);
  }

  lemma {:induction false} FirstOrLater(spread: int, index: int, total: int)
    requires spread > 0 && 0 <= index < total
    ensures Interval(spread, total) > 0.0
    ensures if index == 0 then Even(spread, index, total) == 0.0
            else Even(spread, index, total) >= Interval(spread, total)
    ensures Even(spread, index, total) + Interval(spread, total) <= spread as real
  {
    EvenPositions(spread, index, total);
    if index > 0 {
      EvenlyApart(spread, 0, index, total);
    }
  }

  /** The upper clamp never fires, and the lower one only for the first event. */
  lemma {:induction false} ClampsRarelyFire(spread: int, index: int, total: int, draw: real)
    requires spread > 0 && 0 <= index < total && Drawn(draw)
    ensures RawOffset(Even(spread, index, total), Interval(spread, total), draw) < spread
    ensures index > 0 ==>
            Offset(spread, index, total, draw) == RawOffset(Even(spread, index, total), Interval(spread, total), draw)
  {
    FirstOrLater(spread, index, total);
    ClampsAt(spread, Even(spread, index, total), Interval(spread, total), draw);
  }

  lemma {:induction false} OffsetIsClose(spread: int, index: int, total: int, draw: real)
    requires spread > 0 && 0 <= index < total && Drawn(draw)
    ensures Even(spread, index, total) - 0.4 * Interval(spread, total) - 1.0
            < Offset(spread, index, total, draw) as real
    ensures Offset(spread, index, total, draw) as real <= Even(spread, index, total) + 0.4 * Interval(spread, total)
  {
    FirstOrLater(spread, index, total);
    ClampsRarelyFire(spread, index, total, draw);
    RawOffsetIsClose(Even(spread, index, total), Interval(spread, total), draw);
  }

  // ---- Two events ---------------------------------------------------------------------------------

  /** Two events are as far apart as their even positions, but for 0.8 intervals and a nanosecond lost to truncation. */
  lemma {:induction false} Separation(now: int, spread: int, total: int, i: int, j: int, drawI: real, drawJ: real)
    requires spread > 0 && 0 <= i < j < total && Drawn(drawI) && Drawn(drawJ)
    ensures
      (EventTime(now, spread, j, total, drawJ) - EventTime(now, spread, i, total, drawI)) as real
      > Even(spread, j - i, total) - 0.8 * Interval(spread, total) - 1.0
  {
    OffsetIsClose(spread, i, total, drawI);
    OffsetIsClose(spread, j, total, drawJ);
    EvenlyApart(spread, i, j, total);
  }

  /** Time follows index whatever the draws, strictly once the interval is five nanoseconds. */
  lemma {:induction false} OrderFollowsIndex(now: int, spread: int, total: int, i: int, j: int, drawI: real,
                                             drawJ: real)
    requires spread > 0 && 0 <= i < j < total && Drawn(drawI) && Drawn(drawJ)
    ensures EventTime(now, spread, i, total, drawI) <= EventTime(now, spread, j, total, drawJ)
    ensures Interval(spread, total) >= 5.0 ==>
            EventTime(now, spread, i, total, drawI) < EventTime(now, spread, j, total, drawJ)
  {
    Separation(now, spread, total, i, j, drawI, drawJ);
    EvenlyApart(spread, i, j, total);
    EvenPositions(spread, i, total);
  }

  /** The events cover the window: the first lies near its start and the last near its end. */
  lemma {:induction false} WindowIsCovered(now: int, spread: int, total: int, first: real, last: real)
    requires spread > 0 && total > 0 && Drawn(first) && Drawn(last)
    ensures (EventTime(now, spread, 0, total, first) - (now - spread)) as real <= 0.4 * Interval(spread, total)
    ensures (now - EventTime(now, spread, total - 1, total, last)) as real < 1.4 * Interval(spread, total) + 1.0
  {
    EvenPositions(spread, 0, total);
    OffsetIsClose(spread, 0, total, first);
    OffsetIsClose(spread, total - 1, total, last);
  }
}
