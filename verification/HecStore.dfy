/**
 * The statistics store behind the collector: counters with an expiry that every write refreshes, and the
 * statistics read back from them. `log` lists the writes that reached the store.
 */
module HecStore {
  import opened HecUsage
  import opened Wrappers

  /** Instants and durations are nanoseconds; the clock's zone has a fixed offset. */
  const HOUR := 3_600_000_000_000
  const DAY := 24 * HOUR

  datatype Write = Write(token: string, count: int, ips: set<string>, at: int)

  datatype Counter = Counter(count: int, expires: int)

  datatype Addresses = Addresses(ips: set<string>, expires: int)

  datatype Stats = Stats(totalEvents: int, eventsLastHour: int, eventsLast24h: int, uniqueIpsToday: int)

  function HourOf(at: int, offset: int): int {
    (at + offset) / HOUR
  }

  function DayOf(at: int, offset: int): int {
    (at + offset) / DAY
  }

  // ---- What the statistics mean, said of the writes ------------------------------------------------

  /** The counts of token `t` written in the hours from `lo` to `hi`. */
  ghost function CountIn(log: seq<Write>, t: string, offset: int, lo: int, hi: int): int {
    if log == [] then 0
    else
      var w := log[|log| - 1];
      CountIn(log[..|log| - 1], t, offset, lo, hi) +
      if w.token == t && lo <= HourOf(w.at, offset) <= hi then w.count else 0
  }

  ghost function CountAll(log: seq<Write>, t: string): int {
    if log == [] then 0
    else var w := log[|log| - 1]; CountAll(log[..|log| - 1], t) + if w.token == t then w.count else 0
  }

  /** The counts of token `t` written after `since`. */
  ghost function CountSince(log: seq<Write>, t: string, since: int): int {
    if log == [] then 0
    else
      var w := log[|log| - 1];
      CountSince(log[..|log| - 1], t, since) + if w.token == t && since < w.at then w.count else 0
  }

  ghost function IpsOn(log: seq<Write>, t: string, offset: int, day: int): set<string> {
    set w, ip | w in log && w.token == t && DayOf(w.at, offset) == day && ip in w.ips :: ip
  }

  ghost predicate NonNegative(log: seq<Write>) {
    forall w | w in log :: w.count >= 0
  }

  lemma {:induction false} CountInSplits(log: seq<Write>, t: string, offset: int, lo: int, mid: int, hi: int)
    requires lo <= mid + 1 && mid <= hi
    ensures CountIn(log, t, offset, lo, hi) == CountIn(log, t, offset, lo, mid) + CountIn(log, t, offset, mid + 1, hi)
  {
    if log != [] { CountInSplits(log[..|log| - 1], t, offset, lo, mid, hi); }
  }

  lemma {:induction false} CountInEmpty(log: seq<Write>, t: string, offset: int, lo: int, hi: int)
    requires hi < lo || forall w | w in log && w.token == t :: !(lo <= HourOf(w.at, offset) <= hi)
    ensures CountIn(log, t, offset, lo, hi) == 0
  {
    if log != [] { CountInEmpty(log[..|log| - 1], t, offset, lo, hi); }
  }

  lemma {:induction false} OneMoreWrite(log: seq<Write>, w: Write, offset: int)
    ensures forall t :: CountAll(log + [w], t) == CountAll(log, t) + if t == w.token then w.count else 0
    ensures forall t, lo, hi :: CountIn(log + [w], t, offset, lo, hi) ==
              CountIn(log, t, offset, lo, hi) + if t == w.token && lo <= HourOf(w.at, offset) <= hi then w.count else 0
  {
    assert (log + [w])[..|log|] == log;
  }

  lemma {:induction false} OneMoreDay(log: seq<Write>, w: Write, offset: int, t: string, d: int)
    ensures IpsOn(log + [w], t, offset, d) ==
            IpsOn(log, t, offset, d) + if t == w.token && d == DayOf(w.at, offset) then w.ips else {}
  {
    assert forall v :: v in log + [w] <==> v in log || v == w;
  }

  /** For counts that are not negative: the current hour is within the window, and the window within the total. */
  lemma {:induction false} WindowsNest(log: seq<Write>, t: string, offset: int, lo: int, mid: int, hi: int)
    requires NonNegative(log) && lo <= mid
    ensures 0 <= CountIn(log, t, offset, mid, hi) <= CountIn(log, t, offset, lo, hi) <= CountAll(log, t)
  {
    if log != [] {
      assert log[|log| - 1] in log;
      WindowsNest(log[..|log| - 1], t, offset, lo, mid, hi);
    }
  }

  /**
   * The 24 hour buckets in time: they have every write of the last 23 hours and none that is 24 hours old, so for
   * counts that are not negative the figure lies between the two sums.
   */
  lemma {:induction false} WindowInTime(log: seq<Write>, t: string, offset: int, now: int)
    requires NonNegative(log) && forall w | w in log :: w.at <= now
    ensures CountSince(log, t, now - 23 * HOUR) <=
            CountIn(log, t, offset, HourOf(now, offset) - 23, HourOf(now, offset))
    ensures CountIn(log, t, offset, HourOf(now, offset) - 23, HourOf(now, offset)) <=
            CountSince(log, t, now - 24 * HOUR)
  {
    if log != [] {
      var w := log[|log| - 1];
      assert w in log;
      WindowInTime(log[..|log| - 1], t, offset, now);
      BucketInTime(w.at, now, offset);
    }
  }

  lemma {:induction false} BucketInTime(at: int, now: int, offset: int)
    requires at <= now
    ensures HourOf(at, offset) <= HourOf(now, offset)
    ensures now - 23 * HOUR < at ==> HourOf(now, offset) - 23 <= HourOf(at, offset)
    ensures HourOf(now, offset) - 23 <= HourOf(at, offset) ==> now - 24 * HOUR < at
  {
  }

  // ---- The same by the clock -----------------------------------------------------------------------

  /** The local instant at which the current hour began, and the local midnight before. */
  function HourStart(now: int, offset: int): int {
    now - (now + offset) % 3_600_000_000_000
  }

  function Midnight(now: int, offset: int): int {
    now - (now + offset) % 86_400_000_000_000
  }

  /** The counts of token `t` written from `lo` on and before `hi`. */
  ghost function CountBetween(log: seq<Write>, t: string, lo: int, hi: int): int {
    if log == [] then 0
    else
      var w := log[|log| - 1];
      CountBetween(log[..|log| - 1], t, lo, hi) + if w.token == t && lo <= w.at < hi then w.count else 0
  }

  ghost function IpsBetween(log: seq<Write>, t: string, lo: int, hi: int): set<string> {
    set w, ip | w in log && w.token == t && lo <= w.at < hi && ip in w.ips :: ip
  }

  /** Hours before and after are counted from the start of the current one. */
  lemma {:induction false} HourInTime(at: int, now: int, offset: int, h: int)
    ensures HourOf(at, offset) >= HourOf(now, offset) - h <==> at >= HourStart(now, offset) - h * 3_600_000_000_000
  {}

  /** A write counts as today's exactly from local midnight to the next; until now, exactly from midnight on. */
  lemma {:induction false} DayInTime(at: int, now: int, offset: int)
    ensures DayOf(at, offset) == DayOf(now, offset) <==>
            Midnight(now, offset) <= at < Midnight(now, offset) + 86_400_000_000_000
    ensures at <= now ==>
            (DayOf(at, offset) == DayOf(now, offset) <==> at >= now - (now + offset) % 86_400_000_000_000)
  {}

  lemma {:induction false} CountInTime(log: seq<Write>, t: string, offset: int, now: int, h: nat)
    ensures CountIn(log, t, offset, HourOf(now, offset) - h, HourOf(now, offset)) ==
            CountBetween(log, t, HourStart(now, offset) - h * 3_600_000_000_000,
                         HourStart(now, offset) + 3_600_000_000_000)
  {
    if log != [] {
      CountInTime(log[..|log| - 1], t, offset, now, h);
      HourInTime(log[|log| - 1].at, now, offset, h);
      HourInTime(log[|log| - 1].at, now, offset, -1);
    }
  }

  lemma {:induction false} IpsInTime(log: seq<Write>, t: string, offset: int, now: int)
    ensures IpsOn(log, t, offset, DayOf(now, offset)) ==
            IpsBetween(log, t, Midnight(now, offset), Midnight(now, offset) + 86_400_000_000_000)
  {
    forall w | w in log
      ensures DayOf(w.at, offset) == DayOf(now, offset) <==>
              Midnight(now, offset) <= w.at < Midnight(now, offset) + 86_400_000_000_000
    {
      DayInTime(w.at, now, offset);
    }
  }

  ghost predicate TotalsFit(totals: map<string, int>, log: seq<Write>) {
    forall t {:trigger CountAll(log, t)} :: CountAll(log, t) == if t in totals then totals[t] else 0
  }

  lemma {:induction false} TotalsStayFitting(before: map<string, int>, log: seq<Write>, offset: int, w: Write)
    requires TotalsFit(before, log)
    ensures TotalsFit(before[w.token := (if w.token in before then before[w.token] else 0) + w.count], log + [w])
  {
    OneMoreWrite(log, w, offset);
  }

  /** The counter of an hour is what was written in that hour, and it outlives the hour by 47 more. */
  ghost predicate HourlyFits(hourly: map<(string, int), Counter>, log: seq<Write>, offset: int) {
    forall t, h {:trigger CountIn(log, t, offset, h, h)} ::
      if (t, h) in hourly then
        hourly[(t, h)].count == CountIn(log, t, offset, h, h) && h + 48 <= HourOf(hourly[(t, h)].expires, offset)
      else CountIn(log, t, offset, h, h) == 0
  }

  ghost predicate DailyFits(daily: map<(string, int), Addresses>, log: seq<Write>, offset: int) {
    forall t, d {:trigger IpsOn(log, t, offset, d)} ::
      if (t, d) in daily then
        daily[(t, d)].ips == IpsOn(log, t, offset, d) && d + 7 <= DayOf(daily[(t, d)].expires, offset)
      else IpsOn(log, t, offset, d) == {}
  }

  lemma {:induction false} HourlyStaysFitting(before: map<(string, int), Counter>, after: map<(string, int), Counter>,
                                              log: seq<Write>,
                                              offset: int, w: Write)
    requires HourlyFits(before, log, offset)
    requires
      var key := (w.token, HourOf(w.at, offset));
      var live := key in before && w.at < before[key].expires;
      after == before[key := Counter((if live then before[key].count else 0) + w.count, w.at + 48 * HOUR)]
    ensures HourlyFits(after, log + [w], offset)
  {
    OneMoreWrite(log, w, offset);
    forall t, h {:trigger CountIn(log + [w], t, offset, h, h)}
      ensures if (t, h) in after then
                && after[(t, h)].count == CountIn(log + [w], t, offset, h, h)
                && h + 48 <= HourOf(after[(t, h)].expires, offset)
              else CountIn(log + [w], t, offset, h, h) == 0
    {
      assert CountIn(log, t, offset, h, h) == CountIn(log, t, offset, h, h);
    }
  }

  lemma {:induction false} DailyStaysFitting(before: map<(string, int), Addresses>,
                                             after: map<(string, int), Addresses>, log: seq<Write>,
                                             offset: int, w: Write)
    requires DailyFits(before, log, offset)
    requires
      var key := (w.token, DayOf(w.at, offset));
      var live := key in before && w.at < before[key].expires;
      after == if w.ips == {} then before
               else before[key := Addresses((if live then before[key].ips else {}) + w.ips, w.at + 7 * DAY)]
    ensures DailyFits(after, log + [w], offset)
  {
    forall t, d {:trigger IpsOn(log + [w], t, offset, d)}
      ensures if (t, d) in after then
                && after[(t, d)].ips == IpsOn(log + [w], t, offset, d)
                && d + 7 <= DayOf(after[(t, d)].expires, offset)
              else IpsOn(log + [w], t, offset, d) == {}
    {
      OneMoreDay(log, w, offset, t, d);
    }
  }

  // ---- The store -------------------------------------------------------------------------------

  class UsageStore {
    const offset: int
    var totals: map<string, int>
    var hourly: map<(string, int), Counter>
    var daily: map<(string, int), Addresses>
    ghost var log: seq<Write>

    ghost predicate Valid()
      reads this
    {
      HourlyFits(hourly, log, offset) && DailyFits(daily, log, offset) && TotalsFit(totals, log)
    }

    function Total(t: string): int
      reads this
    {
      if t in totals then totals[t] else 0
    }

    function LiveCount(t: string, hour: int, now: int): int
      reads this
    {
      if (t, hour) in hourly && now < hourly[(t, hour)].expires then hourly[(t, hour)].count else 0
    }

    function LiveIps(t: string, day: int, now: int): set<string>
      reads this
    {
      if (t, day) in daily && now < daily[(t, day)].expires then daily[(t, day)].ips else {}
    }

    constructor (offset: int)
      ensures Valid() && log == [] && this.offset == offset
    {
      this.offset := offset;
      totals, hourly, daily, log := map[], map[], map[], [];
    }

    /** The pipeline of one write: all of it reaches the store, or, when `fails`, nothing does. */
    method WriteThrough(token: string, count: int, addresses: set<string>, now: int, fails: bool) returns (ok: bool)
      requires Valid()
      modifies this
      ensures Valid() && ok == !fails
      ensures log == old(log) + if ok then [Write(token, count, addresses, now)] else []
    {
      if fails {
        return false;
      }
      var hour, day := HourOf(now, offset), DayOf(now, offset);
      totals := totals[token := Total(token) + count];
      hourly := hourly[(token, hour) := Counter(LiveCount(token, hour, now) + count, now + 48 * HOUR)];
      if addresses != {} {
        daily := daily[(token, day) := Addresses(LiveIps(token, day, now) + addresses, now + 7 * DAY)];
      }
      ghost var w := Write(token, count, addresses, now);
      TotalsStayFitting(old(totals), log, offset, w);
      HourlyStaysFitting(old(hourly), hourly, log, offset, w);
      DailyStaysFitting(old(daily), daily, log, offset, w);
      log := log + [w];
      ok := true;
    }

    /** FlushBatch: an empty batch is not written and does not fail. */
    method FlushBatch(batch: BatchUpdate, now: int, fails: bool) returns (ok: bool)
      requires Valid()
      modifies this
      ensures Valid() && ok == (batch.eventCount == 0 || !fails)
      ensures log == old(log) + if batch.eventCount == 0 || fails then []
                                else [Write(batch.tokenId, batch.eventCount, batch.clientIps, now)]
    {
      if batch.eventCount == 0 {
        return true;
      }
      ok := WriteThrough(batch.tokenId, batch.eventCount, batch.clientIps, now, fails);
    }

    /** RecordUsage: one request's count and address, even when the count is zero. */
    method RecordUsage(token: string, count: int, ip: string, now: int, fails: bool) returns (ok: bool)
      requires Valid()
      modifies this
      ensures Valid() && ok == !fails
      ensures log == old(log) + if fails then [] else [Write(token, count, {ip}, now)]
    {
      ok := WriteThrough(token, count, {ip}, now, fails);
    }

    /** GetStats, read from the live keys; what it returns is said of the writes themselves. */
    method GetStats(token: string, now: int, fails: bool) returns (r: Result<Stats, string>)
      requires Valid()
      ensures r.Success? <==> !fails
      ensures r.Success? ==>
        && r.value.totalEvents == CountAll(log, token)
        && r.value.eventsLastHour == CountIn(log, token, offset, HourOf(now, offset), HourOf(now, offset))
        && r.value.eventsLast24h == CountIn(log, token, offset, HourOf(now, offset) - 23, HourOf(now, offset))
        && r.value.uniqueIpsToday == |IpsOn(log, token, offset, DayOf(now, offset))|
      ensures r.Success? ==>
        var hour, midnight := now - (now + offset) % 3_600_000_000_000, now - (now + offset) % 86_400_000_000_000;
        && r.value.eventsLastHour == CountBetween(log, token, hour, hour + 3_600_000_000_000)
        && r.value.eventsLast24h ==
           CountBetween(log, token, hour - 23 * 3_600_000_000_000, hour + 3_600_000_000_000)
        && r.value.uniqueIpsToday == |IpsBetween(log, token, midnight, midnight + 86_400_000_000_000)|
    {
      if fails {
        return Failure("failed to get stats");
      }
      var sum, hour := 0, HourOf(now, offset);
      CountInEmpty(log, token, offset, hour + 1, hour);
      for i := 0 to 24
        invariant sum == CountIn(log, token, offset, hour + 1 - i, hour)
      {
        assert HourOf(now - i * HOUR, offset) == hour - i;
        LiveInWindow(token, hour - i, now);
        CountInSplits(log, token, offset, hour - i, hour - i, hour);
        sum := sum + LiveCount(token, HourOf(now - i * HOUR, offset), now);
      }
      LiveInWindow(token, hour, now);
      LiveToday(token, now);
      CountInTime(log, token, offset, now, 0);
      CountInTime(log, token, offset, now, 23);
      IpsInTime(log, token, offset, now);
      r := Success(Stats(Total(token), LiveCount(token, hour, now), sum, |LiveIps(token, DayOf(now, offset), now)|));
    }

    /** No counter of the last 48 hours has expired. */
    lemma {:induction false} LiveInWindow(token: string, hour: int, now: int)
      requires Valid() && HourOf(now, offset) - 47 <= hour
      ensures LiveCount(token, hour, now) == CountIn(log, token, offset, hour, hour)
    {
    }

    lemma {:induction false} LiveToday(token: string, now: int)
      requires Valid()
      ensures LiveIps(token, DayOf(now, offset), now) == IpsOn(log, token, offset, DayOf(now, offset))
    {
    }
  }
}
