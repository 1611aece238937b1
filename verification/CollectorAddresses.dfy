/** Which client addresses the usage collector keeps: step by step, over every run, and in every interleaving. */
module CollectorAddresses {
  import opened CollectorRuns
  import opened HecUsage
  import opened Wrappers

  ghost function RecordedIp(e: Step, t: string): set<string> {
    if e.Record? && e.token == t && e.ip.Some? then {e.ip.value} else {}
  }

  /** The step drops a batch of `t` whose count is zero and which alone knows one of its addresses. */
  ghost predicate Forgets(s: State, e: Step, t: string)
    requires Enabled(s, e)
  {
    && e.Written? && s.heap[e.batch].token == t && s.heap[e.batch].usage.count == 0
    && exists ip | ip in s.heap[e.batch].usage.ips :: ip !in StoredIps(s.written, t) + HeldIps(s.heap - {e.batch}, t)
  }

  /** A step keeps every known address exactly unless it forgets one, and none comes to be known unrecorded. */
  lemma {:induction false} StepKeepsAddresses(s: State, e: Step, t: string)
    requires Owned(s) && Enabled(s, e)
    ensures KnownIps(Next(s, e), t) <= KnownIps(s, t) + RecordedIp(e, t)
    ensures KnownIps(s, t) + RecordedIp(e, t) <= KnownIps(Next(s, e), t) <==> !Forgets(s, e, t)
  {
    var n := Next(s, e);
    if Forgets(s, e, t) {
      var ip :| ip in s.heap[e.batch].usage.ips && ip !in StoredIps(s.written, t) + HeldIps(s.heap - {e.batch}, t);
      assert ip in HeldIps(s.heap, t) && ip !in KnownIps(n, t);
    } else {
      forall ip | ip in KnownIps(s, t) ensures ip in KnownIps(n, t) {
        if ip in StoredIps(s.written, t) {
          StoredStays(s, e, t, ip);
        } else {
          var b :| b in s.heap && s.heap[b].token == t && ip in s.heap[b].usage.ips;
          HeldStays(s, e, b, ip);
        }
      }
      if e.Record? && e.token == t && e.ip.Some? {
        assert e.ip.value in n.heap[n.pending[t]].usage.ips;
      }
    }
  }

  lemma {:induction false} StoredStays(s: State, e: Step, t: string, ip: string)
    requires Enabled(s, e) && ip in StoredIps(s.written, t)
    ensures ip in StoredIps(Next(s, e).written, t)
  {
    var b :| b in s.written && b.token == t && ip in b.usage.ips;
    assert b in Next(s, e).written;
  }

  lemma {:induction false} HeldStays(s: State, e: Step, b: nat, ip: string)
    requires Owned(s) && Enabled(s, e) && b in s.heap && ip in s.heap[b].usage.ips && !Forgets(s, e, s.heap[b].token)
    ensures ip in KnownIps(Next(s, e), s.heap[b].token)
  {
    var n, t := Next(s, e), s.heap[b].token;
    if e.Written? && e.batch == b {
      if s.heap[b].usage.count != 0 {
        assert s.heap[b] in n.written;
      } else {
        assert ip in StoredIps(s.written, t) + HeldIps(s.heap - {b}, t);
      }
    } else {
      var c := Holder(s, e, b, ip);
    }
  }

  /** The batch that holds the address after a step that does not write the batch it was in. */
  lemma {:induction false} Holder(s: State, e: Step, b: nat, ip: string) returns (c: nat)
    requires Owned(s) && Enabled(s, e) && b in s.heap && ip in s.heap[b].usage.ips && !(e.Written? && e.batch == b)
    ensures var n := Next(s, e); c in n.heap && n.heap[c].token == s.heap[b].token && ip in n.heap[c].usage.ips
    ensures NonNegative(s) && (e.Record? ==> e.count >= 0) ==> Next(s, e).heap[c].usage.count >= s.heap[b].usage.count
  {
    c := b;
    if e.MergedBack? && e.batch == b {
      assert Taken(s, e.flush, b);
      c := Next(s, e).pending[s.heap[b].token];
    }
  }

  /** A batch that will be written, or one that was, holds the address. */
  ghost predicate Secure(s: State, t: string, ip: string) {
    || ip in StoredIps(s.written, t)
    || exists b | b in s.heap :: s.heap[b].token == t && ip in s.heap[b].usage.ips && s.heap[b].usage.count > 0
  }

  ghost predicate NonNegative(s: State) {
    forall b | b in s.heap :: s.heap[b].usage.count >= 0
  }

  ghost predicate NoNegative(steps: seq<Step>) {
    forall e | e in steps && e.Record? :: e.count >= 0
  }

  ghost function PositiveIps(steps: seq<Step>, t: string): set<string> {
    set e | e in steps && e.Record? && e.token == t && e.ip.Some? && e.count > 0 :: e.ip.value
  }

  lemma {:induction false} StepKeepsNonNegative(s: State, e: Step)
    requires Owned(s) && NonNegative(s) && Enabled(s, e) && (e.Record? ==> e.count >= 0)
    ensures NonNegative(Next(s, e))
  {
    if e.MergedBack? { assert Taken(s, e.flush, e.batch); }
  }

  /** An address in a batch with a count above zero is not forgotten any more. */
  lemma {:induction false} StepKeepsSecure(s: State, e: Step, t: string, ip: string)
    requires Owned(s) && NonNegative(s) && Enabled(s, e) && (e.Record? ==> e.count >= 0) && Secure(s, t, ip)
    ensures Secure(Next(s, e), t, ip)
  {
    if ip in StoredIps(s.written, t) {
      StoredStays(s, e, t, ip);
    } else {
      var b :| b in s.heap && s.heap[b].token == t && ip in s.heap[b].usage.ips && s.heap[b].usage.count > 0;
      if e.Written? && e.batch == b {
        assert s.heap[b] in Next(s, e).written;
      } else {
        var c := Holder(s, e, b, ip);
      }
    }
  }

  lemma {:induction false} RecordSecures(s: State, e: Step)
    requires Owned(s) && NonNegative(s) && e.Record? && e.count > 0 && e.ip.Some?
    ensures Secure(Next(s, e), e.token, e.ip.value)
  {
    var n := Next(s, e);
    assert e.ip.value in n.heap[n.pending[e.token]].usage.ips;
  }

  lemma {:induction false} RunKeepsSecure(s: State, steps: seq<Step>, last: State, t: string, ip: string)
    requires Owned(s) && NonNegative(s) && Run(s, steps, last) && NoNegative(steps)
    requires Secure(s, t, ip) || ip in PositiveIps(steps, t)
    ensures Secure(last, t, ip)
    decreases |steps|
  {
    if steps != [] {
      var e, rest := steps[0], steps[1..];
      StepKeepsOwned(s, e);
      StepKeepsNonNegative(s, e);
      if Secure(s, t, ip) {
        StepKeepsSecure(s, e, t, ip);
      } else if ip !in PositiveIps(rest, t) {
        RecordSecures(s, e);
      }
      RunKeepsSecure(Next(s, e), rest, last, t, ip);
    }
  }

  lemma {:induction false} KnownWasRecorded(s: State, steps: seq<Step>, last: State, t: string)
    requires Owned(s) && Run(s, steps, last)
    ensures KnownIps(last, t) <= KnownIps(s, t) + RecordedIps(steps, t)
    decreases |steps|
  {
    if steps != [] {
      StepKeepsOwned(s, steps[0]);
      StepKeepsAddresses(s, steps[0], t);
      KnownWasRecorded(Next(s, steps[0]), steps[1..], last, t);
    }
  }

  /** Counts being zero or more, no address recorded with a count above zero is lost, and none appears unrecorded. */
  lemma {:induction false} NoAddressLost(steps: seq<Step>, last: State, t: string)
    requires Run(INITIAL, steps, last) && NoNegative(steps)
    ensures forall ip | ip in PositiveIps(steps, t) :: ip in KnownIps(last, t)
    ensures forall ip | ip in KnownIps(last, t) :: ip in RecordedIps(steps, t)
  {
    forall ip | ip in PositiveIps(steps, t) ensures ip in KnownIps(last, t) {
      RunKeepsSecure(INITIAL, steps, last, t, ip);
    }
    KnownWasRecorded(INITIAL, steps, last, t);
  }

  // ---- Addresses that can be lost ---------------------------------------------------------------------

  /** What a run records, in order. */
  ghost function Records(steps: seq<Step>): seq<Step> {
    if steps == [] then []
    else (if steps[0].Record? then [steps[0]] else []) + Records(steps[1..])
  }

  lemma {:induction false} RecordsAreTheRecordings(steps: seq<Step>)
    ensures forall e :: e in Records(steps) <==> e in steps && e.Record?
  {
    if steps != [] {
      RecordsAreTheRecordings(steps[1..]);
    }
  }

  ghost predicate AllRecords(steps: seq<Step>) {
    forall e | e in steps :: e.Record?
  }

  ghost predicate AtRest(s: State) {
    s.heap == map[] && s.pending == map[] && s.flights == map[]
  }

  /** One recording followed by a whole flush. */
  lemma {:induction false} RecordAndFlush(s: State, r: Step, steps: seq<Step>, last: State) returns (all: seq<Step>)
    requires AtRest(s) && r.Record?
    requires Run(AfterFlush(s, r), steps, last)
    ensures Run(s, all, last) && Records(all) == [r] + Records(steps)
  {
    var s1 := Next(s, r);
    var s2 := Next(s1, Swap(0));
    assert s1.pending[r.token] == s.next && s.next in s2.flights[0];
    var s3 := Next(s2, Written(0, s.next));
    var s4 := Next(s3, Finish(0));
    assert s4 == AfterFlush(s, r);
    var a3 := [Finish(0)] + steps;
    var a2 := [Written(0, s.next)] + a3;
    var a1 := [Swap(0)] + a2;
    all := [r] + a1;
    assert a3[1..] == steps && a2[1..] == a3 && a1[1..] == a2 && all[1..] == a1;
    assert Run(s3, a3, last) && Run(s2, a2, last) && Run(s1, a1, last);
    assert Records(a3) == Records(steps) && Records(a2) == Records(a3) && Records(a1) == Records(a2);
  }

  ghost function AfterFlush(s: State, r: Step): State
    requires r.Record?
  {
    var batch := Batch(r.token, AddUsage(NO_USAGE, r.count, r.ip));
    s.(next := s.next + 1, written := if r.count == 0 then s.written else s.written + [batch])
  }

  /** An address recorded with a count of zero only is lost when every recording is flushed at once. */
  lemma {:induction false} LosingRun(s: State, records: seq<Step>, t: string, ip: string)
    returns (steps: seq<Step>, last: State)
    requires AtRest(s) && AllRecords(records) && ip !in StoredIps(s.written, t)
    requires forall e | e in records && e.token == t && e.ip == Some(ip) :: e.count == 0
    ensures Run(s, steps, last) && Records(steps) == records && ip !in KnownIps(last, t)
    decreases |records|
  {
    if records == [] {
      steps, last := [], s;
    } else {
      var r := records[0];
      assert AtRest(AfterFlush(s, r));
      steps, last := LosingRun(AfterFlush(s, r), records[1..], t, ip);
      steps := RecordAndFlush(s, r, steps, last);
    }
  }

  ghost predicate KnownInEveryRun(records: seq<Step>, t: string, ip: string) {
    forall steps, last | Run(INITIAL, steps, last) && Records(steps) == records :: ip in KnownIps(last, t)
  }

  /** Counts being zero or more, an address is known after every run exactly if some count it came with is positive. */
  lemma {:induction false} AddressSurvivesExactly(records: seq<Step>, t: string, ip: string)
    requires AllRecords(records) && NoNegative(records)
    ensures KnownInEveryRun(records, t, ip) <==> ip in PositiveIps(records, t)
  {
    if ip in PositiveIps(records, t) {
      forall steps, last | Run(INITIAL, steps, last) && Records(steps) == records ensures ip in KnownIps(last, t) {
        RecordsAreTheRecordings(steps);
        NoAddressLost(steps, last, t);
      }
    } else {
      var steps, last := LosingRun(INITIAL, records, t, ip);
    }
  }
}
