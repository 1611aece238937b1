/** Acknowledgements and the pending gauge, under any interleaving of creations, completions, failures and cleanups. */
module Acks {
  datatype Status = Pending | Success | Failed

  datatype Ack = Ack(status: Status, at: int)

  /**
   * `stamped` holds creations that have read the clock and not yet filed their acknowledgement; `waiting` those that
   * have filed it and not yet incremented the gauge.
   */
  datatype State = State(acks: map<string, Ack>, stamped: map<string, int>, waiting: set<string>, gauge: int, now: int)

  const INITIAL := State(map[], map[], {}, 0, 0)

  datatype Step =
    | Stamp(id: string)
    | Insert(id: string)
    | Increment(id: string)
    | Finish(id: string, status: Status)
    | Cleanup
    | Wait(time: nat)

  /** Identifiers are fresh; Complete finishes with success and Fail with failure. */
  predicate Enabled(s: State, e: Step) {
    match e
    case Stamp(id) => id !in s.acks && id !in s.stamped && id !in s.waiting
    case Insert(id) => id in s.stamped && id !in s.acks && id !in s.waiting
    case Increment(id) => id in s.waiting
    case Finish(_, status) => status != Pending
    case _ => true
  }

  function Next(s: State, ttl: nat, e: Step): State {
    match e
    case Stamp(id) => s.(stamped := s.stamped[id := s.now])
    case Insert(id) =>
      if id in s.stamped then
        s.(acks := s.acks[id := Ack(Pending, s.stamped[id])], stamped := s.stamped - {id}, waiting := s.waiting + {id})
      else s
    case Increment(id) => s.(waiting := s.waiting - {id}, gauge := s.gauge + 1)
    case Finish(id, status) =>
      if id in s.acks then s.(acks := s.acks[id := Ack(status, s.now)], gauge := s.gauge - 1) else s
    case Cleanup =>
      s.(acks := Recent(s.acks, s.now - ttl),
           gauge := s.gauge - |PendingIds(s.acks) - PendingIds(Recent(s.acks, s.now - ttl))|)
    case Wait(t) => s.(now := s.now + t)
  }

  function Recent(acks: map<string, Ack>, cutoff: int): map<string, Ack> {
    map id | id in acks && !(acks[id].at < cutoff) :: acks[id]
  }

  function PendingIds(acks: map<string, Ack>): set<string> {
    set id | id in acks && acks[id].status == Pending
  }

  /** GetPending */
  function PendingCount(s: State): nat {
    |PendingIds(s.acks)|
  }

  ghost predicate Run(s: State, ttl: nat, steps: seq<Step>, last: State)
    decreases |steps|
  {
    if steps == [] then s == last
    else Enabled(s, steps[0]) && Run(Next(s, ttl, steps[0]), ttl, steps[1..], last)
  }

  /** The step finishes an acknowledgement that is filed and already final. */
  predicate FinishesAgain(s: State, e: Step) {
    e.Finish? && e.id in s.acks && s.acks[e.id].status != Pending
  }

  ghost function Repeats(s: State, ttl: nat, steps: seq<Step>): nat
    decreases |steps|
  {
    if steps == [] then 0
    else (if FinishesAgain(s, steps[0]) then 1 else 0) + Repeats(Next(s, ttl, steps[0]), ttl, steps[1..])
  }

  // ---- The gauge -------------------------------------------------------------------------------

  ghost function Gap(s: State): int {
    PendingCount(s) - |s.waiting| - s.gauge
  }

  lemma {:induction false} PendingAfter(acks: map<string, Ack>, id: string, a: Ack)
    ensures PendingIds(acks[id := a]) ==
            if a.status == Pending then PendingIds(acks) + {id} else PendingIds(acks) - {id}
  {}

  lemma {:induction false} PendingAfterCleanup(acks: map<string, Ack>, cutoff: int)
    ensures |PendingIds(Recent(acks, cutoff))| ==
            |PendingIds(acks)| - |PendingIds(acks) - PendingIds(Recent(acks, cutoff))|
  {
    var before, after := PendingIds(acks), PendingIds(Recent(acks, cutoff));
    assert before == after + (before - after) && after !! before - after;
  }

  lemma {:induction false} StepMovesGap(s: State, ttl: nat, e: Step)
    requires Enabled(s, e)
    ensures Gap(Next(s, ttl, e)) == Gap(s) + if FinishesAgain(s, e) then 1 else 0
  {
    match e
    case Insert(id) => PendingAfter(s.acks, id, Ack(Pending, s.stamped[id]));
    case Finish(id, status) => PendingAfter(s.acks, id, Ack(status, s.now));
    case Cleanup => PendingAfterCleanup(s.acks, s.now - ttl);
    case _ =>
  }

  lemma {:induction false} RunMovesGap(s: State, ttl: nat, steps: seq<Step>, last: State)
    requires Run(s, ttl, steps, last)
    ensures Gap(last) == Gap(s) + Repeats(s, ttl, steps)
    decreases |steps|
  {
    if steps != [] {
      StepMovesGap(s, ttl, steps[0]);
      RunMovesGap(Next(s, ttl, steps[0]), ttl, steps[1..], last);
    }
  }

  /**
   * In every run the gauge falls short of GetPending by the creations between filing and incrementing, and by the
   * completions and failures of acknowledgements that were final already; it is right exactly when there are none.
   */
  lemma {:induction false} GaugeExactly(ttl: nat, steps: seq<Step>, last: State)
    requires Run(INITIAL, ttl, steps, last)
    ensures last.gauge == PendingCount(last) - |last.waiting| - Repeats(INITIAL, ttl, steps)
    ensures last.gauge == PendingCount(last) <==> last.waiting == {} && Repeats(INITIAL, ttl, steps) == 0
  {
    assert PendingIds(map[]) == {};
    RunMovesGap(INITIAL, ttl, steps, last);
  }

  predicate Finalises(e: Step, id: string) {
    e.Finish? && e.id == id
  }

  predicate FinalisedOnce(steps: seq<Step>) {
    forall i, j | 0 <= i < j < |steps| && steps[i].Finish? :: !Finalises(steps[j], steps[i].id)
  }

  /** `done` has every identifier whose acknowledgement is filed as final. */
  ghost predicate FinalAmong(s: State, done: set<string>) {
    forall id | id in s.acks && s.acks[id].status != Pending :: id in done
  }

  lemma {:induction false} OnceMeansNoRepeats(s: State, ttl: nat, steps: seq<Step>, last: State, done: set<string>)
    requires Run(s, ttl, steps, last) && FinalisedOnce(steps) && FinalAmong(s, done)
    requires forall e | e in steps && e.Finish? :: e.id !in done
    ensures Repeats(s, ttl, steps) == 0
    decreases |steps|
  {
    if steps != [] {
      var e, rest := steps[0], steps[1..];
      assert e in steps && forall x | x in rest :: x in steps;
      var now := if e.Finish? then done + {e.id} else done;
      forall x | x in rest && x.Finish? ensures x.id !in now {
        var j :| 0 <= j < |rest| && rest[j] == x;
        assert steps[j + 1] == x;
        assert e.Finish? ==> !Finalises(steps[j + 1], steps[0].id);
      }
      assert FinalisedOnce(rest) by {
        forall i, j | 0 <= i < j < |rest| && rest[i].Finish? ensures !Finalises(rest[j], rest[i].id) {
          assert rest[i] == steps[i + 1] && rest[j] == steps[j + 1];
        }
      }
      OnceMeansNoRepeats(Next(s, ttl, e), ttl, rest, last, now);
    }
  }

  /** When every identifier is finished at most once and no creation is half way, the gauge is GetPending. */
  lemma {:induction false} GaugeIsPending(ttl: nat, steps: seq<Step>, last: State)
    requires Run(INITIAL, ttl, steps, last) && FinalisedOnce(steps) && last.waiting == {}
    ensures last.gauge == PendingCount(last)
  {
    OnceMeansNoRepeats(INITIAL, ttl, steps, last, {});
    GaugeExactly(ttl, steps, last);
  }

  // ---- Cleanup -----------------------------------------------------------------------------------

  /** An acknowledgement touched at `at` is still filed as long as the clock has not passed `at` plus the ttl. */
  lemma {:induction false} KeptWithinTtl(s: State, ttl: nat, steps: seq<Step>, last: State, id: string)
    requires id in s.acks && s.acks[id].at <= s.now && Run(s, ttl, steps, last)
    ensures s.now <= last.now
    ensures last.now <= s.acks[id].at + ttl ==>
            && id in last.acks && s.acks[id].at <= last.acks[id].at
            && (s.acks[id].status != Pending ==> last.acks[id].status != Pending)
    decreases |steps|
  {
    if steps != [] {
      var n := Next(s, ttl, steps[0]);
      ClockRuns(n, ttl, steps[1..], last);
      if id in n.acks {
        KeptWithinTtl(n, ttl, steps[1..], last, id);
      }
    }
  }

  lemma {:induction false} ClockRuns(s: State, ttl: nat, steps: seq<Step>, last: State)
    requires Run(s, ttl, steps, last)
    ensures s.now <= last.now
    decreases |steps|
  {
    if steps != [] { ClockRuns(Next(s, ttl, steps[0]), ttl, steps[1..], last); }
  }

  /** What is left was last touched no longer than the ttl ago, and is all of that, unchanged. */
  ghost predicate LeavesRecent(before: map<string, Ack>, after: map<string, Ack>, now: int, ttl: nat) {
    && (forall id :: id in after <==> id in before && now - before[id].at <= ttl)
    && (forall id | id in after :: after[id] == before[id])
  }

  /** A cleanup removes exactly what was last touched longer than the ttl ago, and changes nothing else filed. */
  lemma {:induction false} CleanupExactly(s: State, ttl: nat)
    ensures var n := Next(s, ttl, Cleanup);
            && LeavesRecent(s.acks, n.acks, s.now, ttl)
            && n.stamped == s.stamped && n.waiting == s.waiting && n.now == s.now
  {}

  // ---- What an acknowledgement says ----------------------------------------------------------------

  /** The last step of a run, and the state before it. */
  lemma {:induction false} LastStep(s: State, ttl: nat, steps: seq<Step>, last: State) returns (mid: State)
    requires steps != [] && Run(s, ttl, steps, last)
    ensures Run(s, ttl, steps[..|steps| - 1], mid)
    ensures Enabled(mid, steps[|steps| - 1]) && last == Next(mid, ttl, steps[|steps| - 1])
    decreases |steps|
  {
    if |steps| == 1 {
      mid := s;
    } else {
      mid := LastStep(Next(s, ttl, steps[0]), ttl, steps[1..], last);
      assert steps[1..][..|steps| - 2] == steps[..|steps| - 1][1..];
    }
  }

  /** No call finishes `id` from step i on. */
  predicate Unfinished(steps: seq<Step>, i: nat, id: string) {
    forall j | i <= j < |steps| :: !Finalises(steps[j], id)
  }

  /**
   * Step i filed `id` and none filed it again; the status is the one of the last call that finished it since, and
   * pending if there is none.
   */
  ghost predicate AsCalled(steps: seq<Step>, i: nat, id: string, status: Status) {
    && i < |steps| && steps[i] == Insert(id) && (forall j | i < j < |steps| :: steps[j] != Insert(id))
    && if status == Pending then Unfinished(steps, i + 1, id)
       else exists j | i < j < |steps| :: steps[j] == Finish(id, status) && Unfinished(steps, j + 1, id)
  }

  lemma {:induction false} OneMoreCall(steps: seq<Step>, e: Step, i: nat, id: string, status: Status)
    requires AsCalled(steps, i, id, status) && e != Insert(id) && (e.Finish? ==> e.status != Pending)
    ensures AsCalled(steps + [e], i, id, if Finalises(e, id) then e.status else status)
  {
    var all := steps + [e];
    assert forall j | 0 <= j < |steps| :: all[j] == steps[j];
    if Finalises(e, id) {
      assert all[|steps|] == Finish(id, e.status) && Unfinished(all, |steps| + 1, id);
    } else if status != Pending {
      var j: nat :| i < j < |steps| && steps[j] == Finish(id, status) && Unfinished(steps, j + 1, id);
      assert all[j] == Finish(id, status) && Unfinished(all, j + 1, id);
    }
  }

  /** Over every run a filed acknowledgement says what the calls for it said last. */
  lemma {:induction false} StatusIsAsCalled(ttl: nat, steps: seq<Step>, last: State, id: string) returns (i: nat)
    requires Run(INITIAL, ttl, steps, last) && id in last.acks
    ensures AsCalled(steps, i, id, last.acks[id].status)
    decreases |steps|
  {
    var n := |steps| - 1;
    var mid := LastStep(INITIAL, ttl, steps, last);
    var init, e := steps[..n], steps[n];
    assert steps == init + [e];
    if e == Insert(id) {
      i := n;
    } else {
      i := StatusIsAsCalled(ttl, init, mid, id);
      OneMoreCall(init, e, i, id, mid.acks[id].status);
    }
  }
}
