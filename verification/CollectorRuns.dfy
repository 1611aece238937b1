/**
 * The usage collector under any interleaving: recorders, any number of flushes side by side (the
 * flush loop and every FlushNow), writes that succeed and writes that fail and are merged back. One
 * step is what happens between taking and releasing the collector's lock, or one write to the store.
 */
module CollectorRuns {
  import opened HecCollector
  import opened HecStore
  import opened HecUsage
  import opened Wrappers

  datatype Batch = Batch(token: string, usage: Usage)

  /**
   * `heap` holds the batches that exist, by identity; `pending` is the collector's map; `flights` holds, for
   * every flush under way, the batches it has taken and not dealt with; `written` lists the batches that
   * reached the store.
   */
  datatype State = State(heap: map<nat, Batch>, next: nat, pending: map<string, nat>, flights: map<nat, set<nat>>,
                         written: seq<Batch>)

  const INITIAL := State(map[], 0, map[], map[], [])

  datatype Step =
    | Record(token: string, count: int, ip: Option<string>)
    | Swap(flush: nat)
    | Written(flush: nat, batch: nat)
    | MergedBack(flush: nat, batch: nat)
    | Finish(flush: nat)

  ghost predicate Enabled(s: State, e: Step) {
    match e
    case Record(_, _, _) => true
    case Swap(f) => f !in s.flights
    case Written(f, b) => f in s.flights && b in s.flights[f] && b in s.heap
    case MergedBack(f, b) => f in s.flights && b in s.flights[f] && b in s.heap && s.heap[b].usage.count != 0
    case Finish(f) => f in s.flights && s.flights[f] == {}
  }

  ghost function Next(s: State, e: Step): State
    requires Enabled(s, e)
  {
    match e
    case Record(t, n, ip) =>
      if t in s.pending && s.pending[t] in s.heap then
        var b := s.pending[t];
        s.(heap := s.heap[b := s.heap[b].(usage := AddUsage(s.heap[b].usage, n, ip))])
      else
        s.(heap := s.heap[s.next := Batch(t, AddUsage(NO_USAGE, n, ip))], pending := s.pending[t := s.next],
           next := s.next + 1)
    case Swap(f) => s.(flights := s.flights[f := s.pending.Values], pending := map[])
    case Written(f, b) =>
      var batch := s.heap[b];
      s.(heap := s.heap - {b}, flights := s.flights[f := s.flights[f] - {b}],
         written := if batch.usage.count == 0 then s.written else s.written + [batch])
    case MergedBack(f, b) =>
      var batch := s.heap[b];
      var s := s.(flights := s.flights[f := s.flights[f] - {b}]);
      if batch.token in s.pending && s.pending[batch.token] in s.heap then
        var e := s.pending[batch.token];
        s.(heap := s.heap[e := s.heap[e].(usage := MergeUsage(s.heap[e].usage, batch.usage))] - {b})
      else
        s.(pending := s.pending[batch.token := b])
    case Finish(f) => s.(flights := s.flights - {f})
  }

  ghost predicate Run(s: State, steps: seq<Step>, last: State)
    decreases |steps|
  {
    if steps == [] then s == last
    else Enabled(s, steps[0]) && Run(Next(s, steps[0]), steps[1..], last)
  }

  // ---- Ownership -------------------------------------------------------------------------------

  /** The collector's map owns `b`. */
  ghost predicate Kept(s: State, b: nat) {
    b in s.heap && s.heap[b].token in s.pending && s.pending[s.heap[b].token] == b
  }

  /** Flush `f` owns `b`. */
  ghost predicate Taken(s: State, f: nat, b: nat) {
    f in s.flights && b in s.flights[f]
  }

  ghost predicate InFlight(s: State, b: nat) {
    exists f :: Taken(s, f, b)
  }

  ghost predicate Homed(s: State) {
    forall b | b in s.heap :: b < s.next && (Kept(s, b) || InFlight(s, b))
  }

  ghost predicate Tagged(s: State) {
    forall t | t in s.pending :: s.pending[t] in s.heap && s.heap[s.pending[t]].token == t
  }

  ghost predicate Separate(s: State) {
    && (forall f, b | Taken(s, f, b) :: b in s.heap && !Kept(s, b))
    && (forall f, g, b | Taken(s, f, b) && Taken(s, g, b) :: f == g)
  }

  /** Every batch has exactly one owner: the collector's map, under the batch's own token, or one flush. */
  ghost predicate Owned(s: State) {
    Homed(s) && Tagged(s) && Separate(s)
  }

  /** What a step may do to the flights: leave them, or take one batch out of one of them. */
  ghost predicate TakesOut(s: State, n: State, f: nat, b: nat) {
    forall g, c :: Taken(n, g, c) <==> Taken(s, g, c) && !(g == f && c == b)
  }

  lemma {:induction false} StillInFlight(s: State, n: State, f: nat, b: nat, c: nat)
    requires TakesOut(s, n, f, b) && c != b && InFlight(s, c)
    ensures InFlight(n, c)
  {
    var g :| Taken(s, g, c);
    assert Taken(n, g, c);
  }

  lemma {:induction false} RecordKeepsOwned(s: State, e: Step)
    requires Owned(s) && e.Record?
    ensures Owned(Next(s, e))
  {
    var n := Next(s, e);
    assert forall g, c :: Taken(n, g, c) == Taken(s, g, c);
    assert Tagged(n);
    forall b | b in n.heap ensures b < n.next && (Kept(n, b) || InFlight(n, b)) {
      if b in s.heap && InFlight(s, b) {
        var g :| Taken(s, g, b);
        assert Taken(n, g, b);
      } else if b in s.heap {
        assert Kept(s, b);
      }
    }
    forall f, b | Taken(n, f, b) ensures b in n.heap && !Kept(n, b) {
      assert Taken(s, f, b);
    }
  }

  lemma {:induction false} SwapKeepsOwned(s: State, e: Step)
    requires Owned(s) && e.Swap? && Enabled(s, e)
    ensures Owned(Next(s, e))
  {
    var n := Next(s, e);
    forall g, c ensures Taken(n, g, c) <==> if g == e.flush then Kept(s, c) else Taken(s, g, c) {
      if Kept(s, c) { assert c in s.pending.Values; }
    }
    forall b | b in n.heap ensures b < n.next && InFlight(n, b) {
      if Kept(s, b) {
        assert Taken(n, e.flush, b);
      } else {
        var g :| Taken(s, g, b);
        assert Taken(n, g, b);
      }
    }
  }

  lemma {:induction false} WrittenKeepsOwned(s: State, e: Step)
    requires Owned(s) && e.Written? && Enabled(s, e)
    ensures Owned(Next(s, e))
  {
    var n := Next(s, e);
    assert Taken(s, e.flush, e.batch);
    assert TakesOut(s, n, e.flush, e.batch);
    assert forall b | b in n.heap :: Kept(n, b) == Kept(s, b);
    forall b | b in n.heap ensures b < n.next && (Kept(n, b) || InFlight(n, b)) {
      if !Kept(s, b) { StillInFlight(s, n, e.flush, e.batch, b); }
    }
    forall f, b | Taken(n, f, b) ensures b in n.heap && !Kept(n, b) {
      assert Taken(s, f, b);
    }
  }

  lemma {:induction false} MergeKeepsOwned(s: State, e: Step)
    requires Owned(s) && e.MergedBack? && Enabled(s, e)
    ensures Owned(Next(s, e))
  {
    var n, t := Next(s, e), s.heap[e.batch].token;
    assert Taken(s, e.flush, e.batch);
    assert TakesOut(s, n, e.flush, e.batch);
    assert Tagged(n);
    assert forall b | b in n.heap :: b in s.heap && n.heap[b].token == s.heap[b].token;
    assert forall b | b in n.heap && b != e.batch :: Kept(n, b) == Kept(s, b);
    forall b | b in n.heap ensures b < n.next && (Kept(n, b) || InFlight(n, b)) {
      if b != e.batch && !Kept(s, b) { StillInFlight(s, n, e.flush, e.batch, b); }
    }
    forall f, b | Taken(n, f, b) ensures b in n.heap && !Kept(n, b) {
      assert Taken(s, f, b);
    }
  }

  lemma {:induction false} StepKeepsOwned(s: State, e: Step)
    requires Owned(s) && Enabled(s, e)
    ensures Owned(Next(s, e))
  {
    match e
    case Record(_, _, _) => RecordKeepsOwned(s, e);
    case Swap(_) => SwapKeepsOwned(s, e);
    case Written(_, _) => WrittenKeepsOwned(s, e);
    case MergedBack(_, _) => MergeKeepsOwned(s, e);
    case Finish(f) => FinishKeepsOwned(s, e);
  }

  lemma {:induction false} FinishKeepsOwned(s: State, e: Step)
    requires Owned(s) && e.Finish? && Enabled(s, e)
    ensures Owned(Next(s, e))
  {
    var n := Next(s, e);
    assert TakesOut(s, n, e.flush, s.next);
    forall b | b in n.heap ensures b < n.next && (Kept(n, b) || InFlight(n, b)) {
      if !Kept(s, b) { StillInFlight(s, n, e.flush, s.next, b); }
    }
    forall f, b | Taken(n, f, b) ensures b in n.heap && !Kept(n, b) {
      assert Taken(s, f, b);
    }
  }

  // ---- Conservation ----------------------------------------------------------------------------

  ghost function Share(heap: map<nat, Batch>, b: nat, t: string): int {
    if b in heap && heap[b].token == t then heap[b].usage.count else 0
  }

  /** The counts that batches with an identity below `n` hold for token `t`. */
  ghost function Held(heap: map<nat, Batch>, n: nat, t: string): int {
    if n == 0 then 0 else Held(heap, n - 1, t) + Share(heap, n - 1, t)
  }

  ghost function HeldIps(heap: map<nat, Batch>, t: string): set<string> {
    set b, ip | b in heap && heap[b].token == t && ip in heap[b].usage.ips :: ip
  }

  ghost function Stored(written: seq<Batch>, t: string): int {
    if written == [] then 0
    else var b := written[|written| - 1];
         Stored(written[..|written| - 1], t) + if b.token == t then b.usage.count else 0
  }

  ghost function StoredIps(written: seq<Batch>, t: string): set<string> {
    set b, ip | b in written && b.token == t && ip in b.usage.ips :: ip
  }

  ghost function Recorded(steps: seq<Step>, t: string): int {
    if steps == [] then 0
    else Recorded(steps[1..], t) + if steps[0].Record? && steps[0].token == t then steps[0].count else 0
  }

  ghost function RecordedIps(steps: seq<Step>, t: string): set<string> {
    set e | e in steps && e.Record? && e.token == t && e.ip.Some? :: e.ip.value
  }

  /** Everything known for `t`: in the store or in some batch. */
  ghost function Known(s: State, t: string): int {
    Stored(s.written, t) + Held(s.heap, s.next, t)
  }

  ghost function KnownIps(s: State, t: string): set<string> {
    StoredIps(s.written, t) + HeldIps(s.heap, t)
  }

  lemma {:induction false} HeldAgrees(h: map<nat, Batch>, k: map<nat, Batch>, n: nat, t: string)
    requires forall j: nat | j < n :: Share(h, j, t) == Share(k, j, t)
    ensures Held(h, n, t) == Held(k, n, t)
  {
    if n > 0 { HeldAgrees(h, k, n - 1, t); }
  }

  lemma {:induction false} HeldDiffersAt(h: map<nat, Batch>, k: map<nat, Batch>, n: nat, b: nat, t: string)
    requires b < n && forall j: nat | j < n && j != b :: Share(h, j, t) == Share(k, j, t)
    ensures Held(k, n, t) - Held(h, n, t) == Share(k, b, t) - Share(h, b, t)
  {
    if b == n - 1 {
      HeldAgrees(h, k, n - 1, t);
    } else {
      HeldDiffersAt(h, k, n - 1, b, t);
    }
  }

  lemma {:induction false} RecordAdds(s: State, e: Step, t: string)
    requires Owned(s) && e.Record?
    ensures Known(Next(s, e), t) == Known(s, t) + if e.token == t then e.count else 0
  {
    var n := Next(s, e);
    if e.token in s.pending {
      HeldDiffersAt(s.heap, n.heap, s.next, s.pending[e.token], t);
    } else {
      HeldAgrees(s.heap, n.heap, s.next, t);
    }
  }

  lemma {:induction false} WrittenMoves(s: State, e: Step, t: string)
    requires Owned(s) && e.Written? && Enabled(s, e)
    ensures Known(Next(s, e), t) == Known(s, t)
  {
    var n := Next(s, e);
    HeldDiffersAt(s.heap, n.heap, s.next, e.batch, t);
    if n.written != s.written {
      assert n.written[..|n.written| - 1] == s.written;
    }
  }

  lemma {:induction false} MergeMoves(s: State, e: Step, t: string)
    requires Owned(s) && e.MergedBack? && Enabled(s, e)
    ensures Known(Next(s, e), t) == Known(s, t)
  {
    var n, u := Next(s, e), s.heap[e.batch].token;
    if u in s.pending {
      var to := s.pending[u];
      assert Taken(s, e.flush, e.batch) && to != e.batch;
      var merged := s.heap[to := n.heap[to]];
      HeldDiffersAt(s.heap, merged, s.next, to, t);
      HeldDiffersAt(merged, n.heap, s.next, e.batch, t);
    }
  }

  lemma {:induction false} StepConserves(s: State, e: Step, t: string)
    requires Owned(s) && Enabled(s, e)
    ensures Known(Next(s, e), t) == Known(s, t) + if e.Record? && e.token == t then e.count else 0
  {
    match e
    case Record(_, _, _) => RecordAdds(s, e, t);
    case Written(_, _) => WrittenMoves(s, e, t);
    case MergedBack(_, _) => MergeMoves(s, e, t);
    case _ =>
  }

  lemma {:induction false} RunConserves(s: State, steps: seq<Step>, last: State, t: string)
    requires Owned(s) && Run(s, steps, last)
    ensures Owned(last) && Known(last, t) == Known(s, t) + Recorded(steps, t)
    decreases |steps|
  {
    if steps != [] {
      StepKeepsOwned(s, steps[0]);
      StepConserves(s, steps[0], t);
      RunConserves(Next(s, steps[0]), steps[1..], last, t);
    }
  }

  // ---- Where the recorded counts are ---------------------------------------------------------------

  /** The collector's map as its methods see it. */
  ghost function PendingOf(s: State): Pending
    requires Tagged(s)
  {
    map t | t in s.pending :: s.heap[s.pending[t]].usage
  }

  /** The batches taken by flushes that are still under way. */
  ghost function Flying(s: State): map<nat, Batch> {
    map b | b in s.heap && !Kept(s, b) :: s.heap[b]
  }

  ghost function Home(s: State): map<nat, Batch> {
    map b | b in s.heap && Kept(s, b) :: s.heap[b]
  }

  lemma {:induction false} HeldSplits(s: State, n: nat, t: string)
    ensures Held(s.heap, n, t) == Held(Home(s), n, t) + Held(Flying(s), n, t)
  {
    if n > 0 { HeldSplits(s, n - 1, t); }
  }

  lemma {:induction false} HeldNothing(h: map<nat, Batch>, n: nat, t: string)
    requires forall b: nat | b < n :: Share(h, b, t) == 0
    ensures Held(h, n, t) == 0
  {
    if n > 0 { HeldNothing(h, n - 1, t); }
  }

  lemma {:induction false} HomeIsPending(s: State, t: string)
    requires Owned(s)
    ensures Held(Home(s), s.next, t) == PendingCount(PendingOf(s), t)
  {
    if t in s.pending {
      var b := s.pending[t];
      HeldDiffersAt(map[], Home(s), s.next, b, t);
      HeldNothing(map[], s.next, t);
    } else {
      HeldNothing(Home(s), s.next, t);
    }
  }

  /**
   * Whatever the interleaving, what was recorded for a token is exactly what the store has, what waits in the
   * collector and what flushes still hold; and every batch has one owner.
   */
  lemma {:induction false} NothingLostOrDoubled(steps: seq<Step>, last: State, t: string)
    requires Run(INITIAL, steps, last)
    ensures Owned(last) && forall b :: b in Flying(last) <==> InFlight(last, b)
    ensures Recorded(steps, t) ==
            Stored(last.written, t) + PendingCount(PendingOf(last), t) + Held(Flying(last), last.next, t)
  {
    RunConserves(INITIAL, steps, last, t);
    HeldSplits(last, last.next, t);
    HomeIsPending(last, t);
  }

  /** Once nothing is accumulated and no flush is under way, the store has everything. */
  lemma {:induction false} QuietMeansStored(steps: seq<Step>, last: State, t: string)
    requires Run(INITIAL, steps, last)
    requires last.pending == map[] && forall f | f in last.flights :: last.flights[f] == {}
    ensures Stored(last.written, t) == Recorded(steps, t)
  {
    NothingLostOrDoubled(steps, last, t);
    assert forall b :: !InFlight(last, b);
    HeldNothing(Flying(last), last.next, t);
  }

  /** `log` is the store's history of the batches written. */
  ghost predicate Logged(written: seq<Batch>, log: seq<Write>) {
    |log| == |written| &&
    forall i | 0 <= i < |log| ::
      log[i].token == written[i].token && log[i].count == written[i].usage.count && log[i].ips == written[i].usage.ips
  }

  lemma {:induction false} LoggedCounts(written: seq<Batch>, log: seq<Write>, t: string)
    requires Logged(written, log)
    ensures CountAll(log, t) == Stored(written, t)
  {
    if log != [] { LoggedCounts(written[..|log| - 1], log[..|log| - 1], t); }
  }

  /** From Record to GetStats: when all is quiet, the total a token's statistics report is what was recorded for it. */
  lemma {:induction false} QuietMeansReported(steps: seq<Step>, last: State, log: seq<Write>, t: string)
    requires Run(INITIAL, steps, last) && Logged(last.written, log)
    requires last.pending == map[] && forall f | f in last.flights :: last.flights[f] == {}
    ensures CountAll(log, t) == Recorded(steps, t)
  {
    QuietMeansStored(steps, last, t);
    LoggedCounts(last.written, log, t);
  }

  /** The steps under the lock are what the collector's methods do. */
  lemma {:induction false} StepsAreTheMethods(s: State, e: Step)
    requires Owned(s) && Enabled(s, e)
    ensures Owned(Next(s, e))
    ensures PendingOf(Next(s, e)) ==
            match e {
              case Record(t, n, ip) => RecordUsage(PendingOf(s), t, n, ip)
              case Swap(_) => map[]
              case MergedBack(_, b) => MergeBackUsage(PendingOf(s), s.heap[b].token, s.heap[b].usage)
              case _ => PendingOf(s)
            }
  {
    StepKeepsOwned(s, e);
    if e.Written? {
      assert Taken(s, e.flush, e.batch);
      assert forall t | t in s.pending :: Kept(s, s.pending[t]);
    } else if e.MergedBack? {
      MergeIsMergeBack(s, e);
    }
  }

  lemma {:induction false} MergeIsMergeBack(s: State, e: Step)
    requires Owned(s) && Enabled(s, e) && e.MergedBack? && Owned(Next(s, e))
    ensures PendingOf(Next(s, e)) == MergeBackUsage(PendingOf(s), s.heap[e.batch].token, s.heap[e.batch].usage)
  {
    assert Taken(s, e.flush, e.batch);
    assert forall t | t in s.pending :: Kept(s, s.pending[t]);
  }
}
