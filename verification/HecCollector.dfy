/** The HEC usage collector: its methods between taking and releasing the lock, and one undisturbed flush. */
module HecCollector {
  import opened HecStore
  import opened HecUsage
  import opened Wrappers

  type Pending = map<string, Usage>

  ghost function RecordUsage(p: Pending, token: string, n: int, ip: Option<string>): Pending {
    p[token := AddUsage(if token in p then p[token] else NO_USAGE, n, ip)]
  }

  ghost function MergeBackUsage(p: Pending, token: string, failed: Usage): Pending {
    p[token := if token in p then MergeUsage(p[token], failed) else failed]
  }

  class Collector {
    var batches: map<string, BatchUpdate>

    ghost predicate Valid()
      reads this, batches.Values
    {
      forall t | t in batches :: batches[t].tokenId == t
    }

    ghost function View(): Pending
      reads this, batches.Values
    {
      map t | t in batches :: batches[t].View()
    }

    constructor ()
      ensures Valid() && View() == map[]
    {
      batches := map[];
    }

    method Record(token: string, n: int, ip: Option<string>)
      requires Valid()
      modifies this, batches.Values
      ensures Valid() && View() == RecordUsage(old(View()), token, n, ip)
      ensures fresh(batches.Values - old(batches.Values))
    {
      if token !in batches {
        var created := new BatchUpdate(token);
        batches := batches[token := created];
      }
      var batch := batches[token];
      batch.Add(n, ip);
    }

    /** The first half of flush: the accumulated batches are handed over and a fresh map takes their place. */
    method SwapOut() returns (taken: map<string, BatchUpdate>)
      requires Valid()
      modifies this
      ensures taken == old(batches) && batches == map[] && Valid() && View() == map[]
    {
      taken := batches;
      batches := map[];
    }

    /** A batch that could not be written goes back among the accumulated ones. */
    method MergeBack(batch: BatchUpdate)
      requires Valid() && batch !in batches.Values
      modifies this, batches.Values
      ensures Valid() && View() == MergeBackUsage(old(View()), batch.tokenId, old(batch.View()))
      ensures batches.Values <= old(batches.Values) + {batch} && batch.View() == old(batch.View())
      ensures forall t | t in old(batches) && t != batch.tokenId :: t in batches && batches[t] == old(batches[t])
      ensures forall b: BatchUpdate | b in old(batches.Values) && b.tokenId != batch.tokenId ::
        b.View() == old(b.View())
    {
      if batch.tokenId in batches {
        var existing := batches[batch.tokenId];
        existing.eventCount := existing.eventCount + batch.eventCount;
        existing.clientIps := existing.clientIps + batch.clientIps;
        if batch.lastIp.Some? {
          existing.lastIp := batch.lastIp;
        }
      } else {
        batches := batches[batch.tokenId := batch];
      }
    }

    /** Stats: the accumulated counts. */
    method Stats() returns (stats: map<string, int>)
      requires Valid()
      ensures stats == map t | t in View() :: View()[t].count
    {
      stats := map t | t in batches :: batches[t].eventCount;
    }

    /** One round of the flush loop: the batch is written, or it goes back. */
    method FlushOne(batch: BatchUpdate, store: UsageStore, now: int, fails: bool)
      requires Valid() && store.Valid() && batch !in batches.Values && batch.tokenId !in batches
      modifies this, batches.Values, store
      ensures Valid() && batches.Values <= old(batches.Values) + {batch}
      ensures batch.View() == old(batch.View())
      ensures forall b: BatchUpdate | b in old(batches.Values) :: b.View() == old(b.View())
      ensures View() ==
              if fails && batch.eventCount != 0 then old(View())[batch.tokenId := batch.View()] else old(View())
      ensures store.Valid()
      ensures store.log == old(store.log) + if fails then [] else WritesOf(batch.tokenId, batch.View(), now)
    {
      var ok := store.FlushBatch(batch, now, fails);
      if !ok {
        MergeBack(batch);
      }
    }

    /**
     * A whole flush without interference: what could not be written stays accumulated as it was,
     * and everything else is written once.
     */
    method Flush(store: UsageStore, clock: string -> int, fails: string -> bool)
      requires Valid() && store.Valid()
      modifies this, batches.Values, store
      ensures Valid() && View() == Unwritten(old(View()), old(View()).Keys, fails) && store.Valid()
      ensures old(store.log) <= store.log
      ensures Flushed(old(View()), old(View()).Keys, clock, fails, store.log[|old(store.log)|..])
    {
      ghost var before := View();
      var taken := SwapOut();
      FlushTaken(taken, before, store, clock, fails);
    }

    /** Its loop over the batches taken. */
    method FlushTaken(taken: map<string, BatchUpdate>, ghost before: Pending, store: UsageStore, clock: string -> int,
                      fails: string -> bool)
      requires Valid() && store.Valid() && batches == map[] && taken.Keys == before.Keys
      requires forall t | t in taken :: taken[t].tokenId == t && taken[t].View() == before[t]
      modifies this, taken.Values, store
      ensures Valid() && View() == Unwritten(before, before.Keys, fails) && store.Valid()
      ensures old(store.log) <= store.log
      ensures Flushed(before, before.Keys, clock, fails, store.log[|old(store.log)|..])
    {
      var rest := taken.Keys;
      ghost var done, wrote: seq<Write> := {}, [];
      assert View() == Unwritten(before, done, fails);
      while rest != {}
        invariant Valid() && store.Valid() && done !! rest && done + rest == taken.Keys
        invariant batches.Values <= taken.Values
        invariant forall t | t in rest :: taken[t].View() == before[t]
        invariant View() == Unwritten(before, done, fails)
        invariant store.log == old(store.log) + wrote && Flushed(before, done, clock, fails, wrote)
        decreases rest
      {
        var t :| t in rest;
        wrote := FlushNext(taken[t], before, done, store, clock, fails, wrote);
        rest, done := rest - {t}, done + {t};
      }
      assert done == before.Keys;
    }

    /** One of its turns; `wrote` is what the turns so far have written. */
    method FlushNext(batch: BatchUpdate, ghost before: Pending, ghost done: set<string>, store: UsageStore,
                     clock: string -> int, fails: string -> bool, ghost wrote: seq<Write>)
      returns (ghost nowWrote: seq<Write>)
      requires Valid() && store.Valid()
      requires batch.tokenId in before && batch.tokenId !in done && batch.View() == before[batch.tokenId]
      requires View() == Unwritten(before, done, fails) && Flushed(before, done, clock, fails, wrote)
      modifies this, batches.Values, store
      ensures Valid() && store.Valid() && batches.Values <= old(batches.Values) + {batch}
      ensures forall b: BatchUpdate | b in old(batches.Values) :: b.View() == old(b.View())
      ensures View() == Unwritten(before, done + {batch.tokenId}, fails)
      ensures Flushed(before, done + {batch.tokenId}, clock, fails, nowWrote)
      ensures exists more :: nowWrote == wrote + more && store.log == old(store.log) + more
    {
      var t := batch.tokenId;
      OneMore(before, done, clock, fails, wrote, t);
      FlushOne(batch, store, clock(t), fails(t));
      ghost var more := if fails(t) then [] else WritesOf(t, before[t], clock(t));
      nowWrote := wrote + more;
    }
  }

  /** What one batch puts into the store's history. */
  ghost function WritesOf(token: string, u: Usage, now: int): seq<Write> {
    if u.count == 0 then [] else [Write(token, u.count, u.ips, now)]
  }

  /** The batches of `done` that could not be written. */
  ghost function Unwritten(p: Pending, done: set<string>, fails: string -> bool): Pending {
    map t | t in p && t in done && fails(t) && p[t].count != 0 :: p[t]
  }

  /** The history written for `done`: each batch that did not fail once, and nothing else. */
  ghost predicate Flushed(p: Pending, done: set<string>, clock: string -> int, fails: string -> bool,
                          wrote: seq<Write>) {
    forall w :: multiset(wrote)[w] ==
                if w.token in p && w.token in done && !fails(w.token) &&
                   [w] == WritesOf(w.token, p[w.token], clock(w.token))
                then 1 else 0
  }

  lemma {:induction false} OneMore(p: Pending, done: set<string>, clock: string -> int, fails: string -> bool,
                                   wrote: seq<Write>, t: string)
    requires t in p && t !in done && Flushed(p, done, clock, fails, wrote)
    ensures t !in Unwritten(p, done, fails)
    ensures Unwritten(p, done + {t}, fails) ==
            if fails(t) && p[t].count != 0 then Unwritten(p, done, fails)[t := p[t]] else Unwritten(p, done, fails)
    ensures Flushed(p, done + {t}, clock, fails, wrote + if fails(t) then [] else WritesOf(t, p[t], clock(t)))
  {}

  /** No count is lost or doubled by a flush, whatever part of it fails. */
  lemma {:induction false} FlushConserves(p: Pending, clock: string -> int, fails: string -> bool, wrote: seq<Write>,
                                          t: string)
    requires Flushed(p, p.Keys, clock, fails, wrote)
    ensures CountAll(wrote, t) + PendingCount(Unwritten(p, p.Keys, fails), t) == PendingCount(p, t)
  {
    if t in p && p[t].count != 0 && !fails(t) {
      var w := Write(t, p[t].count, p[t].ips, clock(t));
      assert multiset(wrote)[w] == 1;
      CountOfOne(wrote, t, w);
    } else {
      CountOfNone(wrote, t);
    }
  }

  lemma {:induction false} CountOfNone(log: seq<Write>, t: string)
    requires forall w | w in log :: w.token != t || w.count == 0
    ensures CountAll(log, t) == 0
  {
    if log != [] {
      assert log[|log| - 1] in log;
      CountOfNone(log[..|log| - 1], t);
    }
  }

  lemma {:induction false} CountOfOne(log: seq<Write>, t: string, w: Write)
    requires w.token == t && multiset(log)[w] == 1
    requires forall v | v in log && v != w :: v.token != t || v.count == 0
    ensures CountAll(log, t) == w.count
  {
    var rest, v := log[..|log| - 1], log[|log| - 1];
    assert log == rest + [v] && v in log;
    if v == w {
      assert w !in multiset(rest);
      CountOfNone(rest, t);
    } else {
      CountOfOne(rest, t, w);
    }
  }

  ghost function PendingCount(p: Pending, t: string): int {
    if t in p then p[t].count else 0
  }
}
