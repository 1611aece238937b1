/** The acknowledgement manager's methods on its map of shared records. */
module AckManager {
  import opened Acks

  class AckRecord {
    var status: Status
    var timestamp: int

    constructor (timestamp: int)
      ensures View() == Ack(Pending, timestamp)
    {
      status, this.timestamp := Pending, timestamp;
    }

    function View(): Ack
      reads this
    {
      Ack(status, timestamp)
    }
  }

  /** `gauge` is the pending metric. The record of an identifier belongs to that identifier alone. */
  class Manager {
    var acks: map<string, AckRecord>
    var gauge: int
    const ttl: nat

    ghost predicate Valid()
      reads this
    {
      forall i, j | i in acks && j in acks && acks[i] == acks[j] :: i == j
    }

    ghost function View(): map<string, Ack>
      reads this, acks.Values
    {
      map id | id in acks :: acks[id].View()
    }

    /** The state of the protocol, around creations that other callers are in the middle of. */
    ghost function StateAt(stamped: map<string, int>, waiting: set<string>, now: int): State
      reads this, acks.Values
    {
      State(View(), stamped, waiting, gauge, now)
    }

    constructor (ttl: nat)
      ensures Valid() && View() == map[] && gauge == 0 && this.ttl == ttl
    {
      this.ttl, acks, gauge := ttl, map[], 0;
    }

    /** Create up to the release of the lock; the identifier is freshly generated. */
    method File(id: string, timestamp: int, ghost stamped: map<string, int>, ghost waiting: set<string>, ghost now: int)
      requires Valid() && id !in acks && id in stamped && stamped[id] == timestamp
      modifies this`acks
      ensures Valid()
      ensures StateAt(stamped - {id}, waiting + {id}, now) == Next(old(StateAt(stamped, waiting, now)), ttl, Insert(id))
      ensures View() == old(View())[id := Ack(Pending, timestamp)]
    {
      var record := new AckRecord(timestamp);
      acks := acks[id := record];
    }

    /** The rest of Create. */
    method IncrementGauge(id: string, ghost stamped: map<string, int>, ghost waiting: set<string>, ghost now: int)
      modifies this`gauge
      ensures StateAt(stamped, waiting - {id}, now) == Next(old(StateAt(stamped, waiting, now)), ttl, Increment(id))
      ensures gauge == old(gauge) + 1
    {
      gauge := gauge + 1;
    }

    /** Complete (success) and Fail (failure). */
    method Finish(id: string, status: Status, now: int, ghost stamped: map<string, int>, ghost waiting: set<string>)
      requires Valid()
      modifies this`gauge, acks.Values
      ensures Valid()
      ensures StateAt(stamped, waiting, now) == Next(old(StateAt(stamped, waiting, now)), ttl, Step.Finish(id, status))
      ensures acks == old(acks)
      ensures id in acks ==> acks[id].status == status && acks[id].timestamp == now && gauge == old(gauge) - 1
      ensures forall other | other in acks && other != id :: acks[other].View() == old(acks[other].View())
    {
      if id in acks {
        var ack := acks[id];
        ack.status := status;
        ack.timestamp := now;
        gauge := gauge - 1;
      }
    }

    /** Query answers for the identifiers that are filed, and says whether each one succeeded. */
    method Query(ids: seq<string>) returns (result: map<string, bool>)
      ensures forall id :: id in result <==> id in ids && id in acks
      ensures forall id | id in result :: result[id] <==> View()[id].status == Success
    {
      result := map[];
      for i := 0 to |ids|
        invariant forall id :: id in result <==> id in ids[..i] && id in acks
        invariant forall id | id in result :: result[id] <==> View()[id].status == Success
      {
        if ids[i] in acks {
          result := result[ids[i] := acks[ids[i]].status == Success];
        }
      }
    }

    method GetPending() returns (count: nat)
      ensures count == |PendingIds(View())|
    {
      ghost var view := View();
      count := 0;
      var rest := acks.Keys;
      assert PendingIds(view) - rest == {};
      while rest != {}
        invariant rest <= acks.Keys && count == |PendingIds(view) - rest|
        decreases rest
      {
        var id :| id in rest;
        OneMoreCounted(view, rest, id);
        rest := rest - {id};
        if acks[id].status == Pending {
          count := count + 1;
        }
      }
      assert PendingIds(view) - rest == PendingIds(view);
    }

    /** One turn of the cleanup loop. */
    method Sweep(id: string, cutoff: int)
      requires Valid() && id in acks
      modifies this
      ensures Valid()
      ensures View() == if old(View())[id].at < cutoff then old(View()) - {id} else old(View())
      ensures gauge == old(gauge) - (|PendingIds(old(View()))| - |PendingIds(View())|)
    {
      ghost var view := View();
      PendingWithout(view, id);
      var ack := acks[id];
      if ack.timestamp < cutoff {
        if ack.status == Pending {
          gauge := gauge - 1;
        }
        acks := acks - {id};
        assert View() == view - {id};
      }
    }

    method Cleanup(now: int, ghost stamped: map<string, int>, ghost waiting: set<string>)
      requires Valid()
      modifies this
      ensures Valid()
      ensures StateAt(stamped, waiting, now) == Next(old(StateAt(stamped, waiting, now)), ttl, Step.Cleanup)
      ensures LeavesRecent(old(View()), View(), now, ttl)
    {
      ghost var before := StateAt(stamped, waiting, now);
      RemoveOlder(now - ttl, stamped, waiting, now);
      CleanedUp(before, ttl);
      CleanupExactly(before, ttl);
    }

    method RemoveOlder(cutoff: int, ghost stamped: map<string, int>, ghost waiting: set<string>, ghost now: int)
      requires Valid()
      modifies this
      ensures Valid()
      ensures StateAt(stamped, waiting, now) == WithoutOlder(old(StateAt(stamped, waiting, now)), cutoff)
    {
      var rest := acks.Keys;
      ghost var before, left := View(), View();
      SweptAll(before, cutoff);
      while rest != {}
        invariant Valid() && rest <= before.Keys && View() == left
        invariant left == Swept(before, rest, cutoff)
        invariant gauge == old(gauge) - (|PendingIds(before)| - |PendingIds(left)|)
        decreases rest
      {
        var id :| id in rest;
        OneMoreSwept(before, rest, id, cutoff);
        Sweep(id, cutoff);
        rest, left := rest - {id}, View();
      }
    }
  }

  /** What a sweep leaves, with the gauge lowered by the pending acknowledgements among the removed ones. */
  ghost function WithoutOlder(s: State, cutoff: int): State {
    var left := Recent(s.acks, cutoff);
    s.(acks := left, gauge := s.gauge - (|PendingIds(s.acks)| - |PendingIds(left)|))
  }

  lemma {:induction false} CleanedUp(s: State, ttl: nat)
    ensures Next(s, ttl, Step.Cleanup) == WithoutOlder(s, s.now - ttl)
  {
    PendingAfterCleanup(s.acks, s.now - ttl);
  }

  /** The acknowledgements left when the sweep has still to look at `rest`. */
  ghost function Swept(acks: map<string, Ack>, rest: set<string>, cutoff: int): map<string, Ack> {
    map id | id in acks && (id in rest || !(acks[id].at < cutoff)) :: acks[id]
  }

  lemma {:induction false} SweptAll(acks: map<string, Ack>, cutoff: int)
    ensures Swept(acks, acks.Keys, cutoff) == acks
    ensures Swept(acks, {}, cutoff) == Recent(acks, cutoff)
  {}

  lemma {:induction false} OneMoreSwept(acks: map<string, Ack>, rest: set<string>, id: string, cutoff: int)
    requires id in rest && id in acks
    ensures id in Swept(acks, rest, cutoff) && Swept(acks, rest, cutoff)[id] == acks[id]
    ensures Swept(acks, rest - {id}, cutoff) ==
            if acks[id].at < cutoff then Swept(acks, rest, cutoff) - {id} else Swept(acks, rest, cutoff)
  {}

  lemma {:induction false} PendingWithout(acks: map<string, Ack>, id: string)
    requires id in acks
    ensures |PendingIds(acks - {id})| == |PendingIds(acks)| - if acks[id].status == Pending then 1 else 0
  {
    assert PendingIds(acks - {id}) == PendingIds(acks) - {id};
  }

  lemma {:induction false} OneMoreCounted(acks: map<string, Ack>, rest: set<string>, id: string)
    requires id in acks && id in rest
    ensures |PendingIds(acks) - (rest - {id})| ==
            |PendingIds(acks) - rest| + if acks[id].status == Pending then 1 else 0
  {
    assert PendingIds(acks) - (rest - {id}) ==
           (PendingIds(acks) - rest) + if acks[id].status == Pending then {id} else {};
  }
}
