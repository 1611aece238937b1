/** What the HEC collector accumulates for one token. */
module HecUsage {
  import opened Wrappers

  /** What a batch holds for its token. */
  datatype Usage = Usage(count: int, ips: set<string>, lastIp: Option<string>)

  const NO_USAGE := Usage(0, {}, None)

  /** BatchUpdate.Add */
  function AddUsage(u: Usage, n: int, ip: Option<string>): Usage {
    match ip
    case None => u.(count := u.count + n)
    case Some(addr) => Usage(u.count + n, u.ips + {addr}, ip)
  }

  /** The merge of a batch that could not be flushed into the one accumulated meanwhile. */
  function MergeUsage(existing: Usage, failed: Usage): Usage {
    Usage(existing.count + failed.count, existing.ips + failed.ips,
          if failed.lastIp.Some? then failed.lastIp else existing.lastIp)
  }

  /** Merging adds up: counts, addresses, and the failed batch's last address before the other's. */
  lemma {:induction false} MergeAddsUp(existing: Usage, failed: Usage)
    ensures var m := MergeUsage(existing, failed);
            && m.count == existing.count + failed.count && m.ips == existing.ips + failed.ips
            && m.lastIp == if failed.lastIp.Some? then failed.lastIp else existing.lastIp
  {}

  /** The last address is one of the addresses. */
  predicate LastIsKnown(u: Usage) {
    u.lastIp.Some? ==> u.lastIp.value in u.ips
  }

  /** Whatever is recorded and merged, and nobody has a last address without having recorded one. */
  lemma {:induction false} LastStaysKnown(u: Usage, v: Usage, n: int, ip: Option<string>)
    requires LastIsKnown(u) && LastIsKnown(v)
    ensures LastIsKnown(NO_USAGE) && LastIsKnown(AddUsage(u, n, ip)) && LastIsKnown(MergeUsage(u, v))
    ensures AddUsage(u, n, ip).lastIp.None? <==> u.lastIp.None? && ip.None?
    ensures MergeUsage(u, v).lastIp.None? <==> u.lastIp.None? && v.lastIp.None?
  {}

  class BatchUpdate {
    const tokenId: string
    var eventCount: int
    var clientIps: set<string>
    var lastIp: Option<string>

    constructor (tokenId: string)
      ensures this.tokenId == tokenId && View() == NO_USAGE
    {
      this.tokenId := tokenId;
      eventCount, clientIps, lastIp := 0, {}, None;
    }

    ghost function View(): Usage
      reads this
    {
      Usage(eventCount, clientIps, lastIp)
    }

    method Add(n: int, ip: Option<string>)
      modifies this
      ensures View() == AddUsage(old(View()), n, ip)
      ensures eventCount == old(eventCount) + n
      ensures clientIps == old(clientIps) + if ip.Some? then {ip.value} else {}
      ensures lastIp == if ip.Some? then ip else old(lastIp)
    {
      eventCount := eventCount + n;
      if ip.Some? {
        clientIps := clientIps + {ip.value};
        lastIp := ip;
      }
    }
  }
}
