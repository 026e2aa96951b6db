/** The pool of virtual addresses leased to sessions. */
module IpPool {
  import opened Wrappers
  import opened Bits

  /** An IPv4 network, from its own address to its broadcast address, and the server's address. */
  datatype Subnet = Subnet(network: nat, broadcast: nat, server: nat) {

    predicate Reserved(a: nat) {
      a == network || a == broadcast || a == server
    }

    /** A leasable address: in the network and not reserved. */
    predicate Usable(a: nat) {
      network <= a <= broadcast && !Reserved(a)
    }

    /** `hosts()` leaves out the two ends, unless the network has only one or two addresses. */
    function FirstHost(): nat {
      if broadcast > network + 1 then network + 1 else network
    }

    function LastHost(): int {
      if broadcast > network + 1 then broadcast - 1 else broadcast
    }

    function UsableSet(): set<nat> {
      set a | network <= a <= broadcast && Usable(a) :: a
    }

    predicate Free(leases: map<nat, nat>, a: nat) {
      Usable(a) && a !in leases.Values
    }

    /** The first free host from `a` on. */
    function FirstFree(leases: map<nat, nat>, a: nat): (r: Option<nat>)
      ensures r.Some? ==> a <= r.value <= LastHost() && Free(leases, r.value) && forall b: nat | a <= b < r.value :: !Free(leases, b)
      ensures r.None? ==> forall b: nat | a <= b <= LastHost() :: !Free(leases, b)
      decreases LastHost() + 1 - a
    {
      if a > LastHost() then None
      else if Free(leases, a) then Some(a)
      else FirstFree(leases, a + 1)
    }

    /** The address a session gets: its lease, else the preferred address, else the lowest free host. */
    function Choice(leases: map<nat, nat>, sessionId: nat, preferred: Option<nat>): Option<nat> {
      if sessionId in leases then Some(leases[sessionId])
      else if preferred.Some? && Free(leases, preferred.value) then preferred
      else FirstFree(leases, FirstHost())
    }

    function Allocate(leases: map<nat, nat>, sessionId: nat, preferred: Option<nat>): map<nat, nat> {
      match Choice(leases, sessionId, preferred)
      case None => leases
      case Some(a) => leases[sessionId := a]
    }

    /** Leases are usable addresses, one per session. */
    ghost predicate Coherent(leases: map<nat, nat>) {
      && (forall s | s in leases :: Usable(leases[s]))
      && (forall s, t | s in leases && t in leases && leases[s] == leases[t] :: s == t)
    }
  }

  /** The network of an address and a prefix length, whatever the address's host bits. */
  function SubnetOf(address: nat, prefixLen: nat, server: nat): Subnet
    requires prefixLen <= 32
  {
    hide Pow2;
    var size := Pow2(32 - prefixLen);
    var network: nat := address / size * size;
    Subnet(network, network + size - 1, server)
  }

  /** Its addresses are those that agree with the given one above the host bits. */
  lemma SubnetMembers(address: nat, prefixLen: nat, server: nat, a: nat)
    requires prefixLen <= 32
    ensures var net := SubnetOf(address, prefixLen, server);
            net.network <= a <= net.broadcast <==> a / Pow2(32 - prefixLen) == address / Pow2(32 - prefixLen)
  {
    hide Pow2;
    SameBlock(a, address / Pow2(32 - prefixLen), Pow2(32 - prefixLen));
  }

  lemma SameBlock(a: nat, block: nat, size: nat)
    requires size > 0
    ensures block * size <= a <= block * size + size - 1 <==> a / size == block
  {
    var q, r := a / size, a % size;
    assert a == q * size + r;
    if q < block {
      assert (q + 1) * size <= block * size;
    } else if q > block {
      assert (block + 1) * size <= q * size;
    }
  }

  /** First fit takes the lowest of all usable addresses that is not leased. */
  lemma FirstFitLowest(net: Subnet, leases: map<nat, nat>)
    ensures match net.FirstFree(leases, net.FirstHost())
            case None => forall b: nat :: !net.Free(leases, b)
            case Some(a) => net.Free(leases, a) && forall b: nat | b < a :: !net.Free(leases, b)
  {
  }

  /** The choice in plain terms: a session keeps its lease; else a preferred address that is inside the network, off
      its ends and the server's, and not leased; else the lowest such address, if there is one. */
  lemma ChoiceMeans(net: Subnet, leases: map<nat, nat>, sessionId: nat, preferred: Option<nat>)
    ensures var r := net.Choice(leases, sessionId, preferred);
            if sessionId in leases then r == Some(leases[sessionId])
            else if preferred.Some? && net.network < preferred.value < net.broadcast && preferred.value != net.server
                    && preferred.value !in leases.Values then r == preferred
            else match r
                 case None => forall a | net.network < a < net.broadcast && a != net.server :: a in leases.Values
                 case Some(a) => && net.network < a < net.broadcast && a != net.server && a !in leases.Values
                                 && forall b | net.network < b < a && b != net.server :: b in leases.Values
  {
    FirstFitLowest(net, leases);
    hide Subnet.FirstFree, Subnet.FirstHost;
    forall a: nat ensures net.Free(leases, a) <==> net.network < a < net.broadcast && a != net.server && a !in leases.Values {
    }
  }

  lemma {:induction false} InjectiveSize(m: map<nat, nat>)
    requires forall s, t | s in m && t in m && m[s] == m[t] :: s == t
    ensures |m.Values| == |m|
  {
    if s :| s in m {
      var rest := m - {s};
      InjectiveSize(rest);
      forall v | v in m.Values ensures v in rest.Values + {m[s]} {
        var t :| t in m && m[t] == v;
        assert t == s || rest[t] == v;
      }
      assert m.Values == rest.Values + {m[s]};
      assert m[s] !in rest.Values;
      assert m.Keys == rest.Keys + {s};
    } else {
      assert m.Values == {};
    }
  }

  lemma SubsetSize(a: set<nat>, b: set<nat>)
    requires a <= b
    ensures |a| <= |b| && (|a| == |b| <==> a == b)
  {
    var rest := b - a;
    assert b == a + rest;
    assert |b| == |a| + |rest|;
    assert rest == {} ==> a == b;
  }

  /** Allocation fails exactly when the session has no lease and as many sessions hold one as there are
      usable addresses. */
  lemma FailsExactlyWhenFull(net: Subnet, leases: map<nat, nat>, sessionId: nat, preferred: Option<nat>)
    requires net.Coherent(leases)
    ensures |leases| <= |net.UsableSet()|
    ensures net.Choice(leases, sessionId, preferred) == None
       <==> (sessionId !in leases && |leases| == |net.UsableSet()|)
  {
    InjectiveSize(leases);
    SubsetSize(leases.Values, net.UsableSet());
    FirstFitLowest(net, leases);
    if leases.Values != net.UsableSet() {
      var a :| a in net.UsableSet() && a !in leases.Values;
      assert net.Free(leases, a);
    }
  }

  lemma AllocateCoherent(net: Subnet, leases: map<nat, nat>, sessionId: nat, preferred: Option<nat>)
    requires net.Coherent(leases)
    ensures net.Coherent(net.Allocate(leases, sessionId, preferred))
  {
    var after := net.Allocate(leases, sessionId, preferred);
    match net.Choice(leases, sessionId, preferred)
    case None =>
    case Some(a) =>
      if sessionId !in leases {
        forall s | s in leases ensures leases[s] != a {
          assert leases[s] in leases.Values;
        }
      }
  }

  // ---------- Every run ----------

  datatype Op = Lease(sessionId: nat, preferred: Option<nat>) | Release(sessionId: nat)

  function Apply(net: Subnet, leases: map<nat, nat>, op: Op): map<nat, nat> {
    match op
    case Lease(s, p) => net.Allocate(leases, s, p)
    case Release(s) => leases - {s}
  }

  function Run(net: Subnet, ops: seq<Op>): map<nat, nat> {
    if ops == [] then map[] else Apply(net, Run(net, ops[..|ops| - 1]), ops[|ops| - 1])
  }

  /** Over every run leases are inside the network, off its ends and the server's address, and distinct. */
  lemma {:induction false} RunCoherent(net: Subnet, ops: seq<Op>)
    ensures var leases := Run(net, ops);
            && net.Coherent(leases)
            && (forall s | s in leases :: net.network < leases[s] < net.broadcast && leases[s] != net.server)
            && forall s, t | s in leases && t in leases && s != t :: leases[s] != leases[t]
  {
    if ops == [] {
    } else {
      var leases, op := Run(net, ops[..|ops| - 1]), ops[|ops| - 1];
      RunCoherent(net, ops[..|ops| - 1]);
      if op.Lease? {
        AllocateCoherent(net, leases, op.sessionId, op.preferred);
      }
    }
  }

  /** A session keeps its address until it releases it, whatever the others do. */
  lemma {:induction false} LeaseStable(net: Subnet, before: seq<Op>, after: seq<Op>, sessionId: nat)
    requires sessionId in Run(net, before) && Release(sessionId) !in after
    ensures sessionId in Run(net, before + after)
    ensures Run(net, before + after)[sessionId] == Run(net, before)[sessionId]
  {
    if after == [] {
      assert before + after == before;
    } else {
      var init := after[..|after| - 1];
      assert (before + after)[..|before + after| - 1] == before + init;
      assert after == init + [after[|after| - 1]];
      LeaseStable(net, before, init, sessionId);
    }
  }

  // ---------- The pool ----------

  class IPPool {
    const net: Subnet
    var leased: map<nat, nat>

    ghost predicate Valid()
      reads this
    {
      net.Coherent(leased)
    }

    constructor (net: Subnet)
      ensures Valid() && this.net == net && leased == map[]
    {
      this.net, leased := net, map[];
    }

    /** `preferred` is the parsed preferred address, if one was given and is an address. */
    method Allocate(sessionId: nat, preferred: Option<nat> := None) returns (r: Option<nat>)
      requires Valid()
      modifies this
      ensures Valid()
      ensures r == net.Choice(old(leased), sessionId, preferred)
      ensures leased == net.Allocate(old(leased), sessionId, preferred)
      ensures leased == if r.Some? then old(leased)[sessionId := r.value] else old(leased)
      ensures if sessionId in old(leased) then r == Some(old(leased)[sessionId])
              else if preferred.Some? && net.network < preferred.value < net.broadcast && preferred.value != net.server
                      && preferred.value !in old(leased).Values then r == preferred
              else match r
                   case None => forall a | net.network < a < net.broadcast && a != net.server :: a in old(leased).Values
                   case Some(a) => && net.network < a < net.broadcast && a != net.server && a !in old(leased).Values
                                   && forall b | net.network < b < a && b != net.server :: b in old(leased).Values
    {
      ChoiceMeans(net, leased, sessionId, preferred);
      AllocateCoherent(net, leased, sessionId, preferred);
      if sessionId in leased {
        return Some(leased[sessionId]);
      }
      if preferred.Some? {
        var cand := preferred.value;
        if net.network <= cand <= net.broadcast && cand !in leased.Values && !net.Reserved(cand) {
          leased := leased[sessionId := cand];
          return Some(cand);
        }
      }
      var host := net.FirstHost();
      while host <= net.LastHost()
        invariant net.FirstFree(leased, host) == net.FirstFree(leased, net.FirstHost())
        invariant leased == old(leased)
        decreases net.LastHost() + 1 - host
      {
        if !net.Reserved(host) && host !in leased.Values {
          leased := leased[sessionId := host];
          return Some(host);
        }
        host := host + 1;
      }
      return None;
    }

    method Release(sessionId: nat)
      requires Valid()
      modifies this
      ensures Valid() && leased == old(leased) - {sessionId}
    {
      leased := leased - {sessionId};
    }

    /** `target` is the parsed address, if it is one. */
    method GetSessionByIp(target: Option<nat>) returns (r: Option<nat>)
      requires Valid()
      ensures forall s: nat :: r == Some(s) <==> s in leased && Some(leased[s]) == target
    {
      if target.None? {
        return None;
      }
      var left := leased.Keys;
      while left != {}
        invariant left <= leased.Keys
        invariant forall s | s in leased && s !in left :: leased[s] != target.value
      {
        var s :| s in left;
        if leased[s] == target.value {
          return Some(s);
        }
        left := left - {s};
      }
      return None;
    }
  }
}
