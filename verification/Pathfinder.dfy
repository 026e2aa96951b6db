/** Choosing an entry and an exit relay. */
module Pathfinder {
  import opened Wrappers

  /** What is known of a relay. */
  datatype Node = Node(id: string, host: string, port: nat, rttMs: real, jitterMs: real, packetLossPct: real, isHealthy: bool) {

    /** Lower is better. */
    function Cost(): real {
      if !isHealthy then 99999.0 else rttMs + jitterMs * 1.5 + packetLossPct * 50.0
    }
  }

  /** Between healthy nodes cost grows with round trip, jitter and loss: three more milliseconds of round trip count as
      much as two of jitter, and fifty as much as one more percent lost. */
  lemma CostGrows(a: Node, b: Node, x: real)
    requires a.isHealthy && b.isHealthy
    ensures a.rttMs <= b.rttMs && a.jitterMs <= b.jitterMs && a.packetLossPct <= b.packetLossPct ==>
              a.Cost() <= b.Cost() && (a.Cost() == b.Cost() ==>
                a.rttMs == b.rttMs && a.jitterMs == b.jitterMs && a.packetLossPct == b.packetLossPct)
    ensures a.(rttMs := a.rttMs + 3.0 * x).Cost() == a.(jitterMs := a.jitterMs + 2.0 * x).Cost()
    ensures a.(rttMs := a.rttMs + 50.0 * x).Cost() == a.(packetLossPct := a.packetLossPct + x).Cost()
  {
  }

  /** Python's `sorted` by cost, which is stable: an equal element goes after those before it. */
  function SortByCost(s: seq<Node>): (r: seq<Node>)
    ensures |r| == |s|
  {
    if s == [] then [] else Insert(SortByCost(s[..|s| - 1]), s[|s| - 1])
  }

  function Insert(s: seq<Node>, n: Node): (r: seq<Node>)
    ensures |r| == |s| + 1
  {
    if s == [] || s[0].Cost() > n.Cost() then [n] + s else [s[0]] + Insert(s[1..], n)
  }

  function FirstOther(s: seq<Node>, id: string): Option<Node> {
    if s == [] then None else if s[0].id != id then Some(s[0]) else FirstOther(s[1..], id)
  }

  function Healthy(table: seq<Node>): seq<Node> {
    if table == [] then []
    else Healthy(table[..|table| - 1]) + if table[|table| - 1].isHealthy then [table[|table| - 1]] else []
  }

  function Lookup(table: seq<Node>, id: string): Option<Node> {
    if table == [] then None else if table[0].id == id then Some(table[0]) else Lookup(table[1..], id)
  }

  /** A preference counts if it is given, is not empty, and names a node of the table, healthy or not. */
  function Preferred(table: seq<Node>, id: Option<string>): Option<Node> {
    if id.None? || id.value == "" then None else Lookup(table, id.value)
  }

  const TOKYO := Node("tokyo", "103.28.44.12", 51820, 20.0, 2.0, 0.0, true)
  const FRANKFURT := Node("frankfurt", "45.142.112.5", 51820, 20.0, 2.0, 0.0, true)

  function OrElse(n: Option<Node>, other: Node): Node {
    if n.Some? then n.value else other
  }

  function Fallback(table: seq<Node>): (Node, Node) {
    (OrElse(Lookup(table, "tokyo"), TOKYO), OrElse(Lookup(table, "frankfurt"), FRANKFURT))
  }

  function ChooseFrom(ranked: seq<Node>, entryWish: Option<Node>, exitWish: Option<Node>): (Node, Node)
    requires ranked != []
  {
    var entry := OrElse(entryWish, ranked[0]);
    if exitWish.Some? && exitWish.value.id != entry.id then (entry, exitWish.value)
    else (entry, OrElse(FirstOther(ranked, entry.id), ranked[0]))
  }

  /** The pair chosen from a table with these preferences for entry and exit. */
  function Choose(table: seq<Node>, entryId: Option<string>, exitId: Option<string>): (Node, Node) {
    var ranked := SortByCost(Healthy(table));
    if ranked == [] then Fallback(table)
    else ChooseFrom(ranked, Preferred(table, entryId), Preferred(table, exitId))
  }

  // ---------- The ranking ----------

  ghost predicate Ranked(s: seq<Node>) {
    forall i, j | 0 <= i < j < |s| :: s[i].Cost() <= s[j].Cost()
  }

  lemma {:induction false} InsertKeeps(s: seq<Node>, n: Node)
    ensures multiset(Insert(s, n)) == multiset(s) + multiset{n}
  {
    if s != [] && s[0].Cost() <= n.Cost() {
      InsertKeeps(s[1..], n);
      assert s == [s[0]] + s[1..];
    }
  }

  lemma {:induction false} InsertRanked(s: seq<Node>, n: Node)
    requires Ranked(s)
    ensures Ranked(Insert(s, n))
  {
    if s != [] && s[0].Cost() <= n.Cost() {
      InsertRanked(s[1..], n);
      InsertKeeps(s[1..], n);
      hide Node.Cost;
      var r := Insert(s[1..], n);
      forall i | 0 <= i < |r| ensures s[0].Cost() <= r[i].Cost() {
        assert r[i] in multiset(r);
        if r[i] != n {
          assert r[i] in s[1..];
        }
      }
    }
  }

  lemma {:induction false} SortKeeps(s: seq<Node>)
    ensures multiset(SortByCost(s)) == multiset(s)
  {
    if s == [] {
    } else {
      var init, n := s[..|s| - 1], s[|s| - 1];
      assert SortByCost(s) == Insert(SortByCost(init), n);
      assert s == init + [n];
      SortKeeps(init);
      hide *;
      InsertKeeps(SortByCost(init), n);
    }
  }

  lemma {:induction false} SortRanked(s: seq<Node>)
    ensures Ranked(SortByCost(s))
  {
    if s != [] {
      hide Insert, Ranked;
      SortRanked(s[..|s| - 1]);
      InsertRanked(SortByCost(s[..|s| - 1]), s[|s| - 1]);
    }
    assert s == [] ==> Ranked(SortByCost(s));
  }

  /** Sorting ranks the same nodes. */
  lemma SortRanks(s: seq<Node>)
    ensures Ranked(SortByCost(s)) && multiset(SortByCost(s)) == multiset(s)
  {
    SortKeeps(s);
    SortRanked(s);
  }

  /** The first node in table order, other than `id`, that no earlier or later one undercuts. */
  function Cheapest(s: seq<Node>, id: string): Option<Node> {
    if s == [] then None
    else
      var best, n := Cheapest(s[..|s| - 1], id), s[|s| - 1];
      if n.id != id && (best.None? || n.Cost() < best.value.Cost()) then Some(n) else best
  }

  lemma {:induction false} InsertFirstOther(s: seq<Node>, n: Node, id: string)
    requires Ranked(s)
    ensures FirstOther(Insert(s, n), id)
         == var m := FirstOther(s, id);
            if n.id != id && (m.None? || n.Cost() < m.value.Cost()) then Some(n) else m
  {
    if s == [] {
    } else if s[0].Cost() > n.Cost() {
      assert ([n] + s)[1..] == s;
      FirstOtherIn(s, id);
    } else {
      InsertFirstOther(s[1..], n, id);
      assert ([s[0]] + Insert(s[1..], n))[1..] == Insert(s[1..], n);
    }
  }

  lemma {:induction false} FirstOtherIn(s: seq<Node>, id: string)
    ensures match FirstOther(s, id)
            case None => forall n | n in s :: n.id == id
            case Some(m) => m in s && m.id != id
  {
    if s == [] {
    } else {
      FirstOtherIn(s[1..], id);
      assert s == [s[0]] + s[1..];
    }
  }

  /** Sorting and taking the first other node is the same as looking for the cheapest one in table order,
      ties included. */
  lemma {:induction false} FirstIsCheapest(s: seq<Node>, id: string)
    ensures FirstOther(SortByCost(s), id) == Cheapest(s, id)
  {
    if s == [] {
    } else {
      FirstIsCheapest(s[..|s| - 1], id);
      SortRanks(s[..|s| - 1]);
      InsertFirstOther(SortByCost(s[..|s| - 1]), s[|s| - 1], id);
    }
  }

  lemma {:induction false} CheapestLeast(s: seq<Node>, id: string)
    ensures match Cheapest(s, id)
            case None => forall n | n in s :: n.id == id
            case Some(m) => m in s && m.id != id && forall n | n in s && n.id != id :: m.Cost() <= n.Cost()
  {
    if s == [] {
    } else {
      CheapestLeast(s[..|s| - 1], id);
      assert s == s[..|s| - 1] + [s[|s| - 1]];
    }
  }

  lemma {:induction false} HealthyAre(table: seq<Node>, n: Node)
    ensures n in Healthy(table) <==> n in table && n.isHealthy
  {
    if table == [] {
    } else {
      HealthyAre(table[..|table| - 1], n);
      assert table == table[..|table| - 1] + [table[|table| - 1]];
    }
  }

  lemma {:induction false} LookupIn(table: seq<Node>, id: string)
    ensures match Lookup(table, id)
            case None => forall n | n in table :: n.id != id
            case Some(m) => m in table && m.id == id
  {
    if table == [] {
    } else {
      LookupIn(table[1..], id);
      assert table == [table[0]] + table[1..];
    }
  }

  // ---------- The choice ----------

  /** A dictionary has one node per name. */
  ghost predicate Keyed(table: seq<Node>) {
    forall i, j | 0 <= i < j < |table| :: table[i].id != table[j].id
  }

  predicate Up(table: seq<Node>, n: Node) {
    n in table && n.isHealthy
  }

  lemma FirstIsLeast(table: seq<Node>, n: Node)
    requires Up(table, n)
    ensures var ranked := SortByCost(Healthy(table));
            ranked != [] && Up(table, ranked[0]) && ranked[0].Cost() <= n.Cost()
  {
    var ranked := SortByCost(Healthy(table));
    HealthyAre(table, n);
    SortRanks(Healthy(table));
    assert n in multiset(ranked);
    var i :| 0 <= i < |ranked| && ranked[i] == n;
    assert ranked[0] in multiset(ranked);
    HealthyAre(table, ranked[0]);
  }

  /** The exit, unless it was asked for: the cheapest healthy node with another name than the entry's, and the
      entry itself only if there is none. */
  lemma ExitLeast(table: seq<Node>, entryId: Option<string>, exitId: Option<string>, n: Node)
    requires Up(table, n)
    ensures var (entry, exit) := Choose(table, entryId, exitId);
            var wanted := Preferred(table, exitId);
            && (wanted.Some? && wanted.value.id != entry.id ==> exit == wanted.value)
            && (!(wanted.Some? && wanted.value.id != entry.id) ==>
                  Up(table, exit) && (n.id != entry.id ==> exit.id != entry.id && exit.Cost() <= n.Cost()))
  {
    var (entry, exit) := Choose(table, entryId, exitId);
    FirstIsLeast(table, n);
    FirstIsCheapest(Healthy(table), entry.id);
    CheapestLeast(Healthy(table), entry.id);
    HealthyAre(table, n);
    HealthyAre(table, exit);
  }

  /** The node of the table that a preference names. */
  ghost predicate Asked(table: seq<Node>, id: Option<string>, n: Node) {
    n in table && n.id != "" && id == Some(n.id)
  }

  /** The whole choice in terms of the nodes. While any node is healthy: the entry is the one asked for, healthy or
      not, else a healthy one that no other undercuts; the exit is the one asked for, unless that is the entry, else a
      healthy one other than the entry, if there is one, that no such node undercuts. Otherwise, whatever was asked
      for, tokyo and frankfurt, made up if the table has none. */
  lemma ChooseMeans(table: seq<Node>, entryId: Option<string>, exitId: Option<string>)
    requires Keyed(table)
    ensures var (entry, exit) := Choose(table, entryId, exitId);
            && ((exists n :: Up(table, n)) ==>
                  && entry in table && exit in table
                  && (forall n | Asked(table, entryId, n) :: entry == n)
                  && ((forall n :: !Asked(table, entryId, n)) ==>
                        entry.isHealthy && forall n | Up(table, n) :: Undercuts(entry, n))
                  && (forall n | Asked(table, exitId, n) && n.id != entry.id :: exit == n)
                  && ((forall n | Asked(table, exitId, n) :: n.id == entry.id) ==>
                        exit.isHealthy && forall n | Up(table, n) && n.id != entry.id :: exit.id != entry.id && Undercuts(exit, n)))
            && ((forall n :: !Up(table, n)) ==>
                  && entry.id == "tokyo" && (entry in table || entry == TOKYO) && (entry !in table ==> forall n | n in table :: n.id != "tokyo")
                  && exit.id == "frankfurt" && (exit in table || exit == FRANKFURT) && (exit !in table ==> forall n | n in table :: n.id != "frankfurt"))
  {
    hide SortByCost, Healthy, Lookup, FirstOther;
    var (entry, exit) := Choose(table, entryId, exitId);
    PreferredAsked(table, entryId);
    PreferredAsked(table, exitId);
    LookupIn(table, "tokyo");
    LookupIn(table, "frankfurt");
    if Healthy(table) != [] {
      HealthyAre(table, Healthy(table)[0]);
      assert Up(table, Healthy(table)[0]);
    }
    if n :| Up(table, n) {
      FirstIsLeast(table, n);
      ExitLeast(table, entryId, exitId, n);
      forall m | Up(table, m) ensures Preferred(table, entryId).None? ==> Undercuts(entry, m) {
        FirstIsLeast(table, m);
      }
      forall m | Up(table, m) && m.id != entry.id
        ensures !(Preferred(table, exitId).Some? && Preferred(table, exitId).value.id != entry.id) ==> exit.id != entry.id && Undercuts(exit, m)
      {
        ExitLeast(table, entryId, exitId, m);
      }
    }
  }

  /** Healthy nodes, the first at least as good as the second. */
  predicate Undercuts(a: Node, b: Node) {
    a.rttMs + 1.5 * a.jitterMs + 50.0 * a.packetLossPct <= b.rttMs + 1.5 * b.jitterMs + 50.0 * b.packetLossPct
  }

  lemma PreferredAsked(table: seq<Node>, id: Option<string>)
    requires Keyed(table)
    ensures forall n :: Preferred(table, id) == Some(n) <==> Asked(table, id, n)
  {
    if id.Some? {
      LookupIn(table, id.value);
    }
  }

  /** With no preferences and two healthy nodes or more, no pair of distinct healthy nodes costs less than the
      chosen one, which is such a pair. */
  lemma GreedyOptimal(table: seq<Node>, a: Node, b: Node)
    requires Up(table, a) && Up(table, b) && a.id != b.id
    ensures var (entry, exit) := Choose(table, None, None);
            && Up(table, entry) && Up(table, exit) && entry.id != exit.id
            && entry.Cost() + exit.Cost() <= a.Cost() + b.Cost()
  {
    var (entry, exit) := Choose(table, None, None);
    FirstIsLeast(table, a);
    FirstIsLeast(table, b);
    ExitLeast(table, None, None, a);
    ExitLeast(table, None, None, b);
  }

  /** With any preferences the exit is the entry exactly when nothing usable was asked for as exit and the
      entry is the only healthy node. */
  lemma ExitDiffers(table: seq<Node>, entryId: Option<string>, exitId: Option<string>)
    requires Keyed(table)
    ensures var (entry, exit) := Choose(table, entryId, exitId);
            var wanted := Preferred(table, exitId);
            entry.id == exit.id <==>
              && Up(table, entry) && (forall n | Up(table, n) :: n.id == entry.id)
              && (wanted.Some? ==> wanted.value.id == entry.id)
  {
    var (entry, exit) := Choose(table, entryId, exitId);
    var wanted := Preferred(table, exitId);
    LookupIn(table, "tokyo");
    LookupIn(table, "frankfurt");
    if Healthy(table) != [] {
      HealthyAre(table, Healthy(table)[0]);
      assert Up(table, Healthy(table)[0]);
    }
    if n :| Up(table, n) {
      FirstIsLeast(table, n);
      ExitLeast(table, entryId, exitId, n);
      if entry.id == exit.id {
        forall m | Up(table, m) ensures m.id == entry.id {
          ExitLeast(table, entryId, exitId, m);
        }
        if entryId.Some? {
          LookupIn(table, entryId.value);
        }
      }
    }
  }

  // ---------- The pathfinder ----------

  class RelayNodeScore {
    const nodeId: string
    const host: string
    const port: nat
    var rttMs: real
    var jitterMs: real
    var packetLossPct: real
    var isHealthy: bool

    constructor (nodeId: string, host: string, port: nat, rttMs: real := 20.0)
      ensures Read() == Node(nodeId, host, port, rttMs, 2.0, 0.0, true)
    {
      this.nodeId, this.host, this.port, this.rttMs := nodeId, host, port, rttMs;
      jitterMs, packetLossPct, isHealthy := 2.0, 0.0, true;
    }

    function Read(): Node
      reads this
    {
      Node(nodeId, host, port, rttMs, jitterMs, packetLossPct, isHealthy)
    }
  }

  /** The measurements of one node replaced: a loss of a quarter or more makes it unhealthy. */
  function Updated(table: seq<Node>, id: string, rtt: real, jitter: real, loss: real): seq<Node> {
    seq(|table|, i requires 0 <= i < |table| =>
      if table[i].id != id then table[i]
      else table[i].(rttMs := rtt, jitterMs := jitter, packetLossPct := loss, isHealthy := loss < 25.0))
  }

  const DEFAULT_NODES := [
    Node("tokyo", "103.28.44.12", 51820, 18.0, 2.0, 0.0, true),
    Node("singapore", "139.180.201.88", 51820, 24.0, 2.0, 0.0, true),
    Node("frankfurt", "45.142.112.5", 51820, 42.0, 2.0, 0.0, true),
    Node("london", "185.220.101.5", 51820, 48.0, 2.0, 0.0, true),
    Node("local", "127.0.0.1", 51820, 1.2, 2.0, 0.0, true)]

  lemma DefaultsKeyed()
    ensures Keyed(DEFAULT_NODES)
  {
    assert "tokyo"[0] != "local"[0] && "singapore"[0] != "frankfurt"[0];
  }

  /** The choice from the default nodes. */
  lemma DefaultChoice()
    ensures var (entry, exit) := Choose(DEFAULT_NODES, None, None);
            entry.id == "local" && exit.id == "tokyo"
  {
    DefaultsKeyed();
    var local, tokyo := DEFAULT_NODES[4], DEFAULT_NODES[0];
    assert Up(DEFAULT_NODES, local) && Up(DEFAULT_NODES, tokyo);
    assert tokyo.id[0] != local.id[0];
    ChooseMeans(DEFAULT_NODES, None, None);
    hide Choose, Undercuts;
    var (entry, exit) := Choose(DEFAULT_NODES, None, None);
    NoneUndercuts(entry);
    NoneUndercuts(exit);
  }

  lemma NoneUndercuts(n: Node)
    requires n in DEFAULT_NODES
    ensures Undercuts(n, DEFAULT_NODES[4]) ==> n.id == "local"
    ensures n.id != "local" && Undercuts(n, DEFAULT_NODES[0]) ==> n.id == "tokyo"
  {
  }

  lemma DefaultsFresh(i: nat)
    requires i < |DEFAULT_NODES|
    ensures var d := DEFAULT_NODES[i]; d == Node(d.id, d.host, d.port, d.rttMs, 2.0, 0.0, true)
  {
  }

  /** A node measured as losing a quarter of its packets is not chosen, unless asked for, while any other is
      healthy. */
  lemma LossyAvoided(table: seq<Node>, id: string, rtt: real, jitter: real, loss: real, other: Node)
    requires loss >= 25.0 && Up(table, other) && other.id != id
    ensures var (entry, exit) := Choose(Updated(table, id, rtt, jitter, loss), None, None);
            entry.id != id && exit.id != id
  {
    var after := Updated(table, id, rtt, jitter, loss);
    var i :| 0 <= i < |table| && table[i] == other;
    assert after[i] == other;
    FirstIsLeast(after, other);
    ExitLeast(after, None, None, other);
  }

  /** Nodes in dictionary order, one per name. */
  class DynamicHopPathfinder {
    var nodes: seq<RelayNodeScore>

    ghost predicate Valid()
      reads this
    {
      forall i, j | 0 <= i < j < |nodes| :: nodes[i].nodeId != nodes[j].nodeId
    }

    constructor ()
      ensures Valid() && fresh(nodes) && Table(nodes) == DEFAULT_NODES
    {
      nodes := [];
      new;
      DefaultsKeyed();
      for i := 0 to |DEFAULT_NODES|
        invariant |nodes| == i && fresh(nodes) && forall j | 0 <= j < i :: nodes[j].Read() == DEFAULT_NODES[j]
      {
        var d := DEFAULT_NODES[i];
        var n := new RelayNodeScore(d.id, d.host, d.port, d.rttMs);
        assert n.Read() == DEFAULT_NODES[i] by { DefaultsFresh(i); }
        nodes := nodes + [n];
      }
    }

    method UpdateMetrics(id: string, rtt: real, jitter: real := 0.0, loss: real := 0.0)
      requires Valid()
      modifies nodes
      ensures Valid() && Table(nodes) == Updated(old(Table(nodes)), id, rtt, jitter, loss)
      ensures forall n | n in nodes && n.nodeId == id ::
                n.rttMs == rtt && n.jitterMs == jitter && n.packetLossPct == loss && (n.isHealthy <==> loss < 25.0)
      ensures forall n | n in nodes && n.nodeId != id :: n.Read() == old(n.Read())
    {
      GetReads(nodes, id);
      var n := Get(nodes, id);
      if n != null {
        n.rttMs, n.jitterMs, n.packetLossPct, n.isHealthy := rtt, jitter, loss, loss < 25.0;
      }
    }

    /** The pair chosen, for preferences given as names. The nodes returned are the table's own. */
    method FindOptimalHopPair(preferredEntry: Option<string> := None, preferredExit: Option<string> := None)
      returns (entry: RelayNodeScore, exit: RelayNodeScore)
      requires Valid()
      ensures (entry.Read(), exit.Read()) == Choose(Table(nodes), preferredEntry, preferredExit)
      ensures (exists n :: n in nodes && n.isHealthy) ==> entry in nodes && exit in nodes
    {
      hide Candidates, Sorted, SortByCost, Healthy, Table, Lookup, Preferred, ChooseFrom, Fallback, Wish, ReadIf;
      var candidates := Candidates(nodes);
      ghost var all := set n | n in candidates;
      var ranked := Sorted(all, candidates);
      RankedRead(nodes, all, candidates);
      if candidates == [] {
        entry, exit := FindFallback();
      } else {
        WishReads(nodes, preferredEntry);
        WishReads(nodes, preferredExit);
        var entryWish, exitWish := Wish(nodes, preferredEntry), Wish(nodes, preferredExit);
        ghost var table, ranking, wishes := Table(nodes), Table(ranked), (ReadIf(entryWish), ReadIf(exitWish));
        entry, exit := FindAmong(ranked, entryWish, exitWish);
        assert Table(nodes) == table && Table(ranked) == ranking && (ReadIf(entryWish), ReadIf(exitWish)) == wishes;
      }
    }

    method FindFallback() returns (entry: RelayNodeScore, exit: RelayNodeScore)
      ensures (entry.Read(), exit.Read()) == Fallback(Table(nodes))
    {
      GetReads(nodes, "tokyo");
      GetReads(nodes, "frankfurt");
      entry := NodeOr(Get(nodes, "tokyo"), TOKYO);
      exit := NodeOr(Get(nodes, "frankfurt"), FRANKFURT);
    }

    method FindAmong(ranked: seq<RelayNodeScore>, entryWish: RelayNodeScore?, exitWish: RelayNodeScore?)
      returns (entry: RelayNodeScore, exit: RelayNodeScore)
      requires ranked != []
      ensures (entry.Read(), exit.Read()) == ChooseFrom(Table(ranked), ReadIf(entryWish), ReadIf(exitWish))
      ensures (entry == entryWish || entry in ranked) && (exit == exitWish || exit in ranked)
    {
      entry := if entryWish != null then entryWish else ranked[0];
      if exitWish != null && exitWish.nodeId != entry.nodeId {
        return entry, exitWish;
      }
      exit := ranked[0];
      for i := 0 to |ranked|
        invariant exit == ranked[0]
        invariant FirstOther(Table(ranked), entry.nodeId) == FirstOther(Table(ranked)[i..], entry.nodeId)
      {
        assert Table(ranked)[i..][1..] == Table(ranked)[i + 1..];
        if ranked[i].nodeId != entry.nodeId {
          exit := ranked[i];
          break;
        }
      }
    }
  }

  /** `dict.get` with a default that is a new node. */
  method NodeOr(found: RelayNodeScore?, other: Node) returns (r: RelayNodeScore)
    requires other == Node(other.id, other.host, other.port, other.rttMs, 2.0, 0.0, true)
    ensures r.Read() == OrElse(ReadIf(found), other)
  {
    if found != null {
      return found;
    }
    r := new RelayNodeScore(other.id, other.host, other.port, other.rttMs);
  }

  // ---------- The nodes and what is read from them ----------

  function ReadIf(n: RelayNodeScore?): Option<Node>
    reads n
  {
    if n == null then None else Some(n.Read())
  }

  function Table(nodes: seq<RelayNodeScore>): seq<Node>
    reads nodes
  {
    seq(|nodes|, i requires 0 <= i < |nodes| reads nodes => nodes[i].Read())
  }

  function Get(nodes: seq<RelayNodeScore>, id: string): (r: RelayNodeScore?)
    ensures r == null ==> forall n | n in nodes :: n.nodeId != id
    ensures r != null ==> r in nodes && r.nodeId == id
  {
    if nodes == [] then null else if nodes[0].nodeId == id then nodes[0] else Get(nodes[1..], id)
  }

  function Wish(nodes: seq<RelayNodeScore>, id: Option<string>): (r: RelayNodeScore?)
    ensures r != null ==> r in nodes
  {
    if id.None? || id.value == "" then null else Get(nodes, id.value)
  }

  function Candidates(nodes: seq<RelayNodeScore>): (r: seq<RelayNodeScore>)
    reads nodes
    ensures forall n | n in r :: n in nodes && n.isHealthy
    ensures forall n | n in nodes && n.isHealthy :: n in r
  {
    if nodes == [] then []
    else
      assert nodes == nodes[..|nodes| - 1] + [nodes[|nodes| - 1]];
      Candidates(nodes[..|nodes| - 1]) + if nodes[|nodes| - 1].isHealthy then [nodes[|nodes| - 1]] else []
  }

  /** Python's `sorted` on the nodes themselves, all of them in `all`. */
  function Sorted(ghost all: set<RelayNodeScore>, nodes: seq<RelayNodeScore>): (r: seq<RelayNodeScore>)
    requires forall n | n in nodes :: n in all
    reads all
    ensures forall n | n in r :: n in all
  {
    if nodes == [] then [] else InsertNode(all, Sorted(all, nodes[..|nodes| - 1]), nodes[|nodes| - 1])
  }

  function InsertNode(ghost all: set<RelayNodeScore>, nodes: seq<RelayNodeScore>, n: RelayNodeScore): (r: seq<RelayNodeScore>)
    requires n in all && forall m | m in nodes :: m in all
    reads all
    ensures forall m | m in r :: m in all
  {
    if nodes == [] || nodes[0].Read().Cost() > n.Read().Cost() then [n] + nodes
    else [nodes[0]] + InsertNode(all, nodes[1..], n)
  }

  lemma {:induction false} GetReads(nodes: seq<RelayNodeScore>, id: string)
    ensures ReadIf(Get(nodes, id)) == Lookup(Table(nodes), id)
  {
    if nodes == [] {
    } else {
      GetReads(nodes[1..], id);
      assert Table(nodes)[1..] == Table(nodes[1..]);
    }
  }

  lemma WishReads(nodes: seq<RelayNodeScore>, id: Option<string>)
    ensures ReadIf(Wish(nodes, id)) == Preferred(Table(nodes), id)
  {
    if id.Some? {
      GetReads(nodes, id.value);
    }
  }

  lemma {:induction false} CandidatesRead(nodes: seq<RelayNodeScore>)
    ensures Table(Candidates(nodes)) == Healthy(Table(nodes))
  {
    if nodes == [] {
    } else {
      CandidatesRead(nodes[..|nodes| - 1]);
      assert Table(nodes)[..|nodes| - 1] == Table(nodes[..|nodes| - 1]);
    }
  }

  lemma {:induction false} InsertReads(all: set<RelayNodeScore>, nodes: seq<RelayNodeScore>, n: RelayNodeScore)
    requires n in all && forall m | m in nodes :: m in all
    ensures Table(InsertNode(all, nodes, n)) == Insert(Table(nodes), n.Read())
  {
    if nodes == [] {
    } else {
      InsertReads(all, nodes[1..], n);
      assert Table(nodes)[1..] == Table(nodes[1..]);
    }
  }

  lemma {:induction false} SortedRead(all: set<RelayNodeScore>, nodes: seq<RelayNodeScore>)
    requires forall n | n in nodes :: n in all
    ensures Table(Sorted(all, nodes)) == SortByCost(Table(nodes))
  {
    if nodes == [] {
    } else {
      var init := nodes[..|nodes| - 1];
      SortedRead(all, init);
      assert Table(nodes)[..|nodes| - 1] == Table(init);
      InsertReads(all, Sorted(all, init), nodes[|nodes| - 1]);
    }
  }

  lemma RankedRead(nodes: seq<RelayNodeScore>, all: set<RelayNodeScore>, candidates: seq<RelayNodeScore>)
    requires candidates == Candidates(nodes) && forall n | n in candidates :: n in all
    ensures var ranked := Sorted(all, candidates);
            && Table(ranked) == SortByCost(Healthy(Table(nodes)))
            && (candidates == [] <==> ranked == []) && (ranked == [] <==> SortByCost(Healthy(Table(nodes))) == [])
  {
    CandidatesRead(nodes);
    SortedRead(all, candidates);
    assert |Table(candidates)| == |candidates| && |Table(Sorted(all, candidates))| == |Sorted(all, candidates)|;
    hide Candidates, Sorted, SortByCost, Healthy, Table;
  }
}
