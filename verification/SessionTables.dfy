/** The server's tables of live sessions, by identifier, by address and by virtual address, with the
    leases of its address pool. */
module SessionTables {
  import opened Wrappers
  import opened IpPool

  datatype Endpoint = Endpoint(host: string, port: nat)

  /** What a session is known by. None of it changes while the session lives. */
  datatype Session = Session(id: nat, addr: Endpoint, vip: nat)

  datatype Tables = Tables(
    byId: map<nat, Session>, byAddr: map<Endpoint, Session>, byVip: map<nat, Session>, leases: map<nat, nat>)

  const EMPTY := Tables(map[], map[], map[], map[])

  // ---------- Steps ----------

  /** A handshake that was granted an address. Older entries under the same keys are overwritten. */
  function Register(t: Tables, s: Session): Tables {
    Tables(t.byId[s.id := s], t.byAddr[s.addr := s], t.byVip[s.vip := s], t.leases[s.id := s.vip])
  }

  /** Closing sessions removes whatever stands under their keys, theirs or not. */
  function Sweep(t: Tables, gone: set<Session>): Tables {
    var ids := set s | s in gone :: s.id;
    Tables(t.byId - ids, t.byAddr - (set s | s in gone :: s.addr), t.byVip - (set s | s in gone :: s.vip), t.leases - ids)
  }

  datatype Event =
    | Handshake(id: nat, addr: Endpoint)   // authenticated already
    | Disconnect(id: nat)                  // a graceful disconnect frame
    | Drop(addr: Endpoint)                 // a stealth connection went away
    | Expire(ids: set<nat>)                // the janitor found these idle
    | Stop

  function Step(net: Subnet, t: Tables, e: Event): Tables {
    match e
    case Handshake(id, addr) =>
      (match net.Choice(t.leases, id, None)
       case None => t
       case Some(vip) => Register(t, Session(id, addr, vip)))
    case Disconnect(id) => if id in t.byId then Sweep(t, {t.byId[id]}) else t
    case Drop(addr) =>
      if addr in t.byAddr then Sweep(t.(byAddr := t.byAddr - {addr}), {t.byAddr[addr]}) else t
    case Expire(ids) => Sweep(t, Chosen(t.byId, ids))
    case Stop => Sweep(t, Chosen(t.byId, t.byId.Keys))
  }

  function Chosen(byId: map<nat, Session>, ids: set<nat>): set<Session> {
    set id | id in ids && id in byId :: byId[id]
  }

  function Run(net: Subnet, events: seq<Event>): Tables {
    if events == [] then EMPTY else Step(net, Run(net, events[..|events| - 1]), events[|events| - 1])
  }

  // ---------- What every run keeps ----------

  /** The leases are those of the live sessions, and each session has the address of its lease. */
  ghost predicate Coherent(net: Subnet, t: Tables) {
    && t.byId.Keys == t.leases.Keys
    && (forall id | id in t.byId :: t.byId[id].id == id && t.byId[id].vip == t.leases[id])
    && net.Coherent(t.leases)
  }

  /** Closing anything, even a session that was long replaced, frees the lease and the entry together. */
  lemma SweepCoherent(net: Subnet, t: Tables, gone: set<Session>)
    requires Coherent(net, t)
    ensures Coherent(net, Sweep(t, gone))
  {
  }

  lemma StepCoherent(net: Subnet, t: Tables, e: Event)
    requires Coherent(net, t)
    ensures Coherent(net, Step(net, t, e))
  {
    if e.Handshake? {
      AllocateCoherent(net, t.leases, e.id, None);
      var choice := net.Choice(t.leases, e.id, None);
      if choice.Some? {
        assert net.Allocate(t.leases, e.id, None) == t.leases[e.id := choice.value];
      }
    }
  }

  /** Whatever clients, the janitor and lost connections do, in any order and with any reuse of
      identifiers and addresses, the leases are exactly the live sessions' and no two live sessions share an
      address. */
  lemma {:induction false} RunCoherent(net: Subnet, events: seq<Event>)
    ensures var t := Run(net, events);
            && Coherent(net, t) && t.byId.Keys == t.leases.Keys
            && (forall id | id in t.byId :: t.byId[id].id == id && t.leases[id] == t.byId[id].vip
                                            && net.network < t.byId[id].vip < net.broadcast && t.byId[id].vip != net.server)
            && forall i, j | i in t.byId && j in t.byId && i != j :: t.byId[i].vip != t.byId[j].vip
  {
    if events == [] {
    } else {
      RunCoherent(net, events[..|events| - 1]);
      StepCoherent(net, Run(net, events[..|events| - 1]), events[|events| - 1]);
    }
  }

  /** Stopping returns every lease and forgets every session, after any run. */
  lemma StopReturnsLeases(net: Subnet, events: seq<Event>)
    ensures var t := Run(net, events + [Stop]); t.byId == map[] && t.leases == map[]
  {
    assert (events + [Stop])[..|events + [Stop]| - 1] == events;
    RunCoherent(net, events);
    var t := Run(net, events);
    var gone := Chosen(t.byId, t.byId.Keys);
    forall id | id in t.byId ensures id in (set s | s in gone :: s.id) {
      assert t.byId[id] in gone;
    }
  }

  // ---------- When the address tables are inverse indexes ----------

  /** `table` holds exactly the live sessions, each under its own key. */
  ghost predicate Inverse<K(!new)>(byId: map<nat, Session>, table: map<K, Session>, key: Session -> K) {
    && (forall id | id in byId :: Holds(table, key(byId[id]), byId[id]))
    && (forall k | k in table :: key(table[k]) == k && Holds(byId, table[k].id, table[k]))
  }

  predicate Holds<K>(table: map<K, Session>, k: K, s: Session) {
    k in table && table[k] == s
  }

  const ADDR_OF: Session -> Endpoint := (s: Session) => s.addr
  const VIP_OF: Session -> nat := (s: Session) => s.vip

  ghost predicate Indexed(t: Tables) {
    Inverse(t.byId, t.byAddr, ADDR_OF) && Inverse(t.byId, t.byVip, VIP_OF)
  }

  /** A new entry keeps a table inverse exactly when neither its identifier nor its key belongs to a
      different entry. */
  lemma RegisterInverse<K(!new)>(byId: map<nat, Session>, table: map<K, Session>, key: Session -> K, s: Session)
    requires Inverse(byId, table, key) && forall id | id in byId :: byId[id].id == id
    ensures Inverse(byId[s.id := s], table[key(s) := s], key)
       <==> ((s.id in byId ==> key(byId[s.id]) == key(s)) && (key(s) in table ==> table[key(s)].id == s.id))
  {
    var ids, keys := byId[s.id := s], table[key(s) := s];
    if s.id in byId && key(byId[s.id]) != key(s) {
      var left := byId[s.id];
      assert Holds(table, key(left), left);
      assert !Holds(ids, keys[key(left)].id, keys[key(left)]);
    } else if key(s) in table && table[key(s)].id != s.id {
      var robbed := table[key(s)];
      assert Holds(byId, robbed.id, robbed);
      assert !Holds(keys, key(ids[robbed.id]), ids[robbed.id]);
    } else {
      forall id | id in ids ensures Holds(keys, key(ids[id]), ids[id]) {
        if id != s.id {
          assert Holds(table, key(byId[id]), byId[id]);
        }
      }
      forall k | k in keys ensures key(keys[k]) == k && Holds(ids, keys[k].id, keys[k]) {
        if k != key(s) {
          assert Holds(byId, table[k].id, table[k]);
        }
      }
    }
  }

  lemma SweepInverse<K(!new)>(byId: map<nat, Session>, table: map<K, Session>, key: Session -> K, gone: set<Session>)
    requires Inverse(byId, table, key) && forall s | s in gone :: Holds(byId, s.id, s)
    requires forall id | id in byId :: byId[id].id == id
    ensures Inverse(byId - (set s | s in gone :: s.id), table - (set s | s in gone :: key(s)), key)
  {
    var ids, keys := byId - (set s | s in gone :: s.id), table - (set s | s in gone :: key(s));
    forall id | id in ids ensures Holds(keys, key(ids[id]), ids[id]) {
      var s := byId[id];
      assert Holds(table, key(s), s);
      forall g | g in gone ensures key(g) != key(s) {
        assert Holds(byId, g.id, g);
        assert Holds(table, key(byId[g.id]), byId[g.id]);
      }
    }
    forall k | k in keys ensures key(keys[k]) == k && Holds(ids, keys[k].id, keys[k]) {
      assert Holds(byId, table[k].id, table[k]);
      forall g | g in gone ensures g.id != table[k].id {
        assert Holds(byId, g.id, g);
      }
    }
  }

  /** The identifier is new or comes back from its own address, and the address is new or its own. */
  predicate Unshared(t: Tables, id: nat, addr: Endpoint) {
    (id in t.byId ==> t.byId[id].addr == addr) && (addr in t.byAddr ==> t.byAddr[addr].id == id)
  }

  lemma RegisterIndexed(net: Subnet, t: Tables, s: Session)
    requires Coherent(net, t) && Indexed(t) && net.Choice(t.leases, s.id, None) == Some(s.vip)
    ensures Indexed(Register(t, s)) <==> Unshared(t, s.id, s.addr)
  {
    RegisterInverse(t.byId, t.byAddr, ADDR_OF, s);
    RegisterInverse(t.byId, t.byVip, VIP_OF, s);
    if s.vip in t.byVip {
      var other := t.byVip[s.vip];
      assert Holds(t.byId, other.id, other);
      assert t.leases[other.id] == s.vip;
    }
  }

  lemma SweepIndexed(net: Subnet, t: Tables, gone: set<Session>)
    requires Coherent(net, t) && Indexed(t) && forall s | s in gone :: Holds(t.byId, s.id, s)
    ensures Indexed(Sweep(t, gone))
  {
    SweepInverse(t.byId, t.byAddr, ADDR_OF, gone);
    SweepInverse(t.byId, t.byVip, VIP_OF, gone);
    assert (set s | s in gone :: s.addr) == (set s | s in gone :: ADDR_OF(s));
    assert (set s | s in gone :: s.vip) == (set s | s in gone :: VIP_OF(s));
  }

  /** One step keeps the tables inverse exactly when it is not a handshake that shares a key with another
      live session. */
  lemma StepIndexed(net: Subnet, t: Tables, e: Event)
    requires Coherent(net, t) && Indexed(t)
    ensures Indexed(Step(net, t, e)) <==> Harmless(net, t, e)
  {
    hide Indexed, Unshared, Sweep, Register;
    match e
    case Handshake(id, addr) =>
      var choice := net.Choice(t.leases, id, None);
      if choice.Some? {
        RegisterIndexed(net, t, Session(id, addr, choice.value));
      }
    case Disconnect(id) =>
      if id in t.byId { SweepIndexed(net, t, {t.byId[id]}); }
    case Drop(addr) =>
      if addr in t.byAddr {
        DropIsClose(net, t, addr);
        SweepIndexed(net, t, {t.byAddr[addr]});
      }
    case Expire(ids) =>
      SweepIndexed(net, t, Chosen(t.byId, ids));
    case Stop =>
      SweepIndexed(net, t, Chosen(t.byId, t.byId.Keys));
  }

  /** With exact tables, a lost connection closes the live session of that address. */
  lemma DropIsClose(net: Subnet, t: Tables, addr: Endpoint)
    requires Coherent(net, t) && Indexed(t) && addr in t.byAddr
    ensures Holds(t.byId, t.byAddr[addr].id, t.byAddr[addr])
    ensures Sweep(t.(byAddr := t.byAddr - {addr}), {t.byAddr[addr]}) == Sweep(t, {t.byAddr[addr]})
  {
    assert ADDR_OF(t.byAddr[addr]) == addr;
  }

  predicate Harmless(net: Subnet, t: Tables, e: Event) {
    e.Handshake? && net.Choice(t.leases, e.id, None).Some? ==> Unshared(t, e.id, e.addr)
  }

  predicate AllHarmless(net: Subnet, events: seq<Event>) {
    events == []
    || (AllHarmless(net, events[..|events| - 1]) && Harmless(net, Run(net, events[..|events| - 1]), events[|events| - 1]))
  }

  ghost predicate AlwaysIndexed(net: Subnet, events: seq<Event>) {
    Indexed(Run(net, events)) && (events == [] || AlwaysIndexed(net, events[..|events| - 1]))
  }

  /** The address tables are inverse indexes throughout a run exactly when no granted handshake in it
      shares an identifier or an address with another live session. */
  lemma {:induction false} RunIndexed(net: Subnet, events: seq<Event>)
    ensures AlwaysIndexed(net, events) <==> AllHarmless(net, events)
  {
    if events == [] {
    } else {
      hide Indexed, Harmless, Step;
      var init := events[..|events| - 1];
      RunIndexed(net, init);
      RunCoherent(net, init);
      assert AlwaysIndexed(net, init) ==> Indexed(Run(net, init));
      if Indexed(Run(net, init)) {
        StepIndexed(net, Run(net, init), events[|events| - 1]);
      }
    }
  }

  /** With no sharing, stopping leaves all four tables empty. */
  lemma StopLeavesNothing(net: Subnet, events: seq<Event>)
    requires AllHarmless(net, events)
    ensures Run(net, events + [Stop]) == EMPTY
  {
    assert (events + [Stop])[..|events + [Stop]| - 1] == events;
    RunIndexed(net, events + [Stop]);
    StopReturnsLeases(net, events);
    var t := Run(net, events + [Stop]);
    assert Indexed(t);
    assert forall a | a in t.byAddr :: Holds(t.byId, t.byAddr[a].id, t.byAddr[a]);
    assert forall v | v in t.byVip :: Holds(t.byId, t.byVip[v].id, t.byVip[v]);
    assert t.byAddr == map[] && t.byVip == map[];
  }

  /** What sharing does later: a client that came back from a second address leaves its first one behind,
      and when that one is dropped an unrelated live session loses its entry by virtual address. */
  lemma LateDropHitsAnother(net: Subnet, i: nat, j: nat, a: Endpoint, b: Endpoint, c: Endpoint)
    requires i != j && a != b && a != c && net.Choice(map[], i, None).Some?
    ensures var t2 := Step(net, Step(net, EMPTY, Handshake(i, a)), Handshake(i, b));
            var t4 := Step(net, Step(net, t2, Disconnect(i)), Handshake(j, c));
            var t := Step(net, t4, Drop(a));
            j in t.byId && t.byId[j].vip !in t.byVip
  {
    var vip := net.Choice(map[], i, None).value;
    var first, second, other := Session(i, a, vip), Session(i, b, vip), Session(j, c, vip);
    var t1 := Register(EMPTY, first);
    var t2 := Register(t1, second);
    var t3 := Sweep(t2, {second});
    var t4 := Register(t3, other);
    assert Step(net, t1, Handshake(i, b)) == t2;
    assert Step(net, t2, Disconnect(i)) == t3;
    assert t3.leases == map[] && t3.byAddr[a] == first;
    assert Step(net, t3, Handshake(j, c)) == t4;
    assert t4.byId == map[j := other] && t4.byAddr[a] == first;
  }

  lemma SweepOne(t: Tables, s: Session)
    ensures Sweep(t, {s}) == Tables(t.byId - {s.id}, t.byAddr - {s.addr}, t.byVip - {s.vip}, t.leases - {s.id})
  {
    assert (set g | g in {s} :: g.id) == {s.id};
    assert (set g | g in {s} :: g.addr) == {s.addr};
    assert (set g | g in {s} :: g.vip) == {s.vip};
  }

  lemma SweepTwice(t: Tables, a: set<Session>, b: set<Session>)
    ensures Sweep(Sweep(t, a), b) == Sweep(t, a + b)
  {
  }
}
