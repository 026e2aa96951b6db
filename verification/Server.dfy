/** The server's session handling: handshakes, lookups, closing, the janitor and shutdown. */
module Server {
  import opened Wrappers
  import opened IpPool
  import opened SessionTables

  const SESSION_TIMEOUT := 60.0

  class ClientSession {
    const sessionId: nat
    const clientAddr: Endpoint
    const virtualIp: nat
    var lastSeen: real
    var bytesRx: nat

    constructor (sessionId: nat, clientAddr: Endpoint, virtualIp: nat, now: real)
      ensures Key() == Session(sessionId, clientAddr, virtualIp) && lastSeen == now && bytesRx == 0
    {
      this.sessionId, this.clientAddr, this.virtualIp := sessionId, clientAddr, virtualIp;
      lastSeen, bytesRx := now, 0;
    }

    function Key(): Session {
      Session(sessionId, clientAddr, virtualIp)
    }

    predicate Idle(now: real)
      reads this
    {
      now - lastSeen > SESSION_TIMEOUT
    }
  }

  function Keys<K>(table: map<K, ClientSession>): map<K, Session> {
    map k | k in table :: table[k].Key()
  }

  lemma KeysPut<K>(table: map<K, ClientSession>, k: K, s: ClientSession)
    ensures Keys(table[k := s]) == Keys(table)[k := s.Key()]
  {
  }

  lemma KeysDrop<K>(table: map<K, ClientSession>, ks: set<K>)
    ensures Keys(table - ks) == Keys(table) - ks
  {
  }

  function KeySet(sessions: seq<ClientSession>): set<Session> {
    set s | s in sessions :: s.Key()
  }

  function Ids(sessions: seq<ClientSession>): set<nat> {
    set s | s in sessions :: s.sessionId
  }

  class ShinVPNServer {
    const ipPool: IPPool
    var sessionsById: map<nat, ClientSession>
    var sessionsByAddr: map<Endpoint, ClientSession>
    var sessionsByVip: map<nat, ClientSession>

    ghost function View(): Tables
      reads this, ipPool
    {
      Tables(Keys(sessionsById), Keys(sessionsByAddr), Keys(sessionsByVip), ipPool.leased)
    }

    ghost predicate Valid()
      reads this, ipPool
    {
      Coherent(ipPool.net, View())
    }

    constructor (net: Subnet)
      ensures Valid() && View() == EMPTY && ipPool.net == net && fresh(ipPool)
    {
      ipPool := new IPPool(net);
      sessionsById, sessionsByAddr, sessionsByVip := map[], map[], map[];
    }

    /** The part of a handshake after authentication. False if the pool is exhausted. */
    method AcceptHandshake(sessionId: nat, addr: Endpoint, now: real) returns (ok: bool)
      requires Valid()
      modifies this, ipPool
      ensures Valid()
      ensures View() == Step(ipPool.net, old(View()), Handshake(sessionId, addr))
      ensures ok <==> sessionId in old(ipPool.leased)
                      || exists a :: ipPool.net.network < a < ipPool.net.broadcast && a != ipPool.net.server && a !in old(ipPool.leased).Values
      ensures !ok ==> unchanged(this) && ipPool.leased == old(ipPool.leased)
      ensures ok ==> sessionId in sessionsById && fresh(sessionsById[sessionId]) && sessionsById[sessionId].lastSeen == now
      ensures ok ==> var s := sessionsById[sessionId];
                     && s.sessionId == sessionId && s.clientAddr == addr
                     && sessionsById == old(sessionsById)[sessionId := s] && sessionsByAddr == old(sessionsByAddr)[addr := s]
                     && sessionsByVip == old(sessionsByVip)[s.virtualIp := s]
                     && ipPool.leased == old(ipPool.leased)[sessionId := s.virtualIp]
      ensures sessionId in old(ipPool.leased) ==> ok && ipPool.leased == old(ipPool.leased)
      ensures ok && sessionId !in old(ipPool.leased) ==>
                var vip := sessionsById[sessionId].virtualIp;
                && ipPool.net.network < vip < ipPool.net.broadcast && vip != ipPool.net.server && vip !in old(ipPool.leased).Values
                && forall b | ipPool.net.network < b < vip && b != ipPool.net.server :: b in old(ipPool.leased).Values
    {
      ghost var before := View();
      StepCoherent(ipPool.net, before, Handshake(sessionId, addr));
      LeasesCoherent(ipPool.net, before);
      assert sessionId in sessionsById <==> sessionId in before.byId;
      hide Coherent, Keys;
      var vip := ipPool.Allocate(sessionId);
      if vip.None? {
        return false;
      }
      var session := new ClientSession(sessionId, addr, vip.value, now);
      Enter(session);
      assert View() == Register(before, session.Key());
      return true;
    }

    /** Puts a session into the three tables. */
    method Enter(s: ClientSession)
      modifies this
      ensures sessionsById == old(sessionsById)[s.sessionId := s] && sessionsByAddr == old(sessionsByAddr)[s.clientAddr := s]
      ensures sessionsByVip == old(sessionsByVip)[s.virtualIp := s]
      ensures Keys(sessionsById) == old(Keys(sessionsById))[s.sessionId := s.Key()]
      ensures Keys(sessionsByAddr) == old(Keys(sessionsByAddr))[s.clientAddr := s.Key()]
      ensures Keys(sessionsByVip) == old(Keys(sessionsByVip))[s.virtualIp := s.Key()]
    {
      KeysPut(sessionsById, s.sessionId, s);
      KeysPut(sessionsByAddr, s.clientAddr, s);
      KeysPut(sessionsByVip, s.virtualIp, s);
      sessionsById := sessionsById[s.sessionId := s];
      sessionsByAddr := sessionsByAddr[s.clientAddr := s];
      sessionsByVip := sessionsByVip[s.virtualIp := s];
    }

    /** A frame for a live session refreshes it and nothing else. */
    method Lookup(sessionId: nat, now: real, size: nat) returns (session: ClientSession?)
      modifies if sessionId in sessionsById then {sessionsById[sessionId]} else {}
      ensures session == if sessionId in sessionsById then sessionsById[sessionId] else null
      ensures session != null ==> session.lastSeen == now && session.bytesRx == old(session.bytesRx) + size
      ensures View() == old(View())
    {
      if sessionId !in sessionsById {
        return null;
      }
      session := sessionsById[sessionId];
      session.lastSeen := now;
      session.bytesRx := session.bytesRx + size;
    }

    method CloseSession(session: ClientSession)
      requires Valid()
      modifies this, ipPool
      ensures Valid() && View() == Sweep(old(View()), {session.Key()})
      ensures sessionsById == old(sessionsById) - {session.sessionId} && sessionsByAddr == old(sessionsByAddr) - {session.clientAddr}
      ensures sessionsByVip == old(sessionsByVip) - {session.virtualIp} && ipPool.leased == old(ipPool.leased) - {session.sessionId}
    {
      SweepCoherent(ipPool.net, View(), {session.Key()});
      SweepOne(View(), session.Key());
      LeasesCoherent(ipPool.net, View());
      KeysDrop(sessionsById, {session.sessionId});
      KeysDrop(sessionsByAddr, {session.clientAddr});
      KeysDrop(sessionsByVip, {session.virtualIp});
      hide Coherent, Sweep, Keys;
      sessionsById := sessionsById - {session.sessionId};
      sessionsByAddr := sessionsByAddr - {session.clientAddr};
      sessionsByVip := sessionsByVip - {session.virtualIp};
      ipPool.Release(session.sessionId);
    }

    method HandleDisconnect(sessionId: nat)
      requires Valid()
      modifies this, ipPool
      ensures Valid() && View() == Step(ipPool.net, old(View()), Disconnect(sessionId))
      ensures sessionId !in sessionsById && sessionId !in ipPool.leased
      ensures sessionsById == old(sessionsById) - {sessionId} && ipPool.leased == old(ipPool.leased) - {sessionId}
    {
      assert sessionsById.Keys == View().byId.Keys == ipPool.leased.Keys;
      hide Coherent, Sweep;
      if sessionId in sessionsById {
        CloseSession(sessionsById[sessionId]);
      }
    }

    method HandleStealthDisconnect(addr: Endpoint)
      requires Valid()
      modifies this, ipPool
      ensures Valid() && View() == Step(ipPool.net, old(View()), Drop(addr))
      ensures addr !in sessionsByAddr
      ensures addr !in old(sessionsByAddr) ==> unchanged(this) && ipPool.leased == old(ipPool.leased)
      ensures addr in old(sessionsByAddr) ==>
                var s := old(sessionsByAddr[addr]);
                && sessionsById == old(sessionsById) - {s.sessionId} && ipPool.leased == old(ipPool.leased) - {s.sessionId}
                && sessionsByAddr == old(sessionsByAddr) - {addr, s.clientAddr} && sessionsByVip == old(sessionsByVip) - {s.virtualIp}
    {
      if addr in sessionsByAddr {
        var session := sessionsByAddr[addr];
        sessionsByAddr := sessionsByAddr - {addr};
        assert View() == old(View().(byAddr := View().byAddr - {addr}));
        hide Sweep, Keys;
        CloseSession(session);
      }
    }

    /** Closes a snapshot of sessions one by one, which is closing them all at once. */
    method CloseEach(sessions: seq<ClientSession>)
      requires Valid()
      modifies this, ipPool
      ensures Valid() && View() == Sweep(old(View()), KeySet(sessions))
      ensures sessionsById == old(sessionsById) - Ids(sessions) && ipPool.leased == old(ipPool.leased) - Ids(sessions)
    {
      SweepNone(View());
      NoSessions();
      hide Sweep, Coherent, Keys, KeySet, Ids;
      for k := 0 to |sessions|
        invariant Valid() && View() == Sweep(old(View()), KeySet(sessions[..k]))
        invariant sessionsById == old(sessionsById) - Ids(sessions[..k]) && ipPool.leased == old(ipPool.leased) - Ids(sessions[..k])
      {
        SweepTwice(old(View()), KeySet(sessions[..k]), {sessions[k].Key()});
        OneMoreSession(sessions, k);
        MinusTwice(old(sessionsById), Ids(sessions[..k]), {sessions[k].sessionId});
        MinusTwice(old(ipPool.leased), Ids(sessions[..k]), {sessions[k].sessionId});
        CloseSession(sessions[k]);
      }
      assert sessions[..|sessions|] == sessions;
    }

    /** The live sessions of some identifiers, as a list. */
    method Snapshot(ids: set<nat>) returns (sessions: seq<ClientSession>)
      requires Valid() && ids <= sessionsById.Keys
      ensures KeySet(sessions) == Chosen(View().byId, ids) && Ids(sessions) == ids
    {
      sessions := [];
      var left := ids;
      while left != {}
        invariant left <= ids
        invariant KeySet(sessions) == Chosen(Keys(sessionsById), ids - left) && Ids(sessions) == ids - left
      {
        var id :| id in left;
        assert View().byId[id].id == id;
        assert Ids(sessions + [sessionsById[id]]) == Ids(sessions) + {id};
        assert KeySet(sessions + [sessionsById[id]]) == KeySet(sessions) + {sessionsById[id].Key()};
        ChosenMore(Keys(sessionsById), ids - left, id);
        assert ids - (left - {id}) == ids - left + {id};
        sessions := sessions + [sessionsById[id]];
        left := left - {id};
      }
      assert ids - left == ids;
    }

    /** One round of the janitor closes exactly the sessions that were silent for too long. */
    method SweepIdle(now: real)
      requires Valid()
      modifies this, ipPool
      ensures Valid()
      ensures View() == Step(ipPool.net, old(View()), Expire(old(set id | id in sessionsById && sessionsById[id].Idle(now))))
      ensures forall id | id in old(sessionsById) :: id in sessionsById <==> now - old(sessionsById[id].lastSeen) <= 60.0
      ensures forall id | id in sessionsById :: id in old(sessionsById) && sessionsById[id] == old(sessionsById[id])
      ensures ipPool.leased.Keys == sessionsById.Keys
      ensures forall id | id in ipPool.leased :: id in old(ipPool.leased) && ipPool.leased[id] == old(ipPool.leased[id])
    {
      assert sessionsById.Keys == View().byId.Keys == ipPool.leased.Keys;
      var stale := Snapshot(set id | id in sessionsById && sessionsById[id].Idle(now));
      hide Sweep, Coherent, Keys, KeySet, Chosen;
      CloseEach(stale);
    }

    method Shutdown()
      requires Valid()
      modifies this, ipPool
      ensures Valid() && View() == Step(ipPool.net, old(View()), Stop)
      ensures sessionsById == map[] && ipPool.leased == map[]
    {
      assert sessionsById.Keys == ipPool.leased.Keys;
      var all := Snapshot(sessionsById.Keys);
      assert sessionsById.Keys == View().byId.Keys;
      hide Sweep, Coherent, Keys, KeySet, Chosen;
      CloseEach(all);
    }
  }

  lemma NoSessions()
    ensures KeySet([]) == {} && Ids([]) == {}
  {
  }

  lemma OneMoreSession(sessions: seq<ClientSession>, k: nat)
    requires k < |sessions|
    ensures KeySet(sessions[..k + 1]) == KeySet(sessions[..k]) + {sessions[k].Key()}
    ensures Ids(sessions[..k + 1]) == Ids(sessions[..k]) + {sessions[k].sessionId}
  {
    assert sessions[..k + 1] == sessions[..k] + [sessions[k]];
  }

  lemma MinusTwice<K, V>(m: map<K, V>, a: set<K>, b: set<K>)
    ensures m - a - b == m - (a + b)
  {
  }

  lemma LeasesCoherent(net: Subnet, t: Tables)
    requires Coherent(net, t)
    ensures net.Coherent(t.leases)
  {
  }

  lemma ChosenMore(byId: map<nat, Session>, ids: set<nat>, id: nat)
    requires id in byId
    ensures Chosen(byId, ids + {id}) == Chosen(byId, ids) + {byId[id]}
  {
    assert forall s | s in Chosen(byId, ids) :: s in Chosen(byId, ids + {id});
    assert byId[id] in Chosen(byId, ids + {id});
  }

  lemma SweepNone(t: Tables)
    ensures Sweep(t, {}) == t
  {
  }
}
