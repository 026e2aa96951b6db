/** One direction of a session over a network that drops, duplicates, reorders and forges packets. */
module Channel {
  import opened Bytes
  import opened Wrappers
  import opened ReplayWindow
  import opened Cipher

  datatype Delivery = Delivery(seqNum: nat, plaintext: bytes)

  /** Everything sent so far, the receiver's filter, and what the receiver handed on, in order. */
  datatype State = State(sent: seq<bytes>, rx: Ideal, delivered: seq<Delivery>)

  /** A packet is dropped by never arriving; it is duplicated or overtaken by arriving again or late. A forged
      packet carries any number and any bytes that do not open under it. */
  datatype Event = Send(plaintext: bytes) | Arrive(packet: nat) | Forge(seqNum: nat, ciphertext: bytes)

  const START := State([], EMPTY, [])

  predicate Bogus(keys: Keys, e: Event) {
    e.Forge? && HasNonce(keys.sessionId, e.seqNum)
    && keys.aead.open(keys.key, Nonce(keys.sessionId, e.seqNum), e.ciphertext, []) == None
  }

  predicate Enabled(keys: Keys, s: State, e: Event) {
    match e
    case Send(_) => HasNonce(keys.sessionId, |s.sent| + 1)
    case Arrive(k) => k < |s.sent| && HasNonce(keys.sessionId, k + 1)
    case Forge(_, _) => Bogus(keys, e)
  }

  /** What the receiver does with a packet. */
  function Handle(keys: Keys, s: State, seqNum: nat, ciphertext: bytes): State {
    var answer := Open(keys, s.rx, seqNum, ciphertext, []);
    State(s.sent, s.rx.Offer(WINDOW, seqNum),
          if answer.Ok? then s.delivered + [Delivery(seqNum, answer.value)] else s.delivered)
  }

  function Step(keys: Keys, s: State, e: Event): State
    requires Enabled(keys, s, e)
  {
    match e
    case Send(p) => s.(sent := s.sent + [p])
    case Arrive(k) => Handle(keys, s, k + 1, Seal(keys, k + 1, s.sent[k], []).value)
    case Forge(n, c) => Handle(keys, s, n, c)
  }

  /** The state after a history; an event that cannot happen where it stands is skipped. */
  function After(keys: Keys, events: seq<Event>): State {
    if events == [] then START
    else
      var s, e := After(keys, events[..|events| - 1]), events[|events| - 1];
      if Enabled(keys, s, e) then Step(keys, s, e) else s
  }

  /** What an arrival does under an ideal AEAD. */
  function Receive(s: State, k: nat): State
    requires k < |s.sent|
  {
    if s.rx.Accepts(WINDOW, k + 1)
    then State(s.sent, s.rx.Offer(WINDOW, k + 1), s.delivered + [Delivery(k + 1, s.sent[k])])
    else s
  }

  lemma StepReceives(keys: Keys, s: State, k: nat)
    requires keys.aead.Lawful() && Enabled(keys, s, Arrive(k))
    ensures Step(keys, s, Arrive(k)) == Receive(s, k)
  {
    OpenSealed(keys, s.rx, k + 1, s.sent[k], []);
  }

  /** A forged packet delivers nothing, but the filter records its number before the tag is checked. */
  lemma StepForges(keys: Keys, s: State, e: Event)
    requires Bogus(keys, e)
    ensures Step(keys, s, e) == s.(rx := s.rx.Offer(WINDOW, e.seqNum))
  {
  }

  predicate Genuine(sent: seq<bytes>, events: seq<Event>, d: Delivery) {
    1 <= d.seqNum <= |sent| && d.plaintext == sent[d.seqNum - 1] && Arrive(d.seqNum - 1) in events
  }

  ghost predicate Forged(keys: Keys, events: seq<Event>, n: nat) {
    exists e :: e in events && Bogus(keys, e) && e.seqNum == n
  }

  predicate DeliveredNumber(delivered: seq<Delivery>, n: nat) {
    exists i | 0 <= i < |delivered| :: delivered[i].seqNum == n
  }

  /** Every delivered number was accepted, none is delivered twice, and an accepted number that was not delivered
      was forged. */
  ghost predicate Tallies(keys: Keys, events: seq<Event>, s: State) {
    && (forall n :: n in s.rx.accepted ==> DeliveredNumber(s.delivered, n) || Forged(keys, events, n))
    && (forall i | 0 <= i < |s.delivered| :: s.delivered[i].seqNum in s.rx.accepted)
    && (forall i, j | 0 <= i < j < |s.delivered| :: s.delivered[i].seqNum != s.delivered[j].seqNum)
  }

  ghost predicate Coherent(keys: Keys, s: State, events: seq<Event>) {
    && s.rx.Valid()
    && Tallies(keys, events, s)
    && (forall i | 0 <= i < |s.delivered| :: Genuine(s.sent, events, s.delivered[i]))
    && (forall e | e in events && Bogus(keys, e) :: !s.rx.Accepts(WINDOW, e.seqNum))
  }

  /** What the filter refuses once it refuses for good. */
  lemma StaysRefused(rx: Ideal, n: nat, m: nat)
    requires rx.Valid() && (n == m || !rx.Accepts(WINDOW, n))
    ensures rx.Offer(WINDOW, m).Valid() && !rx.Offer(WINDOW, m).Accepts(WINDOW, n)
  {
  }

  lemma ForgedMore(keys: Keys, events: seq<Event>, e: Event, n: nat)
    ensures Forged(keys, events + [e], n) <==> Forged(keys, events, n) || (Bogus(keys, e) && e.seqNum == n)
  {
    if Forged(keys, events, n) {
      var f :| f in events && Bogus(keys, f) && f.seqNum == n;
      assert f in events + [e];
    }
    if Bogus(keys, e) && e.seqNum == n {
      assert e in events + [e];
    }
  }

  /** In every run each packet is delivered at most once, unaltered, and only after it arrived, whatever is forged. */
  lemma {:induction false} AtMostOnceUnaltered(keys: Keys, events: seq<Event>)
    requires keys.aead.Lawful()
    ensures Coherent(keys, After(keys, events), events)
  {
    if events == [] {
    } else {
      var init, e := events[..|events| - 1], events[|events| - 1];
      AtMostOnceUnaltered(keys, init);
      assert events == init + [e];
      var s := After(keys, init);
      hide Coherent, Step, Receive;
      if !Enabled(keys, s, e) {
        SkipCoherent(keys, s, e, init);
      } else {
        match e
        case Send(p) => SendCoherent(keys, s, p, init);
        case Arrive(k) =>
          StepReceives(keys, s, k);
          ReceiveCoherent(keys, s, k, init);
        case Forge(n, c) =>
          StepForges(keys, s, e);
          ForgeCoherent(keys, s, e, init);
      }
    }
  }

  lemma SkipCoherent(keys: Keys, s: State, e: Event, init: seq<Event>)
    requires Coherent(keys, s, init) && !Bogus(keys, e)
    ensures Coherent(keys, s, init + [e])
  {
    forall n ensures Forged(keys, init + [e], n) <==> Forged(keys, init, n) { ForgedMore(keys, init, e, n); }
  }

  lemma SendCoherent(keys: Keys, s: State, p: bytes, init: seq<Event>)
    requires Coherent(keys, s, init)
    ensures Coherent(keys, s.(sent := s.sent + [p]), init + [Send(p)])
  {
    forall n ensures Forged(keys, init + [Send(p)], n) <==> Forged(keys, init, n) { ForgedMore(keys, init, Send(p), n); }
  }

  lemma ReceiveCoherent(keys: Keys, s: State, k: nat, init: seq<Event>)
    requires k < |s.sent| && Coherent(keys, s, init)
    ensures Coherent(keys, Receive(s, k), init + [Arrive(k)])
  {
    var next := Receive(s, k);
    forall n ensures Forged(keys, init + [Arrive(k)], n) <==> Forged(keys, init, n) { ForgedMore(keys, init, Arrive(k), n); }
    hide Forged;
    forall e | e in init && Bogus(keys, e) ensures !next.rx.Accepts(WINDOW, e.seqNum) {
      StaysRefused(s.rx, e.seqNum, k + 1);
    }
    if s.rx.Accepts(WINDOW, k + 1) {
      var d := Delivery(k + 1, s.sent[k]);
      forall n
        ensures DeliveredNumber(s.delivered + [d], n) <==> DeliveredNumber(s.delivered, n) || d.seqNum == n
      {
        DeliveredMore(s.delivered, d, n);
      }
      hide DeliveredNumber;
      assert Tallies(keys, init + [Arrive(k)], next);
      hide Tallies;
    }
  }

  lemma DeliveredMore(delivered: seq<Delivery>, d: Delivery, n: nat)
    ensures DeliveredNumber(delivered + [d], n) <==> DeliveredNumber(delivered, n) || d.seqNum == n
  {
    var longer := delivered + [d];
    assert longer[|delivered|] == d;
    if DeliveredNumber(delivered, n) {
      var i :| 0 <= i < |delivered| && delivered[i].seqNum == n;
      assert longer[i].seqNum == n;
    }
  }

  lemma ForgeCoherent(keys: Keys, s: State, e: Event, init: seq<Event>)
    requires Bogus(keys, e) && Coherent(keys, s, init)
    ensures Coherent(keys, s.(rx := s.rx.Offer(WINDOW, e.seqNum)), init + [e])
  {
    var rx := s.rx.Offer(WINDOW, e.seqNum);
    forall n | n in rx.accepted ensures DeliveredNumber(s.delivered, n) || Forged(keys, init + [e], n) {
      ForgedMore(keys, init, e, n);
    }
    forall f | f in init + [e] && Bogus(keys, f) ensures !rx.Accepts(WINDOW, f.seqNum) {
      StaysRefused(s.rx, f.seqNum, e.seqNum);
    }
  }

  /** A first arrival is delivered exactly when no packet was forged with its number and it is at most 127 behind the
      newest accepted number, forged ones included. */
  lemma FirstArrivalDelivered(keys: Keys, events: seq<Event>, k: nat)
    requires keys.aead.Lawful()
    requires Enabled(keys, After(keys, events), Arrive(k)) && Arrive(k) !in events
    ensures var s := After(keys, events);
            After(keys, events + [Arrive(k)]).delivered
            == if !Forged(keys, events, k + 1) && s.rx.newest <= k + 1 + 127
               then s.delivered + [Delivery(k + 1, s.sent[k])] else s.delivered
  {
    var s := After(keys, events);
    AtMostOnceUnaltered(keys, events);
    StepReceives(keys, s, k);
    assert (events + [Arrive(k)])[..|events|] == events;
    NotArrived(keys, s, events, k);
    FilterDecides(keys, s, events, k + 1);
    hide Coherent, Forged, DeliveredNumber, Step;
  }

  lemma NotArrived(keys: Keys, s: State, events: seq<Event>, k: nat)
    requires Coherent(keys, s, events) && Arrive(k) !in events
    ensures !DeliveredNumber(s.delivered, k + 1)
  {
  }

  lemma FilterDecides(keys: Keys, s: State, events: seq<Event>, n: nat)
    requires Coherent(keys, s, events) && !DeliveredNumber(s.delivered, n) && n >= 1
    ensures s.rx.Accepts(WINDOW, n) <==> !Forged(keys, events, n) && s.rx.newest <= n + 127
  {
    hide DeliveredNumber;
  }

  /** Without forgeries the accepted numbers are exactly the delivered ones. */
  lemma AcceptedIsDelivered(keys: Keys, events: seq<Event>, n: nat)
    requires keys.aead.Lawful() && forall e | e in events :: !e.Forge?
    ensures n in After(keys, events).rx.accepted <==> DeliveredNumber(After(keys, events).delivered, n)
  {
    AtMostOnceUnaltered(keys, events);
  }
}
