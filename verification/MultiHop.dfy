/** Tunnelling through an entry relay to an exit relay. */
module MultiHop {
  import opened Bytes
  import opened Cipher
  import opened Frames
  import opened ReplayWindow
  import opened Wrappers

  /** Where a packet goes: through the entry's session, to the exit's endpoint, under the exit's keys. */
  datatype Hop = Hop(entrySessionId: nat, exitKeys: Keys, host: bytes, port: nat)

  /** The data frame for the exit; `None` is an error from `struct`. */
  function ExitFrame(keys: Keys, seqNum: nat, packet: bytes): Option<bytes> {
    match Seal(keys, seqNum, packet, [])
    case Err(_) => None
    case Ok(sealed) =>
      match Frame(DATA_PACKET, keys.sessionId, seqNum, sealed).ToBytes()
      case Err(_) => None
      case Ok(raw) => Some(raw)
  }

  /** The frame for the entry relay, with the exit's endpoint and frame inside. It is not encrypted again. */
  function Encapsulate(hop: Hop, seqNum: nat, packet: bytes): Option<bytes> {
    match ExitFrame(hop.exitKeys, seqNum, packet)
    case None => None
    case Some(inner) =>
      if |hop.host| >= Pow256(1) || hop.port >= Pow256(2) then None
      else match Frame(MULTIHOP_FORWARD, hop.entrySessionId, 0, ForwardPayload(hop.host, hop.port, inner)).ToBytes()
           case Err(_) => None
           case Ok(raw) => Some(raw)
  }

  /** The receiver's filter and answer after some bytes come out of the tunnel; `now` is the packed clock,
      which only a keep-alive frame looks at. */
  function Decapsulate(keys: Keys, rx: Ideal, raw: bytes, now: bytes): (Ideal, Option<bytes>) {
    match ParseFrame(raw, now)
    case Err(_) => (rx, None)
    case Ok(f) =>
      if f.msgType != DATA_PACKET then (rx, None)
      else (rx.Offer(WINDOW, f.seqNum),
            match Open(keys, rx, f.seqNum, f.payload, [])
            case Err(_) => None
            case Ok(p) => Some(p))
  }

  // ---------- One packet ----------

  /** What fits: the two headers, the tag, the host with its length byte, and the port leave 65496 bytes
      for the host and the packet. */
  predicate Fits(hop: Hop, seqNum: nat, packet: bytes) {
    && HasNonce(hop.exitKeys.sessionId, seqNum) && hop.entrySessionId < Pow256(4)
    && |hop.host| <= 255 && hop.port <= 65535 && |packet| + |hop.host| <= 65496
  }

  /** The exit's frame is recovered to its packet exactly when the filter still accepts its number. */
  lemma ExitRoundTrip(keys: Keys, rx: Ideal, seqNum: nat, packet: bytes, suffix: bytes, now: bytes)
    requires keys.aead.Lawful() && HasNonce(keys.sessionId, seqNum) && |packet| <= 65496 && |now| == 8
    ensures var inner := ExitFrame(keys, seqNum, packet);
            && inner.Some? && |inner.value| == |packet| + 36
            && Decapsulate(keys, rx, inner.value + suffix, now)
               == (rx.Offer(WINDOW, seqNum), if rx.Accepts(WINDOW, seqNum) then Some(packet) else None)
  {
    Widths();
    var sealed := Seal(keys, seqNum, packet, []).value;
    assert |sealed| == |packet| + 16;
    var f := Frame(DATA_PACKET, keys.sessionId, seqNum, sealed);
    assert f.ToBytes().Ok?;
    PrintParse(f, suffix, now);
    OpenSealed(keys, rx, seqNum, packet, []);
  }

  /** Encapsulation succeeds exactly for what fits; then the relay reads the exit's endpoint and frame
      out of it, and the far end reads the packet out of that. */
  lemma OnionRoundTrip(hop: Hop, rx: Ideal, seqNum: nat, packet: bytes, suffix: bytes, now: bytes)
    requires hop.exitKeys.aead.Lawful() && |now| == 8
    ensures var raw := Encapsulate(hop, seqNum, packet);
            && (raw.Some? <==> Fits(hop, seqNum, packet))
            && (raw.Some? ==>
                  var outer := ParseFrame(raw.value + suffix, now);
                  && outer.Ok? && outer.value.msgType == MULTIHOP_FORWARD && outer.value.sessionId == hop.entrySessionId
                  && NextHost(outer.value.payload) == Some(hop.host) && NextPort(outer.value.payload) == Some(hop.port)
                  && var inner := InnerFrame(outer.value.payload);
                     && inner == ExitFrame(hop.exitKeys, seqNum, packet)
                     && inner.Some? && Decapsulate(hop.exitKeys, rx, inner.value, now)
                        == (rx.Offer(WINDOW, seqNum), if rx.Accepts(WINDOW, seqNum) then Some(packet) else None))
  {
    Widths();
    if HasNonce(hop.exitKeys.sessionId, seqNum) {
      assert |Seal(hop.exitKeys, seqNum, packet, []).value| == |packet| + 16;
      if |packet| <= 65496 {
        ExitRoundTrip(hop.exitKeys, rx, seqNum, packet, [], now);
        var inner := ExitFrame(hop.exitKeys, seqNum, packet).value;
        if |hop.host| <= 255 && hop.port <= 65535 {
          var f := Frame(MULTIHOP_FORWARD, hop.entrySessionId, 0, ForwardPayload(hop.host, hop.port, inner));
          ForwardAccessors(hop.host, hop.port, inner);
          assert inner + [] == inner;
          if f.ToBytes().Ok? {
            PrintParse(f, suffix, now);
          }
        }
      }
    }
  }

  /** The onion byte by byte: the forward frame for the entry, number 0, with host, port and the exit's data frame, whose
      packet is sealed under the exit's key and the nonce of its session and number. */
  lemma OnionOnTheWire(hop: Hop, seqNum: nat, packet: bytes)
    requires Encapsulate(hop, seqNum, packet).Some?
    ensures var outer := Encapsulate(hop, seqNum, packet).value;
            var inner := outer[20 + (1 + |hop.host| + 2)..];
            && |hop.host| < 256 && hop.port < 65536 && hop.entrySessionId < 0x1_0000_0000
            && outer[..4] == [0x53, 0x48, 0x49, 0x4E] && outer[4] == 1 && outer[5] == 13
            && outer[6..10] == Big(hop.entrySessionId, 4) && outer[10..18] == Big(0, 8)
            && outer[20..] == [|hop.host| as byte] + hop.host + Big(hop.port, 2) + inner
            && HasNonce(hop.exitKeys.sessionId, seqNum)
            && inner[..4] == [0x53, 0x48, 0x49, 0x4E] && inner[4] == 1 && inner[5] == 3
            && inner[6..10] == Big(hop.exitKeys.sessionId, 4) && inner[10..18] == Big(seqNum, 8)
            && inner[20..] == hop.exitKeys.aead.seal(hop.exitKeys.key,
                                                     Little(hop.exitKeys.sessionId, 4) + Little(seqNum, 8), packet, [])
  {
    hide Frame.ToBytes, Big, Little;
    Widths();
    var keys := hop.exitKeys;
    var inner := ExitFrame(keys, seqNum, packet).value;
    var payload := ForwardPayload(hop.host, hop.port, inner);
    FrameLayout(Frame(DATA_PACKET, keys.sessionId, seqNum, Seal(keys, seqNum, packet, []).value));
    FrameLayout(Frame(MULTIHOP_FORWARD, hop.entrySessionId, 0, payload));
    ForwardAccessors(hop.host, hop.port, inner);
    Parts([|hop.host| as byte], hop.host, Big(hop.port, 2), inner);
    hide *;
    DropDrop(Encapsulate(hop, seqNum, packet).value, 20, 1 + |hop.host| + 2);
  }

  lemma DropDrop(s: bytes, i: nat, j: nat)
    requires i + j <= |s|
    ensures s[i + j..] == s[i..][j..]
  {
  }

  /** Exactly when a packet comes out: a frame of type 3 stands at the front, its number is new to the filter, and its
      payload opens. Frames of other types do not even move the filter. */
  lemma DecapsulateExactly(keys: Keys, rx: Ideal, raw: bytes, now: bytes, packet: bytes)
    ensures Decapsulate(keys, rx, raw, now).1 == Some(packet) <==>
              exists h: Header :: h.Fits() && h.Pack() <= raw && 20 + h.payloadLen <= |raw| && h.msgType == 3
                                  && rx.Accepts(128, h.seqNum) && HasNonce(keys.sessionId, h.seqNum)
                                  && keys.aead.open(keys.key, Nonce(keys.sessionId, h.seqNum), raw[20..20 + h.payloadLen], []) == Some(packet)
    ensures Decapsulate(keys, rx, raw, now).0 == rx
            || exists h: Header :: h.Fits() && h.Pack() <= raw && h.msgType == 3 && Decapsulate(keys, rx, raw, now).0 == rx.Offer(128, h.seqNum)
  {
    hide Header.Pack, Nonce, Ideal.Offer, Ideal.Accepts;
    if Unpack(raw).Ok? {
      UnpackExactly(raw, Unpack(raw).value);
    }
    forall h: Header | h.Fits() && h.Pack() <= raw ensures Unpack(raw) == Ok(h) {
      UnpackExactly(raw, h);
    }
  }

  // ---------- A run ----------

  datatype Onion = Onion(hop: Hop, packet: bytes)

  /** What the entry relay passes on when it gets a packet's frame. */
  function Forwarded(o: Onion, seqNum: nat, now: bytes): Option<bytes> {
    match Encapsulate(o.hop, seqNum, o.packet)
    case None => None
    case Some(raw) =>
      match ParseFrame(raw, now)
      case Err(_) => None
      case Ok(outer) => InnerFrame(outer.payload)
  }

  predicate Arrivals(sent: seq<Onion>, order: seq<nat>) {
    forall j | 0 <= j < |order| :: order[j] < |sent|
  }

  /** The exit's filter and answers when the packets of `sent`, numbered from 1, arrive in some order: some
      never, some twice, some late. Each packet may have gone to an endpoint of its own. */
  function Receive(keys: Keys, sent: seq<Onion>, order: seq<nat>, now: bytes): (Ideal, seq<Option<bytes>>)
    requires Arrivals(sent, order)
  {
    if order == [] then (EMPTY, [])
    else
      var k := order[|order| - 1];
      var (rx, got) := Receive(keys, sent, order[..|order| - 1], now);
      match Forwarded(sent[k], k + 1, now)
      case None => (rx, got + [None])
      case Some(inner) =>
        var (rx', answer) := Decapsulate(keys, rx, inner, now);
        (rx', got + [answer])
  }

  function Numbers(order: seq<nat>): seq<nat> {
    seq(|order|, j requires 0 <= j < |order| => order[j] + 1)
  }

  /** Each answer is the packet where the filter accepts its number, and nothing elsewhere. */
  ghost predicate AsFiltered(sent: seq<Onion>, order: seq<nat>, got: seq<Option<bytes>>)
    requires Arrivals(sent, order)
  {
    && |got| == |order|
    && forall j: nat | j < |order| ::
         got[j] == if Verdict(WINDOW, Numbers(order), j) then Some(sent[order[j]].packet) else None
  }

  ghost predicate Carried(keys: Keys, sent: seq<Onion>) {
    forall k: nat | k < |sent| :: sent[k].hop.exitKeys == keys && Fits(sent[k].hop, k + 1, sent[k].packet)
  }

  lemma OneArrival(keys: Keys, rx: Ideal, o: Onion, seqNum: nat, now: bytes)
    requires keys.aead.Lawful() && |now| == 8 && o.hop.exitKeys == keys && Fits(o.hop, seqNum, o.packet)
    ensures var inner := Forwarded(o, seqNum, now);
            inner.Some? && Decapsulate(keys, rx, inner.value, now)
                           == (rx.Offer(WINDOW, seqNum), if rx.Accepts(WINDOW, seqNum) then Some(o.packet) else None)
  {
    OnionRoundTrip(o.hop, rx, seqNum, o.packet, [], now);
    var raw := Encapsulate(o.hop, seqNum, o.packet).value;
    assert raw + [] == raw;
  }

  /** Every arrival of a run yields its packet or nothing, as the replay filter decides. */
  lemma {:induction false} OnionRun(keys: Keys, sent: seq<Onion>, order: seq<nat>, now: bytes)
    requires keys.aead.Lawful() && |now| == 8 && Carried(keys, sent) && Arrivals(sent, order)
    ensures var (rx, got) := Receive(keys, sent, order, now);
            rx == Run(WINDOW, Numbers(order)) && AsFiltered(sent, order, got)
  {
    if order == [] {
    } else {
      var last := |order| - 1;
      var init, k := order[..last], order[last];
      OnionRun(keys, sent, init, now);
      assert Fits(sent[k].hop, k + 1, sent[k].packet);
      hide *;
      var (rx, got) := Receive(keys, sent, init, now);
      OneArrival(keys, rx, sent[k], k + 1, now);
      OneMore(keys, sent, order, now);
      FilterOneMore(sent, order, got);
    }
  }

  lemma OneMore(keys: Keys, sent: seq<Onion>, order: seq<nat>, now: bytes)
    requires Arrivals(sent, order) && order != []
    ensures var k := order[|order| - 1];
            var (rx, got) := Receive(keys, sent, order[..|order| - 1], now);
            var inner := Forwarded(sent[k], k + 1, now);
            inner.Some? ==>
              var (rx', answer) := Decapsulate(keys, rx, inner.value, now);
              Receive(keys, sent, order, now) == (rx', got + [answer])
  {
    hide Forwarded, Decapsulate;
  }

  lemma FilterOneMore(sent: seq<Onion>, order: seq<nat>, got: seq<Option<bytes>>)
    requires Arrivals(sent, order) && order != [] && AsFiltered(sent, order[..|order| - 1], got)
    ensures var k := order[|order| - 1];
            var before := Run(WINDOW, Numbers(order[..|order| - 1]));
            && Run(WINDOW, Numbers(order)) == before.Offer(WINDOW, k + 1)
            && AsFiltered(sent, order, got + [if before.Accepts(WINDOW, k + 1) then Some(sent[k].packet) else None])
  {
    hide Ideal.Offer, Ideal.Accepts;
    var last := |order| - 1;
    var init := order[..last];
    assert Numbers(order)[..last] == Numbers(init);
    forall j: nat | j < last ensures Verdict(WINDOW, Numbers(order), j) == Verdict(WINDOW, Numbers(init), j) {
      assert Numbers(order)[..j] == Numbers(init)[..j];
    }
  }

  /** A run in which no packet arrives twice, nor after one sent more than 127 later, loses nothing. */
  lemma OnionRunComplete(keys: Keys, sent: seq<Onion>, order: seq<nat>, now: bytes)
    requires keys.aead.Lawful() && |now| == 8 && Carried(keys, sent) && Arrivals(sent, order)
    requires forall i, j | 0 <= i < j < |order| :: order[i] != order[j] && order[i] <= order[j] + 127
    ensures var got := Receive(keys, sent, order, now).1;
            |got| == |order| && forall j: nat | j < |order| :: got[j] == Some(sent[order[j]].packet)
  {
    OnionRun(keys, sent, order, now);
    forall j: nat | j < |order| ensures Verdict(WINDOW, Numbers(order), j) {
      PromptAccepted(order, j);
    }
  }

  lemma PromptAccepted(order: seq<nat>, j: nat)
    requires j < |order| && forall i | 0 <= i < j :: order[i] != order[j] && order[i] <= order[j] + 127
    ensures Verdict(WINDOW, Numbers(order), j)
  {
    var calls := Numbers(order);
    var seen := calls[..j];
    AtMostOnce(WINDOW, calls, j);
    RunRemembers(WINDOW, seen);
    var newest := Run(WINDOW, seen).newest;
    if newest != 0 {
      var i: nat :| i < |seen| && seen[i] == newest && Verdict(WINDOW, seen, i);
      assert seen[i] == order[i] + 1;
    }
  }

  // ---------- The tunnel ----------

  class MultiHopTunnel {
    const entrySessionId: nat
    const exitCipher: ShinCipher
    var exitEndpoint: (bytes, nat)
    var failoverActive: bool

    ghost predicate Valid()
      reads this, exitCipher, exitCipher.rx
    {
      exitCipher.Valid()
    }

    function HopNow(): Hop
      reads this`exitEndpoint
    {
      Hop(entrySessionId, exitCipher.keys, exitEndpoint.0, exitEndpoint.1)
    }

    constructor (exitEndpoint: (bytes, nat), entryCipher: ShinCipher, exitCipher: ShinCipher)
      requires exitCipher.Valid()
      ensures Valid() && !failoverActive
      ensures this.exitCipher == exitCipher
      ensures HopNow() == Hop(entryCipher.keys.sessionId, exitCipher.keys, exitEndpoint.0, exitEndpoint.1)
    {
      this.entrySessionId, this.exitCipher := entryCipher.keys.sessionId, exitCipher;
      this.exitEndpoint, failoverActive := exitEndpoint, false;
    }

    /** The exit cipher's counter moves even when the frame cannot be built. */
    method EncapsulatePacket(packet: bytes) returns (r: Option<bytes>)
      requires Valid()
      modifies exitCipher`txSeq, exitCipher`bytesEncrypted
      ensures Valid() && exitCipher.txSeq == old(exitCipher.txSeq) + 1
      ensures r == Encapsulate(HopNow(), exitCipher.txSeq, packet)
    {
      var sealed := exitCipher.Encrypt(packet);
      if sealed.Err? {
        return None;
      }
      var (seqNum, ciphertext) := sealed.value;
      var exitRaw := Frame(DATA_PACKET, exitCipher.keys.sessionId, seqNum, ciphertext).ToBytes();
      if exitRaw.Err? || |exitEndpoint.0| >= Pow256(1) || exitEndpoint.1 >= Pow256(2) {
        return None;
      }
      var payload := ForwardPayload(exitEndpoint.0, exitEndpoint.1, exitRaw.value);
      var hopRaw := Frame(MULTIHOP_FORWARD, entrySessionId, 0, payload).ToBytes();
      return if hopRaw.Ok? then Some(hopRaw.value) else None;
    }

    method DecapsulatePacket(raw: bytes, now: bytes) returns (r: Option<bytes>)
      requires Valid()
      modifies exitCipher`bytesDecrypted, exitCipher.rx
      ensures Valid()
      ensures (exitCipher.rx.ideal, r) == Decapsulate(exitCipher.keys, old(exitCipher.rx.ideal), raw, now)
    {
      var parsed := ParseFrame(raw, now);
      if parsed.Err? || parsed.value.msgType != DATA_PACKET {
        return None;
      }
      var plain := exitCipher.Decrypt(parsed.value.seqNum, parsed.value.payload);
      return if plain.Ok? then Some(plain.value) else None;
    }

    method TriggerAutoFailover(newExit: (bytes, nat))
      modifies this
      ensures failoverActive && HopNow() == old(HopNow()).(host := newExit.0, port := newExit.1)
    {
      exitEndpoint, failoverActive := newExit, true;
    }
  }
}
