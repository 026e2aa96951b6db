/** The client's half of the tunnel: each call of the gateway's callback becomes at most one encrypted packet. */
module Tunnel {
  import opened Bytes
  import opened Wrappers
  import opened Frames
  import opened ReplayWindow
  import opened Cipher
  import opened ProxySession
  import G = Gateway
  import S = Streams

  type Timestamp = b: bytes | |b| == 8 witness seq(8, _ => 0)

  /** What the client sends in a session: the gateway's calls, the speed test's requests and uploads, which
      use the same cipher, and keep-alive frames, which use none. */
  datatype Sending =
    | Proxy(frame: G.LocalFrame)
    | SpeedTest(upload: bool, plain: bytes)
    | KeepAlive(timestamp: Timestamp)

  /** The type and plaintext of a call; `struct` raises an error for a field that does not fit. */
  function PlainCall(encode: string -> bytes, f: G.LocalFrame): Option<(nat, bytes)> {
    if f.connId >= Pow256(4) then None
    else match f
         case Connect(id, host, port) =>
           if 0 <= port < Pow256(2) && |encode(host)| < Pow256(2)
           then Some((PROXY_CONNECT, ConnectPayload(id, port, encode(host)))) else None
         case Data(id, data) => Some((PROXY_DATA, DataPayload(id, data)))
         case Close(id) => Some((PROXY_CLOSE, DataPayload(id, [])))
  }

  /** What is encrypted, if anything. */
  function Plain(encode: string -> bytes, x: Sending): Option<(nat, bytes)> {
    match x
    case Proxy(f) => PlainCall(encode, f)
    case SpeedTest(upload, plain) => Some((if upload then SPEEDTEST_DATA else SPEEDTEST_REQ, plain))
    case KeepAlive(_) => None
  }

  /** The counter moves once the plaintext is built, even if no packet comes of it. */
  function Advance(encode: string -> bytes, counter: nat, x: Sending): nat {
    if Plain(encode, x).Some? then counter + 1 else counter
  }

  function Framed(f: Frame): Option<bytes> {
    match f.ToBytes()
    case Err(_) => None
    case Ok(raw) => Some(raw)
  }

  /** The packet sent, if any, when `counter` packets were encrypted before it. */
  function Packet(keys: Keys, encode: string -> bytes, counter: nat, x: Sending): Option<bytes> {
    match x
    case KeepAlive(timestamp) => Framed(Frame(KEEPALIVE, keys.sessionId, 0, timestamp))
    case _ =>
      match Plain(encode, x)
      case None => None
      case Some((msgType, plain)) =>
        match Seal(keys, counter + 1, plain, [])
        case Err(_) => None
        case Ok(sealed) => Framed(Frame(msgType, keys.sessionId, counter + 1, sealed))
  }

  class ProxySender {
    const txCipher: ShinCipher
    const encode: string -> bytes
    var connected: bool
    var bytesTx: nat
    var packetsTx: nat

    constructor (txCipher: ShinCipher, encode: string -> bytes)
      ensures this.txCipher == txCipher && this.encode == encode && connected && bytesTx == packetsTx == 0
    {
      this.txCipher, this.encode, connected, bytesTx, packetsTx := txCipher, encode, true, 0, 0;
    }

    /** Nothing is sent unless the client is connected. */
    method Send(x: Sending) returns (sent: Option<bytes>)
      requires txCipher.Valid()
      modifies this`bytesTx, this`packetsTx, txCipher`txSeq, txCipher`bytesEncrypted
      ensures txCipher.Valid()
      ensures sent == if connected then Packet(txCipher.keys, encode, old(txCipher.txSeq), x) else None
      ensures txCipher.txSeq == if connected then Advance(encode, old(txCipher.txSeq), x) else old(txCipher.txSeq)
      ensures packetsTx == old(packetsTx) + if sent.Some? then 1 else 0
      ensures bytesTx == old(bytesTx) + if sent.Some? then |sent.value| else 0
    {
      hide PlainCall, Seal, Frame.ToBytes;
      if !connected {
        return None;
      }
      var f: Frame;
      if x.KeepAlive? {
        f := Frame(KEEPALIVE, txCipher.keys.sessionId, 0, x.timestamp);
      } else {
        var plain := Plain(encode, x);
        if plain.None? {
          return None;
        }
        var sealed := txCipher.Encrypt(plain.value.1);
        if sealed.Err? {
          return None;
        }
        f := Frame(plain.value.0, txCipher.keys.sessionId, sealed.value.0, sealed.value.1);
      }
      var raw := f.ToBytes();
      if raw.Err? {
        return None;
      }
      bytesTx, packetsTx := bytesTx + |raw.value|, packetsTx + 1;
      return Some(raw.value);
    }

    /** The gateway's callback. */
    method SendProxyFrame(f: G.LocalFrame) returns (sent: Option<bytes>)
      requires txCipher.Valid()
      modifies this`bytesTx, this`packetsTx, txCipher`txSeq, txCipher`bytesEncrypted
      ensures txCipher.Valid()
      ensures sent == if connected then Packet(txCipher.keys, encode, old(txCipher.txSeq), Proxy(f)) else None
      ensures txCipher.txSeq == if connected then Advance(encode, old(txCipher.txSeq), Proxy(f)) else old(txCipher.txSeq)
      ensures packetsTx == old(packetsTx) + if sent.Some? then 1 else 0
    {
      sent := Send(Proxy(f));
    }
  }

  /** The server step a sending stands for, if any. */
  function AsEvent(x: Sending): Option<S.Event> {
    match x
    case Proxy(f) => Some(CallEvent(f))
    case _ => None
  }

  /** The server step a call stands for. */
  function CallEvent(f: G.LocalFrame): S.Event {
    match f
    case Connect(id, _, _) => S.Connect(id)
    case Data(id, data) => S.Data(id, data)
    case Close(id) => S.Close(id)
  }

  /** Where a sending asks to connect. */
  function Called(encode: string -> bytes, x: Sending): Option<Destination> {
    match x
    case Proxy(Connect(id, host, port)) => Some(Destination(id, encode(host), port))
    case _ => None
  }

  lemma PlainDecodes(encode: string -> bytes, f: G.LocalFrame)
    requires PlainCall(encode, f).Some?
    ensures var (msgType, plain) := PlainCall(encode, f).value;
            && PROXY_CONNECT <= msgType <= PROXY_CLOSE
            && Decoded(msgType, plain) == Some(CallEvent(f)) && Destined(msgType, plain) == Called(encode, Proxy(f))
  {
    var (_, plain) := PlainCall(encode, f).value;
    match f
    case Connect(id, host, port) =>
      ConnectAccessors(id, port, encode(host));
      assert plain[0..4] == plain[..4];
    case Data(id, data) => DataDecodes(id, data);
    case Close(id) => DataDecodes(id, []);
  }

  lemma DataDecodes(id: nat, data: bytes)
    requires id < Pow256(4)
    ensures var p := DataPayload(id, data); FromBig(p[..4]) == id && p[4..] == data
  {
    var p := DataPayload(id, data);
    DataAccessors(id, data);
    assert p[0..4] == p[..4] && p[4..|p|] == p[4..];
  }

  /** What the server gets of a sealed frame whose number its filter still accepts. */
  lemma SealedArrives(keys: Keys, msgType: nat, n: nat, plain: bytes, rx: Ideal, now: bytes)
    requires keys.aead.Lawful() && |now| == 8 && rx.Accepts(WINDOW, n) && Known(msgType)
    requires Seal(keys, n, plain, []).Ok?
    requires Framed(Frame(msgType, keys.sessionId, n, Seal(keys, n, plain, []).value)).Some?
    ensures var raw := Framed(Frame(msgType, keys.sessionId, n, Seal(keys, n, plain, []).value)).value;
            && Inbound(keys, rx, raw, now) == (if Decrypted(msgType) then (rx.Offer(WINDOW, n), Decoded(msgType, plain)) else (rx, None))
            && InboundOpens(keys, rx, raw, now) == (if Decrypted(msgType) then Destined(msgType, plain) else None)
  {
    hide Decoded, Destined, ParseFrame, Big;
    var sealed := Seal(keys, n, plain, []).value;
    var frame := Frame(msgType, keys.sessionId, n, sealed);
    SealedLength(keys, n, plain);
    PrintParse(frame, [], now);
    assert frame.ToBytes().value + [] == frame.ToBytes().value;
    OpenSealed(keys, rx, n, plain, []);
  }

  lemma SealedLength(keys: Keys, n: nat, plain: bytes)
    requires keys.aead.Lawful() && Seal(keys, n, plain, []).Ok?
    ensures |Seal(keys, n, plain, []).value| == |plain| + TAG_LEN
  {
  }

  lemma KeepAliveArrives(keys: Keys, timestamp: Timestamp, rx: Ideal, now: bytes)
    requires |now| == 8 && Framed(Frame(KEEPALIVE, keys.sessionId, 0, timestamp)).Some?
    ensures var raw := Framed(Frame(KEEPALIVE, keys.sessionId, 0, timestamp)).value;
            Inbound(keys, rx, raw, now) == (rx, None) && InboundOpens(keys, rx, raw, now) == None
  {
    hide ParseFrame;
    var frame := Frame(KEEPALIVE, keys.sessionId, 0, timestamp);
    PrintParse(frame, [], now);
    assert frame.ToBytes().value + [] == frame.ToBytes().value;
  }

  /** Across the wire: a packet that carries a number newer than any accepted one becomes exactly the step
      its sending stands for - through payload, encryption, framing, parsing, the replay filter and decryption. */
  lemma PacketArrives(keys: Keys, encode: string -> bytes, counter: nat, x: Sending, rx: Ideal, now: bytes)
    requires keys.aead.Lawful() && |now| == 8 && rx.Valid() && rx.newest <= counter
    requires Packet(keys, encode, counter, x).Some?
    ensures var (rx', e) := Inbound(keys, rx, Packet(keys, encode, counter, x).value, now);
            e == AsEvent(x) && rx'.Valid() && rx'.newest <= Advance(encode, counter, x)
    ensures InboundOpens(keys, rx, Packet(keys, encode, counter, x).value, now) == Called(encode, x)
  {
    hide Seal, Inbound, InboundOpens, Framed, PlainCall;
    match x
    case KeepAlive(timestamp) => KeepAliveArrives(keys, timestamp, rx, now);
    case Proxy(f) =>
      var (msgType, plain) := PlainCall(encode, f).value;
      PlainDecodes(encode, f);
      SealedArrives(keys, msgType, counter + 1, plain, rx, now);
    case SpeedTest(upload, plain) =>
      SealedArrives(keys, if upload then SPEEDTEST_DATA else SPEEDTEST_REQ, counter + 1, plain, rx, now);
  }

  /** Which calls get through: the fields fit, the counter has a nonce left, and the packet fits its length field. */
  lemma PacketExactly(keys: Keys, encode: string -> bytes, counter: nat, f: G.LocalFrame)
    requires keys.aead.Lawful() && keys.sessionId < Pow256(4)
    ensures Packet(keys, encode, counter, Proxy(f)).Some?
       <==> (PlainCall(encode, f).Some? && counter + 1 < Pow256(8) && |PlainCall(encode, f).value.1| + TAG_LEN < Pow256(2))
  {
    if PlainCall(encode, f).Some? {
      var (_, plain) := PlainCall(encode, f).value;
      Widths();
      PlainDecodes(encode, f);
      if Seal(keys, counter + 1, plain, []).Ok? {
        SealedLength(keys, counter + 1, plain);
      }
    }
  }

  /** A packet byte by byte: the header with the type and number, and then, but for keep-alive frames, what is sealed
      under the nonce of session and number. */
  lemma OnTheWire(keys: Keys, encode: string -> bytes, counter: nat, x: Sending)
    requires Packet(keys, encode, counter, x).Some?
    ensures var raw := Packet(keys, encode, counter, x).value;
            && |raw| >= 20 && raw[..4] == [0x53, 0x48, 0x49, 0x4E] && raw[4] == 1
            && keys.sessionId < 0x1_0000_0000 && raw[6..10] == Big(keys.sessionId, 4)
            && raw[5] == (match x
                          case Proxy(Connect(_, _, _)) => 8
                          case Proxy(Data(_, _)) => 9
                          case Proxy(Close(_)) => 10
                          case SpeedTest(upload, _) => if upload then 12 else 11
                          case KeepAlive(_) => 4)
            && |raw| - 20 < 65536 && raw[18..20] == Big(|raw| - 20, 2)
            && (x.KeepAlive? ==> raw[10..18] == Big(0, 8) && raw[20..] == x.timestamp)
            && (!x.KeepAlive? ==>
                  && counter + 1 < 0x1_0000_0000_0000_0000 && raw[10..18] == Big(counter + 1, 8)
                  && Plain(encode, x).Some?
                  && raw[20..] == keys.aead.seal(keys.key, Little(keys.sessionId, 4) + Little(counter + 1, 8), Plain(encode, x).value.1, []))
  {
    hide Frame.ToBytes, Big, Little, PlainCall, ConnectPayload, DataPayload;
    Widths();
    if !x.KeepAlive? {
      TypeOnTheWire(encode, x);
    }
    var f := if x.KeepAlive? then Frame(KEEPALIVE, keys.sessionId, 0, x.timestamp)
             else Frame(Plain(encode, x).value.0, keys.sessionId, counter + 1,
                        Seal(keys, counter + 1, Plain(encode, x).value.1, []).value);
    FrameLayout(f);
  }

  lemma TypeOnTheWire(encode: string -> bytes, x: Sending)
    requires Plain(encode, x).Some?
    ensures Plain(encode, x).value.0 == (match x
                                         case Proxy(Connect(_, _, _)) => 8
                                         case Proxy(Data(_, _)) => 9
                                         case Proxy(Close(_)) => 10
                                         case SpeedTest(upload, _) => if upload then 12 else 11
                                         case KeepAlive(_) => 4)
  {
    hide ConnectPayload, DataPayload;
  }
}
