/** The binary frames of the protocol: a 20-byte header and a typed payload. */
module Frames {
  import opened Bytes
  import opened Wrappers

  const MAGIC: bytes := [0x53, 0x48, 0x49, 0x4E]
  const VERSION: byte := 1
  const HEADER_LEN := 20

  const HANDSHAKE_INIT: byte := 1
  const HANDSHAKE_RESP: byte := 2
  const DATA_PACKET: byte := 3
  const KEEPALIVE: byte := 4
  const REKEY_INIT: byte := 5
  const REKEY_RESP: byte := 6
  const DISCONNECT: byte := 7
  const PROXY_CONNECT: byte := 8
  const PROXY_DATA: byte := 9
  const PROXY_CLOSE: byte := 10
  const SPEEDTEST_REQ: byte := 11
  const SPEEDTEST_DATA: byte := 12
  const MULTIHOP_FORWARD: byte := 13

  datatype Error = TooShort | BadMagic | BadVersion | Truncated | OutOfRange

  datatype Header = Header(msgType: nat, sessionId: nat, seqNum: nat, payloadLen: nat) {

    /** `struct` raises an error for a field outside its width. */
    predicate Fits() {
      && msgType < Pow256(1) && sessionId < Pow256(4)
      && seqNum < Pow256(8) && payloadLen < Pow256(2)
    }

    function Pack(): (b: bytes)
      requires Fits()
      ensures |b| == HEADER_LEN
    {
      MAGIC + [VERSION] + Big(msgType, 1) + Big(sessionId, 4) + Big(seqNum, 8) + Big(payloadLen, 2)
    }
  }

  /** The protocol version is checked here and always 1 afterwards, so it is not kept. */
  function Unpack(data: bytes): Result<Header, Error> {
    if |data| < HEADER_LEN then Err(TooShort)
    else if data[..4] != MAGIC then Err(BadMagic)
    else if data[4] != VERSION then Err(BadVersion)
    else Ok(Header(FromBig(data[5..6]), FromBig(data[6..10]), FromBig(data[10..18]), FromBig(data[18..20])))
  }

  datatype Frame = Frame(msgType: nat, sessionId: nat, seqNum: nat, payload: bytes) {

    function FrameHeader(): Header {
      Header(msgType, sessionId, seqNum, |payload|)
    }

    function ToBytes(): Result<bytes, Error> {
      if FrameHeader().Fits() then Ok(FrameHeader().Pack() + payload) else Err(OutOfRange)
    }
  }

  /** Whether the type is in the table of frame classes. */
  predicate Known(msgType: nat) {
    HANDSHAKE_INIT <= msgType <= MULTIHOP_FORWARD
  }

  /** The payload a frame class's constructor makes up when it is given none; `now` is the packed clock. */
  function DefaultPayload(msgType: nat, now: bytes): bytes {
    if msgType == KEEPALIVE then now
    else if msgType == PROXY_CONNECT then [0, 0, 0, 0, 0, 0, 0, 0]
    else if msgType == PROXY_DATA || msgType == PROXY_CLOSE then [0, 0, 0, 0]
    else if msgType == SPEEDTEST_REQ then [0, 0, 0, 0, 0, 0, 0, 10, 0, 0, 4, 0]
    else if msgType == SPEEDTEST_DATA then [0, 0, 0, 0, 0, 0, 0, 0]
    else if msgType == MULTIHOP_FORWARD then [0, 0, 0]
    else []
  }

  predicate FillsIn(msgType: nat) {
    msgType == KEEPALIVE || PROXY_CONNECT <= msgType <= MULTIHOP_FORWARD
  }

  function FromHeaderAndPayload(h: Header, payload: bytes, now: bytes): Frame {
    Frame(if Known(h.msgType) then h.msgType else 0, h.sessionId, h.seqNum,
          if payload == [] then DefaultPayload(h.msgType, now) else payload)
  }

  function ParseFrame(data: bytes, now: bytes): Result<Frame, Error> {
    match Unpack(data)
    case Err(e) => Err(e)
    case Ok(h) =>
      if |data| < HEADER_LEN + h.payloadLen then Err(Truncated)
      else Ok(FromHeaderAndPayload(h, data[HEADER_LEN..HEADER_LEN + h.payloadLen], now))
  }

  // ---------- Round trips ----------

  /** The frames that survive the wire: a known or base class whose constructor adds nothing. */
  predicate Stable(msgType: nat, payload: bytes) {
    && (Known(msgType) || msgType == 0)
    && (payload == [] ==> !FillsIn(msgType))
  }

  lemma HeaderFields(h: Header, rest: bytes)
    requires h.Fits()
    ensures Unpack(h.Pack() + rest) == Ok(h)
  {
    var data := h.Pack() + rest;
    assert data[..4] == MAGIC;
    assert data[5..6] == Big(h.msgType, 1);
    assert data[6..10] == Big(h.sessionId, 4);
    assert data[10..18] == Big(h.seqNum, 8);
    assert data[18..20] == Big(h.payloadLen, 2);
    BigRoundTrip(h.msgType, 1);
    BigRoundTrip(h.sessionId, 4);
    BigRoundTrip(h.seqNum, 8);
    BigRoundTrip(h.payloadLen, 2);
  }

  /** The bytes of a header: "SHIN", version 1, a byte of type, and three big-endian fields. */
  lemma HeaderLayout(h: Header)
    requires h.Fits()
    ensures var b := h.Pack();
            && |b| == 20 && b[..4] == [0x53, 0x48, 0x49, 0x4E] && b[4] == 1 && b[5] == h.msgType
            && b[6..10] == Big(h.sessionId, 4) && b[10..18] == Big(h.seqNum, 8) && b[18..20] == Big(h.payloadLen, 2)
  {
    Widths();
    BigAt(h.msgType, 1, 0);
    var start := MAGIC + [VERSION] + Big(h.msgType, 1);
    assert h.Pack()[5] == Big(h.msgType, 1)[0];
    hide Big;
    Parts(start, Big(h.sessionId, 4), Big(h.seqNum, 8), Big(h.payloadLen, 2));
  }

  /** A whole frame on the wire. */
  lemma FrameLayout(f: Frame)
    requires f.ToBytes().Ok?
    ensures var raw := f.ToBytes().value;
            && f.FrameHeader().Fits() && |raw| == 20 + |f.payload|
            && raw[..4] == [0x53, 0x48, 0x49, 0x4E] && raw[4] == 1 && raw[5] == f.msgType
            && raw[6..10] == Big(f.sessionId, 4) && raw[10..18] == Big(f.seqNum, 8)
            && raw[18..20] == Big(|f.payload|, 2) && raw[20..] == f.payload
  {
    hide Header.Pack, Big;
    HeaderLayout(f.FrameHeader());
    FrontSlices(f.FrameHeader().Pack(), f.payload);
  }

  lemma FrontSlices(header: bytes, payload: bytes)
    requires |header| == 20
    ensures var raw := header + payload;
            && raw[..4] == header[..4] && raw[4] == header[4] && raw[5] == header[5] && raw[6..10] == header[6..10]
            && raw[10..18] == header[10..18] && raw[18..20] == header[18..20] && raw[20..] == payload
  {
  }

  /** A header is read exactly if its 20 bytes stand at the front; every other input is refused. */
  lemma UnpackExactly(data: bytes, h: Header)
    ensures Unpack(data) == Ok(h) <==> h.Fits() && h.Pack() <= data
  {
    if Unpack(data) == Ok(h) {
      UnpackedBytes(data);
    }
    if h.Fits() && h.Pack() <= data {
      HeaderFields(h, data[HEADER_LEN..]);
      assert h.Pack() + data[HEADER_LEN..] == data;
    }
  }

  /** A buffer is accepted exactly if it begins with a header and holds the payload that announces. */
  lemma ParseExactly(data: bytes, now: bytes)
    ensures ParseFrame(data, now).Ok?
       <==> exists h: Header :: h.Fits() && h.Pack() <= data && 20 + h.payloadLen <= |data|
  {
    if ParseFrame(data, now).Ok? {
      UnpackExactly(data, Unpack(data).value);
    }
    if h: Header :| h.Fits() && h.Pack() <= data && 20 + h.payloadLen <= |data| {
      UnpackExactly(data, h);
    }
  }

  /** Printing then parsing, with any bytes after the frame: ids and payload come back, an unknown type becomes 0,
      and a class that fills in an empty payload does so; the whole frame comes back exactly when it is stable. */
  lemma PrintParse(f: Frame, suffix: bytes, now: bytes)
    requires f.ToBytes().Ok? && |now| == 8
    ensures var g := ParseFrame(f.ToBytes().value + suffix, now);
            && g.Ok?
            && g.value.sessionId == f.sessionId && g.value.seqNum == f.seqNum
            && g.value.msgType == (if 1 <= f.msgType <= 13 then f.msgType else 0)
            && (f.payload != [] ==> g.value.payload == f.payload)
            && (f.payload == [] ==> g.value.payload == DefaultPayload(f.msgType, now))
            && (g.value == f <==> Stable(f.msgType, f.payload))
  {
    var h := f.FrameHeader();
    var data := f.ToBytes().value + suffix;
    assert data == h.Pack() + (f.payload + suffix);
    HeaderFields(h, f.payload + suffix);
    assert data[HEADER_LEN..HEADER_LEN + |f.payload|] == f.payload;
  }

  lemma UnpackedBytes(data: bytes)
    requires Unpack(data).Ok?
    ensures Unpack(data).value.Fits() && Unpack(data).value.Pack() == data[..HEADER_LEN]
  {
    var h := Unpack(data).value;
    FromBigRoundTrip(data[5..6]);
    FromBigRoundTrip(data[6..10]);
    FromBigRoundTrip(data[10..18]);
    FromBigRoundTrip(data[18..20]);
    assert data[..HEADER_LEN]
        == data[..4] + [data[4]] + data[5..6] + data[6..10] + data[10..18] + data[18..20];
  }

  /** Parsing then printing: an accepted buffer gives back its own first 20 + length bytes,
      exactly when what it carries is stable. */
  lemma ParsePrint(data: bytes, now: bytes)
    requires ParseFrame(data, now).Ok? && |now| == 8
    ensures var h := Unpack(data).value;
            var end := HEADER_LEN + h.payloadLen;
            && end <= |data|
            && (ParseFrame(data, now).value.ToBytes() == Ok(data[..end])
                <==> Stable(h.msgType, data[HEADER_LEN..end]))
  {
    var h := Unpack(data).value;
    var end := HEADER_LEN + h.payloadLen;
    var payload := data[HEADER_LEN..end];
    var f := ParseFrame(data, now).value;
    UnpackedBytes(data);
    assert data[..end] == data[..HEADER_LEN] + payload;
    if f.ToBytes() == Ok(data[..end]) {
      assert |f.payload| == |payload|;
      HeaderFields(f.FrameHeader(), f.payload);
      HeaderFields(h, payload);
    }
  }

  // ---------- Typed payloads ----------

  function ConnectPayload(connId: nat, port: nat, host: bytes): (p: bytes)
    requires connId < Pow256(4) && port < Pow256(2) && |host| < Pow256(2)
    ensures |p| == 8 + |host|
  {
    Big(connId, 4) + Big(port, 2) + Big(|host|, 2) + host
  }

  function DataPayload(connId: nat, data: bytes): (p: bytes)
    requires connId < Pow256(4)
    ensures |p| == 4 + |data|
  {
    Big(connId, 4) + data
  }

  function SpeedtestReqPayload(probeId: nat, chunkCount: nat, chunkSize: nat): (p: bytes)
    requires probeId < Pow256(4) && chunkCount < Pow256(4) && chunkSize < Pow256(4)
    ensures |p| == 12
  {
    Big(probeId, 4) + Big(chunkCount, 4) + Big(chunkSize, 4)
  }

  function ForwardPayload(host: bytes, port: nat, inner: bytes): (p: bytes)
    requires |host| < Pow256(1) && port < Pow256(2)
    ensures |p| == 3 + |host| + |inner|
  {
    Big(|host|, 1) + host + Big(port, 2) + inner
  }

  /** A field in a part of `total` bytes that is unpacked at once; `struct` raises an error, a `None` here, if the
      payload is shorter than that part. */
  function Field(p: bytes, i: nat, w: nat, total: nat): Option<nat>
    requires i + w <= total
  {
    if total <= |p| then Some(FromBig(p[i..i + w])) else None
  }

  function ConnectConnId(p: bytes): Option<nat> { Field(p, 0, 4, 6) }

  function ConnectPort(p: bytes): Option<nat> { Field(p, 4, 2, 6) }

  function ConnectHost(p: bytes): Option<bytes> {
    match Field(p, 6, 2, 8)
    case None => None
    case Some(len) => Some(Slice(p, 8, 8 + len))
  }

  /** Of data and close payloads. */
  function ConnId(p: bytes): Option<nat> { Field(p, 0, 4, 4) }

  function RawData(p: bytes): bytes { Slice(p, 4, |p|) }

  function ProbeId(p: bytes): Option<nat> { Field(p, 0, 4, 12) }

  function ChunkCount(p: bytes): Option<nat> { Field(p, 4, 4, 12) }

  function ChunkSize(p: bytes): Option<nat> { Field(p, 8, 4, 12) }

  function NextHost(p: bytes): Option<bytes> {
    if p == [] then None else Some(Slice(p, 1, 1 + p[0] as int))
  }

  function NextPort(p: bytes): Option<nat> {
    if p == [] then None else Field(p, 1 + p[0] as int, 2, 3 + p[0] as int)
  }

  function InnerFrame(p: bytes): Option<bytes> {
    if p == [] then None else Some(Slice(p, 3 + p[0] as int, |p|))
  }

  /** The payloads classes make up: all zero, but for a clock and for 10 chunks of 1024 bytes. */
  lemma DefaultFields(now: bytes)
    ensures DefaultPayload(KEEPALIVE, now) == now
    ensures DefaultPayload(PROXY_CONNECT, now) == ConnectPayload(0, 0, [])
    ensures DefaultPayload(PROXY_DATA, now) == DefaultPayload(PROXY_CLOSE, now) == DataPayload(0, [])
    ensures DefaultPayload(SPEEDTEST_REQ, now) == SpeedtestReqPayload(0, 10, 1024)
    ensures DefaultPayload(SPEEDTEST_DATA, now) == Big(0, 4) + Big(0, 4)
    ensures DefaultPayload(MULTIHOP_FORWARD, now) == ForwardPayload([], 0, [])
    ensures forall t: nat | !(t == 4 || 8 <= t <= 13) :: DefaultPayload(t, now) == []
  {
    Widths();
    assert Big(0, 1) == [0];
    assert Big(0, 2) == Big(0, 1) + [0];
    assert Big(0, 3) == Big(0, 2) + [0];
    assert Big(0, 4) == Big(0, 3) + [0];
    assert Big(10, 4) == Big(0, 3) + [10];
    assert Big(4, 3) == Big(0, 2) + [4];
    assert Big(1024, 4) == Big(4, 3) + [0];
    assert DataPayload(0, []) == Big(0, 4) + [] == Big(0, 4);
  }

  lemma ConnectShape(id: bytes, port: bytes, len: bytes, host: bytes)
    requires |id| == 4 && |port| == 2 && |len| == 2 && FromBig(len) == |host|
    ensures var p := id + port + len + host;
            ConnectConnId(p) == Some(FromBig(id)) && ConnectPort(p) == Some(FromBig(port)) && ConnectHost(p) == Some(host)
  {
    var p := id + port + len + host;
    Parts(id, port, len, host);
    assert p[..4] == p[0..4] && p[8..] == p[8..8 + |host|];
  }

  lemma ConnectAccessors(connId: nat, port: nat, host: bytes)
    requires connId < Pow256(4) && port < Pow256(2) && |host| < Pow256(2)
    ensures var p := ConnectPayload(connId, port, host);
            && p[..4] == Big(connId, 4) && p[4..6] == Big(port, 2) && p[6..8] == Big(|host|, 2) && p[8..] == host
            && ConnectConnId(p) == Some(connId) && ConnectPort(p) == Some(port) && ConnectHost(p) == Some(host)
  {
    BigRoundTrip(connId, 4);
    BigRoundTrip(port, 2);
    BigRoundTrip(|host|, 2);
    Parts(Big(connId, 4), Big(port, 2), Big(|host|, 2), host);
    ConnectShape(Big(connId, 4), Big(port, 2), Big(|host|, 2), host);
  }

  /** CLOSE is the case of no data. */
  lemma DataAccessors(connId: nat, data: bytes)
    requires connId < Pow256(4)
    ensures var p := DataPayload(connId, data);
            p[..4] == Big(connId, 4) && p[4..] == data && ConnId(p) == Some(connId) && RawData(p) == data
  {
    var p := DataPayload(connId, data);
    BigRoundTrip(connId, 4);
    assert p[0..4] == Big(connId, 4);
    assert p[4..|p|] == data;
  }

  lemma SpeedtestReqAccessors(probeId: nat, chunkCount: nat, chunkSize: nat)
    requires probeId < Pow256(4) && chunkCount < Pow256(4) && chunkSize < Pow256(4)
    ensures var p := SpeedtestReqPayload(probeId, chunkCount, chunkSize);
            && p == Big(probeId, 4) + Big(chunkCount, 4) + Big(chunkSize, 4)
            && ProbeId(p) == Some(probeId) && ChunkCount(p) == Some(chunkCount) && ChunkSize(p) == Some(chunkSize)
  {
    var p := SpeedtestReqPayload(probeId, chunkCount, chunkSize);
    BigRoundTrip(probeId, 4);
    BigRoundTrip(chunkCount, 4);
    BigRoundTrip(chunkSize, 4);
    assert p[0..4] == Big(probeId, 4);
    assert p[4..8] == Big(chunkCount, 4);
    assert p[8..12] == Big(chunkSize, 4);
  }

  lemma ForwardShape(n: byte, host: bytes, port: bytes, inner: bytes)
    requires |host| == n && |port| == 2
    ensures var p := [n] + host + port + inner;
            NextHost(p) == Some(host) && NextPort(p) == Some(FromBig(port)) && InnerFrame(p) == Some(inner)
  {
    var p := [n] + host + port + inner;
    Parts([n], host, port, inner);
    assert p[3 + n as int..] == p[3 + n as int..|p|];
  }

  lemma ForwardAccessors(host: bytes, port: nat, inner: bytes)
    requires |host| < Pow256(1) && port < Pow256(2)
    ensures var p := ForwardPayload(host, port, inner);
            && p == [|host| as byte] + host + Big(port, 2) + inner
            && NextHost(p) == Some(host) && NextPort(p) == Some(port) && InnerFrame(p) == Some(inner)
  {
    BigRoundTrip(port, 2);
    assert Big(|host|, 1) == [|host|];
    ForwardShape(|host|, host, Big(port, 2), inner);
  }

  /** Which payloads have which fields: a connect payload needs six bytes for id and port and eight for a host, a data or
      close payload four, a speed test request twelve, and a forward payload its host and port. */
  lemma FieldsPresent(p: bytes)
    ensures (ConnectConnId(p).Some? <==> |p| >= 6) && (ConnectPort(p).Some? <==> |p| >= 6) && (ConnectHost(p).Some? <==> |p| >= 8)
    ensures ConnId(p).Some? <==> |p| >= 4
    ensures ProbeId(p).Some? == ChunkCount(p).Some? == ChunkSize(p).Some? == (|p| >= 12)
    ensures NextHost(p).Some? == InnerFrame(p).Some? == (p != [])
    ensures NextPort(p).Some? <==> p != [] && |p| >= 1 + p[0] as int + 2
  {
  }
}
