/** The TLS look-alike messages, padding and record wrapping of the obfuscated transport. */
module Obfuscation {
  import opened Bytes
  import opened Wrappers

  const APP_DATA_MAGIC: bytes := [0x17, 0x03, 0x03]
  const HANDSHAKE_MAGIC: bytes := [0x16, 0x03, 0x01]
  const SERVER_MAGIC: bytes := [0x16, 0x03, 0x03]
  const CIPHER_SUITES: bytes := [0x13, 0x01, 0x13, 0x02, 0x13, 0x03, 0xc0, 0x2b, 0xc0, 0x2f]
  const H2: bytes := [0x68, 0x32]
  const HTTP_1_1: bytes := [0x68, 0x74, 0x74, 0x70, 0x2f, 0x31, 0x2e, 0x31]
  const ALPN_DATA: bytes := ([2] + H2) + ([8] + HTTP_1_1)

  // ---------- What is sent ----------

  /** An extension whose data is one list with a two-byte length; `None` is an error from `struct`. */
  function ListExtension(kind: bytes, list: bytes): Option<bytes> {
    if |list| + 2 < Pow256(2) then Some(kind + Big(|list| + 2, 2) + Big(|list|, 2) + list) else None
  }

  function SniExtension(host: bytes): Option<bytes> {
    if |host| < Pow256(2) then ListExtension([0x00, 0x00], [0x00] + Big(|host|, 2) + host) else None
  }

  const VERSIONS_EXTENSION: bytes := [0x00, 0x2b, 0x00, 0x03, 0x02, 0x03, 0x04]

  function Extensions(host: bytes, key: bytes): Option<bytes> {
    match (SniExtension(host), ListExtension([0x00, 0x10], ALPN_DATA), ListExtension([0x00, 0x33], [0x00, 0x1d, 0x00, 0x20] + key))
    case (Some(sni), Some(alpn), Some(keyShare)) => Some(sni + VERSIONS_EXTENSION + alpn + keyShare)
    case _ => None
  }

  /** A handshake message in one record: its length in the last three of four bytes, the record's in two. */
  function HandshakeRecord(magic: bytes, kind: byte, body: bytes): Option<bytes> {
    if |body| >= Pow256(4) then None
    else
      var handshake := [kind] + Big(|body|, 4)[1..] + body;
      if |handshake| < Pow256(2) then Some(magic + Big(|handshake|, 2) + handshake) else None
  }

  function ClientBody(random: bytes, sessionId: bytes, extensions: bytes): bytes
    requires |sessionId| == 32 && |extensions| < Pow256(2)
  {
    [0x03, 0x03] + random + Big(|sessionId|, 1) + sessionId
    + Big(|CIPHER_SUITES|, 2) + CIPHER_SUITES + [0x01, 0x00] + (Big(|extensions|, 2) + extensions)
  }

  function ServerBody(random: bytes, sessionId: bytes, extensions: bytes): bytes
    requires |sessionId| == 32 && |extensions| < Pow256(2)
  {
    [0x03, 0x03] + random + Big(|sessionId|, 1) + sessionId
    + [0x13, 0x01] + [0x00] + (Big(|extensions|, 2) + extensions)
  }

  /** The random fields are parameters, 32 bytes each. */
  function GenerateTlsClientHello(host: bytes, random: bytes, sessionId: bytes, key: bytes): Option<bytes>
    requires |sessionId| == 32
  {
    match Extensions(host, key)
    case None => None
    case Some(extensions) =>
      if |extensions| >= Pow256(2) then None
      else HandshakeRecord(HANDSHAKE_MAGIC, 0x01, ClientBody(random, sessionId, extensions))
  }

  const SERVER_VERSIONS: bytes := [0x00, 0x2b, 0x00, 0x02, 0x03, 0x04]
  const SERVER_KEY_SHARE: bytes := [0x00, 0x33, 0x00, 0x24, 0x00, 0x1d, 0x00, 0x20]

  function GenerateTlsServerHello(random: bytes, sessionId: bytes, key: bytes): Option<bytes>
    requires |sessionId| == 32
  {
    var extensions := SERVER_VERSIONS + (SERVER_KEY_SHARE + key);
    if |extensions| >= Pow256(2) then None
    else HandshakeRecord(SERVER_MAGIC, 0x02, ServerBody(random, sessionId, extensions))
  }

  // ---------- A reader of TLS handshakes, directed by lengths alone ----------

  function Take(n: nat, b: bytes): Option<(bytes, bytes)> {
    if n <= |b| then Some((b[..n], b[n..])) else None
  }

  /** A vector with a length of `w` bytes before it. */
  function TakeVector(w: nat, b: bytes): Option<(bytes, bytes)> {
    match Take(w, b)
    case None => None
    case Some((len, rest)) => Take(FromBig(len), rest)
  }

  /** The whole of `b` as one vector. */
  function OnlyVector(w: nat, b: bytes): Option<bytes> {
    match TakeVector(w, b)
    case Some((data, rest)) => if rest == [] then Some(data) else None
    case None => None
  }

  const MAX_FRAGMENT := 16384

  /** Section 5.1 of RFC 8446: one plaintext record of the handshake type, at most 2^14 bytes. */
  function ReadRecord(b: bytes): Option<bytes> {
    match Take(3, b)
    case None => None
    case Some((head, rest)) =>
      if head[0] != 22 then None
      else match OnlyVector(2, rest)
           case None => None
           case Some(fragment) => if |fragment| <= MAX_FRAGMENT then Some(fragment) else None
  }

  /** Section 4 of RFC 8446: one message of the given type. */
  function ReadHandshake(kind: byte, b: bytes): Option<bytes> {
    match Take(1, b)
    case None => None
    case Some((head, rest)) => if head[0] == kind then OnlyVector(3, rest) else None
  }

  datatype Extension = Extension(kind: nat, data: bytes)

  function ReadExtensions(b: bytes): Option<seq<Extension>>
    decreases |b|
  {
    if b == [] then Some([])
    else match Take(2, b)
         case None => None
         case Some((kind, rest)) =>
           match TakeVector(2, rest)
           case None => None
           case Some((data, more)) =>
             match ReadExtensions(more)
             case None => None
             case Some(others) => Some([Extension(FromBig(kind), data)] + others)
  }

  /** The fields up to the session identifier, which both hellos share. */
  datatype Head = Head(version: bytes, random: bytes, sessionId: bytes)

  function ReadHead(b: bytes): Option<(Head, bytes)> {
    match Take(34, b)
    case None => None
    case Some((fixed, rest)) =>
      match TakeVector(1, rest)
      case None => None
      case Some((sessionId, more)) =>
        if |sessionId| <= 32 then Some((Head(fixed[..2], fixed[2..], sessionId), more)) else None
  }

  datatype ClientHello = ClientHello(head: Head, suites: bytes, compression: bytes, extensions: seq<Extension>)

  /** Section 4.1.2 of RFC 8446. */
  function ReadClientBody(b: bytes): Option<ClientHello> {
    match ReadHead(b)
    case None => None
    case Some((head, r1)) =>
      match TakeVector(2, r1)
      case None => None
      case Some((suites, r2)) =>
        match TakeVector(1, r2)
        case None => None
        case Some((compression, r3)) =>
          match OnlyVector(2, r3)
          case None => None
          case Some(block) =>
            if |suites| < 2 || |suites| % 2 != 0 || compression != [0] then None
            else match ReadExtensions(block)
                 case None => None
                 case Some(extensions) => Some(ClientHello(head, suites, compression, extensions))
  }

  datatype ServerHello = ServerHello(head: Head, suite: bytes, compression: bytes, extensions: seq<Extension>)

  /** Section 4.1.3 of RFC 8446. */
  function ReadServerBody(b: bytes): Option<ServerHello> {
    match ReadHead(b)
    case None => None
    case Some((head, r1)) =>
      match Take(3, r1)
      case None => None
      case Some((choice, r2)) =>
        match OnlyVector(2, r2)
        case None => None
        case Some(block) =>
          match ReadExtensions(block)
          case None => None
          case Some(extensions) => Some(ServerHello(head, choice[..2], choice[2..], extensions))
  }

  /** Section 3 of RFC 6066: a list of one host name, which is not empty. */
  function ReadServerName(data: bytes): Option<bytes> {
    match OnlyVector(2, data)
    case None => None
    case Some(list) =>
      match Take(1, list)
      case None => None
      case Some((kind, rest)) =>
        match OnlyVector(2, rest)
        case None => None
        case Some(host) => if kind == [0] && host != [] then Some(host) else None
  }

  function ReadNames(b: bytes): Option<seq<bytes>>
    decreases |b|
  {
    if b == [] then Some([])
    else match TakeVector(1, b)
         case None => None
         case Some((name, rest)) =>
           if name == [] then None
           else match ReadNames(rest)
                case None => None
                case Some(names) => Some([name] + names)
  }

  /** Section 3.1 of RFC 7301. */
  function ReadProtocols(data: bytes): Option<seq<bytes>> {
    match OnlyVector(2, data)
    case None => None
    case Some(list) => ReadNames(list)
  }

  datatype KeyShare = KeyShare(group: nat, key: bytes)

  function ReadKeyShareEntry(b: bytes): Option<KeyShare> {
    match Take(2, b)
    case None => None
    case Some((group, rest)) =>
      match OnlyVector(2, rest)
      case None => None
      case Some(key) => Some(KeyShare(FromBig(group), key))
  }

  /** Section 4.2.8 of RFC 8446: a client's list, here of one share. */
  function ReadClientShare(data: bytes): Option<KeyShare> {
    match OnlyVector(2, data)
    case None => None
    case Some(list) => ReadKeyShareEntry(list)
  }

  function ReadClientHello(b: bytes): Option<ClientHello> {
    match ReadRecord(b)
    case None => None
    case Some(fragment) =>
      match ReadHandshake(1, fragment)
      case None => None
      case Some(body) => ReadClientBody(body)
  }

  function ReadServerHello(b: bytes): Option<ServerHello> {
    match ReadRecord(b)
    case None => None
    case Some(fragment) =>
      match ReadHandshake(2, fragment)
      case None => None
      case Some(body) => ReadServerBody(body)
  }

  function Find(extensions: seq<Extension>, kind: nat): Option<bytes> {
    if extensions == [] then None
    else if extensions[0].kind == kind then Some(extensions[0].data)
    else Find(extensions[1..], kind)
  }

  /** The host a ClientHello names. */
  function ReadHost(b: bytes): Option<bytes> {
    match ReadClientHello(b)
    case None => None
    case Some(hello) =>
      match Find(hello.extensions, 0)
      case None => None
      case Some(data) => ReadServerName(data)
  }

  // ---------- Reading what was written ----------

  function Vector(w: nat, data: bytes): bytes
    requires |data| < Pow256(w)
  {
    Big(|data|, w) + data
  }

  lemma TakeOf(a: bytes, rest: bytes)
    ensures Take(|a|, a + rest) == Some((a, rest))
  {
  }

  lemma VectorOf(w: nat, data: bytes, rest: bytes)
    requires |data| < Pow256(w)
    ensures TakeVector(w, Vector(w, data) + rest) == Some((data, rest))
    ensures OnlyVector(w, Vector(w, data)) == Some(data)
  {
    BigRoundTrip(|data|, w);
    Assoc(Big(|data|, w), data, rest);
    TakeOf(Big(|data|, w), data + rest);
    TakeOf(data, rest);
    TakeOf(Big(|data|, w), data);
    TakeOf(data, []);
    assert data + [] == data;
  }

  function PrintExtensions(extensions: seq<Extension>): bytes
    requires forall e | e in extensions :: e.kind < Pow256(2) && |e.data| < Pow256(2)
  {
    if extensions == [] then []
    else Big(extensions[0].kind, 2) + (Vector(2, extensions[0].data) + PrintExtensions(extensions[1..]))
  }

  lemma {:induction false} ExtensionsOf(extensions: seq<Extension>)
    requires forall e | e in extensions :: e.kind < Pow256(2) && |e.data| < Pow256(2)
    ensures ReadExtensions(PrintExtensions(extensions)) == Some(extensions)
  {
    if extensions == [] {
    } else {
      var e, more := extensions[0], PrintExtensions(extensions[1..]);
      ExtensionsOf(extensions[1..]);
      BigRoundTrip(e.kind, 2);
      TakeOf(Big(e.kind, 2), Vector(2, e.data) + more);
      VectorOf(2, e.data, more);
      assert extensions == [e] + extensions[1..];
    }
  }

  lemma Big2(n: nat)
    requires n < Pow256(2)
    ensures Big(n, 2) == [n / 256, n % 256]
  {
    assert Big(n / 256, 1) == Big(n / 256 / 256, 0) + [n / 256];
  }

  lemma Low3(n: nat)
    requires n < Pow256(3)
    ensures n < Pow256(4) && Big(n, 4)[1..] == Big(n, 3)
  {
    assert Pow256(4) == 256 * Pow256(3);
    TopZero(n, 3);
    assert ([0] + Big(n, 3))[1..] == Big(n, 3);
  }

  lemma {:induction false} TopZero(n: nat, w: nat)
    requires n < Pow256(w)
    ensures n < Pow256(w + 1) && Big(n, w + 1) == [0] + Big(n, w)
  {
    if w == 0 {
    } else {
      TopZero(n / 256, w - 1);
    }
  }

  /** Records and messages are read back, unless the record is longer than TLS allows. */
  lemma RecordReads(magic: bytes, kind: byte, body: bytes)
    requires |magic| == 3 && magic[0] == 22
    ensures var b := HandshakeRecord(magic, kind, body);
            && (b.Some? <==> |body| + 4 <= 65535)
            && (b.Some? ==> magic <= b.value)
            && (b.Some? ==>
                  && (ReadRecord(b.value).Some? <==> |body| + 4 <= MAX_FRAGMENT)
                  && (ReadRecord(b.value).Some? ==> ReadHandshake(kind, ReadRecord(b.value).value) == Some(body)))
  {
    Widths();
    if |body| + 4 <= 65535 {
      Low3(|body|);
      var handshake := [kind] + Big(|body|, 4)[1..] + body;
      Assoc([kind], Big(|body|, 3), body);
      TakeOf([kind], Vector(3, body));
      VectorOf(3, body, []);
      Assoc(magic, Big(|handshake|, 2), handshake);
      TakeOf(magic, Vector(2, handshake));
      VectorOf(2, handshake, []);
    }
  }

  lemma ListExtensionShape(kind: bytes, list: bytes)
    requires |list| + 2 < Pow256(2)
    ensures ListExtension(kind, list) == Some(kind + Vector(2, Vector(2, list)))
  {
    Assoc(kind + Big(|list| + 2, 2), Big(|list|, 2), list);
    Assoc(kind, Big(|list| + 2, 2), Vector(2, list));
  }

  /** The four extensions of the ClientHello, each in the form its own standard gives. */
  function ClientExtensions(host: bytes, key: bytes): seq<Extension>
    requires |host| <= 65372 && |key| == 32
  {
    Widths();
    [Extension(0, Vector(2, [0] + Vector(2, host))), Extension(43, Vector(1, [3, 4])),
     Extension(16, Vector(2, ALPN_DATA)), Extension(51, Vector(2, [0, 29] + Vector(2, key)))]
  }

  function Printed(e: Extension): bytes
    requires e.kind < Pow256(2) && |e.data| < Pow256(2)
  {
    Big(e.kind, 2) + Vector(2, e.data)
  }

  lemma PrintFour(a: Extension, b: Extension, c: Extension, d: Extension)
    requires forall e | e in [a, b, c, d] :: e.kind < Pow256(2) && |e.data| < Pow256(2)
    ensures PrintExtensions([a, b, c, d]) == Printed(a) + Printed(b) + Printed(c) + Printed(d)
  {
    hide Vector, Big;
    assert [a, b, c, d][1..] == [b, c, d] && [b, c, d][1..] == [c, d] && [c, d][1..] == [d];
    assert PrintExtensions([d][1..]) == [];
    assert PrintExtensions([d]) == Printed(d);
    Assoc(Big(c.kind, 2), Vector(2, c.data), Printed(d));
    assert PrintExtensions([c, d]) == Printed(c) + Printed(d);
    Assoc(Big(b.kind, 2), Vector(2, b.data), Printed(c) + Printed(d));
    Assoc(Printed(b), Printed(c), Printed(d));
    assert PrintExtensions([b, c, d]) == Printed(b) + Printed(c) + Printed(d);
    Assoc(Big(a.kind, 2), Vector(2, a.data), Printed(b) + Printed(c) + Printed(d));
    Assoc(Printed(a), Printed(b) + Printed(c), Printed(d));
    Assoc(Printed(a), Printed(b), Printed(c));
  }

  lemma SniShape(host: bytes)
    requires |host| <= 65372
    ensures |host| < Pow256(2) && |[0] + Vector(2, host)| + 2 < Pow256(2)
    ensures var e := Extension(0, Vector(2, [0] + Vector(2, host)));
            |e.data| == 5 + |host| && SniExtension(host) == Some(Printed(e))
  {
    Widths();
    Big2(0);
    Assoc([0], Big(|host|, 2), host);
    ListExtensionShape([0, 0], [0] + Vector(2, host));
  }

  lemma VersionsShape()
    ensures Pow256(1) == 256 && Pow256(2) == 65536 && VERSIONS_EXTENSION == Printed(Extension(43, Vector(1, [3, 4])))
  {
    Widths();
    Big2(43);
    Big2(3);
    assert Big(2, 1) == Big(0, 0) + [2] == [2];
    assert VERSIONS_EXTENSION == [0, 43] + ([0, 3] + ([2] + [3, 4]));
  }

  lemma AlpnShape()
    ensures Pow256(2) == 65536
    ensures ListExtension([0x00, 0x10], ALPN_DATA) == Some(Printed(Extension(16, Vector(2, ALPN_DATA))))
  {
    Widths();
    Big2(16);
    ListExtensionShape([0, 16], ALPN_DATA);
  }

  lemma ShareShape(key: bytes)
    requires |key| == 32
    ensures Pow256(2) == 65536
    ensures var e := Extension(51, Vector(2, [0, 29] + Vector(2, key)));
            |e.data| == 38 && ListExtension([0x00, 0x33], [0x00, 0x1d, 0x00, 0x20] + key) == Some(Printed(e))
  {
    Widths();
    Big2(51);
    Big2(32);
    Assoc([0, 29], [0, 32], key);
    assert [0, 29] + [0, 32] == [0, 29, 0, 32];
    ListExtensionShape([0, 51], [0, 29, 0, 32] + key);
  }

  lemma ExtensionsShape(host: bytes, key: bytes)
    requires |host| <= 65372 && |key| == 32
    ensures forall e | e in ClientExtensions(host, key) :: e.kind < Pow256(2) && |e.data| < Pow256(2)
    ensures Extensions(host, key) == Some(PrintExtensions(ClientExtensions(host, key)))
    ensures |PrintExtensions(ClientExtensions(host, key))| == 76 + |host|
  {
    SniShape(host);
    VersionsShape();
    AlpnShape();
    ShareShape(key);
    var es := ClientExtensions(host, key);
    assert es == [es[0], es[1], es[2], es[3]];
    hide SniExtension, ListExtension, Vector, Big;
    PrintFour(es[0], es[1], es[2], es[3]);
  }

  lemma HeadReads(fixed: bytes, sessionId: bytes, rest: bytes)
    requires |fixed| == 34 && |sessionId| == 32
    ensures Pow256(1) == 256
    ensures ReadHead(fixed + (Vector(1, sessionId) + rest)) == Some((Head(fixed[..2], fixed[2..], sessionId), rest))
  {
    Widths();
    VectorOf(1, sessionId, rest);
    TakeOf(fixed, Vector(1, sessionId) + rest);
    hide TakeVector, Take, Vector, Big;
  }

  /** The fields of a client's message, one after another, are read back one after another. */
  lemma FieldsRead(head: bytes, sessionId: bytes, suites: bytes, block: bytes)
    requires |head| == 34 && |sessionId| == 32 && 2 <= |suites| < 256 && |suites| % 2 == 0 && |block| < Pow256(2)
    ensures Pow256(1) == 256 && Pow256(2) == 65536
    ensures var body := head + Big(|sessionId|, 1) + sessionId + Big(|suites|, 2) + suites + [0x01, 0x00] + (Big(|block|, 2) + block);
            ReadClientBody(body)
            == match ReadExtensions(block)
               case None => None
               case Some(es) => Some(ClientHello(Head(head[..2], head[2..], sessionId), suites, [0], es))
  {
    Widths();
    var last := Vector(2, block);
    var r3 := Vector(1, [0]) + last;
    var r2 := Vector(2, suites) + r3;
    assert Vector(1, [0]) == [1] + [0] == [1, 0] by { assert Big(1, 1) == Big(0, 0) + [1]; }
    VectorOf(2, block, []);
    VectorOf(1, [0], last);
    VectorOf(2, suites, r3);
    HeadReads(head, sessionId, r2);
    Flat(head, Big(|sessionId|, 1), sessionId, Big(|suites|, 2), suites, [1, 0], last);
    hide ReadHead, TakeVector, OnlyVector, Take, Vector, Big, ReadExtensions;
  }

  lemma ClientBodyReads(random: bytes, sessionId: bytes, block: bytes)
    requires |random| == |sessionId| == 32 && |block| < Pow256(2)
    ensures var body := ClientBody(random, sessionId, block);
            && |body| == 83 + |block|
            && ReadClientBody(body)
               == match ReadExtensions(block)
                  case None => None
                  case Some(es) => Some(ClientHello(Head([3, 3], random, sessionId), CIPHER_SUITES, [0], es))
  {
    Widths();
    hide ReadClientBody, ReadExtensions, Big;
    var head := [3, 3] + random;
    assert head[..2] == [3, 3] && head[2..] == random;
    FieldsRead(head, sessionId, CIPHER_SUITES, block);
  }

  lemma Flat(a: bytes, b: bytes, c: bytes, d: bytes, e: bytes, f: bytes, g: bytes)
    ensures a + b + c + d + e + f + g == a + ((b + c) + ((d + e) + (f + g)))
  {
    Assoc(a + b + c + d + e, f, g);
    Assoc(a + b + c + d, e, f + g);
    Assoc(a + b + c, d, e + (f + g));
    Assoc(d, e, f + g);
    Assoc(a + b, c, (d + e) + (f + g));
    Assoc(a, b, c + ((d + e) + (f + g)));
    Assoc(b, c, (d + e) + (f + g));
  }

  /** A ClientHello can be built exactly for hosts of at most 65372 bytes, and then a reader directed by
      lengths alone consumes it exactly and finds the fields put in, exactly if the record stays within
      TLS's limit, that is, for hosts of at most 16221 bytes. */
  lemma ClientHelloReads(host: bytes, random: bytes, sessionId: bytes, key: bytes)
    requires |random| == |sessionId| == |key| == 32
    ensures var b := GenerateTlsClientHello(host, random, sessionId, key);
            && (b.Some? <==> |host| <= 65372)
            && (b.Some? ==> [0x16, 0x03, 0x01] <= b.value)
            && (b.Some? ==>
                  ReadClientHello(b.value)
                  == if |host| <= 16221
                     then Some(ClientHello(Head([3, 3], random, sessionId), [0x13, 1, 0x13, 2, 0x13, 3, 0xc0, 0x2b, 0xc0, 0x2f], [0],
                                           ClientExtensions(host, key)))
                     else None)
  {
    Widths();
    if |host| <= 65372 {
      ExtensionsShape(host, key);
      ExtensionsOf(ClientExtensions(host, key));
      var block := PrintExtensions(ClientExtensions(host, key));
      ClientBodyReads(random, sessionId, block);
      hide PrintExtensions, ClientExtensions, ReadExtensions, ReadClientBody, ReadRecord, ReadHandshake, HandshakeRecord, Extensions, ClientBody, Big;
      RecordReads(HANDSHAKE_MAGIC, 1, ClientBody(random, sessionId, block));
    } else {
      LongHost(host, random, sessionId, key);
    }
  }

  lemma LongHost(host: bytes, random: bytes, sessionId: bytes, key: bytes)
    requires |random| == |sessionId| == |key| == 32 && |host| > 65372
    ensures GenerateTlsClientHello(host, random, sessionId, key).None?
  {
    Widths();
    var extensions := Extensions(host, key);
    if extensions.Some? {
      assert |extensions.value| == 76 + |host|;
    }
  }

  /** What the four extensions say to readers of their standards. */
  lemma ExtensionsMean(host: bytes, key: bytes)
    requires |host| <= 65372 && |key| == 32
    ensures var es := ClientExtensions(host, key);
            && ReadServerName(es[0].data) == (if host == [] then None else Some(host))
            && OnlyVector(1, es[1].data) == Some([3, 4])
            && ReadProtocols(es[2].data) == Some([H2, HTTP_1_1])
            && ReadClientShare(es[3].data) == Some(KeyShare(29, key))
  {
    SniShape(host);
    NameReads(host);
    Widths();
    VectorOf(1, [3, 4], []);
    ShareReads(key);
    ProtocolsRead();
  }

  lemma NameReads(host: bytes)
    requires |host| < Pow256(2) && |[0] + Vector(2, host)| < Pow256(2)
    ensures ReadServerName(Vector(2, [0] + Vector(2, host))) == if host == [] then None else Some(host)
  {
    VectorOf(2, [0] + Vector(2, host), []);
    TakeOf([0], Vector(2, host));
    VectorOf(2, host, []);
  }

  lemma ShareReads(key: bytes)
    requires |key| == 32
    ensures Pow256(2) == 65536 && ReadKeyShareEntry([0, 29] + Vector(2, key)) == Some(KeyShare(29, key))
    ensures ReadClientShare(Vector(2, [0, 29] + Vector(2, key))) == Some(KeyShare(29, key))
  {
    Widths();
    VectorOf(2, [0, 29] + Vector(2, key), []);
    TakeOf([0, 29], Vector(2, key));
    VectorOf(2, key, []);
    Big2(29);
    BigRoundTrip(29, 2);
  }

  lemma NamesRead(x: bytes, y: bytes)
    requires 0 < |x| < 256 && 0 < |y| < 256
    ensures Pow256(1) == 256 && ReadNames(Vector(1, x) + Vector(1, y)) == Some([x, y])
  {
    Widths();
    VectorOf(1, x, Vector(1, y));
    VectorOf(1, y, []);
    assert Vector(1, y) + [] == Vector(1, y);
    assert |Vector(1, y)| > 0 && |Vector(1, x) + Vector(1, y)| > 0;
    hide Vector, Big, TakeVector;
    assert ReadNames([]) == Some([]);
    assert ReadNames(Vector(1, y)) == Some([y] + []) && [y] + [] == [y];
    assert [x] + [y] == [x, y];
  }

  lemma ProtocolsRead()
    ensures Pow256(2) == 65536
    ensures ReadProtocols(Vector(2, ALPN_DATA)) == Some([H2, HTTP_1_1])
  {
    Widths();
    VectorOf(2, ALPN_DATA, []);
    NamesRead(H2, HTTP_1_1);
    assert Big(2, 1) == Big(0, 0) + [2] == [2] && Big(8, 1) == Big(0, 0) + [8] == [8];
    assert Vector(1, H2) == [2] + H2 && Vector(1, HTTP_1_1) == [8] + HTTP_1_1;
  }

  /** The name asked for is the name read, exactly for hosts that are not empty and fit a TLS record. */
  lemma HostRecovered(host: bytes, random: bytes, sessionId: bytes, key: bytes)
    requires |random| == |sessionId| == |key| == 32
    ensures var b := GenerateTlsClientHello(host, random, sessionId, key);
            b.Some? && ReadHost(b.value) == Some(host) <==> 1 <= |host| <= 16221
  {
    ClientHelloReads(host, random, sessionId, key);
    if |host| <= 16221 {
      hide ReadClientHello, GenerateTlsClientHello, ReadServerName;
      ExtensionsMean(host, key);
    }
  }

  /** A ServerHello can always be built and is consumed exactly: the selected version and a key share. */
  lemma ServerHelloReads(random: bytes, sessionId: bytes, key: bytes)
    requires |random| == |sessionId| == |key| == 32
    ensures var b := GenerateTlsServerHello(random, sessionId, key);
            var share := [0, 29, 0, 32] + key;
            && b.Some? && [0x16, 0x03, 0x03] <= b.value
            && ReadServerHello(b.value) == Some(ServerHello(Head([3, 3], random, sessionId), [0x13, 0x01], [0],
                                                            [Extension(43, [3, 4]), Extension(51, share)]))
            && ReadKeyShareEntry(share) == Some(KeyShare(29, key))
  {
    ServerExtensions(key);
    var es := [Extension(43, [3, 4]), Extension(51, [0, 29, 0, 32] + key)];
    ExtensionsOf(es);
    ServerBodyReads(random, sessionId, PrintExtensions(es));
    RecordReads(SERVER_MAGIC, 2, ServerBody(random, sessionId, PrintExtensions(es)));
    hide ReadKeyShareEntry, ReadExtensions, ReadServerBody, ReadRecord, ReadHandshake, PrintExtensions, ServerBody, HandshakeRecord;
  }

  lemma PrintTwo(a: Extension, b: Extension)
    requires forall e | e in [a, b] :: e.kind < Pow256(2) && |e.data| < Pow256(2)
    ensures PrintExtensions([a, b]) == Printed(a) + Printed(b)
  {
    hide Vector, Big;
    assert [a, b][1..] == [b];
    assert PrintExtensions([b][1..]) == [];
    assert PrintExtensions([b]) == Printed(b);
    Assoc(Big(a.kind, 2), Vector(2, a.data), Printed(b));
  }

  lemma ServerVersionsShape()
    ensures Pow256(2) == 65536 && SERVER_VERSIONS == Printed(Extension(43, [3, 4]))
  {
    Widths();
    Big2(43);
    Big2(2);
    assert SERVER_VERSIONS == [0, 43] + ([0, 2] + [3, 4]);
  }

  lemma ServerShareShape(key: bytes)
    requires |key| == 32
    ensures Pow256(2) == 65536 && [0, 29] + Vector(2, key) == [0, 29, 0, 32] + key
    ensures SERVER_KEY_SHARE + key == Printed(Extension(51, [0, 29, 0, 32] + key))
  {
    Widths();
    Big2(51);
    Big2(36);
    Big2(32);
    Assoc([0, 29], [0, 32], key);
    assert [0, 29] + [0, 32] == [0, 29, 0, 32];
    Assoc([0, 36], [0, 29, 0, 32], key);
    Assoc([0, 51], [0, 36] + [0, 29, 0, 32], key);
    assert SERVER_KEY_SHARE == [0, 51] + ([0, 36] + [0, 29, 0, 32]);
  }

  lemma ServerExtensions(key: bytes)
    requires |key| == 32
    ensures Pow256(2) == 65536
    ensures var share := [0, 29, 0, 32] + key;
            var block := PrintExtensions([Extension(43, [3, 4]), Extension(51, share)]);
            && block == SERVER_VERSIONS + (SERVER_KEY_SHARE + key)
            && |block| == 46 && ReadKeyShareEntry(share) == Some(KeyShare(29, key))
  {
    ShareReads(key);
    ServerVersionsShape();
    ServerShareShape(key);
    hide Vector, Big, Printed, ReadKeyShareEntry, PrintExtensions;
    PrintTwo(Extension(43, [3, 4]), Extension(51, [0, 29, 0, 32] + key));
  }

  lemma ServerFieldsRead(head: bytes, sessionId: bytes, choice: bytes, block: bytes)
    requires |head| == 34 && |sessionId| == 32 && |choice| == 3 && |block| < Pow256(2)
    ensures Pow256(1) == 256 && Pow256(2) == 65536
    ensures ReadServerBody(head + (Vector(1, sessionId) + (choice + Vector(2, block))))
            == match ReadExtensions(block)
               case None => None
               case Some(es) => Some(ServerHello(Head(head[..2], head[2..], sessionId), choice[..2], choice[2..], es))
  {
    Widths();
    var last := Vector(2, block);
    VectorOf(2, block, []);
    TakeOf(choice, last);
    HeadReads(head, sessionId, choice + last);
    hide ReadHead, TakeVector, OnlyVector, Take, Vector, Big, ReadExtensions;
  }

  lemma ServerBodyReads(random: bytes, sessionId: bytes, block: bytes)
    requires |random| == |sessionId| == 32 && |block| < Pow256(2)
    ensures var body := ServerBody(random, sessionId, block);
            && |body| == 72 + |block|
            && ReadServerBody(body)
               == match ReadExtensions(block)
                  case None => None
                  case Some(es) => Some(ServerHello(Head([3, 3], random, sessionId), [0x13, 0x01], [0], es))
  {
    Widths();
    var head, choice: bytes := [3, 3] + random, [0x13, 0x01, 0x00];
    assert head[..2] == [3, 3] && head[2..] == random && choice[..2] == [0x13, 0x01] && choice[2..] == [0];
    ServerFieldsRead(head, sessionId, choice, block);
    hide ReadServerBody, ReadExtensions, Big;
    var l, last := Big(|sessionId|, 1), Vector(2, block);
    Assoc(head + l + sessionId, [0x13, 0x01], [0x00]);
    assert [0x13, 0x01] + [0x00] == choice;
    Assoc(head + l + sessionId, choice, last);
    Assoc(head, l, sessionId);
    Assoc(head, l + sessionId, choice + last);
  }

  // ---------- Padding and records ----------

  /** How much padding a payload of `n` bytes gets; `extra` is the random number between 16 and 64. */
  function PadLength(n: nat, block: nat, extra: nat): nat
    requires block > 0
  {
    var pad := (block - (n + 2) % block) % block;
    if pad < 16 then pad + extra else pad
  }

  /** `None` is an error: the length does not fit 16 bits, or the block size is 0. */
  function ApplyPadding(raw: bytes, block: nat, extra: nat, noise: nat -> bytes): Option<bytes> {
    if block == 0 || |raw| >= Pow256(2) then None
    else Some(Big(|raw|, 2) + raw + noise(PadLength(|raw|, block, extra)))
  }

  function RemovePadding(padded: bytes): bytes {
    if |padded| < 2 then padded else Slice(padded, 2, 2 + FromBig(padded[..2]))
  }

  function WrapTlsRecord(data: bytes): Option<bytes> {
    if |data| < Pow256(2) then Some(APP_DATA_MAGIC + Big(|data|, 2) + data) else None
  }

  function UnwrapTlsRecord(record: bytes): bytes {
    if APP_DATA_MAGIC <= record && |record| >= 5 then Slice(record, 5, 5 + FromBig(record[3..5])) else record
  }

  /** Padding is undone, whatever the random bytes and however many. */
  lemma PaddingUndone(raw: bytes, block: nat, extra: nat, noise: nat -> bytes)
    ensures var padded := ApplyPadding(raw, block, extra, noise);
            && (padded.Some? <==> block > 0 && |raw| <= 65535)
            && (padded.Some? ==> |padded.value| >= 2 && padded.value[..2] == Big(|raw|, 2) && RemovePadding(padded.value) == raw)
  {
    Widths();
    if block > 0 && |raw| <= 65535 {
      var tail := noise(PadLength(|raw|, block, extra));
      BigRoundTrip(|raw|, 2);
      Parts([], Big(|raw|, 2), raw, tail);
      assert [] + Big(|raw|, 2) + raw + tail == Big(|raw|, 2) + raw + tail;
    }
  }

  lemma Rounded(m: nat, block: nat)
    requires block > 0
    ensures (m + (block - m % block) % block) % block == 0
  {
    var r := m % block;
    if r > 0 {
      assert (block - r) % block == block - r;
      assert m + (block - r) == block * (m / block + 1);
      Multiple(block, m / block + 1);
    } else {
      assert (block - r) % block == 0 by { Multiple(block, 1); }
    }
  }

  lemma Multiple(a: nat, k: nat)
    requires a > 0
    ensures (a * k) % a == 0
  {
    var q, r := (a * k) / a, (a * k) % a;
    assert a * k == a * q + r;
    if q < k {
      Monotone(q, k, a);
    } else if q > k {
      Monotone(k, q, a);
    }
  }

  lemma {:induction false} Monotone(p: nat, q: nat, a: nat)
    requires p < q
    ensures a * p + a <= a * q
    decreases q
  {
    if q > p + 1 {
      Monotone(p, q - 1, a);
    }
    assert a * q == a * (q - 1) + a;
  }

  /** A padded payload carries at least 16 bytes of padding, and fills whole blocks up to the random extra. */
  lemma PaddedLength(raw: bytes, block: nat, extra: nat, noise: nat -> bytes)
    requires block > 0 && |raw| <= 65535 && 16 <= extra <= 64 && forall n :: |noise(n)| == n
    ensures var padded := ApplyPadding(raw, block, extra, noise);
            && padded.Some?
            && var pad := |padded.value| - 2 - |raw|;
               || (16 <= pad < block && |padded.value| % block == 0)
               || (0 <= pad - extra < 16 && pad - extra < block && (|padded.value| - extra) % block == 0)
  {
    Widths();
    Rounded(|raw| + 2, block);
  }

  /** A wrapped record is unwrapped, with anything after it; what is not a record passes unchanged. */
  lemma RecordUndone(data: bytes, after: bytes)
    ensures var record := WrapTlsRecord(data);
            && (record.Some? <==> |data| <= 65535)
            && (record.Some? ==> record.value == [0x17, 0x03, 0x03] + Big(|data|, 2) + data
                                 && UnwrapTlsRecord(record.value + after) == data)
    ensures !(APP_DATA_MAGIC <= data) ==> UnwrapTlsRecord(data) == data
  {
    Widths();
    if |data| <= 65535 {
      BigRoundTrip(|data|, 2);
      Parts(APP_DATA_MAGIC, Big(|data|, 2), data, after);
      var b := APP_DATA_MAGIC + Big(|data|, 2) + data + after;
      assert b[..3] == APP_DATA_MAGIC;
    }
  }

  /** Padding and wrapping together, exactly while the padded payload fits a record. */
  lemma CamouflageUndone(raw: bytes, block: nat, extra: nat, noise: nat -> bytes)
    requires block > 0 && |raw| <= 65535 && forall n :: |noise(n)| == n
    ensures var padded := ApplyPadding(raw, block, extra, noise);
            var record := WrapTlsRecord(padded.value);
            && (record.Some? <==> 2 + |raw| + PadLength(|raw|, block, extra) <= 65535)
            && (record.Some? ==> RemovePadding(UnwrapTlsRecord(record.value)) == raw)
  {
    Widths();
    PaddingUndone(raw, block, extra, noise);
    var padded := ApplyPadding(raw, block, extra, noise).value;
    RecordUndone(padded, []);
    var record := WrapTlsRecord(padded);
    if record.Some? {
      assert record.value + [] == record.value;
    }
  }
}
