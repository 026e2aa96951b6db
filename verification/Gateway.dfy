/** What the local proxy makes of a connection: the SOCKS (or HTTP) request in its bytes, and the calls for the tunnel. */
module Gateway {
  import opened Bytes
  import opened Wrappers

  /** The calls of the tunnel's callback: action 1, 2 and 3. */
  datatype LocalFrame =
    | Connect(connId: nat, host: string, port: int)
    | Data(connId: nat, data: bytes)
    | Close(connId: nat)

  /** Text conversions of the platform, the ad filter's answer, and the reading of an HTTP header. */
  datatype Platform = Platform(
    decode: bytes -> string, inetNtoa: bytes -> string, inetNtop: bytes -> string,
    blocked: string -> bool, http: bytes -> Option<Target>)

  /** Where a request wants to go, what the gateway itself sends first, and how long the request was. A port
      in an HTTP header may be any integer. */
  datatype Target = Target(host: string, port: int, first: seq<bytes>, consumed: nat)

  // ---------- Reading a request ----------

  function Port(b: bytes, i: nat): nat
    requires i + 2 <= |b|
  {
    FromBig(b[i..i + 2])
  }

  /** VER NMETHODS METHODS, then VER CMD RSV ATYP, address and port (sections 3 and 4 of RFC 1928). */
  function Socks5Request(p: Platform, input: bytes): Option<Target> {
    if |input| < 2 then None
    else
      var req := 2 + input[1] as int;
      if |input| < req + 4 || input[req + 1] != 1 then None
      else Socks5Address(p, input, input[req + 3], req + 4)
  }

  function Socks5Address(p: Platform, input: bytes, atyp: byte, at: nat): Option<Target> {
    if atyp == 1 then
      if |input| < at + 6 then None
      else Some(Target(p.inetNtoa(input[at..at + 4]), Port(input, at + 4), [], at + 6))
    else if atyp == 3 then
      if |input| < at + 1 || |input| < at + 1 + input[at] as int + 2 then None
      else
        var end := at + 1 + input[at] as int;
        Some(Target(p.decode(input[at + 1..end]), Port(input, end), [], end + 2))
    else if atyp == 4 then
      if |input| < at + 18 then None
      else Some(Target(p.inetNtop(input[at..at + 16]), Port(input, at + 16), [], at + 18))
    else None
  }

  /** The first NUL at or after `i`. */
  function FindNul(input: bytes, i: nat): (r: Option<nat>)
    ensures r.Some? ==> i <= r.value < |input| && input[r.value] == 0 && 0 !in input[i..r.value]
    ensures r.None? && i <= |input| ==> 0 !in input[i..]
    decreases |input| - i
  {
    if i >= |input| then None
    else if input[i] == 0 then Some(i)
    else
      var r := FindNul(input, i + 1);
      assert r.Some? ==> input[i..r.value] == [input[i]] + input[i + 1..r.value];
      assert r.None? ==> input[i..] == [input[i]] + input[i + 1..];
      r
  }

  /** VN CD DSTPORT DSTIP USERID NUL; an address 0.0.0.x with x not 0 is followed by a host name and NUL. */
  function Socks4Request(p: Platform, input: bytes): Option<Target> {
    if |input| < 8 then None
    else match FindNul(input, 8)
         case None => None
         case Some(user) => Socks4Host(p, input, user + 1)
  }

  function Socks4Host(p: Platform, input: bytes, at: nat): Option<Target>
    requires |input| >= 8
  {
    var port := Port(input, 2);
    if input[4..7] == [0, 0, 0] && input[7] != 0 then
      match FindNul(input, at)
      case None => None
      case Some(end) => if input[1] == 1 then Some(Target(p.decode(input[at..end]), port, [], end + 1)) else None
    else if input[1] == 1 then Some(Target(p.inetNtoa(input[4..8]), port, [], at))
    else None
  }

  /** The end of the first blank line from `i` on. */
  function HeaderEnd(input: bytes, i: nat): (r: Option<nat>)
    ensures match r
            case None => forall k, l | i <= k && k + 4 == l <= |input| :: input[k..l] != [13, 10, 13, 10]
            case Some(e) => i + 4 <= e <= |input| && input[e - 4..e] == [13, 10, 13, 10]
                            && forall k, l | i <= k && k + 4 == l < e :: input[k..l] != [13, 10, 13, 10]
    decreases |input| - i
  {
    if i + 4 > |input| then None
    else if input[i..i + 4] == [13, 10, 13, 10] then Some(i + 4)
    else HeaderEnd(input, i + 1)
  }

  function HttpRequest(p: Platform, input: bytes): Option<Target> {
    match HeaderEnd(input, 1)
    case None => None
    case Some(end) =>
      match p.http(input[..end])
      case None => None
      case Some(t) => Some(t.(consumed := end))
  }

  /** The request at the front of the application's bytes, by its first byte. */
  function Request(p: Platform, input: bytes): (r: Option<Target>)
    ensures r.Some? ==> r.value.consumed <= |input|
  {
    if input == [] then None
    else if input[0] == 5 then Socks5Request(p, input)
    else if input[0] == 4 then Socks4Request(p, input)
    else HttpRequest(p, input)
  }

  // ---------- Requests as clients write them ----------

  datatype Address = V4(octets: bytes) | Domain(name: bytes) | V6(groups: bytes) {
    predicate Fits() {
      match this
      case V4(o) => |o| == 4
      case Domain(n) => |n| < 256
      case V6(g) => |g| == 16
    }

    function Encode(): bytes
      requires Fits()
    {
      match this
      case V4(o) => [1] + o
      case Domain(n) => [3, |n|] + n
      case V6(g) => [4] + g
    }

    function Text(p: Platform): string {
      match this
      case V4(o) => p.inetNtoa(o)
      case Domain(n) => p.decode(n)
      case V6(g) => p.inetNtop(g)
    }
  }

  /** A SOCKS5 greeting and request. The version and the reserved byte of the request are not looked at. */
  datatype Socks5Message = Socks5Message(methods: bytes, version: byte, command: byte, reserved: byte, address: Address, port: nat) {
    predicate Fits() {
      |methods| < 256 && address.Fits() && port < 65536
    }

    function Encode(): bytes
      requires Fits()
    {
      [5, |methods|] + methods + [version, command, reserved] + address.Encode() + Big(port, 2)
    }
  }

  /** A SOCKS4 request. `name` is present for SOCKS4a, whose address is 0.0.0.x with x not 0. */
  datatype Socks4Message = Socks4Message(command: byte, port: nat, ip: bytes, user: bytes, name: Option<bytes>) {
    predicate Fits() {
      && port < 65536 && |ip| == 4 && 0 !in user
      && (name.Some? <==> ip[..3] == [0, 0, 0] && ip[3] != 0)
      && (name.Some? ==> 0 !in name.value)
    }

    function Encode(): bytes
      requires Fits()
    {
      [4, command] + Big(port, 2) + ip + user + [0] + match name case None => [] case Some(n) => n + [0]
    }

    function Host(p: Platform): string {
      match name
      case None => p.inetNtoa(ip)
      case Some(n) => p.decode(n)
    }
  }

  /** The address bytes after ATYP, parsed in place. */
  lemma AddressParses(p: Platform, pre: bytes, a: Address, port: nat, tail: bytes)
    requires a.Fits() && port < 65536
    ensures var input := pre + a.Encode()[1..] + Big(port, 2) + tail;
            Socks5Address(p, input, a.Encode()[0], |pre|)
            == Some(Target(a.Text(p), port, [], |pre| + |a.Encode()| - 1 + 2))
  {
    hide FromBig, Big, Socks5Address;
    BigRoundTrip(port, 2);
    var pb := Big(port, 2);
    match a
    case V4(o) => FixedAddress(p, pre, o, pb, tail, a.Encode());
    case V6(g) => FixedAddress(p, pre, g, pb, tail, a.Encode());
    case Domain(n) =>
      NamedAddress(p, pre, |n|, n, pb, tail);
      assert a.Encode()[1..] == [|n| as byte] + n;
  }

  lemma FixedAddress(p: Platform, pre: bytes, body: bytes, port: bytes, tail: bytes, code: bytes)
    requires (|body| == 4 && code == [1] + body) || (|body| == 16 && code == [4] + body)
    requires |port| == 2
    ensures Socks5Address(p, pre + code[1..] + port + tail, code[0], |pre|)
         == Some(Target(if |body| == 4 then p.inetNtoa(body) else p.inetNtop(body), FromBig(port), [], |pre| + |body| + 2))
  {
    assert code[1..] == body;
    Parts(pre, body, port, tail);
  }

  lemma NamedBytes(pre: bytes, n: byte, name: bytes, port: bytes, tail: bytes)
    requires n == |name| && |port| == 2
    ensures var input := pre + ([n] + name) + port + tail;
            var at, end := |pre|, |pre| + 1 + |name|;
            |input| >= end + 2 && input[at] == n && input[at + 1..end] == name && input[end..end + 2] == port
  {
    assert pre + ([n] + name) + port + tail == (pre + [n]) + name + port + tail;
    Parts(pre + [n], name, port, tail);
  }

  lemma NamedAddress(p: Platform, pre: bytes, n: byte, name: bytes, port: bytes, tail: bytes)
    requires n == |name| && |port| == 2
    ensures Socks5Address(p, pre + ([n] + name) + port + tail, 3, |pre|)
         == Some(Target(p.decode(name), FromBig(port), [], |pre| + 1 + |name| + 2))
  {
    hide FromBig;
    NamedBytes(pre, n, name, port, tail);
  }

  /** Every SOCKS5 CONNECT request is read back, whatever follows it: its host, its port and its exact length. A
      request with any other command is refused. */
  lemma Socks5Parses(p: Platform, m: Socks5Message, tail: bytes)
    requires m.Fits()
    ensures Request(p, m.Encode() + tail)
         == if m.command == 1 then Some(Target(m.address.Text(p), m.port, [], |m.Encode()|)) else None
  {
    hide FromBig, Big, Socks5Address;
    var head := [5, |m.methods| as byte] + m.methods + [m.version, m.command, m.reserved];
    var code := m.address.Encode();
    var pre := head + [code[0]];
    RegroupCode(head, code, Big(m.port, 2), tail);
    HeadBytes(m, code[0], code[1..] + Big(m.port, 2) + tail);
    AddressParses(p, pre, m.address, m.port, tail);
    hide Address.Encode, Address.Text;
  }

  lemma RegroupCode(head: bytes, code: bytes, port: bytes, tail: bytes)
    requires code != []
    ensures var pre, rest := head + [code[0]], code[1..];
            && head + code + port + tail == pre + rest + port + tail == pre + (rest + port + tail)
            && |head + code + port| == |pre| + |code| - 1 + |port|
  {
    var pre, rest := head + [code[0]], code[1..];
    assert code == [code[0]] + rest;
    Assoc(head, [code[0]], rest);
    Assoc(pre + rest, port, tail);
    Assoc(pre, rest, port + tail);
    Assoc(rest, port, tail);
  }

  lemma HeadBytes(m: Socks5Message, atyp: byte, rest: bytes)
    requires |m.methods| < 256
    ensures var pre := [5, |m.methods| as byte] + m.methods + [m.version, m.command, m.reserved] + [atyp];
            var input := pre + rest;
            var req := 2 + |m.methods|;
            && |pre| == req + 4 && input[0] == 5 && input[1] == |m.methods|
            && input[req + 1] == m.command && input[req + 3] == atyp
  {
  }

  /** And nothing else is: a request that is found is a CONNECT request that stands at the front of the input. */
  lemma Socks5Means(p: Platform, input: bytes) returns (m: Socks5Message)
    requires input != [] && input[0] == 5 && Request(p, input).Some?
    ensures m.Fits() && m.command == 1 && m.Encode() <= input
    ensures Request(p, input) == Some(Target(m.address.Text(p), m.port, [], |m.Encode()|))
  {
    hide FromBig, Big, Socks5Address, Address.Encode, Address.Text, Port;
    var req := 2 + input[1] as int;
    var a, port := AddressMeans(p, input, input[req + 3], req + 4);
    m := Socks5Message(input[2..req], input[req], 1, input[req + 2], a, port);
    FrontBytes(input, m.methods, a.Encode(), Big(port, 2));
  }

  lemma FrontBytes(input: bytes, methods: bytes, code: bytes, port: bytes)
    requires var req := 2 + |methods|;
             var end := req + 3 + |code| + |port|;
             && end <= |input| && |methods| < 256 && input[0] == 5 && input[1] == |methods| && input[2..req] == methods
             && input[req + 3..end] == code + port
    ensures var req := 2 + |methods|;
            [5, |methods| as byte] + methods + [input[req], input[req + 1], input[req + 2]] + code + port <= input
  {
    var req := 2 + |methods|;
    var head := [5, |methods| as byte] + methods + [input[req], input[req + 1], input[req + 2]];
    assert input[..req + 3] == head;
    Assoc(head, code, port);
    assert head + (code + port) == input[..req + 3 + |code| + |port|];
  }

  lemma AddressMeans(p: Platform, input: bytes, atyp: byte, at: nat) returns (a: Address, port: nat)
    requires 1 <= at <= |input| && input[at - 1] == atyp && Socks5Address(p, input, atyp, at).Some?
    ensures a.Fits() && port < 65536
    ensures var t := Socks5Address(p, input, atyp, at).value;
            && t.consumed <= |input| && input[at - 1..t.consumed] == a.Encode() + Big(port, 2)
            && t == Target(a.Text(p), port, [], at - 1 + |a.Encode()| + 2)
  {
    var end := Socks5Address(p, input, atyp, at).value.consumed - 2;
    FromBigRoundTrip(input[end..end + 2]);
    Widths();
    port := Port(input, end);
    a := if atyp == 1 then V4(input[at..end]) else if atyp == 3 then Domain(input[at + 1..end]) else V6(input[at..end]);
    assert input[at - 1..end + 2] == input[at - 1..end] + input[end..end + 2];
    assert a.Encode() == input[at - 1..end];
  }

  lemma {:induction false} FindNulAt(pre: bytes, body: bytes, rest: bytes)
    requires 0 !in body
    ensures FindNul(pre + body + [0] + rest, |pre|) == Some(|pre| + |body|)
    decreases |body|
  {
    var input := pre + body + [0] + rest;
    if body == [] {
    } else {
      assert input == (pre + [body[0]]) + body[1..] + [0] + rest;
      assert input[|pre|] == body[0] && body[0] in body;
      FindNulAt(pre + [body[0]], body[1..], rest);
    }
  }

  /** Every SOCKS4 and SOCKS4a CONNECT request is read back, and any other command refused. */
  lemma Socks4Parses(p: Platform, m: Socks4Message, tail: bytes)
    requires m.Fits()
    ensures Request(p, m.Encode() + tail) == if m.command == 1 then Some(Target(m.Host(p), m.port, [], |m.Encode()|)) else None
  {
    var last := match m.name case None => [] case Some(n) => n + [0];
    UserEnds(m, last, tail);
    var front := [4, m.command] + Big(m.port, 2) + m.ip + m.user + [0];
    if m.name.Some? {
      NameEnds(front, m.name.value, tail);
    }
    hide FindNul, FromBig, Big, Pow256, Port;
    assert m.Encode() == front + last;
  }

  lemma UserEnds(m: Socks4Message, last: bytes, tail: bytes)
    requires m.Fits()
    ensures var input := [4, m.command] + Big(m.port, 2) + m.ip + m.user + [0] + last + tail;
            && |input| >= 8 && input[0] == 4 && input[1] == m.command && Port(input, 2) == m.port
            && input[4..8] == m.ip && input[4..7] == m.ip[..3] && input[7] == m.ip[3]
            && FindNul(input, 8) == Some(8 + |m.user|)
  {
    Widths();
    hide FindNul, FromBig, Big, Pow256;
    var pre := [4, m.command] + Big(m.port, 2) + m.ip;
    Regroup(pre, m.user, last, tail);
    FindNulAt(pre, m.user, last + tail);
    Socks4Head(m.command, Big(m.port, 2), m.ip, m.user + [0] + (last + tail));
    BigRoundTrip(m.port, 2);
  }

  lemma NameEnds(front: bytes, name: bytes, tail: bytes)
    requires 0 !in name
    ensures var input := front + (name + [0]) + tail;
            && FindNul(input, |front|) == Some(|front| + |name|) && |front| + |name| <= |input|
            && input[|front|..|front| + |name|] == name
  {
    hide FindNul;
    Assoc(front, name, [0]);
    FindNulAt(front, name, tail);
    Parts(front, name, [0], tail);
  }

  lemma Regroup(pre: bytes, user: bytes, last: bytes, tail: bytes)
    ensures var input := pre + user + [0] + last + tail;
            input == pre + user + [0] + (last + tail) == pre + (user + [0] + (last + tail))
  {
    Assoc(pre + user + [0], last, tail);
    Assoc(pre + user, [0], last + tail);
    Assoc(pre, user, [0] + (last + tail));
    Assoc(user, [0], last + tail);
  }

  lemma Socks4Head(command: byte, port: bytes, ip: bytes, rest: bytes)
    requires |port| == 2 && |ip| == 4
    ensures var input := [4, command] + port + ip + rest;
            && input[0] == 4 && input[1] == command && input[2..4] == port && input[4..8] == ip
            && input[4..7] == ip[..3] && input[7] == ip[3]
  {
    Parts([4, command], port, ip, rest);
  }

  /** And nothing else is. */
  lemma Socks4Means(p: Platform, input: bytes) returns (m: Socks4Message)
    requires input != [] && input[0] == 4 && Request(p, input).Some?
    ensures m.Fits() && m.command == 1 && m.Encode() <= input
    ensures Request(p, input) == Some(Target(m.Host(p), m.port, [], |m.Encode()|))
  {
    var user := FindNul(input, 8).value;
    hide FromBig, Big, FindNul;
    if input[4..7] == [0, 0, 0] && input[7] != 0 {
      m := Socks4Front(input, user, Some(Request(p, input).value.consumed - 1));
    } else {
      m := Socks4Front(input, user, None);
    }
  }

  lemma Socks4Front(input: bytes, user: nat, end: Option<nat>) returns (m: Socks4Message)
    requires 8 <= user < |input| && input[0] == 4 && input[1] == 1 && input[user] == 0 && 0 !in input[8..user]
    requires end.Some? <==> input[4..7] == [0, 0, 0] && input[7] != 0
    requires end.Some? ==> user < end.value < |input| && input[end.value] == 0 && 0 !in input[user + 1..end.value]
    ensures m == Socks4Message(1, Port(input, 2), input[4..8], input[8..user],
                               if end.Some? then Some(input[user + 1..end.value]) else None)
    ensures m.Fits() && m.Encode() == input[..if end.Some? then end.value + 1 else user + 1]
  {
    hide FromBig, Big, Pow256;
    Widths();
    FromBigRoundTrip(input[2..4]);
    SliceOfSlice(input, 4, 8, 3);
    assert input[4..8][3] == input[7];
    m := Socks4Message(1, Port(input, 2), input[4..8], input[8..user],
                       if end.Some? then Some(input[user + 1..end.value]) else None);
    assert [4, 1] + input[2..4] + input[4..8] + input[8..user] + [0] == input[..user + 1];
    if end.Some? {
      assert input[..end.value + 1] == input[..user + 1] + (input[user + 1..end.value] + [0]);
    }
  }

  /** An HTTP header: all up to its first blank line. */
  ghost predicate Header(head: bytes) {
    && |head| >= 5 && head[0] != 4 && head[0] != 5 && head[|head| - 4..] == [13, 10, 13, 10]
    && forall k, l | 1 <= k && k + 4 == l < |head| :: head[k..l] != [13, 10, 13, 10]
  }

  /** Whatever follows a header, nothing beyond it is taken. */
  lemma HttpParses(p: Platform, head: bytes, tail: bytes)
    requires Header(head)
    ensures Request(p, head + tail) == match p.http(head)
                                       case None => None
                                       case Some(t) => Some(t.(consumed := |head|))
  {
    var input := head + tail;
    assert input[..|head|] == head;
    assert input[|head| - 4..|head|] == head[|head| - 4..];
    forall k, l | 1 <= k && k + 4 == l < |head| ensures input[k..l] != [13, 10, 13, 10] {
      assert input[k..l] == head[k..l];
    }
  }

  lemma HttpMeans(p: Platform, input: bytes) returns (head: bytes)
    requires input != [] && input[0] != 4 && input[0] != 5 && Request(p, input).Some?
    ensures Header(head) && head <= input && p.http(head).Some?
  {
    var end := HeaderEnd(input, 1).value;
    head := input[..end];
    assert head[end - 4..] == input[end - 4..end];
    forall k, l | 1 <= k && k + 4 == l < end ensures head[k..l] != [13, 10, 13, 10] {
      assert head[k..l] == input[k..l];
    }
  }

  /** The bytes hold a request exactly if a SOCKS5 or SOCKS4 CONNECT request, or a header the platform understands,
      stands at their front. */
  lemma RequestExactly(p: Platform, input: bytes)
    requires input != []
    ensures Request(p, input).Some? <==>
              match input[0]
              case 5 => exists m: Socks5Message :: m.Fits() && m.command == 1 && m.Encode() <= input
              case 4 => exists m: Socks4Message :: m.Fits() && m.command == 1 && m.Encode() <= input
              case _ => exists head :: Header(head) && head <= input && p.http(head).Some?
  {
    hide Request, Header;
    if input[0] == 5 {
      Socks5Exactly(p, input);
    } else if input[0] == 4 {
      Socks4Exactly(p, input);
    } else {
      if Request(p, input).Some? {
        var head := HttpMeans(p, input);
      }
      if head :| Header(head) && head <= input && p.http(head).Some? {
        HttpParses(p, head, input[|head|..]);
        assert head + input[|head|..] == input;
      }
    }
  }

  lemma Socks5Exactly(p: Platform, input: bytes)
    requires input != [] && input[0] == 5
    ensures Request(p, input).Some? <==> exists m: Socks5Message :: m.Fits() && m.command == 1 && m.Encode() <= input
  {
    hide Request, Socks5Message.Encode, Socks5Message.Fits;
    if Request(p, input).Some? {
      var m := Socks5Means(p, input);
    }
    if m: Socks5Message :| m.Fits() && m.command == 1 && m.Encode() <= input {
      Socks5Parses(p, m, input[|m.Encode()|..]);
      assert m.Encode() + input[|m.Encode()|..] == input;
    }
  }

  lemma Socks4Exactly(p: Platform, input: bytes)
    requires input != [] && input[0] == 4
    ensures Request(p, input).Some? <==> exists m: Socks4Message :: m.Fits() && m.command == 1 && m.Encode() <= input
  {
    hide Request, Socks4Message.Encode, Socks4Message.Fits;
    if Request(p, input).Some? {
      var m := Socks4Means(p, input);
    }
    if m: Socks4Message :| m.Fits() && m.command == 1 && m.Encode() <= input {
      Socks4Parses(p, m, input[|m.Encode()|..]);
      assert m.Encode() + input[|m.Encode()|..] == input;
    }
  }

  // ---------- The calls of one connection ----------

  /** How the handler left: it piped nothing, stopped piping early, or piped to the end of the stream. */
  datatype Outcome = NotPiped | Interrupted | Drained

  function DataFrames(id: nat, chunks: seq<bytes>): seq<LocalFrame> {
    seq(|chunks|, i requires 0 <= i < |chunks| => Data(id, chunks[i]))
  }

  /** What a connection's frames may be: CLOSE alone, or CONNECT, DATA* and CLOSE, where the DATA carry
      the gateway's own header, if any, and then a prefix of the bytes after the request. */
  ghost predicate Grammar(p: Platform, id: nat, input: bytes, frames: seq<LocalFrame>, outcome: Outcome) {
    match outcome
    case NotPiped => frames == [Close(id)]
    case _ =>
      exists target: Target, chunks: seq<bytes> ::
        && Request(p, input) == Some(target) && !p.blocked(target.host)
        && Piped(input[target.consumed..], chunks, outcome == Drained)
        && frames == [Connect(id, target.host, target.port)] + DataFrames(id, target.first + chunks) + [Close(id)]
  }

  ghost predicate Piped(input: bytes, chunks: seq<bytes>, all: bool) {
    && Concat(chunks) <= input
    && (all ==> Concat(chunks) == input)
    && forall c | c in chunks :: 1 <= |c| <= 2048
  }

  /** A request with any command but CONNECT (BIND, say, or UDP ASSOCIATE) gets CLOSE and nothing else. */
  lemma OtherCommandsClose(p: Platform, id: nat, head: bytes, tail: bytes, frames: seq<LocalFrame>, outcome: Outcome)
    requires || (exists m: Socks5Message :: m.Fits() && m.command != 1 && m.Encode() == head)
             || (exists m: Socks4Message :: m.Fits() && m.command != 1 && m.Encode() == head)
    requires Grammar(p, id, head + tail, frames, outcome)
    ensures frames == [Close(id)]
  {
    hide Request;
    if m: Socks5Message :| m.Fits() && m.command != 1 && m.Encode() == head {
      Socks5Parses(p, m, tail);
    } else {
      var m: Socks4Message :| m.Fits() && m.command != 1 && m.Encode() == head;
      Socks4Parses(p, m, tail);
    }
  }

  /** The calls made for one connection, in order. */
  function CallsFor(calls: seq<LocalFrame>, id: nat): seq<LocalFrame> {
    if calls == [] then []
    else CallsFor(calls[..|calls| - 1], id) + if calls[|calls| - 1].connId == id then [calls[|calls| - 1]] else []
  }

  lemma {:induction false} CallsForAppend(a: seq<LocalFrame>, b: seq<LocalFrame>, id: nat)
    ensures CallsFor(a + b, id) == CallsFor(a, id) + CallsFor(b, id)
  {
    if b == [] {
      assert a + b == a;
    } else {
      CallsForAppend(a, b[..|b| - 1], id);
      assert (a + b)[..|a + b| - 1] == a + b[..|b| - 1];
    }
  }

  /** A connection without calls is one whose id no call carries. */
  lemma {:induction false} CallsForNone(calls: seq<LocalFrame>, id: nat)
    ensures CallsFor(calls, id) == [] <==> forall f | f in calls :: f.connId != id
  {
    if calls == [] {
    } else {
      CallsForNone(calls[..|calls| - 1], id);
      assert calls == calls[..|calls| - 1] + [calls[|calls| - 1]];
    }
  }

  lemma {:induction false} CallsForAll(calls: seq<LocalFrame>, id: nat)
    requires forall f | f in calls :: f.connId == id
    ensures CallsFor(calls, id) == calls
  {
    if calls == [] {
    } else {
      CallsForAll(calls[..|calls| - 1], id);
      assert calls == calls[..|calls| - 1] + [calls[|calls| - 1]];
    }
  }

  lemma NoChunks(id: nat)
    ensures Concat([]) == [] && DataFrames(id, []) == []
  {
  }

  lemma OneMoreChunk(id: nat, chunks: seq<bytes>, data: bytes)
    ensures Concat(chunks + [data]) == Concat(chunks) + data
    ensures DataFrames(id, chunks + [data]) == DataFrames(id, chunks) + [Data(id, data)]
  {
    assert (chunks + [data])[..|chunks|] == chunks;
  }
}
