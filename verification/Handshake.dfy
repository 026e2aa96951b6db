/** The two-message handshake that gives a client and a server their session keys. */
module Handshake {
  import opened Addresses
  import opened Bytes
  import opened Cipher
  import opened Wrappers

  type digest = b: bytes | |b| == 32 witness seq(32, _ => 0)

  /** X25519 by private and public key, HKDF-SHA256 under the protocol's salt by info and secret, and
      HMAC-SHA256 by key and text. An exchange fails if its result would be all zeros. */
  datatype Primitives = Primitives(
    publicOf: digest -> digest,
    exchange: (digest, digest) -> Option<digest>,
    hkdf: (string, bytes) -> digest,
    hmac: (digest, bytes) -> digest)
  {
    /** Section 6.1 of RFC 7748: both sides of an exchange of honest keys get the same secret. */
    ghost predicate Commutes() {
      forall a, b :: exchange(a, publicOf(b)).Some? && exchange(a, publicOf(b)) == exchange(b, publicOf(a))
    }

    /** Whether an exchange fails depends on the public key alone: it does for the points of small order. */
    ghost predicate FailsByPublicKey() {
      forall a, b, p :: exchange(a, p).Some? <==> exchange(b, p).Some?
    }

    /** Different labels give different keys for the same secret. */
    ghost predicate Separates() {
      forall secret, a, b | a in LABELS && b in LABELS && a != b :: hkdf(a, secret) != hkdf(b, secret)
    }

    function Mac(info: string, secret: bytes, body: bytes): (tag: bytes)
      ensures |tag| == 16
    {
      hmac(hkdf(info, secret), body)[..16]
    }
  }

  const INFO_KEY_TX := "ShinVPN_Transmit_Key_v1"
  const INFO_KEY_RX := "ShinVPN_Receive_Key_v1"
  const INFO_AUTH := "ShinVPN_Handshake_Auth_v1"
  const INFO_RESP_AUTH := "ShinVPN_Resp_Auth_v1"
  const LABELS := {INFO_KEY_TX, INFO_KEY_RX, INFO_AUTH, INFO_RESP_AUTH}

  datatype Role = Initiator | Responder
  datatype Error = WrongRole | NoPeerKey | TooShort | NotAllowed | BadPublicKey | BadMac | SessionMismatch | BadAddress

  /** Everything a `HandshakeState` holds. A cipher stands for itself as it was created: nothing sent or
      received. */
  datatype Party = Party(
    role: Role, staticKey: digest, ephemeralKey: digest,
    peerStatic: Option<digest>, peerEphemeral: Option<digest>,
    sessionId: nat, completed: bool,
    tx: Option<Keys>, rx: Option<Keys>, vip: Option<string>)

  function NewParty(role: Role, staticKey: digest, ephemeralKey: digest, peer: Option<digest>): Party {
    Party(role, staticKey, ephemeralKey, peer, None, 0, false, None, None, None)
  }

  // ---------- What each side computes ----------

  function Secret2(c: Primitives, k1: digest, p1: digest, k2: digest, p2: digest): Option<bytes> {
    match c.exchange(k1, p1)
    case None => None
    case Some(d1) =>
      match c.exchange(k2, p2)
      case None => None
      case Some(d2) => Some(d1 + d2)
  }

  function Secret3(c: Primitives, k1: digest, p1: digest, k2: digest, p2: digest, k3: digest, p3: digest): Option<bytes> {
    match Secret2(c, k1, p1, k2, p2)
    case None => None
    case Some(d12) =>
      match c.exchange(k3, p3)
      case None => None
      case Some(d3) => Some(d12 + d3)
  }

  function Body(sessionId: nat, ephemeral: bytes, middle: bytes, nonce: bytes): (b: bytes)
    requires sessionId < Pow256(4)
    ensures |b| == 4 + |ephemeral| + |middle| + |nonce|
  {
    Little(sessionId, 4) + ephemeral + middle + nonce
  }

  /** The client's first message; `random` and `nonce` are its random bytes. */
  function Initiate(c: Primitives, p: Party, random: bytes, nonce: bytes): (Party, Result<(bytes, nat), Error>)
    requires |random| == 4
  {
    if p.role != Initiator then (p, Err(WrongRole))
    else if p.peerStatic.None? then (p, Err(NoPeerKey))
    else
      var started := p.(sessionId := FromLittle(random));
      var server := p.peerStatic.value;
      match Secret2(c, p.ephemeralKey, server, p.staticKey, server)
      case None => (started, Err(BadPublicKey))
      case Some(secret) =>
        var body := Body(started.sessionId, c.publicOf(p.ephemeralKey), c.publicOf(p.staticKey), nonce);
        (started, Ok((body + c.Mac(INFO_AUTH, secret, body), started.sessionId)))
  }

  /** The server's check of the first message. `allowed` is `None` if every key is. */
  function Accept(c: Primitives, p: Party, init: bytes, allowed: Option<seq<bytes>>): (Party, Result<(bytes, bytes), Error>) {
    if p.role != Responder then (p, Err(WrongRole))
    else if |init| < 116 then (p, Err(TooShort))
    else
      var named := p.(sessionId := FromLittle(init[..4]));
      var ephemeral, identity := init[4..36], init[36..68];
      if allowed.Some? && identity !in allowed.value then (named, Err(NotAllowed))
      else
        var met := named.(peerStatic := Some(identity), peerEphemeral := Some(ephemeral));
        match Secret2(c, p.staticKey, ephemeral, p.staticKey, identity)
        case None => (met, Err(BadPublicKey))
        case Some(secret) =>
          (met, if init[100..116] == c.Mac(INFO_AUTH, secret, init[..100]) then Ok((identity, ephemeral)) else Err(BadMac))
  }

  /** The server's answer. Its ciphers are set before the address is looked at. */
  function Respond(c: Primitives, aead: Aead, p: Party, vip: string, nonce: bytes): (Party, Result<bytes, Error>)
    requires p.sessionId < Pow256(4)
  {
    if p.role != Responder then (p, Err(WrongRole))
    else if p.peerEphemeral.None? || p.peerStatic.None? then (p, Err(NoPeerKey))
    else
      var given := p.(vip := Some(vip));
      var ephemeral, identity := p.peerEphemeral.value, p.peerStatic.value;
      match Secret3(c, p.staticKey, ephemeral, p.staticKey, identity, p.ephemeralKey, ephemeral)
      case None => (given, Err(BadPublicKey))
      case Some(secret) =>
        var keyed := given.(tx := Some(Keys(aead, c.hkdf(INFO_KEY_TX, secret), p.sessionId)),
                            rx := Some(Keys(aead, c.hkdf(INFO_KEY_RX, secret), p.sessionId)));
        match Octets(vip)
        case None => (keyed, Err(BadAddress))
        case Some(octets) =>
          var body := Body(p.sessionId, c.publicOf(p.ephemeralKey), octets, nonce);
          (keyed.(completed := true), Ok(body + c.Mac(INFO_RESP_AUTH, secret, body)))
  }

  /** The client's check of the answer. Its address is set before the tag is looked at. */
  function Finish(c: Primitives, aead: Aead, p: Party, resp: bytes): (Party, Result<string, Error>) {
    if p.role != Initiator then (p, Err(WrongRole))
    else if |resp| < 88 then (p, Err(TooShort))
    else if FromLittle(resp[..4]) != p.sessionId then (p, Err(SessionMismatch))
    else
      var ephemeral, vip := resp[4..36], Dotted(resp[36..40]);
      var given := p.(peerEphemeral := Some(ephemeral), vip := Some(vip));
      if p.peerStatic.None? then (given, Err(NoPeerKey))
      else
        var server := p.peerStatic.value;
        match Secret3(c, p.ephemeralKey, server, p.staticKey, server, p.ephemeralKey, ephemeral)
        case None => (given, Err(BadPublicKey))
        case Some(secret) =>
          if resp[72..88] != c.Mac(INFO_RESP_AUTH, secret, resp[..72]) then (given, Err(BadMac))
          else (given.(completed := true,
                       tx := Some(Keys(aead, c.hkdf(INFO_KEY_RX, secret), p.sessionId)),
                       rx := Some(Keys(aead, c.hkdf(INFO_KEY_TX, secret), p.sessionId))), Ok(vip))
  }

  // ---------- What is sent and what is accepted ----------

  /** The first message byte by byte; its tag is keyed with the secrets of both client keys and the server's. */
  lemma InitiationFields(c: Primitives, p: Party, random: bytes, nonce: bytes)
    requires |random| == 4 && |nonce| == 32 && Initiate(c, p, random, nonce).1.Ok?
    ensures var (started, sent) := Initiate(c, p, random, nonce);
            var m := sent.value.0;
            && p.role == Initiator && p.peerStatic.Some?
            && |m| == 116 && FromLittle(m[..4]) == FromLittle(random) == started.sessionId == sent.value.1
            && m[4..36] == c.publicOf(p.ephemeralKey) && m[36..68] == c.publicOf(p.staticKey) && m[68..100] == nonce
            && var d1, d2 := c.exchange(p.ephemeralKey, p.peerStatic.value), c.exchange(p.staticKey, p.peerStatic.value);
               && d1.Some? && d2.Some?
               && m[100..116] == c.hmac(c.hkdf("ShinVPN_Handshake_Auth_v1", d1.value + d2.value), m[..100])[..16]
  {
    hide Body, FromLittle;
    var server := p.peerStatic.value;
    var secret := Secret2(c, p.ephemeralKey, server, p.staticKey, server).value;
    var ce, cs := c.publicOf(p.ephemeralKey), c.publicOf(p.staticKey);
    MessageFields(FromLittle(random), ce, cs, nonce, c.Mac(INFO_AUTH, secret, Body(FromLittle(random), ce, cs, nonce)));
  }

  /** Exactly which first messages a server accepts, and what it learns from one. */
  lemma AcceptExactly(c: Primitives, p: Party, init: bytes, allowed: Option<seq<bytes>>)
    ensures var (met, got) := Accept(c, p, init, allowed);
            && (got.Ok? <==>
                  && p.role == Responder && |init| >= 116 && (allowed.Some? ==> init[36..68] in allowed.value)
                  && var d1, d2 := c.exchange(p.staticKey, init[4..36]), c.exchange(p.staticKey, init[36..68]);
                     && d1.Some? && d2.Some?
                     && init[100..116] == c.hmac(c.hkdf("ShinVPN_Handshake_Auth_v1", d1.value + d2.value), init[..100])[..16])
            && (got.Ok? ==>
                  && got.value == (init[36..68], init[4..36])
                  && met == p.(sessionId := FromLittle(init[..4]), peerStatic := Some(init[36..68]), peerEphemeral := Some(init[4..36])))
            && (p.role == Responder && |init| >= 116 && allowed.Some? && init[36..68] !in allowed.value ==>
                  got == Err(NotAllowed) && met.peerStatic == p.peerStatic && met.peerEphemeral == p.peerEphemeral)
            && met.completed == p.completed && met.tx == p.tx && met.rx == p.rx
  {
    hide FromLittle;
  }

  /** A first message that is accepted is refused once its tag is changed, and no two tags are accepted for the same
      text. */
  lemma InitiationTagDecides(c: Primitives, p: Party, init: bytes, other: bytes, allowed: Option<seq<bytes>>)
    requires Accept(c, p, init, allowed).1.Ok? && |init| >= 116 && |other| >= 116 && init[..100] == other[..100]
    ensures init[100..116] == other[100..116] ==> Accept(c, p, other, allowed) == Accept(c, p, init, allowed)
    ensures init[100..116] != other[100..116] ==> Accept(c, p, other, allowed).1 == Err(BadMac)
  {
    hide FromLittle, Primitives.Mac;
    SamePrefix(init, other, 100);
  }

  lemma SamePrefix(a: bytes, b: bytes, n: nat)
    requires n <= |a| && n <= |b| && a[..n] == b[..n]
    ensures forall i, j | 0 <= i <= j <= n :: a[i..j] == b[i..j]
    ensures forall j | 0 <= j <= n :: a[..j] == b[..j]
  {
    forall i, j | 0 <= i <= j <= n ensures a[i..j] == b[i..j] {
      assert a[i..j] == a[..n][i..j];
      assert b[i..j] == b[..n][i..j];
    }
    forall j | 0 <= j <= n ensures a[..j] == b[..j] {
      assert a[..j] == a[..n][..j];
      assert b[..j] == b[..n][..j];
    }
  }

  /** The answer byte by byte. Its tag and both session keys come from all three exchanges, the one of the two
      ephemeral keys included. */
  lemma ResponseFields(c: Primitives, aead: Aead, p: Party, vip: bytes, nonce: bytes)
    requires p.sessionId < Pow256(4) && |vip| == 4 && |nonce| == 32 && Respond(c, aead, p, Dotted(vip), nonce).1.Ok?
    ensures var (done, sent) := Respond(c, aead, p, Dotted(vip), nonce);
            var m := sent.value;
            && p.role == Responder && p.peerStatic.Some? && p.peerEphemeral.Some?
            && |m| == 88 && FromLittle(m[..4]) == p.sessionId && m[4..36] == c.publicOf(p.ephemeralKey)
            && m[36..40] == vip && m[40..72] == nonce
            && var d1, d2, d3 := c.exchange(p.staticKey, p.peerEphemeral.value), c.exchange(p.staticKey, p.peerStatic.value),
                                 c.exchange(p.ephemeralKey, p.peerEphemeral.value);
               && d1.Some? && d2.Some? && d3.Some?
               && var secret := d1.value + d2.value + d3.value;
                  && m[72..88] == c.hmac(c.hkdf("ShinVPN_Resp_Auth_v1", secret), m[..72])[..16]
                  && done.completed && done.sessionId == p.sessionId && done.vip == Some(Dotted(vip))
                  && done.tx == Some(Keys(aead, c.hkdf("ShinVPN_Transmit_Key_v1", secret), p.sessionId))
                  && done.rx == Some(Keys(aead, c.hkdf("ShinVPN_Receive_Key_v1", secret), p.sessionId))
  {
    hide Body, FromLittle, Dotted, Octets;
    DottedRoundTrip(vip);
    var ephemeral, identity := p.peerEphemeral.value, p.peerStatic.value;
    var secret := Secret3(c, p.staticKey, ephemeral, p.staticKey, identity, p.ephemeralKey, ephemeral).value;
    var se := c.publicOf(p.ephemeralKey);
    MessageFields(p.sessionId, se, vip, nonce, c.Mac(INFO_RESP_AUTH, secret, Body(p.sessionId, se, vip, nonce)));
  }

  /** Exactly which answers a client accepts: the one with its own session identifier and the tag of all three
      exchanges. Its keys are then the server's, the other way round. */
  lemma FinishExactly(c: Primitives, aead: Aead, p: Party, resp: bytes)
    ensures var (done, got) := Finish(c, aead, p, resp);
            && (got.Ok? ==> |resp| >= 88 && p.peerStatic.Some?)
            && (|resp| >= 88 && p.peerStatic.Some? ==>
                  var d1, d2, d3 := c.exchange(p.ephemeralKey, p.peerStatic.value), c.exchange(p.staticKey, p.peerStatic.value),
                                    c.exchange(p.ephemeralKey, resp[4..36]);
                  && (got.Ok? <==>
                        && p.role == Initiator && FromLittle(resp[..4]) == p.sessionId && d1.Some? && d2.Some? && d3.Some?
                        && resp[72..88] == c.hmac(c.hkdf("ShinVPN_Resp_Auth_v1", d1.value + d2.value + d3.value), resp[..72])[..16])
                  && (got.Ok? ==>
                        var secret := d1.value + d2.value + d3.value;
                        && got.value == Dotted(resp[36..40]) && done.vip == Some(got.value) && done.completed
                        && done.tx == Some(Keys(aead, c.hkdf("ShinVPN_Receive_Key_v1", secret), p.sessionId))
                        && done.rx == Some(Keys(aead, c.hkdf("ShinVPN_Transmit_Key_v1", secret), p.sessionId))))
            && (got.Err? ==> done.completed == p.completed && done.tx == p.tx && done.rx == p.rx)
            && (p.role == Initiator && |resp| >= 88 && FromLittle(resp[..4]) != p.sessionId ==> got == Err(SessionMismatch) && done == p)
  {
    hide Dotted, FromLittle;
  }

  lemma ResponseTagDecides(c: Primitives, aead: Aead, p: Party, resp: bytes, other: bytes)
    requires Finish(c, aead, p, resp).1.Ok? && |resp| >= 88 && |other| >= 88 && resp[..72] == other[..72]
    ensures resp[72..88] == other[72..88] ==> Finish(c, aead, p, other) == Finish(c, aead, p, resp)
    ensures resp[72..88] != other[72..88] ==> Finish(c, aead, p, other).1 == Err(BadMac)
  {
    hide FromLittle, Dotted, Primitives.Mac;
    SamePrefix(resp, other, 72);
  }

  /** The two directions of a session have different keys, provided HKDF tells the protocol's four labels apart. */
  lemma DirectionsDiffer(c: Primitives, aead: Aead, p: Party, vip: string, nonce: bytes)
    requires c.Separates() && p.sessionId < Pow256(4) && Respond(c, aead, p, vip, nonce).1.Ok?
    ensures var done := Respond(c, aead, p, vip, nonce).0;
            done.tx.Some? && done.rx.Some? && done.tx.value.key != done.rx.value.key
  {
    assert INFO_KEY_TX[8] != INFO_KEY_RX[8];
  }

  // ---------- Key agreement ----------

  lemma MessageFields(sessionId: nat, ephemeral: bytes, middle: bytes, nonce: bytes, tag: bytes)
    requires sessionId < Pow256(4) && |ephemeral| == 32 && |nonce| == 32 && |tag| == 16
    ensures var m := Body(sessionId, ephemeral, middle, nonce) + tag;
            var n := 36 + |middle|;
            && FromLittle(m[..4]) == sessionId && m[4..36] == ephemeral && m[36..n] == middle
            && |m| == n + 48 && m[n..n + 32] == nonce
            && m[..n + 32] == Body(sessionId, ephemeral, middle, nonce) && m[n + 32..n + 48] == tag
  {
    LittleRoundTrip(sessionId, 4);
    var id := Little(sessionId, 4);
    Parts(id, ephemeral, middle, nonce);
    assert id + ephemeral + middle + nonce + tag == id + ephemeral + middle + (nonce + tag);
    Parts(id, ephemeral, middle, nonce + tag);
    var m, n := id + ephemeral + middle + (nonce + tag), 36 + |middle|;
    assert m[n..n + 32] == m[n..][..32];
  }

  /** An honest first message passes the server's check. */
  lemma InitiationAccepted(c: Primitives, client: Party, server: Party, random: bytes, nonce: bytes, allowed: Option<seq<bytes>>)
    requires c.Commutes() && |random| == 4 && |nonce| == 32
    requires client.role == Initiator && client.peerStatic == Some(c.publicOf(server.staticKey))
    requires server.role == Responder && (allowed.Some? ==> c.publicOf(client.staticKey) in allowed.value)
    ensures var (client', sent) := Initiate(c, client, random, nonce);
            && sent.Ok? && sent.value.1 == client'.sessionId == FromLittle(random)
            && var (server', got) := Accept(c, server, sent.value.0, allowed);
               got == Ok((c.publicOf(client.staticKey), c.publicOf(client.ephemeralKey)))
               && server' == server.(sessionId := client'.sessionId, peerStatic := Some(c.publicOf(client.staticKey)),
                                     peerEphemeral := Some(c.publicOf(client.ephemeralKey)))
  {
    hide Body, FromLittle, Primitives.Mac;
    var s := c.publicOf(server.staticKey);
    var ce, cs := c.publicOf(client.ephemeralKey), c.publicOf(client.staticKey);
    assert c.exchange(client.ephemeralKey, s) == c.exchange(server.staticKey, ce);
    assert c.exchange(client.staticKey, s) == c.exchange(server.staticKey, cs);
    var secret := Secret2(c, client.ephemeralKey, s, client.staticKey, s).value;
    var body := Body(FromLittle(random), ce, cs, nonce);
    MessageFields(FromLittle(random), ce, cs, nonce, c.Mac(INFO_AUTH, secret, body));
  }

  /** The server's answer to it passes the client's check; each side's sending keys are the other's
      receiving keys, and the client gets the address the server gave. */
  lemma ResponseAccepted(c: Primitives, aead: Aead, client: Party, server: Party, vip: bytes, nonce: bytes)
    requires c.Commutes() && |vip| == 4 && |nonce| == 32
    requires client.role == Initiator && server.role == Responder && client.sessionId == server.sessionId < Pow256(4)
    requires client.peerStatic == Some(c.publicOf(server.staticKey))
    requires server.peerStatic == Some(c.publicOf(client.staticKey))
    requires server.peerEphemeral == Some(c.publicOf(client.ephemeralKey))
    ensures var (server', answer) := Respond(c, aead, server, Dotted(vip), nonce);
            && answer.Ok? && server'.completed
            && var (client', got) := Finish(c, aead, client, answer.value);
               got == Ok(Dotted(vip)) && client'.completed
               && client'.tx == server'.rx && client'.rx == server'.tx && client'.tx.Some? && client'.rx.Some?
               && client'.vip == server'.vip == Some(Dotted(vip)) && client'.sessionId == server'.sessionId
  {
    hide Body, FromLittle, Primitives.Mac, Dotted, Octets;
    var s, se := c.publicOf(server.staticKey), c.publicOf(server.ephemeralKey);
    var cs, ce := c.publicOf(client.staticKey), c.publicOf(client.ephemeralKey);
    assert c.exchange(client.ephemeralKey, s) == c.exchange(server.staticKey, ce);
    assert c.exchange(client.staticKey, s) == c.exchange(server.staticKey, cs);
    assert c.exchange(client.ephemeralKey, se) == c.exchange(server.ephemeralKey, ce);
    DottedRoundTrip(vip);
    var secret := Secret3(c, client.ephemeralKey, s, client.staticKey, s, client.ephemeralKey, se).value;
    var body := Body(server.sessionId, se, vip, nonce);
    MessageFields(server.sessionId, se, vip, nonce, c.Mac(INFO_RESP_AUTH, secret, body));
  }

  /** Running the whole handshake on any key pairs: both tags pass, the session identifiers agree, each
      side's sending keys are the other's receiving keys, and the address arrives. */
  lemma KeyAgreement(c: Primitives, aead: Aead, clientStatic: digest, clientEphemeral: digest,
                     serverStatic: digest, serverEphemeral: digest, random: bytes, nonce: bytes,
                     vip: bytes, serverNonce: bytes, allowed: Option<seq<bytes>>)
    requires c.Commutes() && |random| == 4 && |nonce| == |serverNonce| == 32 && |vip| == 4
    requires allowed.Some? ==> c.publicOf(clientStatic) in allowed.value
    ensures var (client, init) := Initiate(c, NewParty(Initiator, clientStatic, clientEphemeral, Some(c.publicOf(serverStatic))), random, nonce);
            && init.Ok?
            && var (met, accepted) := Accept(c, NewParty(Responder, serverStatic, serverEphemeral, None), init.value.0, allowed);
               && accepted.Ok? && met.sessionId < Pow256(4)
               && var (server, answer) := Respond(c, aead, met, Dotted(vip), serverNonce);
                  && answer.Ok?
                  && var (done, got) := Finish(c, aead, client, answer.value);
                     && got == Ok(Dotted(vip)) && done.completed && server.completed
                     && done.sessionId == server.sessionId
                     && done.tx.Some? && done.tx == server.rx && done.rx.Some? && done.rx == server.tx
  {
    hide Respond, Finish;
    var client := NewParty(Initiator, clientStatic, clientEphemeral, Some(c.publicOf(serverStatic)));
    var server := NewParty(Responder, serverStatic, serverEphemeral, None);
    InitiationAccepted(c, client, server, random, nonce, allowed);
    var started := Initiate(c, client, random, nonce);
    var met := Accept(c, server, started.1.value.0, allowed);
    ResponseAccepted(c, aead, started.0, met.0, vip, serverNonce);
  }

  /** Once a first message is accepted, whoever made it, the answer cannot fail: the server never keeps a
      lease for a handshake that did not become a session. */
  lemma AcceptedCanRespond(c: Primitives, aead: Aead, server: Party, init: bytes, allowed: Option<seq<bytes>>,
                           address: nat, nonce: bytes)
    requires c.FailsByPublicKey() && address < Pow256(4)
    requires Accept(c, server, init, allowed).1.Ok?
    ensures var met := Accept(c, server, init, allowed).0;
            met.sessionId < Pow256(4) && Respond(c, aead, met, AddressText(address), nonce).1.Ok?
  {
    DottedRoundTrip(Big(address, 4));
    var met := Accept(c, server, init, allowed).0;
    assert c.exchange(server.staticKey, met.peerEphemeral.value).Some?;
  }

  // ---------- The state machine ----------

  class HandshakeState {
    const crypto: Primitives
    const aead: Aead
    const role: Role
    const staticKey: digest
    const ephemeralKey: digest
    var peerStaticPub: Option<digest>
    var peerEphemeralPub: Option<digest>
    var sessionId: nat
    var isCompleted: bool
    var txCipher: ShinCipher?
    var rxCipher: ShinCipher?
    var allocatedVip: Option<string>

    ghost predicate Valid()
      reads this
    {
      sessionId < Pow256(4)
    }

    ghost function View(): Party
      reads this
    {
      Party(role, staticKey, ephemeralKey, peerStaticPub, peerEphemeralPub, sessionId, isCompleted,
            if txCipher == null then None else Some(txCipher.keys),
            if rxCipher == null then None else Some(rxCipher.keys), allocatedVip)
    }

    /** `ephemeralKey` is freshly generated by the caller. */
    constructor (crypto: Primitives, aead: Aead, role: Role, staticKey: digest, ephemeralKey: digest, peerStaticPub: Option<digest>)
      ensures Valid() && View() == NewParty(role, staticKey, ephemeralKey, peerStaticPub)
      ensures this.crypto == crypto && this.aead == aead
    {
      this.crypto, this.aead, this.role := crypto, aead, role;
      this.staticKey, this.ephemeralKey, this.peerStaticPub := staticKey, ephemeralKey, peerStaticPub;
      peerEphemeralPub, sessionId, isCompleted, txCipher, rxCipher, allocatedVip := None, 0, false, null, null, None;
    }

    /** Both ciphers are there and unused. */
    twostate predicate NewCiphers()
      reads this, txCipher, rxCipher, if txCipher == null then {} else {txCipher.rx}, if rxCipher == null then {} else {rxCipher.rx}
    {
      && txCipher != null && rxCipher != null && fresh(txCipher) && fresh(rxCipher) && txCipher != rxCipher
      && txCipher.Valid() && txCipher.txSeq == 0 && rxCipher.Valid() && rxCipher.rx.ideal.accepted == {}
    }

    method SetCiphers(txKey: digest, rxKey: digest, isInitiator: bool)
      modifies this`txCipher, this`rxCipher
      ensures NewCiphers()
      ensures txCipher.keys == Keys(aead, txKey, sessionId) && rxCipher.keys == Keys(aead, rxKey, sessionId)
    {
      txCipher := new ShinCipher(Keys(aead, txKey, sessionId), isInitiator);
      rxCipher := new ShinCipher(Keys(aead, rxKey, sessionId), isInitiator);
    }

    method CreateInitiation(random: bytes, nonce: bytes) returns (r: Result<(bytes, nat), Error>)
      requires Valid() && |random| == 4
      modifies this
      ensures Valid() && (View(), r) == Initiate(crypto, old(View()), random, nonce)
    {
      if role != Initiator {
        return Err(WrongRole);
      }
      if peerStaticPub.None? {
        return Err(NoPeerKey);
      }
      sessionId := FromLittle(random);
      var secret := Secret2(crypto, ephemeralKey, peerStaticPub.value, staticKey, peerStaticPub.value);
      if secret.None? {
        return Err(BadPublicKey);
      }
      var rawBody := Body(sessionId, crypto.publicOf(ephemeralKey), crypto.publicOf(staticKey), nonce);
      return Ok((rawBody + crypto.Mac(INFO_AUTH, secret.value, rawBody), sessionId));
    }

    method ProcessInitiation(init: bytes, allowed: Option<seq<bytes>>) returns (r: Result<(bytes, bytes), Error>)
      requires Valid()
      modifies this
      ensures Valid() && (View(), r) == Accept(crypto, old(View()), init, allowed)
      ensures r.Ok? ==> |init| >= 116 && r.value == (init[36..68], init[4..36])
      ensures r.Ok? && allowed.Some? ==> init[36..68] in allowed.value
    {
      if role != Responder {
        return Err(WrongRole);
      }
      if |init| < 4 + 32 + 32 + 32 + 16 {
        return Err(TooShort);
      }
      sessionId := FromLittle(init[..4]);
      var clientEphemeral, clientStatic := init[4..36], init[36..68];
      if allowed.Some? && clientStatic !in allowed.value {
        return Err(NotAllowed);
      }
      peerStaticPub, peerEphemeralPub := Some(clientStatic), Some(clientEphemeral);
      var secret := Secret2(crypto, staticKey, clientEphemeral, staticKey, clientStatic);
      if secret.None? {
        return Err(BadPublicKey);
      }
      if init[100..116] != crypto.Mac(INFO_AUTH, secret.value, init[..100]) {
        return Err(BadMac);
      }
      return Ok((clientStatic, clientEphemeral));
    }

    method CreateResponse(vip: string, nonce: bytes) returns (r: Result<bytes, Error>)
      requires Valid()
      modifies this
      ensures Valid() && (View(), r) == Respond(crypto, aead, old(View()), vip, nonce)
      ensures r.Ok? ==> NewCiphers()
    {
      hide Secret3, Octets, Body, FromLittle;
      if role != Responder {
        return Err(WrongRole);
      }
      if peerEphemeralPub.None? || peerStaticPub.None? {
        return Err(NoPeerKey);
      }
      allocatedVip := Some(vip);
      var secret := Secret3(crypto, staticKey, peerEphemeralPub.value, staticKey, peerStaticPub.value,
                            ephemeralKey, peerEphemeralPub.value);
      if secret.None? {
        return Err(BadPublicKey);
      }
      SetCiphers(crypto.hkdf(INFO_KEY_TX, secret.value), crypto.hkdf(INFO_KEY_RX, secret.value), false);
      var octets := Octets(vip);
      if octets.None? {
        return Err(BadAddress);
      }
      var rawBody := Body(sessionId, crypto.publicOf(ephemeralKey), octets.value, nonce);
      isCompleted := true;
      return Ok(rawBody + crypto.Mac(INFO_RESP_AUTH, secret.value, rawBody));
    }

    method ProcessResponse(resp: bytes) returns (r: Result<string, Error>)
      requires Valid()
      modifies this
      ensures Valid() && (View(), r) == Finish(crypto, aead, old(View()), resp)
      ensures r.Ok? ==> NewCiphers() && |resp| >= 88 && FromLittle(resp[..4]) == old(sessionId) && r.value == Dotted(resp[36..40])
    {
      hide Secret3, Dotted, FromLittle, Primitives.Mac, ShinCipher.Valid;
      if role != Initiator {
        return Err(WrongRole);
      }
      if |resp| < 4 + 32 + 4 + 32 + 16 {
        return Err(TooShort);
      }
      if FromLittle(resp[..4]) != sessionId {
        return Err(SessionMismatch);
      }
      var vip := Dotted(resp[36..40]);
      peerEphemeralPub, allocatedVip := Some(resp[4..36]), Some(vip);
      if peerStaticPub.None? {
        return Err(NoPeerKey);
      }
      var secret := Secret3(crypto, ephemeralKey, peerStaticPub.value, staticKey, peerStaticPub.value,
                            ephemeralKey, peerEphemeralPub.value);
      if secret.None? {
        return Err(BadPublicKey);
      }
      if resp[72..88] != crypto.Mac(INFO_RESP_AUTH, secret.value, resp[..72]) {
        return Err(BadMac);
      }
      SetCiphers(crypto.hkdf(INFO_KEY_RX, secret.value), crypto.hkdf(INFO_KEY_TX, secret.value), true);
      isCompleted := true;
      return Ok(vip);
    }
  }
}
