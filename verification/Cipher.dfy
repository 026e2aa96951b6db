/** The sequenced AEAD cipher of one session. */
module Cipher {
  import opened Bytes
  import opened Wrappers
  import opened ReplayWindow

  const WINDOW := 128
  const TAG_LEN := 16

  /** The AEAD of section 2.8 of RFC 8439, as a pair of functions of key, nonce, text and associated data. */
  datatype Aead = Aead(seal: (bytes, bytes, bytes, bytes) -> bytes,
                       open: (bytes, bytes, bytes, bytes) -> Option<bytes>)
  {
    /** Opening inverts sealing under the same key and nonce, and the tag is 16 bytes. */
    ghost predicate Lawful() {
      && (forall k, n, p, d :: |seal(k, n, p, d)| == |p| + TAG_LEN)
      && (forall k, n, p, d :: open(k, n, seal(k, n, p, d), d) == Some(p))
    }
  }

  datatype Error = NonceOutOfRange | Replayed | BadTag | BadKeyLength

  /** What both ends of one direction share. */
  datatype Keys = Keys(aead: Aead, key: bytes, sessionId: nat)

  /** 4 bytes of session id, then 8 bytes of sequence number; `struct` raises an error if one does not fit. */
  predicate HasNonce(sessionId: nat, seqNum: nat) {
    sessionId < Pow256(4) && seqNum < Pow256(8)
  }

  function Nonce(sessionId: nat, seqNum: nat): (n: bytes)
    requires HasNonce(sessionId, seqNum)
    ensures |n| == 12
  {
    Little(sessionId, 4) + Little(seqNum, 8)
  }

  /** Both fields are read back from a nonce, little-endian: the session's from its first four bytes. */
  lemma NonceFields(sessionId: nat, seqNum: nat)
    requires HasNonce(sessionId, seqNum)
    ensures var n := Nonce(sessionId, seqNum);
            && n[..4] == Little(sessionId, 4) && n[4..] == Little(seqNum, 8)
            && FromLittle(n[..4]) == sessionId && FromLittle(n[4..]) == seqNum
  {
    LittleRoundTrip(sessionId, 4);
    LittleRoundTrip(seqNum, 8);
  }

  /** Different sessions or numbers get different nonces. */
  lemma NonceInjective(s: nat, a: nat, t: nat, b: nat)
    requires HasNonce(s, a) && HasNonce(t, b) && Nonce(s, a) == Nonce(t, b)
    ensures s == t && a == b
  {
    NonceFields(s, a);
    NonceFields(t, b);
  }

  function Seal(keys: Keys, seqNum: nat, plaintext: bytes, ad: bytes): Result<bytes, Error> {
    if HasNonce(keys.sessionId, seqNum)
    then Ok(keys.aead.seal(keys.key, Nonce(keys.sessionId, seqNum), plaintext, ad))
    else Err(NonceOutOfRange)
  }

  /** The receiver's answer to a packet when its filter has accepted what `rx` remembers. */
  function Open(keys: Keys, rx: Ideal, seqNum: nat, ciphertext: bytes, ad: bytes): Result<bytes, Error> {
    if !rx.Accepts(WINDOW, seqNum) then Err(Replayed)
    else if !HasNonce(keys.sessionId, seqNum) then Err(NonceOutOfRange)
    else match keys.aead.open(keys.key, Nonce(keys.sessionId, seqNum), ciphertext, ad)
         case None => Err(BadTag)
         case Some(p) => Ok(p)
  }

  /** A sealed packet opens to its plaintext exactly when the filter still accepts its number. */
  lemma OpenSealed(keys: Keys, rx: Ideal, seqNum: nat, plaintext: bytes, ad: bytes)
    requires keys.aead.Lawful() && Seal(keys, seqNum, plaintext, ad).Ok?
    ensures Open(keys, rx, seqNum, Seal(keys, seqNum, plaintext, ad).value, ad)
         == if rx.Accepts(WINDOW, seqNum) then Ok(plaintext) else Err(Replayed)
  {
    var n := Nonce(keys.sessionId, seqNum);
    assert keys.aead.open(keys.key, n, keys.aead.seal(keys.key, n, plaintext, ad), ad) == Some(plaintext);
  }

  class ShinCipher {
    const keys: Keys
    const isInitiator: bool
    var txSeq: nat
    const rx: AntiReplayWindow
    var bytesEncrypted: nat
    var bytesDecrypted: nat

    ghost predicate Valid()
      reads this, rx
    {
      rx.Valid() && rx.windowSize == WINDOW && |keys.key| == 32
    }

    /** The key length is checked by `NewCipher`. */
    constructor (keys: Keys, isInitiator: bool)
      requires |keys.key| == 32
      ensures Valid() && fresh(rx) && this.keys == keys && this.isInitiator == isInitiator
      ensures txSeq == 0 && rx.ideal == EMPTY && bytesEncrypted == bytesDecrypted == 0
    {
      this.keys, this.isInitiator := keys, isInitiator;
      txSeq, bytesEncrypted, bytesDecrypted := 0, 0, 0;
      rx := new AntiReplayWindow(WINDOW);
    }

    /** The counter moves even when no nonce can be built for it. */
    method Encrypt(plaintext: bytes, ad: bytes := []) returns (r: Result<(nat, bytes), Error>)
      requires Valid()
      modifies this`txSeq, this`bytesEncrypted
      ensures Valid()
      ensures txSeq == old(txSeq) + 1
      ensures match Seal(keys, txSeq, plaintext, ad)
              case Ok(c) => r == Ok((txSeq, c)) && bytesEncrypted == old(bytesEncrypted) + |c|
              case Err(e) => r == Err(e) && bytesEncrypted == old(bytesEncrypted)
    {
      txSeq := txSeq + 1;
      var sealed := Seal(keys, txSeq, plaintext, ad);
      match sealed
      case Err(e) => r := Err(e);
      case Ok(c) =>
        bytesEncrypted := bytesEncrypted + |c|;
        r := Ok((txSeq, c));
    }

    /** The filter records the number before the tag is checked, so it keeps it even if the tag is bad. */
    method Decrypt(seqNum: nat, ciphertext: bytes, ad: bytes := []) returns (r: Result<bytes, Error>)
      requires Valid()
      modifies this`bytesDecrypted, rx
      ensures Valid()
      ensures r == Open(keys, old(rx.ideal), seqNum, ciphertext, ad)
      ensures rx.ideal == old(rx.ideal).Offer(WINDOW, seqNum)
      ensures bytesDecrypted == old(bytesDecrypted) + if r.Ok? then |ciphertext| else 0
    {
      var ok := rx.CheckAndUpdate(seqNum);
      if !ok {
        return Err(Replayed);
      }
      if !HasNonce(keys.sessionId, seqNum) {
        return Err(NonceOutOfRange);
      }
      var answer := keys.aead.open(keys.key, Nonce(keys.sessionId, seqNum), ciphertext, ad);
      if answer.None? {
        return Err(BadTag);
      }
      bytesDecrypted := bytesDecrypted + |ciphertext|;
      return Ok(answer.value);
    }
  }

  method NewCipher(keys: Keys, isInitiator: bool) returns (r: Result<ShinCipher, Error>)
    ensures r.Ok? <==> |keys.key| == 32
    ensures r.Ok? ==> fresh(r.value) && fresh(r.value.rx) && r.value.Valid() && r.value.keys == keys
                      && r.value.txSeq == 0 && r.value.rx.ideal == EMPTY
  {
    if |keys.key| != 32 {
      return Err(BadKeyLength);
    }
    var c := new ShinCipher(keys, isInitiator);
    return Ok(c);
  }
}
