/** The server's record of one client: its open remote streams and the data that waits for one. */
module ProxySession {
  import opened Bytes
  import opened Wrappers
  import opened Frames
  import opened ReplayWindow
  import opened Cipher
  import S = Streams

  /** The step a decrypted proxy frame asks for; a short payload raises an error before anything changes. */
  function Decoded(msgType: nat, payload: bytes): Option<S.Event> {
    if msgType == PROXY_CONNECT then
      if |payload| < 8 then None else Some(S.Connect(FromBig(payload[..4])))
    else if |payload| < 4 then None
    else if msgType == PROXY_DATA then Some(S.Data(FromBig(payload[..4]), payload[4..]))
    else if msgType == PROXY_CLOSE then Some(S.Close(FromBig(payload[..4])))
    else None
  }

  /** Where an opening task is to connect. The host is as it came, before decoding as text. */
  datatype Destination = Destination(connId: nat, host: bytes, port: int)

  function Destined(msgType: nat, payload: bytes): Option<Destination> {
    if msgType != PROXY_CONNECT || |payload| < 8 then None
    else Some(Destination(FromBig(payload[..4]), Slice(payload, 8, 8 + FromBig(payload[6..8])), FromBig(payload[4..6])))
  }

  function Applied(s: S.State, e: Option<S.Event>): S.State {
    match e
    case None => s
    case Some(event) => S.Step(s, event)
  }

  /** What a frame of the session does: the filter records its number, and if it opens, its step is taken. */
  function Handled(keys: Keys, rx: Ideal, f: Frame): (Ideal, Option<S.Event>) {
    (rx.Offer(WINDOW, f.seqNum),
     match Open(keys, rx, f.seqNum, f.payload, [])
     case Err(_) => None
     case Ok(plain) => Decoded(f.msgType, plain))
  }

  /** Where the frame makes the server connect to, if anywhere. */
  function Opening(keys: Keys, rx: Ideal, f: Frame): Option<Destination> {
    match Open(keys, rx, f.seqNum, f.payload, [])
    case Err(_) => None
    case Ok(plain) => Destined(f.msgType, plain)
  }

  class RemoteWriter {
    var written: bytes
    var closing: bool
    /** The opening task it belongs to. */
    ghost const task: nat

    constructor (ghost task: nat)
      ensures written == [] && !closing && this.task == task
    {
      written, closing := [], false;
      this.task := task;
    }
  }

  class ClientSession {
    const rxCipher: ShinCipher
    var proxyStreams: map<nat, RemoteWriter>
    var proxyPendingBuffers: map<nat, bytes>
    var proxyConnecting: set<nat>
    /** The opening tasks started so far, and the writer each of them got. */
    ghost var tasks: seq<S.Task>
    ghost var writers: map<nat, RemoteWriter>

    ghost predicate Valid()
      reads this
    {
      && (forall t | t in writers :: writers[t].task == t)
      && (forall id | id in proxyStreams :: proxyStreams[id].task in writers && writers[proxyStreams[id].task] == proxyStreams[id])
    }

    ghost function StreamTasks(): map<nat, nat>
      reads this`proxyStreams
    {
      map id | id in proxyStreams :: proxyStreams[id].task
    }

    ghost function WriterStates(): map<nat, S.Writer>
      reads this`writers, writers.Values
    {
      map t | t in writers :: S.Writer(writers[t].written, writers[t].closing)
    }

    ghost function View(): S.State
      reads this, writers.Values
    {
      S.State(proxyConnecting, proxyPendingBuffers, StreamTasks(), WriterStates(), tasks)
    }

    constructor (rxCipher: ShinCipher)
      ensures Valid() && View() == S.EMPTY && writers == map[] && this.rxCipher == rxCipher
    {
      this.rxCipher := rxCipher;
      proxyStreams, proxyPendingBuffers, proxyConnecting := map[], map[], {};
      tasks, writers := [], map[];
    }

    /** `opens` is what the opening task, if one is started, is given. */
    method HandleProxyFrame(f: Frame) returns (opens: Option<Destination>)
      requires Valid() && rxCipher.Valid()
      modifies this, proxyStreams.Values, rxCipher`bytesDecrypted, rxCipher.rx
      ensures Valid() && rxCipher.Valid()
      ensures rxCipher.rx.ideal == Handled(rxCipher.keys, old(rxCipher.rx.ideal), f).0
      ensures View() == Applied(old(View()), Handled(rxCipher.keys, old(rxCipher.rx.ideal), f).1)
      ensures opens == Opening(rxCipher.keys, old(rxCipher.rx.ideal), f)
    {
      hide Destined, Decoded;
      var plain := rxCipher.Decrypt(f.seqNum, f.payload);
      opens := None;
      if plain.Ok? {
        opens := Dispatch(f.msgType, plain.value);
      }
    }

    /** A frame that is decrypted for something else than a stream. */
    method HandleOtherFrame(f: Frame)
      requires Valid() && rxCipher.Valid() && !(PROXY_CONNECT <= f.msgType <= PROXY_CLOSE)
      modifies rxCipher`bytesDecrypted, rxCipher.rx
      ensures rxCipher.Valid()
      ensures rxCipher.rx.ideal == Handled(rxCipher.keys, old(rxCipher.rx.ideal), f).0
      ensures Handled(rxCipher.keys, old(rxCipher.rx.ideal), f).1 == None && Opening(rxCipher.keys, old(rxCipher.rx.ideal), f) == None
    {
      var _ := rxCipher.Decrypt(f.seqNum, f.payload);
    }

    method Dispatch(msgType: nat, payload: bytes) returns (opens: Option<Destination>)
      requires Valid()
      modifies this, proxyStreams.Values
      ensures Valid() && writers == old(writers)
      ensures View() == Applied(old(View()), Decoded(msgType, payload))
      ensures opens == Destined(msgType, payload)
    {
      opens := None;
      if msgType == PROXY_CONNECT && |payload| >= 8 {
        var connId, port, hostLen := FromBig(payload[..4]), FromBig(payload[4..6]), FromBig(payload[6..8]);
        opens := Some(Destination(connId, Slice(payload, 8, 8 + hostLen), port));
        proxyConnecting := proxyConnecting + {connId};
        proxyPendingBuffers := proxyPendingBuffers[connId := []];
        tasks := tasks + [S.Task(connId, S.Opening)];
      } else if msgType == PROXY_DATA && |payload| >= 4 {
        var connId := FromBig(payload[..4]);
        ReceiveData(connId, payload[4..]);
      } else if msgType == PROXY_CLOSE && |payload| >= 4 {
        var connId := FromBig(payload[..4]);
        Forget(connId);
      }
    }

    method ReceiveData(connId: nat, data: bytes)
      requires Valid()
      modifies this`proxyPendingBuffers, proxyStreams.Values
      ensures Valid() && View() == S.Receive(old(View()), connId, data)
    {
      if connId in proxyStreams {
        var writer := proxyStreams[connId];
        if !writer.closing {
          writer.written := writer.written + data;
        }
      } else if connId in proxyConnecting {
        if connId in proxyPendingBuffers {
          proxyPendingBuffers := proxyPendingBuffers[connId := proxyPendingBuffers[connId] + data];
        }
      }
    }

    /** CLOSE, and the `finally` block of an opening task. */
    method Forget(connId: nat)
      requires Valid()
      modifies this`proxyConnecting, this`proxyPendingBuffers, this`proxyStreams, proxyStreams.Values
      ensures Valid() && View() == S.Drop(old(View()), connId)
    {
      proxyConnecting := proxyConnecting - {connId};
      proxyPendingBuffers := proxyPendingBuffers - {connId};
      PopStream(connId);
    }

    method PopStream(connId: nat)
      requires Valid()
      modifies this`proxyStreams, proxyStreams.Values
      ensures Valid() && StreamTasks() == old(StreamTasks()) - {connId}
      ensures WriterStates() == if connId in old(proxyStreams)
                                then S.Shut(old(WriterStates()), {old(StreamTasks())[connId]}) else old(WriterStates())
    {
      if connId in proxyStreams {
        var writer := proxyStreams[connId];
        proxyStreams := proxyStreams - {connId};
        writer.closing := true;
      }
    }

    method AdoptWriter(ghost task: nat, connId: nat) returns (writer: RemoteWriter)
      requires Valid() && task !in writers
      modifies this`proxyStreams, this`writers
      ensures Valid() && fresh(writer) && writer.task == task && writer.written == [] && !writer.closing
      ensures StreamTasks() == old(StreamTasks())[connId := task] && writers == old(writers)[task := writer]
    {
      writer := new RemoteWriter(task);
      proxyStreams := proxyStreams[connId := writer];
      writers := writers[task := writer];
    }

    lemma NoWriterYet(task: nat)
      requires S.Wired(View()) && S.InPhase(View(), task, S.Opening)
      ensures task !in writers
    {
      assert task !in WriterStates();
    }

    /** Flushes what arrived while connecting. */
    method Flush(connId: nat, writer: RemoteWriter)
      requires writer.written == [] && !writer.closing
      modifies this`proxyPendingBuffers, writer`written
      ensures proxyPendingBuffers == old(proxyPendingBuffers) - {connId}
      ensures writer.written == if connId in old(proxyPendingBuffers) then old(proxyPendingBuffers)[connId] else []
    {
      if connId in proxyPendingBuffers {
        writer.written := proxyPendingBuffers[connId];
        proxyPendingBuffers := proxyPendingBuffers - {connId};
      }
    }

    /** The remote connection of an opening task is made. */
    method RegisterConnection(ghost task: nat, connId: nat)
      requires Valid() && S.InPhase(View(), task, S.Opening) && tasks[task].connId == connId && S.Wired(View())
      modifies this
      ensures Valid() && View() == S.Step(old(View()), S.Opened(task))
      ensures fresh(writers.Values - old(writers.Values))
    {
      hide S.Wired, StreamTasks;
      NoWriterYet(task);
      var writer := AdoptWriter(task, connId);
      proxyConnecting := proxyConnecting - {connId};
      Flush(connId, writer);
      tasks := tasks[task := S.Task(connId, S.Piping)];
      assert WriterStates() == old(WriterStates())[task := S.Writer(writer.written, false)];
      hide WriterStates, Valid;
    }

    /** An opening task ends, because connecting failed or its piping loop was left. */
    method FinishTask(ghost task: nat, connId: nat)
      requires Valid() && task < |tasks| && tasks[task].connId == connId
      modifies this, proxyStreams.Values
      ensures Valid() && View() == S.Finish(old(View()), task)
    {
      Forget(connId);
      tasks := tasks[task := S.Task(connId, S.Done)];
    }

    method ShutStreams()
      requires Valid()
      modifies proxyStreams.Values
      ensures WriterStates() == S.Shut(old(WriterStates()), StreamTasks().Values)
    {
      var left := proxyStreams.Keys;
      ghost var done: set<nat> := {};
      while left != {}
        invariant left <= proxyStreams.Keys
        invariant done == set id | id in proxyStreams && id !in left :: proxyStreams[id].task
        invariant forall t | t in writers :: writers[t].written == old(writers[t].written)
        invariant forall t | t in writers :: writers[t].closing == (old(writers[t].closing) || t in done)
      {
        var id :| id in left;
        proxyStreams[id].closing := true;
        left := left - {id};
        done := done + {proxyStreams[id].task};
      }
      var was := StreamTasks();
      forall t ensures t in done <==> t in was.Values {
        if t in done {
          var id :| id in proxyStreams && proxyStreams[id].task == t;
          assert was[id] == t;
        }
      }
    }

    /** The part of `_close_session` that concerns the streams. */
    method CloseStreams()
      requires Valid()
      modifies this`proxyStreams, proxyStreams.Values
      ensures Valid() && View() == S.Step(old(View()), S.SessionClosed)
    {
      hide WriterStates;
      ShutStreams();
      proxyStreams := map[];
    }
  }

  /** The frames the server decrypts, and whose numbers its filter therefore records. */
  predicate Decrypted(msgType: nat) {
    msgType == DATA_PACKET || PROXY_CONNECT <= msgType <= PROXY_CLOSE || msgType == SPEEDTEST_REQ
  }

  /** What a received packet does to the session: nothing unless it parses, names the session and is of a
      type that is decrypted; and beyond the filter, nothing unless it is a proxy frame. */
  function Inbound(keys: Keys, rx: Ideal, raw: bytes, now: bytes): (Ideal, Option<S.Event>) {
    match ParseFrame(raw, now)
    case Err(_) => (rx, None)
    case Ok(f) =>
      if f.sessionId == keys.sessionId && Decrypted(f.msgType)
      then Handled(keys, rx, f) else (rx, None)
  }

  /** Where the packet makes the server connect to, if anywhere. */
  function InboundOpens(keys: Keys, rx: Ideal, raw: bytes, now: bytes): Option<Destination> {
    match ParseFrame(raw, now)
    case Err(_) => None
    case Ok(f) =>
      if f.sessionId == keys.sessionId && Decrypted(f.msgType)
      then Opening(keys, rx, f) else None
  }

  /** A whole packet, byte for byte: unless its header names the session and one of the five types that are decrypted,
      nothing happens. Otherwise its number is offered to the filter, and if that is new and the payload opens, types
      8, 9 and 10 are the step that the plaintext asks for. */
  lemma InboundMeans(keys: Keys, rx: Ideal, h: Header, payload: bytes, suffix: bytes, now: bytes)
    requires h.Fits() && |payload| == h.payloadLen && payload != []
    ensures var raw := h.Pack() + payload + suffix;
            var (rx', e) := Inbound(keys, rx, raw, now);
            var ours := h.sessionId == keys.sessionId && h.msgType in {3, 8, 9, 10, 11};
            var text := if !rx.Accepts(128, h.seqNum) || !HasNonce(keys.sessionId, h.seqNum) then None
                        else keys.aead.open(keys.key, Nonce(keys.sessionId, h.seqNum), payload, []);
            && rx' == (if ours then rx.Offer(128, h.seqNum) else rx)
            && (e.Some? <==> ours && text.Some? && ((h.msgType == 8 && |text.value| >= 8) || (h.msgType in {9, 10} && |text.value| >= 4)))
            && (e.Some? ==>
                  var id := FromBig(text.value[..4]);
                  e.value == match h.msgType
                             case 8 => S.Connect(id)
                             case 9 => S.Data(id, text.value[4..])
                             case _ => S.Close(id))
            && InboundOpens(keys, rx, raw, now)
               == if e.Some? && h.msgType == 8
                  then Some(Destination(FromBig(text.value[..4]), Slice(text.value, 8, 8 + FromBig(text.value[6..8])),
                                        FromBig(text.value[4..6])))
                  else None
  {
    hide Header.Pack, FromBig, Nonce, HasNonce, Ideal.Offer, Ideal.Accepts, Slice;
    var raw := h.Pack() + payload + suffix;
    HeaderFields(h, payload + suffix);
    Assoc(h.Pack(), payload, suffix);
    assert raw[20..20 + h.payloadLen] == payload;
  }

  /** And bytes that are no frame, or a cut one, do nothing. */
  lemma InboundRefuses(keys: Keys, rx: Ideal, raw: bytes, now: bytes)
    requires forall h: Header :: !(h.Fits() && h.Pack() <= raw && 20 + h.payloadLen <= |raw|)
    ensures Inbound(keys, rx, raw, now) == (rx, None) && InboundOpens(keys, rx, raw, now) == None
  {
    ParseExactly(raw, now);
  }

  /** The server's packet handler, for the session the packet names. What is done with the plaintext of data
      packets and speed test requests is not modelled. */
  method ProcessInbound(session: ClientSession, raw: bytes, now: bytes) returns (opens: Option<Destination>)
    requires session.Valid() && session.rxCipher.Valid()
    modifies session, session.proxyStreams.Values, session.rxCipher`bytesDecrypted, session.rxCipher.rx
    ensures session.Valid() && session.rxCipher.Valid()
    ensures session.rxCipher.rx.ideal == Inbound(session.rxCipher.keys, old(session.rxCipher.rx.ideal), raw, now).0
    ensures session.View()
         == Applied(old(session.View()), Inbound(session.rxCipher.keys, old(session.rxCipher.rx.ideal), raw, now).1)
    ensures opens == InboundOpens(session.rxCipher.keys, old(session.rxCipher.rx.ideal), raw, now)
  {
    hide Handled, Opening, ParseFrame;
    opens := None;
    var parsed := ParseFrame(raw, now);
    if parsed.Err? {
      return;
    }
    var f := parsed.value;
    if f.sessionId != session.rxCipher.keys.sessionId {
      return;
    }
    if f.msgType == PROXY_CONNECT || f.msgType == PROXY_DATA || f.msgType == PROXY_CLOSE {
      opens := session.HandleProxyFrame(f);
    } else if f.msgType == DATA_PACKET || f.msgType == SPEEDTEST_REQ {
      session.HandleOtherFrame(f);
    }
  }
}
