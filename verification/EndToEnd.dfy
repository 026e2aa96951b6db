/** From the application's bytes to the remote writer, over an in-order lossless transport. */
module EndToEnd {
  import opened Bytes
  import opened Wrappers
  import opened ReplayWindow
  import opened Cipher
  import opened ProxySession
  import opened Tunnel
  import G = Gateway
  import S = Streams

  // ---------- The transport ----------

  /** The shared keys, the client's text encoding and the server's clock. */
  datatype Link = Link(keys: Keys, encode: string -> bytes, now: bytes) {
    ghost predicate Sound() {
      keys.aead.Lawful() && |now| == 8
    }
  }

  /** The client's counter after a sequence of sendings. */
  function Counter(link: Link, sends: seq<Sending>): nat {
    if sends == [] then 0
    else Advance(link.encode, Counter(link, sends[..|sends| - 1]), sends[|sends| - 1])
  }

  function LastPacket(link: Link, sends: seq<Sending>): Option<bytes>
    requires sends != []
  {
    Packet(link.keys, link.encode, Counter(link, sends[..|sends| - 1]), sends[|sends| - 1])
  }

  /** The packets the sendings put on the wire. */
  function Wire(link: Link, sends: seq<Sending>): seq<bytes> {
    if sends == [] then []
    else Wire(link, sends[..|sends| - 1]) + Listed(LastPacket(link, sends))
  }

  function Listed<T>(x: Option<T>): seq<T> {
    match x
    case None => []
    case Some(v) => [v]
  }

  /** The server's filter and the steps it takes, after the packets arrived in this order. */
  function Received(link: Link, packets: seq<bytes>): (Ideal, seq<S.Event>) {
    if packets == [] then (EMPTY, [])
    else
      var (rx, events) := Received(link, packets[..|packets| - 1]);
      var (rx', e) := Inbound(link.keys, rx, packets[|packets| - 1], link.now);
      (rx', events + Listed(e))
  }

  /** The steps of the sendings whose packets could be built. */
  function Surviving(link: Link, sends: seq<Sending>): seq<S.Event> {
    if sends == [] then []
    else Surviving(link, sends[..|sends| - 1]) + if LastPacket(link, sends).Some? then Listed(AsEvent(sends[|sends| - 1])) else []
  }

  /** What the server does is what the gateway's calls ask for, in the same order: nothing is refused, altered or
      repeated, whatever else the client sends in between. */
  lemma {:induction false} FifoDelivery(link: Link, sends: seq<Sending>)
    requires link.Sound()
    ensures var (rx, events) := Received(link, Wire(link, sends));
            events == Surviving(link, sends) && rx.Valid() && rx.newest <= Counter(link, sends)
  {
    if sends == [] {
    } else {
      var init, x := sends[..|sends| - 1], sends[|sends| - 1];
      FifoDelivery(link, init);
      match LastPacket(link, sends)
      case None =>
        assert Wire(link, sends) == Wire(link, init);
        assert Surviving(link, sends) == Surviving(link, init);
      case Some(raw) =>
        assert Wire(link, sends)[..|Wire(link, init)|] == Wire(link, init);
        PacketArrives(link.keys, link.encode, Counter(link, init), x, Received(link, Wire(link, init)).0, link.now);
    }
  }

  /** Where the server is told to connect, after the packets arrived in this order. */
  function Opened(link: Link, packets: seq<bytes>): seq<Destination> {
    if packets == [] then []
    else
      var init := packets[..|packets| - 1];
      Opened(link, init) + Listed(InboundOpens(link.keys, Received(link, init).0, packets[|packets| - 1], link.now))
  }

  /** Where the calls whose packets could be built ask to connect. */
  function Asked(link: Link, sends: seq<Sending>): seq<Destination> {
    if sends == [] then []
    else Asked(link, sends[..|sends| - 1])
         + if LastPacket(link, sends).Some? then Listed(Called(link.encode, sends[|sends| - 1])) else []
  }

  /** The server connects to the hosts and ports the applications asked for, and to no others. */
  lemma {:induction false} FifoDestinations(link: Link, sends: seq<Sending>)
    requires link.Sound()
    ensures Opened(link, Wire(link, sends)) == Asked(link, sends)
  {
    if sends == [] {
    } else {
      var init, x := sends[..|sends| - 1], sends[|sends| - 1];
      FifoDestinations(link, init);
      FifoDelivery(link, init);
      match LastPacket(link, sends)
      case None =>
        assert Wire(link, sends) == Wire(link, init);
      case Some(raw) =>
        assert Wire(link, sends)[..|Wire(link, init)|] == Wire(link, init);
        PacketArrives(link.keys, link.encode, Counter(link, init), x, Received(link, Wire(link, init)).0, link.now);
    }
  }

  /** Any number of packets handled so far are the packets of some first sendings. */
  lemma {:induction false} HandledSoFar(link: Link, sends: seq<Sending>, k: nat) returns (j: nat)
    requires k <= |Wire(link, sends)|
    ensures j <= |sends| && Wire(link, sends[..j]) == Wire(link, sends)[..k]
  {
    if k == |Wire(link, sends)| {
      j := |sends|;
      assert sends[..j] == sends && Wire(link, sends)[..k] == Wire(link, sends);
    } else {
      var init := sends[..|sends| - 1];
      j := HandledSoFar(link, init, k);
      assert init[..j] == sends[..j];
      assert Wire(link, sends)[..k] == Wire(link, init)[..k];
    }
  }

  // ---------- One connection ----------

  /** The gateway's calls among the sendings. */
  function Calls(sends: seq<Sending>): seq<G.LocalFrame> {
    if sends == [] then []
    else Calls(sends[..|sends| - 1]) + if sends[|sends| - 1].Proxy? then [sends[|sends| - 1].frame] else []
  }

  function CallsOf(sends: seq<Sending>, id: nat): seq<G.LocalFrame> {
    G.CallsFor(Calls(sends), id)
  }

  predicate Concerns(x: Sending, id: nat) {
    x.Proxy? && x.frame.connId == id
  }

  lemma LastOfCalls(sends: seq<Sending>, id: nat)
    requires sends != []
    ensures var init, x := sends[..|sends| - 1], sends[|sends| - 1];
            CallsOf(sends, id) == CallsOf(init, id) + if Concerns(x, id) then [x.frame] else []
  {
    var init, x := sends[..|sends| - 1], sends[|sends| - 1];
    if x.Proxy? {
      assert (Calls(init) + [x.frame])[..|Calls(init)|] == Calls(init);
    } else {
      assert Calls(sends) == Calls(init);
    }
  }

  predicate IsFrame(e: S.Event) {
    e.Connect? || e.Data? || e.Close?
  }

  /** The frames among a session's steps, in order. */
  function FramesOf(events: seq<S.Event>): seq<S.Event> {
    if events == [] then []
    else FramesOf(events[..|events| - 1]) + if IsFrame(events[|events| - 1]) then [events[|events| - 1]] else []
  }

  /** A track followed through the frames alone, as if the server never stopped a connection. */
  function Seen(events: seq<S.Event>, id: nat): S.Track {
    if events == [] then S.Unused
    else S.Next(Seen(events[..|events| - 1], id), S.EMPTY, events[|events| - 1], id)
  }

  /** The same history, but for what the server's own steps did to the connection. */
  predicate Agrees(full: S.Track, seen: S.Track) {
    match full
    case Stopped(d, _) => seen == S.Live(d)
    case Closed(d, _) => seen == S.Late(d, false)
    case Late(d, _) => seen == S.Late(d, false)
    case _ => full == seen
  }

  lemma AgreesNext(full: S.Track, seen: S.Track, s: S.State, e: S.Event, id: nat)
    requires Agrees(full, seen)
    ensures Agrees(S.Next(full, s, e, id), S.Next(seen, S.EMPTY, e, id))
    ensures !IsFrame(e) ==> S.Next(seen, S.EMPTY, e, id) == seen
  {
  }

  lemma {:induction false} SeenHistory(events: seq<S.Event>, id: nat)
    ensures Agrees(S.History(events, id), Seen(events, id))
    ensures Seen(events, id) == Seen(FramesOf(events), id)
  {
    if events == [] {
    } else {
      var init, e := events[..|events| - 1], events[|events| - 1];
      SeenHistory(init, id);
      AgreesNext(S.History(init, id), Seen(init, id), S.Run(init), e, id);
      hide S.Next, Agrees, S.Run, IsFrame;
      if IsFrame(e) {
        assert FramesOf(events)[..|FramesOf(init)|] == FramesOf(init);
      } else {
        assert FramesOf(events) == FramesOf(init);
      }
    }
  }

  // ---------- What a gateway's calls for one connection look like, at any moment ----------

  datatype Progress = NotYet | Refused | Talking(host: string, port: int, chunks: seq<bytes>)
                    | Ended(host: string, port: int, chunks: seq<bytes>)

  function Script(id: nat, p: Progress): seq<G.LocalFrame> {
    match p
    case NotYet => []
    case Refused => [G.Close(id)]
    case Talking(host, port, chunks) => [G.Connect(id, host, port)] + G.DataFrames(id, chunks)
    case Ended(host, port, chunks) => [G.Connect(id, host, port)] + G.DataFrames(id, chunks) + [G.Close(id)]
  }

  function Before(p: Progress): Progress {
    match p
    case Ended(h, q, cs) => Talking(h, q, cs)
    case Talking(h, q, cs) => if cs == [] then NotYet else Talking(h, q, cs[..|cs| - 1])
    case _ => NotYet
  }

  lemma LastCall(id: nat, p: Progress)
    requires p != NotYet
    ensures Script(id, p) != []
    ensures var all := Script(id, p);
            && all[..|all| - 1] == Script(id, Before(p))
            && all[|all| - 1] == match p
                                 case Talking(h, q, cs) => if cs == [] then G.Connect(id, h, q) else G.Data(id, cs[|cs| - 1])
                                 case _ => G.Close(id)
  {
    if p.Talking? && p.chunks != [] {
      assert G.DataFrames(id, p.chunks) == G.DataFrames(id, p.chunks[..|p.chunks| - 1]) + [G.Data(id, p.chunks[|p.chunks| - 1])];
    }
  }

  predicate Speaks(p: Progress) {
    p.Talking? || p.Ended?
  }

  /** With its connection id and tag the chunk fits the 16-bit length field. */
  predicate Fits(chunk: bytes) {
    |chunk| <= 65515
  }

  /** The chunks whose frames can be built. */
  function Fitting(chunks: seq<bytes>): seq<bytes> {
    if chunks == [] then []
    else Fitting(chunks[..|chunks| - 1]) + if Fits(chunks[|chunks| - 1]) then [chunks[|chunks| - 1]] else []
  }

  function Carried(p: Progress): bytes
    requires Speaks(p)
  {
    Concat(Fitting(p.chunks))
  }

  /** The counter has no further nonce. */
  predicate Spent(link: Link, sends: seq<Sending>) {
    Counter(link, sends) + 1 >= Pow256(8)
  }

  predicate InRange(link: Link, id: nat) {
    link.keys.sessionId < Pow256(4) && id < Pow256(4)
  }

  /** A connect request that fits its fields and, with its tag, the frame's length field. */
  predicate ConnectFits(link: Link, id: nat, host: string, port: int) {
    InRange(link, id) && 0 <= port <= 65535 && |link.encode(host)| <= 65511
  }

  predicate CallFits(link: Link, f: G.LocalFrame) {
    match f
    case Connect(id, host, port) => ConnectFits(link, id, host, port)
    case Data(id, data) => InRange(link, id) && Fits(data)
    case Close(id) => InRange(link, id)
  }

  /** Which calls become packets. */
  lemma SentExactly(link: Link, counter: nat, f: G.LocalFrame)
    requires link.Sound()
    ensures Packet(link.keys, link.encode, counter, Proxy(f)).Some? <==> CallFits(link, f) && counter + 1 < Pow256(8)
  {
    Widths();
    if link.keys.sessionId < Pow256(4) {
      PacketExactly(link.keys, link.encode, counter, f);
    }
  }

  /** A connection that speaks, and whose connect request fits. */
  predicate Reaches(link: Link, id: nat, p: Progress) {
    Speaks(p) && ConnectFits(link, id, p.host, p.port)
  }

  /** What the surviving frames of a connection amount to: nothing if and, while the counter lasts, only if its
      CONNECT does not fit; otherwise all its chunks that fit, or fewer once the counter is spent. */
  predicate Amounts(link: Link, sends: seq<Sending>, id: nat, p: Progress, tr: S.Track) {
    match tr
    case Unused => Spent(link, sends) || !Reaches(link, id, p)
    case Live(d) => Reaches(link, id, p) && d <= Carried(p) && (Spent(link, sends) || (p.Talking? && d == Carried(p)))
    case Late(d, _) => Reaches(link, id, p) && p.Ended? && d <= Carried(p) && (Spent(link, sends) || d == Carried(p))
    case _ => false
  }

  lemma SeenAppend(events: seq<S.Event>, e: S.Event, id: nat)
    ensures Seen(events + [e], id) == S.Next(Seen(events, id), S.EMPTY, e, id)
  {
    assert (events + [e])[..|events|] == events;
  }

  /** The track after one more sending. */
  lemma SeenSurviving(link: Link, sends: seq<Sending>, id: nat)
    requires sends != []
    ensures var before, x := Seen(Surviving(link, sends[..|sends| - 1]), id), sends[|sends| - 1];
            Seen(Surviving(link, sends), id)
            == if LastPacket(link, sends).Some? && x.Proxy? then S.Next(before, S.EMPTY, CallEvent(x.frame), id) else before
  {
    var init, x := sends[..|sends| - 1], sends[|sends| - 1];
    if LastPacket(link, sends).Some? && x.Proxy? {
      SeenAppend(Surviving(link, init), CallEvent(x.frame), id);
    } else {
      assert Surviving(link, sends) == Surviving(link, init);
    }
  }

  /** A sending for another connection, or for none, changes nothing, but it may use up the counter. */
  lemma OtherSending(link: Link, sends: seq<Sending>, id: nat, p: Progress, tr: S.Track)
    requires sends != [] && !Concerns(sends[|sends| - 1], id) && Amounts(link, sends[..|sends| - 1], id, p, tr)
    ensures var x := sends[|sends| - 1]; x.Proxy? ==> S.Next(tr, S.EMPTY, CallEvent(x.frame), id) == tr
    ensures Amounts(link, sends, id, p, tr)
  {
    LaterSpent(link, sends);
    hide LastPacket, Spent, Reaches, Carried;
  }

  lemma EarlierCalls(sends: seq<Sending>, id: nat, p: Progress)
    requires sends != [] && CallsOf(sends, id) == Script(id, p)
    ensures var init, x := sends[..|sends| - 1], sends[|sends| - 1];
            if !Concerns(x, id) then CallsOf(init, id) == Script(id, p)
            else p != NotYet && CallsOf(init, id) == Script(id, Before(p)) && x.frame == Script(id, p)[|Script(id, p)| - 1]
  {
    var init, x := sends[..|sends| - 1], sends[|sends| - 1];
    LastOfCalls(sends, id);
    hide CallsOf;
    if Concerns(x, id) {
      LastCall(id, p);
      assert CallsOf(sends, id)[..|CallsOf(init, id)|] == CallsOf(init, id);
    }
  }

  lemma {:induction false} SurvivingAmounts(link: Link, sends: seq<Sending>, id: nat, p: Progress)
    requires link.Sound() && CallsOf(sends, id) == Script(id, p)
    ensures Amounts(link, sends, id, p, Seen(Surviving(link, sends), id))
  {
    if sends == [] {
      assert !Speaks(p);
    } else {
      hide Script, CallsOf, Amounts, Seen, Surviving, LastPacket, S.Next, CallEvent;
      var init, x := sends[..|sends| - 1], sends[|sends| - 1];
      SeenSurviving(link, sends, id);
      EarlierCalls(sends, id, p);
      var tr := Seen(Surviving(link, init), id);
      if !Concerns(x, id) {
        SurvivingAmounts(link, init, id, p);
        OtherSending(link, sends, id, p, tr);
      } else {
        SurvivingAmounts(link, init, id, Before(p));
        OneMoreCall(link, sends, id, p, tr);
      }
    }
  }

  lemma OneMoreCall(link: Link, sends: seq<Sending>, id: nat, p: Progress, tr: S.Track)
    requires link.Sound() && sends != [] && p != NotYet && sends[|sends| - 1].Proxy?
    requires sends[|sends| - 1].frame == Script(id, p)[|Script(id, p)| - 1]
    requires Amounts(link, sends[..|sends| - 1], id, Before(p), tr)
    ensures var x := sends[|sends| - 1];
            var next := if LastPacket(link, sends).Some? then S.Next(tr, S.EMPTY, CallEvent(x.frame), id) else tr;
            Amounts(link, sends, id, p, next)
  {
    SentExactly(link, Counter(link, sends[..|sends| - 1]), sends[|sends| - 1].frame);
    if LastPacket(link, sends).Some? {
      SentCall(link, sends, id, p, tr);
    } else {
      UnsentCall(link, sends, id, p, tr);
    }
  }

  lemma SentCall(link: Link, sends: seq<Sending>, id: nat, p: Progress, tr: S.Track)
    requires sends != [] && p != NotYet && sends[|sends| - 1].Proxy? && CallFits(link, sends[|sends| - 1].frame)
    requires sends[|sends| - 1].frame == Script(id, p)[|Script(id, p)| - 1]
    requires Amounts(link, sends[..|sends| - 1], id, Before(p), tr) && !Spent(link, sends[..|sends| - 1])
    ensures Amounts(link, sends, id, p, S.Next(tr, S.EMPTY, CallEvent(sends[|sends| - 1].frame), id))
  {
    LastCall(id, p);
    CarriedGrows(p);
    hide Carried, Script, ConnectFits, Spent;
  }

  lemma UnsentCall(link: Link, sends: seq<Sending>, id: nat, p: Progress, tr: S.Track)
    requires sends != [] && p != NotYet && sends[|sends| - 1].Proxy?
    requires !CallFits(link, sends[|sends| - 1].frame) || Spent(link, sends[..|sends| - 1])
    requires sends[|sends| - 1].frame == Script(id, p)[|Script(id, p)| - 1]
    requires Amounts(link, sends[..|sends| - 1], id, Before(p), tr)
    ensures Amounts(link, sends, id, p, tr)
  {
    LastCall(id, p);
    CarriedGrows(p);
    LaterSpent(link, sends);
    hide Carried, Script, Spent;
  }

  lemma LaterSpent(link: Link, sends: seq<Sending>)
    requires sends != []
    ensures Spent(link, sends[..|sends| - 1]) ==> Spent(link, sends)
  {
  }

  lemma OneMoreFitting(chunks: seq<bytes>, c: bytes)
    ensures Fitting(chunks + [c]) == if Fits(c) then Fitting(chunks) + [c] else Fitting(chunks)
    ensures Concat(Fitting(chunks + [c])) == Concat(Fitting(chunks)) + if Fits(c) then c else []
    ensures Concat(chunks + [c]) == Concat(chunks) + c
  {
    assert (chunks + [c])[..|chunks|] == chunks;
    if Fits(c) {
      assert (Fitting(chunks) + [c])[..|Fitting(chunks)|] == Fitting(chunks);
    } else {
      assert Fitting(chunks + [c]) == Fitting(chunks);
    }
  }

  lemma CarriedGrows(p: Progress)
    ensures p.Ended? ==> Carried(p) == Carried(Before(p))
    ensures p.Talking? && p.chunks == [] ==> Carried(p) == []
    ensures p.Talking? && p.chunks != [] ==>
              var c := p.chunks[|p.chunks| - 1];
              Carried(p) == Carried(Before(p)) + if Fits(c) then c else []
  {
    if p.Talking? && p.chunks == [] {
    } else if p.Talking? {
      hide Fitting, Concat;
      OneMoreFitting(p.chunks[..|p.chunks| - 1], p.chunks[|p.chunks| - 1]);
      assert p.chunks == p.chunks[..|p.chunks| - 1] + [p.chunks[|p.chunks| - 1]];
    }
  }

  // ---------- When a connection reaches the server ----------

  lemma SeenAmounts(link: Link, sends: seq<Sending>, events: seq<S.Event>, id: nat, p: Progress)
    requires link.Sound() && CallsOf(sends, id) == Script(id, p)
    requires FramesOf(events) == Received(link, Wire(link, sends)).1
    ensures Agrees(S.History(events, id), Seen(events, id)) && Amounts(link, sends, id, p, Seen(events, id))
  {
    FifoDelivery(link, sends);
    SeenHistory(events, id);
    SurvivingAmounts(link, sends, id, p);
    hide *;
  }

  /** Under every interleaving: a connection whose connect request does not fit never exists at the server, and one
      whose request fits does, and is used once, while the counter lasts. */
  lemma ReachesServer(link: Link, sends: seq<Sending>, events: seq<S.Event>, id: nat, p: Progress)
    requires link.Sound() && CallsOf(sends, id) == Script(id, p)
    requires FramesOf(events) == Received(link, Wire(link, sends)).1
    ensures var s, tr := S.Run(events), S.History(events, id);
            && !tr.Misused?
            && (!Reaches(link, id, p) ==> tr == S.Unused && S.NoTask(s, id))
            && (Reaches(link, id, p) && !Spent(link, sends) ==> S.UsedOnce(tr) && exists t :: S.Sole(s, id, t))
  {
    hide *;
    SeenAmounts(link, sends, events, id, p);
    TrackTells(link, sends, id, p, S.History(events, id), Seen(events, id));
    S.TaskOnce(events, id);
  }

  /** What a track says when the frames sent amount to this. */
  lemma TrackTells(link: Link, sends: seq<Sending>, id: nat, p: Progress, tr: S.Track, seen: S.Track)
    requires Agrees(tr, seen) && Amounts(link, sends, id, p, seen)
    ensures !tr.Misused? && (S.UsedOnce(tr) <==> !tr.Unused?) && (tr.Unused? <==> seen.Unused?)
    ensures S.UsedOnce(tr) ==> Reaches(link, id, p) && Speaks(p) && tr.data <= Carried(p)
    ensures Reaches(link, id, p) && !Spent(link, sends) ==> S.UsedOnce(tr) && tr.data == Carried(p)
    ensures Reaches(link, id, p) && !Spent(link, sends) ==> (p.Talking? <==> seen.Live?) && (p.Ended? <==> seen.Late?)
    ensures seen.Live? ==> tr.Live? || tr.Stopped?
  {
    hide Carried, Spent, ConnectFits;
  }

  // ---------- CLOSE comes once ----------

  function Closes(events: seq<S.Event>, id: nat): nat {
    if events == [] then 0
    else Closes(events[..|events| - 1], id) + if events[|events| - 1] == S.Close(id) then 1 else 0
  }

  lemma {:induction false} ClosesAppend(a: seq<S.Event>, b: seq<S.Event>, id: nat)
    ensures Closes(a + b, id) == Closes(a, id) + Closes(b, id)
  {
    if b == [] {
      assert a + b == a;
    } else {
      ClosesAppend(a, b[..|b| - 1], id);
      assert (a + b)[..|a + b| - 1] == a + b[..|b| - 1];
    }
  }

  lemma {:induction false} ClosesOfFrames(events: seq<S.Event>, id: nat)
    ensures Closes(FramesOf(events), id) == Closes(events, id)
  {
    if events == [] {
    } else {
      var init, e := events[..|events| - 1], events[|events| - 1];
      ClosesOfFrames(init, id);
      ClosesAppend(FramesOf(init), [e], id);
      assert FramesOf(init) + [] == FramesOf(init);
    }
  }

  lemma ClosesLast(e: Option<S.Event>, id: nat)
    ensures Closes(Listed(e), id) == if e == Some(S.Close(id)) then 1 else 0
  {
  }

  lemma {:induction false} ClosesOnce(link: Link, sends: seq<Sending>, id: nat, p: Progress)
    requires CallsOf(sends, id) == Script(id, p)
    ensures Closes(Surviving(link, sends), id) <= if p.Ended? || p.Refused? then 1 else 0
  {
    if sends == [] {
    } else {
      hide Script, CallsOf, LastPacket, Counter;
      var init, x := sends[..|sends| - 1], sends[|sends| - 1];
      EarlierCalls(sends, id, p);
      if Concerns(x, id) {
        LastCall(id, p);
      }
      ClosesOnce(link, init, id, if Concerns(x, id) then Before(p) else p);
      var last := if LastPacket(link, sends).Some? then Listed(AsEvent(x)) else [];
      assert Surviving(link, sends) == Surviving(link, init) + last;
      ClosesAppend(Surviving(link, init), last, id);
      ClosesLast(AsEvent(x), id);
      assert Closes([], id) == 0;
      hide Surviving, Closes;
    }
  }

  /** A connection becomes late only by a CLOSE. */
  lemma {:induction false} LateNeedsClose(pre: seq<S.Event>, rest: seq<S.Event>, id: nat)
    requires Closes(rest, id) == 0
    ensures Seen(pre + rest, id).Late? ==> Seen(pre, id).Late?
  {
    if rest == [] {
      assert pre + rest == pre;
    } else {
      var init, e := rest[..|rest| - 1], rest[|rest| - 1];
      LateNeedsClose(pre, init, id);
      assert pre + rest == pre + init + [e];
      SeenAppend(pre + init, e, id);
    }
  }

  /** If a connection is late after all, and its only CLOSE is this one, it was live before it. */
  lemma LiveBeforeClose(init: seq<S.Event>, rest: seq<S.Event>, id: nat)
    requires Closes(init + [S.Close(id)] + rest, id) <= 1 && Seen(init + [S.Close(id)] + rest, id).Late?
    ensures Seen(init, id).Live?
  {
    ClosesAppend(init + [S.Close(id)], rest, id);
    ClosesAppend(init, [S.Close(id)], id);
    LateNeedsClose(init + [S.Close(id)], rest, id);
    assert [] + init == init;
    LateNeedsClose([], init, id);
    SeenAppend(init, S.Close(id), id);
    NeverEnded(init, id);
  }

  /** The server's own steps do not show in the frames alone. */
  lemma {:induction false} NeverEnded(events: seq<S.Event>, id: nat)
    ensures !Seen(events, id).Stopped? && !Seen(events, id).Closed?
  {
    if events == [] {
    } else {
      NeverEnded(events[..|events| - 1], id);
    }
  }

  // ---------- The theorems, for the gateway's chunks ----------

  /** At every moment of every run, whatever the other connections and the remote sides do, the bytes written
      for a connection are a prefix of the chunks the gateway passed on for it. */
  lemma WrittenFromChunks(link: Link, sends: seq<Sending>, events: seq<S.Event>, id: nat, p: Progress, t: nat)
    requires link.Sound() && CallsOf(sends, id) == Script(id, p)
    requires FramesOf(events) == Received(link, Wire(link, sends)).1
    requires var s := S.Run(events); t in s.writers && t < |s.tasks| && s.tasks[t].connId == id
    ensures Reaches(link, id, p) && S.Run(events).writers[t].written <= Carried(p)
  {
    hide *;
    SeenAmounts(link, sends, events, id, p);
    TrackTells(link, sends, id, p, S.History(events, id), Seen(events, id));
    S.TaskIsUse(events, id, t);
    S.WrittenExactly(events, id, t);
  }

  /** Before CLOSE, while the server's side has not ended the connection, it is live if its request fits, and what is
      written and what waits are all of the chunks. */
  lemma AllChunksAccounted(link: Link, sends: seq<Sending>, events: seq<S.Event>, id: nat, p: Progress)
    requires link.Sound() && CallsOf(sends, id) == Script(id, p) && p.Talking? && !Spent(link, sends)
    requires FramesOf(events) == Received(link, Wire(link, sends)).1 && S.LeftAlone(events, id)
    ensures var s, all := S.Run(events), if Reaches(link, id, p) then Carried(p) else [];
            && S.History(events, id) == (if Reaches(link, id, p) then S.Live(all) else S.Unused)
            && S.Accounted(s, id) == all
            && (id in s.streams ==> s.streams[id] in s.writers && s.writers[s.streams[id]].written == all)
  {
    hide Received, Surviving, Seen, Wire, Script, CallsOf, Spent, Reaches, Carried, FramesOf, Agrees, Amounts, S.Run, S.History, S.LeftAlone, S.Accounted;
    SeenAmounts(link, sends, events, id, p);
    TrackTells(link, sends, id, p, S.History(events, id), Seen(events, id));
    S.LeftAloneGoesOn(events, id);
    if Reaches(link, id, p) {
      S.NothingLost(events, id);
    } else {
      S.NothingUnused(events, id);
    }
  }

  /** Once CLOSE is handled, a connection whose request fits, and that the server's side had not ended before, has all
      of the chunks, for good, or nothing, as it was open or still being made at that moment. */
  lemma CloseDecidesChunks(link: Link, sends: seq<Sending>, init: seq<S.Event>, rest: seq<S.Event>, id: nat, p: Progress)
    requires link.Sound() && CallsOf(sends, id) == Script(id, p) && p.Ended? && !Spent(link, sends)
    requires FramesOf(init + [S.Close(id)] + rest) == Received(link, Wire(link, sends)).1 && S.LeftAlone(init, id)
    ensures var s := S.Run(init + [S.Close(id)] + rest);
            if Reaches(link, id, p)
            then exists t :: S.Sole(s, id, t) && AllOrNothing(s, t, id in S.Run(init).streams, Carried(p))
            else S.NoTask(s, id)
  {
    var events := init + [S.Close(id)] + rest;
    ReachesServer(link, sends, events, id, p);
    if Reaches(link, id, p) {
      LiveUntilClose(link, sends, init, rest, id, p);
      var t: nat :| S.Sole(S.Run(events), id, t);
      S.CloseDecides(init, rest, id, t);
    }
  }

  lemma LiveUntilClose(link: Link, sends: seq<Sending>, init: seq<S.Event>, rest: seq<S.Event>, id: nat, p: Progress)
    requires link.Sound() && CallsOf(sends, id) == Script(id, p) && p.Ended? && !Spent(link, sends) && Reaches(link, id, p)
    requires FramesOf(init + [S.Close(id)] + rest) == Received(link, Wire(link, sends)).1 && S.LeftAlone(init, id)
    ensures S.History(init, id) == S.Live(Carried(p)) && S.Quiet(rest, id)
  {
    var events := init + [S.Close(id)] + rest;
    hide *;
    FifoDelivery(link, sends);
    SeenAmounts(link, sends, events, id, p);
    TrackTells(link, sends, id, p, S.History(events, id), Seen(events, id));
    ClosesOfFrames(events, id);
    ClosesOnce(link, sends, id, p);
    LiveBeforeClose(init, rest, id);
    SeenHistory(init, id);
    S.LeftAloneGoesOn(init, id);
    AgreesLive(S.History(init, id), Seen(init, id));
    S.CloseSettles(init, rest, id);
  }

  lemma AgreesLive(tr: S.Track, seen: S.Track)
    requires Agrees(tr, seen) && seen.Live? && !tr.Stopped?
    ensures tr == seen
  {
  }

  /** The writer of task `t` has everything and is closed if the connection was open when CLOSE came; otherwise it
      has nothing, if it ever came to be. It has everything exactly if the connection was open, or there
      was nothing to send and it was made afterwards. */
  ghost predicate AllOrNothing(s: S.State, t: nat, open: bool, all: bytes) {
    && (open ==> t in s.writers && s.writers[t] == S.Writer(all, true))
    && (!open && t in s.writers ==> s.writers[t].written == [])
    && (t in s.writers && s.writers[t].written == all <==> open || (all == [] && t in s.writers))
  }

  // ---------- The theorems, for the application's bytes ----------

  /** How far a connection's calls have come after the first `k` of them. */
  function ProgressAt(host: string, port: int, chunks: seq<bytes>, k: nat): Progress
    requires k <= |chunks| + 2
  {
    if k == 0 then NotYet
    else if k <= |chunks| + 1 then Talking(host, port, chunks[..k - 1])
    else Ended(host, port, chunks)
  }

  lemma ProgressCalls(id: nat, host: string, port: int, chunks: seq<bytes>, k: nat)
    requires k <= |chunks| + 2
    ensures var all := [G.Connect(id, host, port)] + G.DataFrames(id, chunks) + [G.Close(id)];
            |all| == |chunks| + 2 && all[..k] == Script(id, ProgressAt(host, port, chunks, k))
  {
  }

  lemma {:induction false} FittingAppend(a: seq<bytes>, b: seq<bytes>)
    ensures Fitting(a + b) == Fitting(a) + Fitting(b)
  {
    if b == [] {
      assert a + b == a;
    } else {
      FittingAppend(a, b[..|b| - 1]);
      assert (a + b)[..|a + b| - 1] == a + b[..|b| - 1];
    }
  }

  /** One more chunk, on lengths. */
  lemma FittingGrows(init: seq<bytes>, c: bytes)
    ensures var more := init + [c];
            && |Concat(more)| == |Concat(init)| + |c|
            && |Fitting(more)| == |Fitting(init)| + (if Fits(c) then 1 else 0)
            && |Concat(Fitting(more))| == |Concat(Fitting(init))| + (if Fits(c) then |c| else 0)
            && (Fits(c) ==> Fitting(more) == Fitting(init) + [c]) && (!Fits(c) ==> |c| > 0)
  {
    hide Fitting, Concat;
    OneMoreFitting(init, c);
  }

  lemma {:induction false} FittingAll(chunks: seq<bytes>)
    ensures |Fitting(chunks)| <= |chunks| && |Concat(Fitting(chunks))| <= |Concat(chunks)|
    ensures Fitting(chunks) == chunks <==> forall c | c in chunks :: Fits(c)
    ensures |Concat(Fitting(chunks))| == |Concat(chunks)| <==> Fitting(chunks) == chunks
  {
    if chunks == [] {
    } else {
      var init, c := chunks[..|chunks| - 1], chunks[|chunks| - 1];
      hide *;
      FittingAll(init);
      FittingGrows(init, c);
      assert chunks == init + [c];
      if Fits(c) {
        SameFront(Fitting(init), init, c);
      }
      assert c in chunks && forall d | d in init :: d in chunks;
    }
  }

  lemma SameFront(a: seq<bytes>, b: seq<bytes>, c: bytes)
    ensures a + [c] == b + [c] ==> a == b
  {
    assert (a + [c])[..|a|] == a && (b + [c])[..|b|] == b;
  }

  /** The stream the remote side should see: the gateway's rewritten header, if any, and the bytes after the request. */
  function Stream(target: G.Target, input: bytes): bytes
    requires target.consumed <= |input|
  {
    Concat(target.first) + input[target.consumed..]
  }

  /** What of it fits frames: a header too long for one is left out. */
  function Passed(target: G.Target, input: bytes): bytes
    requires target.consumed <= |input|
  {
    Concat(Fitting(target.first)) + input[target.consumed..]
  }

  /** What the server gets to deliver: nothing if the connect request does not fit its own frame. */
  function Delivered(link: Link, id: nat, target: G.Target, input: bytes): bytes
    requires target.consumed <= |input|
  {
    if ConnectFits(link, id, target.host, target.port) then Passed(target, input) else []
  }

  /** It is the whole stream exactly if there is none, or the connect request fits and so does the gateway's own
      header, of which SOCKS has none. */
  lemma DeliveredExactly(link: Link, id: nat, target: G.Target, input: bytes)
    requires target.consumed <= |input|
    ensures Delivered(link, id, target, input) == Stream(target, input)
       <==> (Stream(target, input) == []
             || (ConnectFits(link, id, target.host, target.port) && forall c | c in target.first :: Fits(c)))
    ensures target.first == [] ==> Passed(target, input) == Stream(target, input) == input[target.consumed..]
  {
    FittingAll(target.first);
    assert [] + input[target.consumed..] == input[target.consumed..];
  }

  lemma PipedProgress(target: G.Target, input: bytes, chunks: seq<bytes>, drained: bool, id: nat, k: nat) returns (p: Progress)
    requires target.consumed <= |input| && G.Piped(input[target.consumed..], chunks, drained)
    requires k <= |target.first + chunks| + 2
    ensures var frames := [G.Connect(id, target.host, target.port)] + G.DataFrames(id, target.first + chunks) + [G.Close(id)];
            && |frames| == |target.first + chunks| + 2 && Script(id, p) == frames[..k]
            && (Speaks(p) ==> p.host == target.host && p.port == target.port && Carried(p) <= Passed(target, input))
            && (k >= 1 ==> Speaks(p)) && (k == |frames| ==> p.Ended?) && (k == |frames| - 1 ==> p.Talking?)
            && (k >= |frames| - 1 && drained ==> Speaks(p) && Carried(p) == Passed(target, input))
  {
    hide Script, Concat, Fitting;
    var all := target.first + chunks;
    ProgressCalls(id, target.host, target.port, all, k);
    p := ProgressAt(target.host, target.port, all, k);
    var j := if k == 0 then 0 else if k <= |all| + 1 then k - 1 else |all|;
    assert all[..|all|] == all;
    FittingAll(chunks);
    FittingAppend(target.first, chunks);
    ConcatAppend(Fitting(target.first), chunks);
    CarriedPrefix(all, j);
  }

  lemma CarriedPrefix(all: seq<bytes>, j: nat)
    requires j <= |all|
    ensures Concat(Fitting(all[..j])) <= Concat(Fitting(all))
  {
    hide Concat, Fitting;
    var a, b := all[..j], all[j..];
    assert all == a + b;
    FittingAppend(a, b);
    ConcatAppend(Fitting(a), Fitting(b));
  }

  /** The gateway's calls for a connection up to the `k`-th, as progress through chunks of the application's stream. */
  lemma GatewayProgress(platform: G.Platform, id: nat, input: bytes, frames: seq<G.LocalFrame>, outcome: G.Outcome, k: nat)
    returns (p: Progress)
    requires G.Grammar(platform, id, input, frames, outcome) && k <= |frames|
    ensures Script(id, p) == frames[..k]
    ensures outcome != G.NotPiped && k >= 1 ==> Speaks(p)
    ensures Speaks(p) ==> match G.Request(platform, input)
                          case None => false
                          case Some(target) =>
                            && !platform.blocked(target.host) && p.host == target.host && p.port == target.port
                            && Carried(p) <= Passed(target, input)
                            && (k == |frames| ==> p.Ended?) && (k == |frames| - 1 ==> p.Talking?)
                            && (outcome == G.Drained && k >= |frames| - 1 ==> Carried(p) == Passed(target, input))
  {
    if outcome == G.NotPiped {
      p := if k == 0 then NotYet else Refused;
      assert frames[..k] == Script(id, p);
    } else {
      hide G.Request, G.Piped, Carried, Script, Passed, G.DataFrames;
      var target: G.Target, chunks: seq<bytes> :|
        && G.Request(platform, input) == Some(target) && !platform.blocked(target.host)
        && G.Piped(input[target.consumed..], chunks, outcome == G.Drained)
        && frames == [G.Connect(id, target.host, target.port)] + G.DataFrames(id, target.first + chunks) + [G.Close(id)];
      p := PipedProgress(target, input, chunks, outcome == G.Drained, id, k);
    }
  }

  /** End to end: for any connection, any chunking, any interleaving with other connections and other sendings, and
      any behaviour of the remote sides, the bytes written remotely are a prefix of the stream. */
  lemma ApplicationBytesArrive(link: Link, platform: G.Platform, sends: seq<Sending>, events: seq<S.Event>,
                               id: nat, input: bytes, frames: seq<G.LocalFrame>, outcome: G.Outcome, k: nat, t: nat)
    requires link.Sound() && G.Grammar(platform, id, input, frames, outcome)
    requires k <= |frames| && CallsOf(sends, id) == frames[..k]
    requires FramesOf(events) == Received(link, Wire(link, sends)).1
    requires var s := S.Run(events); t in s.writers && t < |s.tasks| && s.tasks[t].connId == id
    ensures match G.Request(platform, input)
            case None => false
            case Some(target) =>
              !platform.blocked(target.host) && S.Run(events).writers[t].written <= Delivered(link, id, target, input)
  {
    hide G.Grammar, G.Request, Received, Wire, FramesOf, CallsOf, S.Run, Script, Carried, Passed;
    var p := GatewayProgress(platform, id, input, frames, outcome, k);
    WrittenFromChunks(link, sends, events, id, p, t);
  }

  /** Until CLOSE nothing is missing. Once the application has closed and every frame before CLOSE is handled, and
      unless the server's side has ended the connection: if the connect request fits, the connection is live, and its
      whole stream is written if it is open and waits if it is being made; if it does not fit, there is no such
      connection and the stream is lost. */
  lemma AllApplicationBytesArrive(link: Link, platform: G.Platform, sends: seq<Sending>, events: seq<S.Event>,
                                  id: nat, input: bytes, frames: seq<G.LocalFrame>)
    requires link.Sound() && G.Grammar(platform, id, input, frames, G.Drained) && !Spent(link, sends)
    requires |frames| >= 1 && CallsOf(sends, id) == frames[..|frames| - 1]
    requires FramesOf(events) == Received(link, Wire(link, sends)).1 && S.LeftAlone(events, id)
    ensures match G.Request(platform, input)
            case None => false
            case Some(target) =>
              var s, all := S.Run(events), Delivered(link, id, target, input);
              && (S.History(events, id).Live? <==> ConnectFits(link, id, target.host, target.port))
              && (S.NoTask(s, id) <==> !ConnectFits(link, id, target.host, target.port))
              && S.Accounted(s, id) == all
              && (id in s.streams ==> s.streams[id] in s.writers && s.writers[s.streams[id]].written == all)
  {
    DrainedPipes(platform, id, input, frames);
    hide G.Grammar, G.Request, Received, Wire, FramesOf, CallsOf, S.Run, S.History, S.Accounted, S.LeftAlone, Script, Carried, Passed;
    var p := GatewayProgress(platform, id, input, frames, G.Drained, |frames| - 1);
    AllChunksAccounted(link, sends, events, id, p);
    ReachesServer(link, sends, events, id, p);
  }

  lemma DrainedPipes(platform: G.Platform, id: nat, input: bytes, frames: seq<G.LocalFrame>)
    requires G.Grammar(platform, id, input, frames, G.Drained)
    ensures |frames| >= 2
  {
  }

  /** And CLOSE decides. When every frame of the connection is handled, CLOSE included, and the server's side had not
      ended it before: if the connect request fits, the remote side has the whole stream exactly if the connection was
      open when CLOSE was handled, or the stream is empty and the connection was made afterwards, and otherwise
      nothing; if the request does not fit, there is no such connection at all. */
  lemma CloseDecidesApplicationBytes(link: Link, platform: G.Platform, sends: seq<Sending>,
                                     init: seq<S.Event>, rest: seq<S.Event>,
                                     id: nat, input: bytes, frames: seq<G.LocalFrame>)
    requires link.Sound() && G.Grammar(platform, id, input, frames, G.Drained) && !Spent(link, sends)
    requires CallsOf(sends, id) == frames
    requires FramesOf(init + [S.Close(id)] + rest) == Received(link, Wire(link, sends)).1 && S.LeftAlone(init, id)
    ensures match G.Request(platform, input)
            case None => false
            case Some(target) =>
              var s := S.Run(init + [S.Close(id)] + rest);
              if ConnectFits(link, id, target.host, target.port)
              then exists t :: S.Sole(s, id, t) && AllOrNothing(s, t, id in S.Run(init).streams, Passed(target, input))
              else S.NoTask(s, id)
  {
    DrainedPipes(platform, id, input, frames);
    hide G.Grammar, G.Request, Received, Wire, FramesOf, CallsOf, S.Run, S.LeftAlone, AllOrNothing, Script, Carried, Passed;
    assert frames[..|frames|] == frames;
    var p := GatewayProgress(platform, id, input, frames, G.Drained, |frames|);
    CloseDecidesChunks(link, sends, init, rest, id, p);
  }
}
