/** Runs of the kind the end-to-end theorems speak of: one that delivers everything, and one that loses it. */
module Runs {
  import opened Bytes
  import opened Tunnel
  import opened EndToEnd
  import G = Gateway
  import S = Streams

  /** The connect request and the chunks fit their frames, and the counter has a nonce for every call. */
  predicate Sendable(link: Link, id: nat, host: string, port: int, chunks: seq<bytes>) {
    && ConnectFits(link, id, host, port)
    && (forall c | c in chunks :: Fits(c)) && |chunks| + 3 < Pow256(8)
  }

  /** A client that sends nothing but these calls. */
  function Alone(calls: seq<G.LocalFrame>): (sends: seq<Sending>)
    ensures |sends| == |calls|
  {
    seq(|calls|, i requires 0 <= i < |calls| => Proxy(calls[i]))
  }

  lemma {:induction false} AllCalls(calls: seq<G.LocalFrame>)
    ensures Calls(Alone(calls)) == calls
  {
    if calls == [] {
    } else {
      var init, f := calls[..|calls| - 1], calls[|calls| - 1];
      AllCalls(init);
      AloneLast(calls);
      assert Calls(Alone(calls)) == Calls(Alone(init)) + [f];
      hide Calls, Alone;
      assert calls == init + [f];
    }
  }

  lemma AloneCalls(calls: seq<G.LocalFrame>, id: nat)
    requires forall f | f in calls :: f.connId == id
    ensures CallsOf(Alone(calls), id) == calls
  {
    AllCalls(calls);
    G.CallsForAll(calls, id);
  }

  lemma ScriptConcerns(id: nat, p: Progress)
    ensures forall f | f in Script(id, p) :: f.connId == id
  {
  }

  lemma AloneLast(calls: seq<G.LocalFrame>)
    requires calls != []
    ensures var sends := Alone(calls);
            sends != [] && sends[..|sends| - 1] == Alone(calls[..|calls| - 1]) && sends[|sends| - 1] == Proxy(calls[|calls| - 1])
  {
  }

  lemma ScriptLength(id: nat, p: Progress)
    requires Speaks(p)
    ensures |Script(id, p)| == |p.chunks| + if p.Talking? then 1 else 2
  {
  }

  lemma SentCounts(link: Link, counter: nat, x: Sending)
    requires Packet(link.keys, link.encode, counter, x).Some? && !x.KeepAlive?
    ensures Advance(link.encode, counter, x) == counter + 1
  {
  }

  /** The last call of a script is sent if all before it were. */
  lemma LastIsSent(link: Link, id: nat, p: Progress)
    requires link.Sound() && Speaks(p) && Sendable(link, id, p.host, p.port, p.chunks)
    requires Counter(link, Alone(Script(id, Before(p)))) == |Script(id, Before(p))|
    ensures var sends := Alone(Script(id, p));
            && sends != [] && sends[..|sends| - 1] == Alone(Script(id, Before(p)))
            && LastPacket(link, sends).Some? && Counter(link, sends) == |sends| == |Script(id, p)|
  {
    LastCall(id, p);
    ScriptLength(id, p);
    AloneLast(Script(id, p));
    hide Script, Before, Packet, Alone;
    SentExactly(link, |Script(id, p)| - 1, Script(id, p)[|Script(id, p)| - 1]);
    SentCounts(link, |Script(id, p)| - 1, Proxy(Script(id, p)[|Script(id, p)| - 1]));
  }

  lemma SendableBefore(link: Link, id: nat, host: string, port: int, chunks: seq<bytes>)
    requires Sendable(link, id, host, port, chunks) && chunks != []
    ensures Sendable(link, id, host, port, chunks[..|chunks| - 1])
    ensures Before(Talking(host, port, chunks)) == Talking(host, port, chunks[..|chunks| - 1])
  {
  }

  lemma NothingYet(link: Link, id: nat)
    ensures Script(id, NotYet) == [] && Alone([]) == [] && Counter(link, []) == 0 && Surviving(link, []) == []
  {
  }

  /** Frames only, and after them one live connection that is being made. */
  ghost predicate AllWaits(events: seq<S.Event>, id: nat, data: bytes) {
    && FramesOf(events) == events && S.History(events, id) == S.Live(data)
    && S.Run(events).tasks == [S.Task(id, S.Opening)] && id !in S.Run(events).streams
  }

  lemma OneMoreEvent(events: seq<S.Event>, e: S.Event, id: nat)
    ensures S.Run(events + [e]) == S.Step(S.Run(events), e)
    ensures S.History(events + [e], id) == S.Next(S.History(events, id), S.Run(events), e, id)
    ensures FramesOf(events + [e]) == FramesOf(events) + if IsFrame(e) then [e] else []
  {
    assert (events + [e])[..|events + [e]| - 1] == events;
  }

  /** The calls of one connection alone all reach the server, as one live connection that is being made. */
  lemma {:induction false} AllSent(link: Link, id: nat, host: string, port: int, chunks: seq<bytes>)
    requires link.Sound() && Sendable(link, id, host, port, chunks)
    ensures var sends := Alone(Script(id, Talking(host, port, chunks)));
            && Counter(link, sends) == |Script(id, Talking(host, port, chunks))|
            && AllWaits(Surviving(link, sends), id, Concat(chunks))
  {
    hide *;
    var p := Talking(host, port, chunks);
    var sends := Alone(Script(id, p));
    NothingYet(link, id);
    if chunks == [] {
      BeforeFirst(host, port);
    } else {
      SendableBefore(link, id, host, port, chunks);
      AllSent(link, id, host, port, chunks[..|chunks| - 1]);
    }
    TalkingSpeaks(host, port, chunks);
    LastIsSent(link, id, p);
    LastSurvives(link, sends);
    LastSending(id, host, port, chunks);
    LastEvent(Surviving(link, sends[..|sends| - 1]), id, chunks);
  }

  lemma BeforeFirst(host: string, port: int)
    ensures Before(Talking(host, port, [])) == NotYet
  {
  }

  lemma TalkingSpeaks(host: string, port: int, chunks: seq<bytes>)
    ensures Speaks(Talking(host, port, chunks)) && Speaks(Ended(host, port, chunks))
  {
  }

  lemma LastSurvives(link: Link, sends: seq<Sending>)
    requires sends != [] && LastPacket(link, sends).Some?
    ensures Surviving(link, sends) == Surviving(link, sends[..|sends| - 1]) + Listed(AsEvent(sends[|sends| - 1]))
  {
  }

  lemma LastSending(id: nat, host: string, port: int, chunks: seq<bytes>)
    ensures var sends := Alone(Script(id, Talking(host, port, chunks)));
            && sends != []
            && Listed(AsEvent(sends[|sends| - 1])) == [if chunks == [] then S.Connect(id) else S.Data(id, chunks[|chunks| - 1])]
  {
    LastCall(id, Talking(host, port, chunks));
  }

  lemma LastEvent(events: seq<S.Event>, id: nat, chunks: seq<bytes>)
    requires if chunks == [] then events == [] else AllWaits(events, id, Concat(chunks[..|chunks| - 1]))
    ensures AllWaits(events + [if chunks == [] then S.Connect(id) else S.Data(id, chunks[|chunks| - 1])], id, Concat(chunks))
  {
    var e := if chunks == [] then S.Connect(id) else S.Data(id, chunks[|chunks| - 1]);
    OneMoreEvent(events, e, id);
    assert events == [] ==> S.Run(events) == S.EMPTY && S.History(events, id) == S.Unused && FramesOf(events) == [];
    LastStep(S.Run(events), S.History(events, id), id, chunks);
    hide S.Run, S.History, FramesOf, S.Step, S.Next, Concat;
  }

  lemma LastStep(s: S.State, tr: S.Track, id: nat, chunks: seq<bytes>)
    requires if chunks == [] then s == S.EMPTY && tr == S.Unused
             else tr == S.Live(Concat(chunks[..|chunks| - 1])) && s.tasks == [S.Task(id, S.Opening)] && id !in s.streams
    ensures var e := if chunks == [] then S.Connect(id) else S.Data(id, chunks[|chunks| - 1]);
            && S.Next(tr, s, e, id) == S.Live(Concat(chunks))
            && S.Step(s, e).tasks == [S.Task(id, S.Opening)] && id !in S.Step(s, e).streams
  {
  }

  /** For every connection that fits there is a run in which the server handles its frames and then connects, and
      the writer has all of its bytes. */
  lemma RunThatDelivers(link: Link, id: nat, host: string, port: int, chunks: seq<bytes>)
    requires link.Sound() && Sendable(link, id, host, port, chunks)
    ensures var p := Talking(host, port, chunks);
            var sends := Alone(Script(id, p));
            var events := Surviving(link, sends) + [S.Opened(0)];
            var s := S.Run(events);
            && CallsOf(sends, id) == Script(id, p) && !Spent(link, sends) && FramesOf(events) == Received(link, Wire(link, sends)).1
            && S.History(events, id) == S.Live(Concat(chunks))
            && id in s.streams && s.streams[id] in s.writers && s.writers[s.streams[id]].written == Concat(chunks)
  {
    var p := Talking(host, port, chunks);
    var sends := Alone(Script(id, p));
    AllSent(link, id, host, port, chunks);
    ScriptConcerns(id, p);
    AloneCalls(Script(id, p), id);
    FifoDelivery(link, sends);
    assert |Script(id, p)| == |chunks| + 1;
    hide Surviving, Received, Wire, Script, CallsOf, Counter, Concat;
    OpenedDelivers(Surviving(link, sends), id, Concat(chunks));
  }

  lemma OpenedDelivers(frames: seq<S.Event>, id: nat, data: bytes)
    requires AllWaits(frames, id, data)
    ensures var events := frames + [S.Opened(0)];
            var s := S.Run(events);
            && FramesOf(events) == frames && S.History(events, id) == S.Live(data)
            && id in s.streams && s.streams[id] in s.writers && s.writers[s.streams[id]].written == data
  {
    OneMoreEvent(frames, S.Opened(0), id);
    S.NothingLost(frames + [S.Opened(0)], id);
    hide S.Run, S.History, FramesOf;
  }

  /** And there is one in which it handles all its frames, CLOSE included, before it connects: then every byte is
      lost, and the connection that is made stays open. */
  lemma RunThatLoses(link: Link, id: nat, host: string, port: int, chunks: seq<bytes>)
    requires link.Sound() && Sendable(link, id, host, port, chunks)
    ensures var p := Ended(host, port, chunks);
            var sends := Alone(Script(id, p));
            var init := Surviving(link, Alone(Script(id, Talking(host, port, chunks))));
            var events := init + [S.Close(id)] + [S.Opened(0)];
            var s := S.Run(events);
            && CallsOf(sends, id) == Script(id, p) && !Spent(link, sends) && FramesOf(events) == Received(link, Wire(link, sends)).1
            && S.History(init, id) == S.Live(Concat(chunks))
            && id in s.streams && s.streams[id] == 0 && 0 in s.writers && s.writers[0] == S.Writer([], false)
  {
    var p := Ended(host, port, chunks);
    var sends := Alone(Script(id, p));
    AllSent(link, id, host, port, chunks);
    ScriptConcerns(id, p);
    AloneCalls(Script(id, p), id);
    LastIsSent(link, id, p);
    FifoDelivery(link, sends);
    LastSurvives(link, sends);
    LastCall(id, p);
    assert |Script(id, p)| == |chunks| + 2;
    var init := Surviving(link, Alone(Script(id, Talking(host, port, chunks))));
    assert Surviving(link, sends) == init + [S.Close(id)];
    hide Surviving, Received, Wire, Script, CallsOf, Counter, Concat;
    ClosedLoses(init, id, Concat(chunks));
  }

  lemma ClosedLoses(frames: seq<S.Event>, id: nat, data: bytes)
    requires AllWaits(frames, id, data)
    ensures var events := frames + [S.Close(id)] + [S.Opened(0)];
            var s := S.Run(events);
            && FramesOf(events) == frames + [S.Close(id)]
            && id in s.streams && s.streams[id] == 0 && 0 in s.writers && s.writers[0] == S.Writer([], false)
  {
    OneMoreEvent(frames, S.Close(id), id);
    OneMoreEvent(frames + [S.Close(id)], S.Opened(0), id);
    hide S.Run, S.History, FramesOf;
  }

  /** A SOCKS4a request may name a host of any length. One that encodes to 65512 bytes or more is granted, but its
      connect request does not fit its frame: the application's bytes go nowhere, whatever happens. */
  lemma LongNameLosesAll(link: Link, platform: G.Platform, sends: seq<Sending>, events: seq<S.Event>, id: nat,
                         m: G.Socks4Message, tail: bytes, frames: seq<G.LocalFrame>)
    requires link.Sound() && m.Fits() && m.command == 1 && m.name.Some?
    requires |link.encode(platform.decode(m.name.value))| >= 65512
    requires G.Grammar(platform, id, m.Encode() + tail, frames, G.Drained)
    requires CallsOf(sends, id) == frames && FramesOf(events) == Received(link, Wire(link, sends)).1
    ensures var host := platform.decode(m.name.value);
            && frames[0] == G.Connect(id, host, m.port)
            && Stream(G.Target(host, m.port, [], |m.Encode()|), m.Encode() + tail) == tail
            && S.NoTask(S.Run(events), id)
  {
    var request, host := m.Encode(), platform.decode(m.name.value);
    G.Socks4Parses(platform, m, tail);
    DrainedPipes(platform, id, request + tail, frames);
    assert frames[..|frames|] == frames;
    assert Stream(G.Target(host, m.port, [], |request|), request + tail) == [] + tail == tail;
    assert frames[0] == G.Connect(id, host, m.port);
    hide G.Grammar, G.Request, G.Socks4Message.Encode, Received, Wire, FramesOf, CallsOf, S.Run, S.NoTask, S.History;
    var p := GatewayProgress(platform, id, request + tail, frames, G.Drained, |frames|);
    ReachesServer(link, sends, events, id, p);
  }

  /** So does a port outside 16 bits, which an HTTP CONNECT line may name. */
  lemma WidePortLosesAll(link: Link, platform: G.Platform, sends: seq<Sending>, events: seq<S.Event>, id: nat,
                         input: bytes, frames: seq<G.LocalFrame>)
    requires link.Sound() && G.Grammar(platform, id, input, frames, G.Drained)
    requires match G.Request(platform, input) case None => false case Some(target) => target.port < 0 || target.port > 65535
    requires CallsOf(sends, id) == frames && FramesOf(events) == Received(link, Wire(link, sends)).1
    ensures S.NoTask(S.Run(events), id)
  {
    DrainedPipes(platform, id, input, frames);
    assert frames[..|frames|] == frames;
    hide G.Grammar, G.Request, Received, Wire, FramesOf, CallsOf, S.Run, S.NoTask, S.History;
    var p := GatewayProgress(platform, id, input, frames, G.Drained, |frames|);
    ReachesServer(link, sends, events, id, p);
  }
}
