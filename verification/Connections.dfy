/** End to end for all connections of the gateway at once. */
module Connections {
  import opened Wrappers
  import opened Tunnel
  import opened EndToEnd
  import G = Gateway
  import H = Handlers
  import S = Streams

  lemma CallsForPrefix(a: seq<G.LocalFrame>, b: seq<G.LocalFrame>, id: nat)
    requires a <= b
    ensures G.CallsFor(a, id) <= G.CallsFor(b, id)
  {
    hide G.CallsFor;
    assert b == a + b[|a|..];
    G.CallsForAppend(a, b[|a|..], id);
  }

  /** Whatever turns the handlers take, whatever else the client sends between the first of their calls, and however the
      server's steps fall: the bytes written for each connection are a prefix of the stream of its own
      application, on a connection to where that application asked. */
  lemma EveryConnectionArrives(link: Link, platform: G.Platform, turns: seq<H.Event>, sends: seq<Sending>,
                               events: seq<S.Event>, h: nat, t: nat)
    requires link.Sound() && Calls(sends) <= H.Run(platform, turns).calls && h < |H.Run(platform, turns).handlers|
    requires FramesOf(events) == Received(link, Wire(link, sends)).1
    requires var s := S.Run(events); t in s.writers && t < |s.tasks| && s.tasks[t].connId == H.IdOf(h)
    ensures var input := H.Run(platform, turns).handlers[h].input;
            match G.Request(platform, input)
            case None => false
            case Some(target) =>
              !platform.blocked(target.host) && S.Run(events).writers[t].written <= Delivered(link, H.IdOf(h), target, input)
  {
    hide S.Run, Received, Wire, FramesOf, G.Request, H.Run, G.CallsFor, Delivered, H.Sound, Calls;
    var id, run := H.IdOf(h), H.Run(platform, turns);
    H.RunSound(platform, turns);
    var frames, outcome := H.HandlerFrames(platform, id, run.handlers[h], G.CallsFor(run.calls, id));
    CallsForPrefix(Calls(sends), run.calls, id);
    ApplicationBytesArrive(link, platform, sends, events, id, run.handlers[h].input, frames, outcome, |CallsOf(sends, id)|, t);
  }

  /** A connection whose handler piped to the end and whose own calls are all handled, however far the others have
      come: it exists exactly if its connect request fits, and then it is all or nothing, as the remote
      connection was open or still being made when CLOSE was handled. */
  lemma EveryFinishedConnection(link: Link, platform: G.Platform, turns: seq<H.Event>, sends: seq<Sending>,
                                init: seq<S.Event>, rest: seq<S.Event>, h: nat)
    requires link.Sound() && !Spent(link, sends)
    requires h < |H.Run(platform, turns).handlers| && H.Run(platform, turns).handlers[h].phase == H.Done(G.Drained)
    requires CallsOf(sends, H.IdOf(h)) == G.CallsFor(H.Run(platform, turns).calls, H.IdOf(h))
    requires FramesOf(init + [S.Close(H.IdOf(h))] + rest) == Received(link, Wire(link, sends)).1
    requires S.LeftAlone(init, H.IdOf(h))
    ensures var input, s := H.Run(platform, turns).handlers[h].input, S.Run(init + [S.Close(H.IdOf(h))] + rest);
            match G.Request(platform, input)
            case None => false
            case Some(target) =>
              if ConnectFits(link, H.IdOf(h), target.host, target.port)
              then exists t :: S.Sole(s, H.IdOf(h), t)
                               && AllOrNothing(s, t, H.IdOf(h) in S.Run(init).streams, Passed(target, input))
              else S.NoTask(s, H.IdOf(h))
  {
    hide S.Run, S.LeftAlone, Received, Wire, FramesOf, G.Request, H.Run, G.CallsFor, Passed, H.Sound, AllOrNothing, CallsOf;
    var id, run := H.IdOf(h), H.Run(platform, turns);
    H.RunSound(platform, turns);
    var frames, outcome := H.HandlerFrames(platform, id, run.handlers[h], G.CallsFor(run.calls, id));
    CloseDecidesApplicationBytes(link, platform, sends, init, rest, id, run.handlers[h].input, frames);
  }
}
