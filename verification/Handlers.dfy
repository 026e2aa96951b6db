/** All connections of the gateway at once: handlers that run in turns, each from one read to the next. */
module Handlers {
  import opened Bytes
  import opened Wrappers
  import opened Gateway

  /** A handler is reading its request, piping from a position of its input, or done. */
  datatype Phase = Reading | Piping(target: Target, pos: nat) | Done(outcome: Outcome)

  datatype Handler = Handler(input: bytes, phase: Phase, chunks: seq<bytes>)

  /** The handlers in the order their connections were accepted, and the callback's calls by all of them. */
  datatype State = State(handlers: seq<Handler>, calls: seq<LocalFrame>)

  const START := State([], [])

  /** Connection ids are given out in order, from 1. */
  function IdOf(h: nat): nat {
    h + 1
  }

  datatype Event =
    | Accept(input: bytes)      // all the application sends before it closes
    | Found(handler: nat)       // the request is read and not blocked
    | Refused(handler: nat)     // it is malformed, unsupported, blocked or cut short, or the connection breaks
    | Chunk(handler: nat, size: nat)
    | Eof(handler: nat)
    | Cut(handler: nat)         // a read fails, or the gateway was stopped

  function Step(p: Platform, s: State, e: Event): State {
    match e
    case Accept(input) => s.(handlers := s.handlers + [Handler(input, Reading, [])])
    case _ =>
      var h := e.handler;
      if h >= |s.handlers| then s
      else
        var (next, made) := Turn(p, IdOf(h), s.handlers[h], e);
        State(s.handlers[h := next], s.calls + made)
  }

  /** One handler's turn: its next state and the calls it makes. A turn it cannot take changes nothing. */
  function Turn(p: Platform, id: nat, h: Handler, e: Event): (Handler, seq<LocalFrame>) {
    match (h.phase, e)
    case (Reading, Found(_)) =>
      (match Request(p, h.input)
       case None => (h, [])
       case Some(target) =>
         if p.blocked(target.host) then (h, [])
         else (h.(phase := Piping(target, target.consumed)),
               [Connect(id, target.host, target.port)] + DataFrames(id, target.first)))
    case (Reading, Refused(_)) => (h.(phase := Done(NotPiped)), [Close(id)])
    case (Piping(target, pos), Chunk(_, n)) =>
      if 1 <= n <= 2048 && pos + n <= |h.input|
      then (h.(phase := Piping(target, pos + n), chunks := h.chunks + [h.input[pos..pos + n]]), [Data(id, h.input[pos..pos + n])])
      else (h, [])
    case (Piping(_, pos), Eof(_)) => if pos == |h.input| then (h.(phase := Done(Drained)), [Close(id)]) else (h, [])
    case (Piping(_, _), Cut(_)) => (h.(phase := Done(Interrupted)), [Close(id)])
    case _ => (h, [])
  }

  function Run(p: Platform, events: seq<Event>): State {
    if events == [] then START else Step(p, Run(p, events[..|events| - 1]), events[|events| - 1])
  }

  lemma RunMore(p: Platform, events: seq<Event>, e: Event)
    ensures Run(p, events + [e]) == Step(p, Run(p, events), e)
  {
    assert (events + [e])[..|events + [e]| - 1] == events;
  }

  // ---------- One handler among others ----------

  /** Turns that are not this handler's. */
  predicate Others(events: seq<Event>, h: nat) {
    forall e | e in events :: e.Accept? || e.handler != h
  }

  /** They leave it where it is. */
  lemma {:induction false} OthersLeave(p: Platform, events: seq<Event>, more: seq<Event>, h: nat)
    requires Others(more, h) && h < |Run(p, events).handlers|
    ensures var s, s' := Run(p, events), Run(p, events + more);
            |s.handlers| <= |s'.handlers| && s'.handlers[h] == s.handlers[h]
  {
    if more == [] {
      assert events + more == events;
    } else {
      var init, e := more[..|more| - 1], more[|more| - 1];
      assert more == init + [e];
      OthersLeave(p, events, init, h);
      assert events + more == events + init + [e];
      RunMore(p, events + init, e);
      hide Run, Turn;
    }
  }

  /** Any number of handlers can be started meanwhile. */
  lemma {:induction false} OthersGrow(p: Platform, events: seq<Event>, h: nat, n: nat)
    ensures exists more :: Others(more, h) && |Run(p, events + more).handlers| == |Run(p, events).handlers| + n
  {
    if n == 0 {
      assert events + [] == events;
      assert Others([], h);
    } else {
      OthersGrow(p, events, h, n - 1);
      var more :| Others(more, h) && |Run(p, events + more).handlers| == |Run(p, events).handlers| + n - 1;
      RunMore(p, events + more, Accept([]));
      assert events + (more + [Accept([])]) == events + more + [Accept([])];
      assert Others(more + [Accept([])], h);
    }
  }

  // ---------- One handler ----------

  /** What a handler that has made these calls is in the middle of, or has finished. */
  ghost predicate Sound(p: Platform, id: nat, h: Handler, made: seq<LocalFrame>) {
    match h.phase
    case Reading => made == [] && h.chunks == []
    case Piping(target, pos) =>
      && Request(p, h.input) == Some(target) && !p.blocked(target.host)
      && target.consumed <= pos <= |h.input|
      && Concat(h.chunks) == h.input[target.consumed..pos] && (forall c | c in h.chunks :: 1 <= |c| <= 2048)
      && made == [Connect(id, target.host, target.port)] + DataFrames(id, target.first + h.chunks)
    case Done(outcome) => Grammar(p, id, h.input, made, outcome)
  }

  lemma TurnSound(p: Platform, id: nat, h: Handler, made: seq<LocalFrame>, e: Event)
    requires Sound(p, id, h, made)
    ensures var (next, more) := Turn(p, id, h, e);
            next.input == h.input && Sound(p, id, next, made + more) && forall f | f in more :: f.connId == id
  {
    hide Request, Sound, DataFrames;
    assert made + [] == made;
    match (h.phase, e)
    case (Reading, Found(_)) => FoundSound(p, id, h, made);
    case (Reading, Refused(_)) => RefusedSound(p, id, h, made);
    case (Piping(target, pos), Chunk(_, n)) =>
      if 1 <= n <= 2048 && pos + n <= |h.input| {
        ChunkSound(p, id, h, made, target, pos, n);
      }
    case (Piping(_, pos), Eof(_)) =>
      if pos == |h.input| {
        DoneSound(p, id, h, made, Drained);
      }
    case (Piping(_, _), Cut(_)) => DoneSound(p, id, h, made, Interrupted);
    case _ =>
  }

  lemma RefusedSound(p: Platform, id: nat, h: Handler, made: seq<LocalFrame>)
    requires Sound(p, id, h, made) && h.phase == Reading
    ensures Sound(p, id, h.(phase := Done(NotPiped)), made + [Close(id)])
  {
    assert [] + [Close(id)] == [Close(id)];
  }

  lemma DoneSound(p: Platform, id: nat, h: Handler, made: seq<LocalFrame>, outcome: Outcome)
    requires Sound(p, id, h, made) && h.phase.Piping? && outcome != NotPiped
    requires outcome == Drained ==> h.phase.pos == |h.input|
    ensures Sound(p, id, h.(phase := Done(outcome)), made + [Close(id)])
  {
    hide Grammar;
    EndSound(p, id, h, made, outcome);
  }

  lemma FoundSound(p: Platform, id: nat, h: Handler, made: seq<LocalFrame>)
    requires Sound(p, id, h, made) && h.phase == Reading
    ensures match Request(p, h.input)
            case None => true
            case Some(target) =>
              var more := [Connect(id, target.host, target.port)] + DataFrames(id, target.first);
              && (forall f | f in more :: f.connId == id)
              && (!p.blocked(target.host) ==> Sound(p, id, h.(phase := Piping(target, target.consumed)), made + more))
  {
    hide Request;
    if Request(p, h.input).Some? {
      var target := Request(p, h.input).value;
      assert target.first + [] == target.first;
      assert made + ([Connect(id, target.host, target.port)] + DataFrames(id, target.first))
          == [Connect(id, target.host, target.port)] + DataFrames(id, target.first);
    }
  }

  lemma ChunkSound(p: Platform, id: nat, h: Handler, made: seq<LocalFrame>, target: Target, pos: nat, n: nat)
    requires Sound(p, id, h, made) && h.phase == Piping(target, pos) && 1 <= n <= 2048 && pos + n <= |h.input|
    ensures var data := h.input[pos..pos + n];
            Sound(p, id, h.(phase := Piping(target, pos + n), chunks := h.chunks + [data]), made + [Data(id, data)])
  {
    hide Request, Concat, DataFrames;
    var data := h.input[pos..pos + n];
    OneMoreChunk(id, h.chunks, data);
    OneMoreChunk(id, target.first + h.chunks, data);
    assert target.first + (h.chunks + [data]) == target.first + h.chunks + [data];
  }

  lemma EndSound(p: Platform, id: nat, h: Handler, made: seq<LocalFrame>, outcome: Outcome)
    requires Sound(p, id, h, made) && h.phase.Piping? && outcome != NotPiped
    requires outcome == Drained ==> h.phase.pos == |h.input|
    ensures Grammar(p, id, h.input, made + [Close(id)], outcome)
  {
    hide Request, Concat, DataFrames;
    var target := h.phase.target;
    assert Gateway.Piped(h.input[target.consumed..], h.chunks, outcome == Drained);
  }

  // ---------- All of them ----------

  ghost predicate AllSound(p: Platform, s: State) {
    && (forall h: nat | h < |s.handlers| :: Sound(p, IdOf(h), s.handlers[h], CallsFor(s.calls, IdOf(h))))
    && (forall f | f in s.calls :: 1 <= f.connId <= |s.handlers|)
  }

  lemma StepSound(p: Platform, s: State, e: Event)
    requires AllSound(p, s)
    ensures AllSound(p, Step(p, s, e))
  {
    hide Sound, CallsFor, Turn;
    if e.Accept? {
      CallsForNone(s.calls, IdOf(|s.handlers|));
      NewSound(p, IdOf(|s.handlers|), e.input);
    } else if e.handler < |s.handlers| {
      var h := e.handler;
      var (next, made) := Turn(p, IdOf(h), s.handlers[h], e);
      TurnSound(p, IdOf(h), s.handlers[h], CallsFor(s.calls, IdOf(h)), e);
      CallsForAll(made, IdOf(h));
      forall g: nat | g < |s.handlers|
        ensures CallsFor(s.calls + made, IdOf(g)) == CallsFor(s.calls, IdOf(g)) + if g == h then made else []
      {
        CallsForAppend(s.calls, made, IdOf(g));
        CallsForNone(made, IdOf(g));
      }
      assert forall g: nat | g < |s.handlers| && g != h :: CallsFor(s.calls, IdOf(g)) + [] == CallsFor(s.calls, IdOf(g));
    }
  }

  lemma NewSound(p: Platform, id: nat, input: bytes)
    ensures Sound(p, id, Handler(input, Reading, []), [])
  {
  }

  /** Over every run of any number of handlers, whatever their turns: each handler's calls, picked out of all calls
      by its id, are those the grammar allows, as far as it has come. */
  lemma {:induction false} RunSound(p: Platform, events: seq<Event>)
    ensures AllSound(p, Run(p, events))
  {
    if events == [] {
    } else {
      RunSound(p, events[..|events| - 1]);
      StepSound(p, Run(p, events[..|events| - 1]), events[|events| - 1]);
    }
  }

  /** The calls of a handler at any moment are the first of the calls of some connection the grammar allows; all of
      them once it is done. */
  lemma HandlerFrames(p: Platform, id: nat, h: Handler, made: seq<LocalFrame>) returns (frames: seq<LocalFrame>, outcome: Outcome)
    requires Sound(p, id, h, made)
    ensures Grammar(p, id, h.input, frames, outcome) && |made| <= |frames| && frames[..|made|] == made
    ensures h.phase.Done? ==> frames == made && outcome == h.phase.outcome
  {
    match h.phase
    case Reading => frames, outcome := [Close(id)], NotPiped;
    case Piping(_, _) =>
      frames, outcome := made + [Close(id)], Interrupted;
      EndSound(p, id, h, made, Interrupted);
    case Done(o) => frames, outcome := made, o;
  }

  /** No connection id is ever connected twice. */
  ghost predicate ConnectsDiffer(calls: seq<LocalFrame>) {
    forall i, j | 0 <= i < j < |calls| && calls[i].Connect? && calls[j].Connect? :: calls[i].connId != calls[j].connId
  }

  lemma {:induction false} IdsNeverRepeat(p: Platform, events: seq<Event>)
    ensures ConnectsDiffer(Run(p, events).calls)
  {
    if events == [] {
    } else {
      var init, e := events[..|events| - 1], events[|events| - 1];
      IdsNeverRepeat(p, init);
      RunSound(p, init);
      var s := Run(p, init);
      if !e.Accept? && e.handler < |s.handlers| {
        var id, h := IdOf(e.handler), s.handlers[e.handler];
        CallsForNone(s.calls, id);
        OneConnect(p, id, h, e);
        hide Turn;
        var (_, made) := Turn(p, id, h, e);
        ConnectOnce(s.calls, made, id);
      }
    }
  }

  /** A turn connects only first, and only if nothing was called before. */
  lemma OneConnect(p: Platform, id: nat, h: Handler, e: Event)
    ensures var (_, made) := Turn(p, id, h, e);
            && (forall i | 1 <= i < |made| :: !made[i].Connect?)
            && (made != [] && made[0].Connect? ==> h.phase == Reading)
            && forall f | f in made :: f.connId == id
  {
  }

  lemma ConnectOnce(calls: seq<LocalFrame>, made: seq<LocalFrame>, id: nat)
    requires ConnectsDiffer(calls) && (forall f | f in made :: f.connId == id)
    requires forall i | 1 <= i < |made| :: !made[i].Connect?
    requires made != [] && made[0].Connect? ==> forall f | f in calls :: f.connId != id
    ensures ConnectsDiffer(calls + made)
  {
    var all := calls + made;
    forall i, j | 0 <= i < j < |all| && all[i].Connect? && all[j].Connect? ensures all[i].connId != all[j].connId {
      if j >= |calls| {
        assert all[j] == made[j - |calls|];
        if i < |calls| {
          assert all[i] in calls;
        }
      }
    }
  }
}
