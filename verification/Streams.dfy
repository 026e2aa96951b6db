/** The server's multiplexed streams of one session, as steps between suspension points. */
module Streams {
  import opened Bytes
  import opened Wrappers

  /** A remote connection's writer: what it was given, and whether it is closing. */
  datatype Writer = Writer(written: bytes, closing: bool)

  /** An opening task waits for its connection, then pipes, then cleans up. */
  datatype Phase = Opening | Piping | Done

  datatype Task = Task(connId: nat, phase: Phase)

  /** `streams` maps a connection to the task that opened it, and `writers` a task to its writer. */
  datatype State = State(connecting: set<nat>, pending: map<nat, bytes>, streams: map<nat, nat>,
                         writers: map<nat, Writer>, tasks: seq<Task>)

  const EMPTY := State({}, map[], map[], map[], [])

  datatype Event =
    | Connect(connId: nat)
    | Data(connId: nat, data: bytes)
    | Close(connId: nat)
      // the opening task's steps: the connection is made, fails, or its piping loop is left
    | Opened(task: nat)
    | Failed(task: nat)
    | Left(task: nat)
      // the remote side breaks the connection, or the session is closed
    | Broke(task: nat)
    | SessionClosed

  predicate InPhase(s: State, t: nat, p: Phase) {
    t < |s.tasks| && s.tasks[t].phase == p
  }

  function Step(s: State, e: Event): State {
    match e
    case Connect(id) =>
      s.(connecting := s.connecting + {id}, pending := s.pending[id := []], tasks := s.tasks + [Task(id, Opening)])
    case Data(id, data) => Receive(s, id, data)
    case Close(id) => Drop(s, id)
    case Opened(t) => if InPhase(s, t, Opening) then Open(s, t) else s
    case Failed(t) => if InPhase(s, t, Opening) then Finish(s, t) else s
    case Left(t) => if InPhase(s, t, Piping) then Finish(s, t) else s
    case Broke(t) => s.(writers := Shut(s.writers, {t}))
    case SessionClosed => s.(writers := Shut(s.writers, s.streams.Values), streams := map[])
  }

  function Shut(writers: map<nat, Writer>, which: set<nat>): (r: map<nat, Writer>)
    ensures r.Keys == writers.Keys
  {
    map t | t in writers :: if t in which then writers[t].(closing := true) else writers[t]
  }

  function Receive(s: State, id: nat, data: bytes): State {
    if id in s.streams then
      var t := s.streams[id];
      if t in s.writers && !s.writers[t].closing
      then s.(writers := s.writers[t := Writer(s.writers[t].written + data, false)])
      else s
    else if id in s.connecting && id in s.pending
    then s.(pending := s.pending[id := s.pending[id] + data])
    else s
  }

  /** CLOSE, and the cleanup of a finished task: forget the connection and close its writer. */
  function Drop(s: State, id: nat): State {
    s.(connecting := s.connecting - {id}, pending := s.pending - {id}, streams := s.streams - {id},
       writers := if id in s.streams then Shut(s.writers, {s.streams[id]}) else s.writers)
  }

  /** The connection is made: it is registered even if CLOSE came first, and buffered data is flushed. */
  function Open(s: State, t: nat): State
    requires InPhase(s, t, Opening)
  {
    var id := s.tasks[t].connId;
    State(s.connecting - {id}, s.pending - {id}, s.streams[id := t],
          s.writers[t := Writer(if id in s.pending then s.pending[id] else [], false)],
          s.tasks[t := Task(id, Piping)])
  }

  function Finish(s: State, t: nat): State
    requires t < |s.tasks|
  {
    var id := s.tasks[t].connId;
    Drop(s, id).(tasks := s.tasks[t := Task(id, Done)])
  }

  function Run(events: seq<Event>): State {
    if events == [] then EMPTY else Step(Run(events[..|events| - 1]), events[|events| - 1])
  }

  // ---------- Every run ----------

  /** A pending buffer exists exactly for the connections being made. */
  lemma {:induction false} PendingWhileConnecting(events: seq<Event>)
    ensures Run(events).pending.Keys == Run(events).connecting
  {
    if events == [] {
    } else {
      PendingWhileConnecting(events[..|events| - 1]);
    }
  }

  // ---------- One connection id ----------

  /** What has happened to one connection id, and the concatenation of its DATA so far. `Stopped` is a failed,
      finished or broken connection, and `Closed` one that got its CLOSE while open or stopped; both remember
      what its writer had been given, if it had one. `Late` got its CLOSE while it was being made, and `made`
      says whether it was made all the same. `Misused` is a second CONNECT, or DATA after CLOSE. */
  datatype Track =
    | Unused
    | Live(data: bytes)
    | Stopped(data: bytes, given: Option<bytes>)
    | Closed(data: bytes, given: Option<bytes>)
    | Late(data: bytes, made: bool)
    | Misused

  /** The step ends the connection from the server's side. */
  predicate Stops(s: State, e: Event, id: nat) {
    match e
    case Failed(t) => InPhase(s, t, Opening) && s.tasks[t].connId == id
    case Left(t) => InPhase(s, t, Piping) && s.tasks[t].connId == id
    case Broke(t) => t in s.writers && t < |s.tasks| && s.tasks[t].connId == id
    case SessionClosed => id in s.streams
    case _ => false
  }

  /** The step makes the connection. */
  predicate Makes(s: State, e: Event, id: nat) {
    e.Opened? && InPhase(s, e.task, Opening) && s.tasks[e.task].connId == id
  }

  function Next(tr: Track, s: State, e: Event, id: nat): Track {
    match tr
    case Misused => Misused
    case Unused => if e == Connect(id) then Live([]) else Unused
    case Live(d) =>
      if e == Connect(id) then Misused
      else if e == Close(id) then (if id in s.streams then Closed(d, Some(d)) else Late(d, false))
      else if e.Data? && e.connId == id then Live(d + e.data)
      else if Stops(s, e, id) then Stopped(d, if e.Failed? then None else Some(d))
      else tr
    case Stopped(d, w) =>
      if e == Connect(id) then Misused
      else if e == Close(id) then Closed(d, w)
      else if e.Data? && e.connId == id then Stopped(d + e.data, w)
      else tr
    case Closed(_, _) =>
      if Reuses(e, id) then Misused else tr
    case Late(d, _) =>
      if Reuses(e, id) then Misused else if Makes(s, e, id) then Late(d, true) else tr
  }

  predicate Reuses(e: Event, id: nat) {
    e == Connect(id) || (e.Data? && e.connId == id)
  }

  function History(events: seq<Event>, id: nat): Track {
    if events == [] then Unused
    else Next(History(events[..|events| - 1], id), Run(events[..|events| - 1]), events[|events| - 1], id)
  }

  ghost predicate Forgotten(s: State, id: nat) {
    id !in s.connecting && id !in s.pending
  }

  /** The only task of the connection. */
  ghost predicate Sole(s: State, id: nat, t: nat) {
    t < |s.tasks| && s.tasks[t].connId == id && forall u | 0 <= u < |s.tasks| && s.tasks[u].connId == id :: u == t
  }

  /** The connection is being made: nothing is written and everything waits in the buffer. */
  ghost predicate Waiting(s: State, id: nat, t: nat, data: bytes)
    requires t < |s.tasks|
  {
    && s.tasks[t].phase == Opening && id in s.connecting && id in s.pending && s.pending[id] == data
    && id !in s.streams && t !in s.writers
  }

  /** The connection is open: everything is written and nothing waits. */
  ghost predicate Flowing(s: State, id: nat, t: nat, data: bytes)
    requires t < |s.tasks|
  {
    && s.tasks[t].phase == Piping && Forgotten(s, id)
    && id in s.streams && s.streams[id] == t && t in s.writers && s.writers[t] == Writer(data, false)
  }

  /** The connection is over: its writer, if it ever had one, keeps what it was given and is closing. */
  ghost predicate Over(s: State, id: nat, t: nat, data: bytes, given: Option<bytes>)
    requires t < |s.tasks|
  {
    && Forgotten(s, id) && s.tasks[t].phase != Opening
    && match given
       case None => t !in s.writers && id !in s.streams
       case Some(w) => w <= data && t in s.writers && s.writers[t] == Writer(w, true) && (id in s.streams ==> s.streams[id] == t)
  }

  /** CLOSE came first: the buffer is gone, and a connection that is made all the same is given nothing. */
  ghost predicate Abandoned(s: State, id: nat, t: nat, made: bool)
    requires t < |s.tasks|
  {
    && Forgotten(s, id) && (s.tasks[t].phase == Opening ==> !made)
    && (made <==> t in s.writers) && (made ==> s.writers[t].written == [])
    && (id in s.streams ==> made && s.streams[id] == t)
  }

  ghost predicate Status(s: State, id: nat, t: nat, tr: Track)
    requires t < |s.tasks|
  {
    match tr
    case Live(d) => Waiting(s, id, t, d) || Flowing(s, id, t, d)
    case Stopped(d, w) => Over(s, id, t, d, w)
    case Closed(d, w) => Over(s, id, t, d, w)
    case Late(_, made) => Abandoned(s, id, t, made)
    case _ => false
  }

  ghost predicate Untouched(s: State, id: nat) {
    Forgotten(s, id) && id !in s.streams && forall u | 0 <= u < |s.tasks| :: s.tasks[u].connId != id
  }

  ghost predicate Conserved(s: State, id: nat, tr: Track) {
    match tr
    case Misused => true
    case Unused => Untouched(s, id)
    case _ => exists t :: Sole(s, id, t) && Status(s, id, t, tr)
  }

  /** Streams and writers belong to tasks. */
  ghost predicate Wired(s: State) {
    && (forall id | id in s.streams :: s.streams[id] in s.writers && s.streams[id] < |s.tasks| && s.tasks[s.streams[id]].connId == id)
    && (forall t | t in s.writers :: t < |s.tasks| && s.tasks[t].phase != Opening)
  }

  lemma WiredStep(s: State, e: Event)
    requires Wired(s)
    ensures Wired(Step(s, e))
  {
  }

  /** A step of another task or another connection. */
  lemma SoleStep(s: State, e: Event, id: nat, t: nat)
    requires Sole(s, id, t) && e != Connect(id)
    ensures Sole(Step(s, e), id, t)
  {
  }

  lemma LiveStep(s: State, d: bytes, e: Event, id: nat, t: nat)
    requires Wired(s) && Sole(s, id, t) && Status(s, id, t, Live(d)) && e != Connect(id)
    ensures Sole(Step(s, e), id, t) && Status(Step(s, e), id, t, Next(Live(d), s, e, id))
  {
    SoleStep(s, e, id, t);
    if Waiting(s, id, t, d) {
      WaitingStep(s, d, e, id, t);
    } else {
      FlowingStep(s, d, e, id, t);
    }
  }

  lemma WaitingStep(s: State, d: bytes, e: Event, id: nat, t: nat)
    requires Wired(s) && Sole(s, id, t) && Waiting(s, id, t, d) && e != Connect(id) && Sole(Step(s, e), id, t)
    ensures Status(Step(s, e), id, t, Next(Live(d), s, e, id))
  {
  }

  lemma FlowingStep(s: State, d: bytes, e: Event, id: nat, t: nat)
    requires Wired(s) && Sole(s, id, t) && Flowing(s, id, t, d) && e != Connect(id) && Sole(Step(s, e), id, t)
    ensures Status(Step(s, e), id, t, Next(Live(d), s, e, id))
  {
    if e.Connect? || e.Data? || e.Close? {
      FlowingFrame(s, d, e, id, t);
    } else {
      FlowingServer(s, d, e, id, t);
    }
  }

  lemma FlowingFrame(s: State, d: bytes, e: Event, id: nat, t: nat)
    requires Wired(s) && Sole(s, id, t) && Flowing(s, id, t, d) && e != Connect(id) && Sole(Step(s, e), id, t)
    requires e.Connect? || e.Data? || e.Close?
    ensures Status(Step(s, e), id, t, Next(Live(d), s, e, id))
  {
  }

  lemma FlowingServer(s: State, d: bytes, e: Event, id: nat, t: nat)
    requires Wired(s) && Sole(s, id, t) && Flowing(s, id, t, d) && Sole(Step(s, e), id, t)
    requires !e.Connect? && !e.Data? && !e.Close?
    ensures Status(Step(s, e), id, t, Next(Live(d), s, e, id))
  {
  }

  /** After the end nothing more is written, whatever still arrives. */
  lemma OverStep(s: State, d: bytes, w: Option<bytes>, e: Event, id: nat, t: nat)
    requires Wired(s) && Sole(s, id, t) && Over(s, id, t, d, w) && e != Connect(id)
    ensures Sole(Step(s, e), id, t)
    ensures Over(Step(s, e), id, t, if e.Data? && e.connId == id then d + e.data else d, w)
  {
    SoleStep(s, e, id, t);
    hide Sole;
  }

  lemma AbandonedStep(s: State, made: bool, e: Event, id: nat, t: nat)
    requires Wired(s) && Sole(s, id, t) && Abandoned(s, id, t, made) && !Reuses(e, id)
    ensures Sole(Step(s, e), id, t) && Abandoned(Step(s, e), id, t, made || Makes(s, e, id))
  {
    SoleStep(s, e, id, t);
  }

  lemma StatusStep(s: State, tr: Track, e: Event, id: nat, t: nat)
    requires Wired(s) && Sole(s, id, t) && Status(s, id, t, tr) && Next(tr, s, e, id) != Misused
    ensures Sole(Step(s, e), id, t) && Status(Step(s, e), id, t, Next(tr, s, e, id))
  {
    hide Over, Abandoned, Waiting, Flowing, Step, Wired, Sole;
    match tr
    case Live(d) => LiveStep(s, d, e, id, t);
    case Stopped(d, w) => OverStep(s, d, w, e, id, t);
    case Closed(d, w) => OverStep(s, d, w, e, id, t);
    case Late(_, made) => AbandonedStep(s, made, e, id, t);
  }

  lemma FirstConnect(s: State, id: nat)
    requires Wired(s) && Untouched(s, id)
    ensures Sole(Step(s, Connect(id)), id, |s.tasks|) && Status(Step(s, Connect(id)), id, |s.tasks|, Live([]))
  {
  }

  lemma UntouchedStep(s: State, e: Event, id: nat)
    requires Wired(s) && Untouched(s, id) && e != Connect(id)
    ensures Untouched(Step(s, e), id)
  {
  }

  /** Under every interleaving, for every connection id. */
  lemma {:induction false} StreamConservation(events: seq<Event>, id: nat)
    ensures Wired(Run(events)) && Conserved(Run(events), id, History(events, id))
  {
    if events == [] {
    } else {
      var init, e := events[..|events| - 1], events[|events| - 1];
      StreamConservation(init, id);
      var s, tr := Run(init), History(init, id);
      WiredStep(s, e);
      if tr == Unused {
        if e == Connect(id) {
          FirstConnect(s, id);
        } else {
          UntouchedStep(s, e, id);
        }
      } else if Next(tr, s, e, id) != Misused {
        var t :| Sole(s, id, t) && Status(s, id, t, tr);
        StatusStep(s, tr, e, id, t);
      }
    }
  }

  // ---------- What it means for the bytes ----------

  predicate UsedOnce(tr: Track) {
    !tr.Unused? && !tr.Misused?
  }

  /** What a connection's writer was given, if it has one. */
  function Given(tr: Track): bytes {
    match tr
    case Live(d) => d
    case Stopped(_, Some(w)) => w
    case Closed(_, Some(w)) => w
    case _ => []
  }

  /** However the run went, what a connection's writer was given is known exactly: all the DATA until it
      was stopped or closed, if it was open then, and nothing if CLOSE came before it was made. It is
      always a prefix of the DATA. */
  lemma WrittenExactly(events: seq<Event>, id: nat, t: nat)
    requires UsedOnce(History(events, id))
    requires t < |Run(events).tasks| && Run(events).tasks[t].connId == id
    ensures var s, tr := Run(events), History(events, id);
            && (t in s.writers ==> s.writers[t].written == Given(tr) && Given(tr) <= tr.data)
            && (tr.Stopped? || tr.Closed? ==> (t in s.writers <==> tr.given.Some?) && (t in s.writers ==> s.writers[t].closing))
            && (tr.Late? ==> (t in s.writers <==> tr.made))
  {
    StreamConservation(events, id);
  }

  /** The server's side never ended the connection: it did not fail, was not left or broken, and the session was not
      closed over it. */
  predicate LeftAlone(events: seq<Event>, id: nat) {
    events == []
    || (LeftAlone(events[..|events| - 1], id) && !Stops(Run(events[..|events| - 1]), events[|events| - 1], id))
  }

  lemma {:induction false} LeftAloneGoesOn(events: seq<Event>, id: nat)
    requires LeftAlone(events, id)
    ensures !History(events, id).Stopped?
  {
    if events == [] {
    } else {
      LeftAloneGoesOn(events[..|events| - 1], id);
    }
  }

  predicate NoTask(s: State, id: nat) {
    forall u | 0 <= u < |s.tasks| :: s.tasks[u].connId != id
  }

  /** An id has no task until it is used, and one when it is used once. */
  lemma TaskOnce(events: seq<Event>, id: nat)
    ensures History(events, id).Unused? ==> NoTask(Run(events), id)
    ensures UsedOnce(History(events, id)) ==> exists t :: Sole(Run(events), id, t)
  {
    StreamConservation(events, id);
  }

  lemma TaskIsUse(events: seq<Event>, id: nat, t: nat)
    requires t < |Run(events).tasks| && Run(events).tasks[t].connId == id
    ensures !History(events, id).Unused?
  {
    TaskOnce(events, id);
  }

  predicate Quiet(events: seq<Event>, id: nat) {
    forall e | e in events :: !Reuses(e, id)
  }

  /** What was settled by CLOSE stays settled exactly as long as the id is not used again. */
  lemma {:induction false} AfterClose(pre: seq<Event>, rest: seq<Event>, id: nat)
    requires History(pre, id).Closed? || History(pre, id).Late?
    ensures var before, after := History(pre, id), History(pre + rest, id);
            && (Quiet(rest, id) <==> after != Misused)
            && (before.Closed? && Quiet(rest, id) ==> after == before)
            && (before.Late? && Quiet(rest, id) ==> after.Late? && after.data == before.data)
  {
    if rest == [] {
      assert pre + rest == pre;
    } else {
      var init, e := rest[..|rest| - 1], rest[|rest| - 1];
      AfterClose(pre, init, id);
      assert (pre + rest)[..|pre + rest| - 1] == pre + init;
      assert rest == init + [e];
    }
  }

  /** After its CLOSE a live connection is used once exactly as long as the id is not used again. */
  lemma CloseSettles(init: seq<Event>, rest: seq<Event>, id: nat)
    requires History(init, id).Live?
    ensures var tr := History(init + [Close(id)] + rest, id);
            (Quiet(rest, id) <==> tr != Misused) && (Quiet(rest, id) ==> (tr.Closed? || tr.Late?) && tr.data == History(init, id).data)
  {
    assert (init + [Close(id)])[..|init|] == init;
    AfterClose(init + [Close(id)], rest, id);
  }

  /** CLOSE decides between all and nothing. If the connection was open, its writer has all the DATA, for
      good. If it was still being made, everything that waited is lost, and if it is made all the same
      its writer is given nothing. */
  lemma CloseDecides(init: seq<Event>, rest: seq<Event>, id: nat, t: nat)
    requires History(init, id).Live? && Quiet(rest, id)
    requires var s := Run(init + [Close(id)] + rest); t < |s.tasks| && s.tasks[t].connId == id
    ensures var d, open, s := History(init, id).data, id in Run(init).streams, Run(init + [Close(id)] + rest);
            && (open ==> t in s.writers && s.writers[t] == Writer(d, true))
            && (!open && t in s.writers ==> s.writers[t].written == [])
            && (t in s.writers && s.writers[t].written == d <==> open || (d == [] && t in s.writers))
  {
    assert (init + [Close(id)])[..|init|] == init;
    AfterClose(init + [Close(id)], rest, id);
    StreamConservation(init + [Close(id)] + rest, id);
  }

  /** A client that sends, and closes before the remote connection is made, loses what it sent; and the
      connection that is made afterwards stays open with nobody to use it. */
  lemma CloseLosesPending(id: nat, data: bytes)
    ensures var s := Run([Connect(id), Data(id, data), Close(id), Opened(0)]);
            id in s.streams && s.streams[id] == 0 && 0 in s.writers && s.writers[0] == Writer([], false)
  {
    var e0, e1, e2, e3 := Connect(id), Data(id, data), Close(id), Opened(0);
    assert [e0, e1, e2, e3][..3] == [e0, e1, e2] && [e0, e1, e2][..2] == [e0, e1] && [e0, e1][..1] == [e0] && [e0][..0] == [];
    assert Run([e0]) == Step(EMPTY, e0);
    assert Run([e0, e1]) == Step(Run([e0]), e1);
    assert Run([e0, e1, e2]) == Step(Run([e0, e1]), e2);
  }

  /** What was written, and then what still waits. */
  function Accounted(s: State, id: nat): bytes {
    (if id in s.streams && s.streams[id] in s.writers then s.writers[s.streams[id]].written else [])
    + (if id in s.pending then s.pending[id] else [])
  }

  /** Until the connection ends, written plus waiting is exactly the DATA since CONNECT, and only one of them exists. */
  lemma NothingLost(events: seq<Event>, id: nat)
    requires History(events, id).Live?
    ensures var s := Run(events);
            && Accounted(s, id) == History(events, id).data
            && (id in s.streams <==> id !in s.connecting)
            && (id in s.streams ==> s.streams[id] in s.writers && s.writers[s.streams[id]].written == History(events, id).data)
  {
    StreamConservation(events, id);
    assert [] + History(events, id).data == History(events, id).data;
  }

  lemma NothingUnused(events: seq<Event>, id: nat)
    requires History(events, id).Unused?
    ensures Accounted(Run(events), id) == [] && id !in Run(events).streams
  {
    StreamConservation(events, id);
  }

  predicate Both(s: State, id: nat) {
    id in s.connecting && id in s.streams
  }

  /** No id used once is both connecting and open. */
  lemma NeverBoth(events: seq<Event>, id: nat)
    requires !History(events, id).Misused?
    ensures !Both(Run(events), id)
  {
    StreamConservation(events, id);
  }

  /** In any run at all, an id becomes both exactly by a CONNECT that finds its stream still open. */
  lemma BothExactly(s: State, e: Event, id: nat)
    requires Wired(s) && !Both(s, id)
    ensures Both(Step(s, e), id) <==> e == Connect(id) && id in s.streams
  {
  }

  /** Reusing an open id does make it both. */
  lemma ReuseMakesBoth()
    ensures Both(Run([Connect(1), Opened(0), Connect(1)]), 1)
  {
    var e0, e1, e2 := Connect(1), Opened(0), Connect(1);
    assert [e0, e1, e2][..2] == [e0, e1] && [e0, e1][..1] == [e0] && [e0][..0] == [];
    assert Run([e0]) == Step(EMPTY, e0);
    assert Run([e0, e1]) == Step(Run([e0]), e1);
  }

  /** Other things reuse does, in any state: a second CONNECT drops what waited for the first, so that the first
      connection, once made, is given nothing; and the cleanup of one task closes the stream of the other, and leaves
      its own writer open. */
  lemma ReuseMixes(s: State, id: nat, t: nat, u: nat)
    requires Wired(s) && t < |s.tasks| && s.tasks[t].connId == id && u != t
    ensures InPhase(s, t, Opening) ==>
              var after := Step(Step(s, Connect(id)), Opened(t));
              t in after.writers && after.writers[t] == Writer([], false) && id in after.streams && after.streams[id] == t
    ensures InPhase(s, t, Piping) && id in s.streams && s.streams[id] == u ==>
              var after := Step(s, Left(t));
              && id !in after.streams && u in after.writers && after.writers[u] == s.writers[u].(closing := true)
              && (t in s.writers ==> t in after.writers && after.writers[t] == s.writers[t])
  {
  }
}
