/** The local proxy itself: it reads one request of each connection and then pipes the application's bytes into the
    tunnel, while the handlers of other connections do the same. */
module ProxyGateway {
  import opened Bytes
  import opened Wrappers
  import opened Gateway
  import H = Handlers

  datatype ReadError = Incomplete | Reset

  /** The application's side of a connection: `input` is all it sends before closing, `pos` how much was read. */
  class StreamReader {
    const input: bytes
    var pos: nat
    /** The connection was reset; no read succeeds or fails otherwise after that. */
    var failed: bool

    constructor (input: bytes)
      ensures this.input == input && pos == 0 && !failed
    {
      this.input, pos, failed := input, 0, false;
    }

    ghost predicate Valid()
      reads this
    {
      pos <= |input|
    }

    /** At least one byte and at most `n`, however they happened to arrive; none at the end of the stream. */
    method Read(n: nat) returns (r: Result<bytes, ReadError>)
      requires Valid() && !failed && n >= 1
      modifies this
      ensures Valid() && (failed <==> r.Err?)
      ensures r.Ok? ==> old(pos) + |r.value| == pos && r.value == input[old(pos)..pos] && |r.value| <= n
      ensures r.Ok? && r.value == [] ==> pos == |input|
    {
      if * {
        failed := true;
        return Err(Reset);
      }
      var left := |input| - pos;
      if left == 0 {
        return Ok([]);
      }
      var k :| 1 <= k <= n && k <= left;
      r := Ok(input[pos..pos + k]);
      pos := pos + k;
    }

    method ReadExactly(n: nat) returns (r: Result<bytes, ReadError>)
      requires Valid() && !failed
      modifies this
      ensures Valid() && (failed <==> r.Err? && r.error == Reset)
      ensures r.Ok? ==> pos == old(pos) + n && r.value == input[old(pos)..pos]
      ensures r.Err? && r.error == Incomplete ==> |input| < old(pos) + n
    {
      if * {
        failed := true;
        return Err(Reset);
      }
      if |input| < pos + n {
        pos := |input|;
        return Err(Incomplete);
      }
      r := Ok(input[pos..pos + n]);
      pos := pos + n;
    }

    /** The bytes up to the next NUL, which is read too. */
    method ReadUntilNul() returns (r: Result<bytes, ReadError>)
      requires Valid() && !failed
      modifies this
      ensures Valid() && (failed <==> r.Err? && r.error == Reset)
      ensures r.Ok? ==> old(pos) < pos && r.value == input[old(pos)..pos - 1] && 0 !in r.value && input[pos - 1] == 0
      ensures r.Ok? ==> FindNul(input, old(pos)) == Some(pos - 1)
      ensures r.Err? && r.error == Incomplete ==> 0 !in input[old(pos)..] && FindNul(input, old(pos)) == None
    {
      var text := [];
      while true
        invariant Valid() && !failed && old(pos) <= pos
        invariant text == input[old(pos)..pos]
        invariant FindNul(input, old(pos)) == FindNul(input, pos)
        decreases |input| - pos
      {
        var b := ReadExactly(1);
        if b.Err? {
          return b;
        }
        if b.value == [0] {
          return Ok(text);
        }
        text := text + b.value;
      }
    }

    method ReadHeader() returns (r: Result<bytes, ReadError>)
      requires Valid() && !failed && pos == 1
      modifies this
      ensures Valid() && (failed <==> r.Err? && r.error == Reset)
      ensures r.Ok? ==> 5 <= pos && r.value == input[1..pos] && input[pos - 4..pos] == [13, 10, 13, 10]
                        && forall k, l | 1 <= k && k + 4 == l < pos :: input[k..l] != [13, 10, 13, 10]
      ensures r.Err? && r.error == Incomplete ==> forall k, l | 1 <= k && k + 4 == l <= |input| :: input[k..l] != [13, 10, 13, 10]
    {
      if * {
        failed := true;
        return Err(Reset);
      }
      var end := HeaderEnd(input, 1);
      match end
      case None =>
        pos := |input|;
        r := Err(Incomplete);
      case Some(e) =>
        pos := e;
        r := Ok(input[1..e]);
    }
  }

  predicate AllBelow(ids: set<nat>, n: nat) {
    forall id | id in ids :: id < n
  }

  class UniversalProxyGateway {
    const platform: Platform
    var activeConnections: set<nat>
    var nextConnId: nat
    var running: bool
    /** The calls of the tunnel's callback so far, by all handlers. */
    ghost var calls: seq<LocalFrame>
    /** The turns taken so far, by all handlers. */
    ghost var turns: seq<H.Event>

    ghost function Progress(): H.State
      reads this`turns
    {
      H.Run(platform, turns)
    }

    /** Between two turns the gateway is where its turns have brought it, and the next id is the next handler's. */
    ghost predicate Valid()
      reads this
    {
      && AllBelow(activeConnections, nextConnId)
      && nextConnId == H.IdOf(|Progress().handlers|)
      && calls == Progress().calls
    }

    /** The id belongs to a handler, and that handler is here. */
    ghost predicate At(connId: nat, h: H.Handler)
      reads this`turns
    {
      1 <= connId <= |Progress().handlers| && Progress().handlers[connId - 1] == h
    }

    constructor (platform: Platform)
      ensures Valid() && this.platform == platform
      ensures nextConnId == 1 && activeConnections == {} && !running && calls == [] && turns == []
    {
      this.platform, activeConnections, nextConnId, running := platform, {}, 1, false;
      calls, turns := [], [];
    }

    /** The callback. */
    method Notify(f: LocalFrame)
      modifies this`calls
      ensures calls == old(calls) + [f]
    {
      calls := calls + [f];
    }

    /** The calls since the last turn were the ones of this turn. */
    ghost method Take(connId: nat, h: H.Handler, e: H.Event)
      requires nextConnId == H.IdOf(|Progress().handlers|) && AllBelow(activeConnections, nextConnId)
      requires At(connId, h) && !e.Accept? && e.handler == connId - 1
      requires calls == Progress().calls + H.Turn(platform, connId, h, e).1
      modifies this`turns
      ensures Valid() && turns == old(turns) + [e]
      ensures At(connId, H.Turn(platform, connId, h, e).0)
    {
      H.RunMore(platform, turns, e);
      hide H.Run, H.Turn;
      turns := turns + [e];
    }

    /** While a handler waits, others take any turns of theirs and new ones are started; its own connection may be
        closed from outside, and the gateway may be stopped. */
    method Suspend(connId: nat, ghost h: H.Handler)
      requires Valid() && At(connId, h)
      modifies this
      ensures Valid() && At(connId, h) && nextConnId >= old(nextConnId) && old(turns) <= turns
    {
      hide H.Run;
      running := *;
      var n: nat :| n >= nextConnId;
      H.OthersGrow(platform, turns, connId - 1, n - nextConnId);
      ghost var more: seq<H.Event> :|
        H.Others(more, connId - 1) && H.IdOf(|H.Run(platform, turns + more).handlers|) == n;
      H.OthersLeave(platform, turns, more, connId - 1);
      turns := turns + more;
      calls := Progress().calls;
      nextConnId := n;
      assert AllBelow({}, n);
      var active :| AllBelow(active, n);
      activeConnections := active;
    }

    /** A new connection gets an id that no call carries. */
    method Accept(ghost input: bytes) returns (connId: nat)
      requires Valid()
      modifies this
      ensures Valid() && connId == old(nextConnId) < nextConnId && turns == old(turns) + [H.Accept(input)]
      ensures At(connId, H.Handler(input, H.Reading, []))
      ensures CallsFor(old(calls), connId) == []
    {
      H.RunSound(platform, turns);
      CallsForNone(calls, nextConnId);
      H.RunMore(platform, turns, H.Accept(input));
      hide H.Run, CallsFor;
      connId := nextConnId;
      nextConnId := nextConnId + 1;
      activeConnections := activeConnections + {connId};
      turns := turns + [H.Accept(input)];
    }

    method Retire(connId: nat)
      requires Valid()
      modifies this`activeConnections
      ensures Valid() && connId !in activeConnections
    {
      activeConnections := activeConnections - {connId};
    }

    /** One connection from accept to close, while others run. Its id was never used before, and `frames` are all
        the calls it ever makes. */
    method HandleClientConnection(reader: StreamReader) returns (connId: nat, ghost frames: seq<LocalFrame>, outcome: Outcome)
      requires Valid() && reader.pos == 0 && !reader.failed
      modifies this, reader
      ensures Valid() && connId == old(nextConnId) < nextConnId && connId !in activeConnections
      ensures old(turns) <= turns && exists chunks :: At(connId, H.Handler(reader.input, H.Done(outcome), chunks))
      ensures CallsFor(old(calls), connId) == [] && CallsFor(calls, connId) == frames
      ensures Grammar(platform, connId, reader.input, frames, outcome)
      ensures outcome == NotPiped ==> reader.failed || match Request(platform, reader.input)
                                                       case None => true
                                                       case Some(target) => platform.blocked(target.host)
      ensures outcome == Interrupted ==> reader.failed || !running
    {
      hide CallsFor, Request, Grammar, H.Run, H.Turn, UniversalProxyGateway.Valid, UniversalProxyGateway.At;
      connId := Accept(reader.input);
      ghost var h := H.Handler(reader.input, H.Reading, []);
      var target := ReadRequest(reader);
      Suspend(connId, h);
      if target.Some? && !platform.blocked(target.value.host) {
        h := Begin(connId, h, target.value);
        h, outcome := PipeClientToTunnel(connId, h, reader);
      } else {
        outcome := NotPiped;
      }
      h := Finish(connId, h, outcome);
      Retire(connId);
      frames := CallsFor(calls, connId);
      FinishedSound(connId, h, outcome);
    }

    lemma FinishedSound(connId: nat, h: H.Handler, outcome: Outcome)
      requires Valid() && At(connId, h) && h.phase == H.Done(outcome)
      ensures Grammar(platform, connId, h.input, CallsFor(calls, connId), outcome)
    {
      hide CallsFor, Grammar, H.Run;
      H.RunSound(platform, turns);
      assert H.Sound(platform, H.IdOf(connId - 1), h, CallsFor(calls, H.IdOf(connId - 1)));
    }

    /** CONNECT, and what the gateway sends of its own. */
    method Begin(connId: nat, ghost h: H.Handler, target: Target) returns (ghost next: H.Handler)
      requires Valid() && At(connId, h) && h.phase == H.Reading
      requires Request(platform, h.input) == Some(target) && !platform.blocked(target.host)
      modifies this`calls, this`turns
      ensures Valid() && At(connId, next) && turns == old(turns) + [H.Found(connId - 1)]
      ensures next == h.(phase := H.Piping(target, target.consumed))
    {
      hide Request, H.Run;
      Notify(Connect(connId, target.host, target.port));
      for k := 0 to |target.first|
        modifies this`calls
        invariant calls == old(calls) + ([Connect(connId, target.host, target.port)] + DataFrames(connId, target.first[..k]))
      {
        assert DataFrames(connId, target.first[..k + 1]) == DataFrames(connId, target.first[..k]) + [Data(connId, target.first[k])];
        Notify(Data(connId, target.first[k]));
      }
      assert target.first[..|target.first|] == target.first;
      Take(connId, h, H.Found(connId - 1));
      next := h.(phase := H.Piping(target, target.consumed));
    }

    /** CLOSE, however the handler was left. */
    method Finish(connId: nat, ghost h: H.Handler, outcome: Outcome) returns (ghost next: H.Handler)
      requires Valid() && At(connId, h) && (outcome == NotPiped <==> h.phase == H.Reading)
      requires outcome != NotPiped ==> h.phase.Piping? && (outcome == Drained ==> h.phase.pos == |h.input|)
      modifies this`calls, this`turns
      ensures Valid() && At(connId, next) && next == h.(phase := H.Done(outcome)) && old(turns) <= turns
    {
      hide H.Run;
      Notify(Close(connId));
      Take(connId, h, match outcome
                      case NotPiped => H.Refused(connId - 1)
                      case Drained => H.Eof(connId - 1)
                      case Interrupted => H.Cut(connId - 1));
      next := h.(phase := H.Done(outcome));
    }

    /** Reads the request; `None` if it is malformed, unsupported, cut short or the read fails. */
    method ReadRequest(reader: StreamReader) returns (r: Option<Target>)
      requires reader.pos == 0 && !reader.failed
      modifies reader
      ensures reader.Valid()
      ensures r.Some? ==> Request(platform, reader.input) == r && reader.pos == r.value.consumed && !reader.failed
      ensures r.None? ==> Request(platform, reader.input) == None || reader.failed
    {
      var initial := reader.Read(1);
      if initial.Err? || initial.value == [] {
        return None;
      }
      if initial.value[0] == 5 {
        r := ReadSocks5(reader);
      } else if initial.value[0] == 4 {
        r := ReadSocks4(reader);
      } else {
        var rest := reader.ReadHeader();
        if rest.Err? {
          return None;
        }
        assert reader.input[..reader.pos] == initial.value + rest.value;
        r := platform.http(initial.value + rest.value);
        if r.Some? {
          r := Some(r.value.(consumed := reader.pos));
        }
      }
    }

    method ReadSocks5(reader: StreamReader) returns (r: Option<Target>)
      requires reader.pos == 1 && reader.Valid() && !reader.failed
      modifies reader
      ensures reader.Valid()
      ensures r.Some? ==> Socks5Request(platform, reader.input) == r && reader.pos == r.value.consumed && !reader.failed
      ensures r.None? ==> Socks5Request(platform, reader.input) == None || reader.failed
    {
      var nmethods := reader.ReadExactly(1);
      if nmethods.Err? {
        return None;
      }
      var methods := reader.ReadExactly(nmethods.value[0] as int);
      if methods.Err? {
        return None;
      }
      var req := reader.ReadExactly(4);
      if req.Err? || req.value[1] != 1 {
        return None;
      }
      r := ReadAddress(reader, req.value[3]);
    }

    method ReadAddress(reader: StreamReader, atyp: byte) returns (r: Option<Target>)
      requires reader.Valid() && !reader.failed
      modifies reader
      ensures reader.Valid()
      ensures r.Some? ==> Socks5Address(platform, reader.input, atyp, old(reader.pos)) == r
                          && reader.pos == r.value.consumed && !reader.failed
      ensures r.None? ==> Socks5Address(platform, reader.input, atyp, old(reader.pos)) == None || reader.failed
    {
      var host: string;
      if atyp == 1 {
        var addr := reader.ReadExactly(4);
        if addr.Err? {
          return None;
        }
        host := platform.inetNtoa(addr.value);
      } else if atyp == 3 {
        var len := reader.ReadExactly(1);
        if len.Err? {
          return None;
        }
        var name := reader.ReadExactly(len.value[0] as int);
        if name.Err? {
          return None;
        }
        host := platform.decode(name.value);
      } else if atyp == 4 {
        var addr := reader.ReadExactly(16);
        if addr.Err? {
          return None;
        }
        host := platform.inetNtop(addr.value);
      } else {
        return None;
      }
      var port := reader.ReadExactly(2);
      if port.Err? {
        return None;
      }
      return Some(Target(host, FromBig(port.value), [], reader.pos));
    }

    method ReadSocks4(reader: StreamReader) returns (r: Option<Target>)
      requires reader.pos == 1 && reader.Valid() && !reader.failed
      modifies reader
      ensures reader.Valid()
      ensures r.Some? ==> Socks4Request(platform, reader.input) == r && reader.pos == r.value.consumed && !reader.failed
      ensures r.None? ==> Socks4Request(platform, reader.input) == None || reader.failed
    {
      var cmd := reader.ReadExactly(1);
      if cmd.Err? {
        return None;
      }
      var port := reader.ReadExactly(2);
      if port.Err? {
        return None;
      }
      var ip := reader.ReadExactly(4);
      if ip.Err? {
        return None;
      }
      SliceOfSlice(reader.input, 4, 8, 3);
      assert reader.pos == 8 && ip.value == reader.input[4..8];
      var user := reader.ReadUntilNul();
      if user.Err? {
        return None;
      }
      var host: string;
      if ip.value[..3] == [0, 0, 0] && ip.value[3] != 0 {
        var name := reader.ReadUntilNul();
        if name.Err? {
          return None;
        }
        host := platform.decode(name.value);
      } else {
        host := platform.inetNtoa(ip.value);
      }
      if cmd.value[0] != 1 {
        return None;
      }
      return Some(Target(host, FromBig(port.value), [], reader.pos));
    }

    /** Reads until the end of the stream, unless a read fails or the gateway is stopped. Every chunk is a turn. */
    method PipeClientToTunnel(connId: nat, ghost h: H.Handler, reader: StreamReader) returns (ghost next: H.Handler, outcome: Outcome)
      requires Valid() && At(connId, h) && reader.Valid() && !reader.failed
      requires h.phase.Piping? && h.input == reader.input && h.phase.pos == reader.pos
      modifies this, reader
      ensures Valid() && At(connId, next) && nextConnId >= old(nextConnId) && old(turns) <= turns
      ensures next.input == h.input && next.phase.Piping? && next.phase.target == h.phase.target
      ensures outcome != NotPiped && (outcome == Drained ==> next.phase.pos == |next.input|)
      ensures outcome == Interrupted ==> reader.failed || !running
    {
      hide H.Run, UniversalProxyGateway.Valid, UniversalProxyGateway.At;
      next, outcome := h, Interrupted;
      while true
        invariant reader.Valid() && !reader.failed && outcome == Interrupted
        invariant Valid() && At(connId, next) && nextConnId >= old(nextConnId) && old(turns) <= turns
        invariant next.input == reader.input && next.phase == H.Piping(h.phase.target, reader.pos)
        decreases |reader.input| - reader.pos
      {
        if !running {
          break;
        }
        var data := reader.Read(2048);
        Suspend(connId, next);
        if data.Err? {
          break;
        }
        if data.value == [] {
          outcome := Drained;
          break;
        }
        next := SendChunk(connId, next, data.value);
      }
    }

    method SendChunk(connId: nat, ghost h: H.Handler, data: bytes) returns (ghost next: H.Handler)
      requires Valid() && At(connId, h) && h.phase.Piping? && 1 <= |data| <= 2048
      requires h.phase.pos + |data| <= |h.input| && data == h.input[h.phase.pos..h.phase.pos + |data|]
      modifies this`calls, this`turns
      ensures Valid() && At(connId, next) && turns == old(turns) + [H.Chunk(connId - 1, |data|)]
      ensures next == h.(phase := H.Piping(h.phase.target, h.phase.pos + |data|), chunks := h.chunks + [data])
    {
      hide H.Run;
      Notify(Data(connId, data));
      Take(connId, h, H.Chunk(connId - 1, |data|));
      next := h.(phase := H.Piping(h.phase.target, h.phase.pos + |data|), chunks := h.chunks + [data]);
    }
  }
}
