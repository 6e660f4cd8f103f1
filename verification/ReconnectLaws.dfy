/** Whole-run theorems of the listener. */
module ReconnectLaws {
  import opened Text
  import opened Utf8
  import opened HeaderBlock
  import opened Framing
  import opened Transport
  import Commands
  import opened TransportLaws
  import opened OperationLaws
  import opened Scripts
  import opened Fragments
  import opened Reconnect

  // ---- One connection ----

  /** The event a stream frame delivers to the handler, if any. */
  function EventIn(cfg: Config, outer: Headers): seq<Headers> {
    var e := Unwrap(cfg, outer);
    if e.Some? && IsNamed(e.value) then [e.value] else []
  }

  /** What the handler must see of a list of stream frames. */
  function EventsIn(cfg: Config, outers: seq<Headers>): seq<Headers> {
    if outers == [] then [] else EventIn(cfg, outers[0]) + EventsIn(cfg, outers[1..])
  }

  /** `handled` is what the stream frames from `from` up to `to` deliver. */
  ghost predicate Forwarded(cfg: Config, from: nat, to: nat, log: seq<Taken>, handled: seq<Headers>) {
    var stream := Used(log, Stream);
    from <= to <= |stream| && handled == EventsIn(cfg, stream[from..to])
  }

  /** Why the streaming stopped at stream frame `to`: the handler closed the listener at
      the event just before, or every frame was delivered and the stream ended, or frame
      `to` is an envelope with no event in it. */
  ghost predicate StoppedAt(cfg: Config, to: nat, exit: State, handled: seq<Headers>, error: Option<Error>) {
    var stream := Used(exit.log, Stream);
    match error
    case None => handled != [] && 0 < to <= |stream| && EventIn(cfg, stream[to - 1]) == [handled[|handled| - 1]]
    case Some(e) =>
      || (to == |stream| && StreamEnded(cfg, exit, e))
      || (e.ProtocolError? && to < |stream| && Unwrap(cfg, stream[to]).None?)
  }

  /** The handler's answer to the `i`-th event: whether it closes the listener. */
  predicate ClosesAt(choices: seq<bool>, i: nat) {
    i >= |choices| || choices[i]
  }

  /** What one streaming stretch is, from `from` frames handed out on. */
  ghost predicate Listened(cfg: Config, from: nat, to: nat, choices: seq<bool>, t: Stretch) {
    && Forwarded(cfg, from, to, t.exit.log, t.handled)
    && StoppedAt(cfg, to, t.exit, t.handled, t.error)
    && (forall i | 0 <= i < |t.handled| ::
          ClosesAt(choices, i) <==> t.error.None? && i == |t.handled| - 1)
    && Frames(t.exit.log) <= DecodeAll(cfg, t.exit.net.received).frames
    && Canonical(t.exit)
    && (t.error.Some? ==> IsDrop(t.error.value))
  }

  /** From an open client: the handler sees, in order, exactly the named events of the
      next stream frames, up to the first at which it closes the listener; if it closes
      at none, of all frames up to the end of the stream or the first bad envelope. */
  lemma {:induction false} ListenLaw(cfg: Config, s: State, choices: seq<bool>) returns (to: nat)
    requires Open(cfg, s)
    ensures var t := Listen(cfg, s, choices);
            && Used(s.log, Stream) <= Used(t.exit.log, Stream)
            && Listened(cfg, |Handed(s)|, to, choices, t)
    decreases Fuel(s)
  {
    hide ReadEvent, Unwrap, Used, DecodeAll, Linked, QueueOk, QueueIsTail, Fuel, Replies;
    hide Listened, Handed, Frames, StreamEnded;
    ReadEventUsesFuel(cfg, s);
    ReadEventLaw(cfg, s);
    var (r, s1) := ReadEvent(cfg, s);
    var t := Listen(cfg, s, choices);
    var from := |Handed(s)|;
    if r == Err(Timeout) {
      QueueUnchanged(cfg, s, s1);
      to := ListenLaw(cfg, s1, choices);
    } else if r.Err? {
      to := from;
      StreamStops(cfg, s, r.error, s1, choices);
    } else {
      HandedIsStream(s1, from);
      if !IsNamed(r.value) {
        to := ListenLaw(cfg, s1, choices);
        FrameSkipped(cfg, from, to, choices, t, Handed(s1)[from], r.value);
      } else if Stop(choices) {
        TakenFramesAreDecoded(cfg, s1);
        to := from + 1;
        HandlerCloses(cfg, from, choices, s1, r.value);
      } else {
        to := ListenLaw(cfg, s1, Later(choices));
        EventHandled(cfg, from, to, choices, Listen(cfg, s1, Later(choices)), Handed(s1)[from], r.value);
      }
    }
  }

  lemma {:induction false} StreamStops(cfg: Config, s: State, e: Error, s1: State, choices: seq<bool>)
    requires Open(cfg, s) && ReadEvent(cfg, s) == (Err(e), s1) && e != Timeout
    ensures Listened(cfg, |Handed(s)|, |Handed(s)|, choices, Stretch([], Some(e), s1, choices))
  {
    hide ReadEvent, Unwrap, Used, DecodeAll, Linked, QueueOk, QueueIsTail, Replies, Frames;
    ReadEventLaw(cfg, s);
    assert Used(s1.log, Stream)[|Handed(s)|..|Handed(s)|] == [];
  }

  /** A frame without an event name reaches nobody. */
  lemma {:induction false} FrameSkipped(
    cfg: Config, from: nat, to: nat, choices: seq<bool>, t: Stretch, outer: Headers, event: Headers)
    requires Listened(cfg, from + 1, to, choices, t) && !IsNamed(event) && Unwrap(cfg, outer) == Some(event)
    requires from < |Used(t.exit.log, Stream)| && Used(t.exit.log, Stream)[from] == outer
    ensures Listened(cfg, from, to, choices, t)
  {
    hide Unwrap, Used, DecodeAll, Frames, StoppedAt, EventsIn, Canonical;
    OneMoreForwarded(cfg, from, to, Used(t.exit.log, Stream), outer, event);
  }

  /** A named event the handler lets pass. */
  lemma {:induction false} EventHandled(
    cfg: Config, from: nat, to: nat, choices: seq<bool>, t: Stretch, outer: Headers, event: Headers)
    requires Listened(cfg, from + 1, to, Later(choices), t) && !Stop(choices)
    requires IsNamed(event) && Unwrap(cfg, outer) == Some(event)
    requires from < |Used(t.exit.log, Stream)| && Used(t.exit.log, Stream)[from] == outer
    ensures Listened(cfg, from, to, choices, t.(handled := [event] + t.handled))
  {
    hide Unwrap, Used, DecodeAll, Frames, EventsIn, EventIn, Canonical, StreamEnded;
    OneMoreForwarded(cfg, from, to, Used(t.exit.log, Stream), outer, event);
    var handled := [event] + t.handled;
    forall i | 0 <= i < |handled|
      ensures ClosesAt(choices, i) <==> t.error.None? && i == |handled| - 1
    {
      assert i > 0 ==> (ClosesAt(choices, i) <==> ClosesAt(Later(choices), i - 1));
    }
  }

  /** A named event at which the handler closes the listener. */
  lemma {:induction false} HandlerCloses(cfg: Config, from: nat, choices: seq<bool>, s: State, event: Headers)
    requires Stop(choices) && IsNamed(event)
    requires from < |Used(s.log, Stream)| && Unwrap(cfg, Used(s.log, Stream)[from]) == Some(event)
    requires Frames(s.log) <= DecodeAll(cfg, s.net.received).frames
    ensures Listened(cfg, from, from + 1, choices, Stretch([event], None, Transport.Close(s), Later(choices)))
  {
    hide Unwrap, Used, DecodeAll, Frames;
    var stream := Used(s.log, Stream);
    assert stream[from + 1..from + 1] == [];
    OneMoreForwarded(cfg, from, from + 1, stream, stream[from], event);
  }

  lemma {:induction false} OneMoreForwarded(
    cfg: Config, from: nat, to: nat, stream: seq<Headers>, outer: Headers, event: Headers)
    requires from < to <= |stream| && stream[from] == outer && Unwrap(cfg, outer) == Some(event)
    ensures EventsIn(cfg, stream[from..to])
            == (if IsNamed(event) then [event] else []) + EventsIn(cfg, stream[from + 1..to])
  {
    hide Unwrap;
    assert stream[from..to][1..] == stream[from + 1..to];
  }

  // ---- Each connection reads its own stream only ----

  /** The stream of the current connection, already received or still to come. */
  function Wire(net: Net): seq<byte> {
    net.received + Bytes(net.recvs)
  }

  /** The stream is the same, and if the socket is still open so is its end. */
  predicate SameWire(s: State, s1: State) {
    Wire(s1.net) == Wire(s.net) && s1.net.dials == s.net.dials
    && (s1.sock ==> s.sock && EndOf(s1.net.recvs) == EndOf(s.net.recvs))
  }

  lemma {:induction false} StepKeepsWire(net: Net, window: Duration)
    ensures Wire(AfterRecv(net, window)) == Wire(net)
    ensures net.recvs == [] || net.recvs[0].Data? || net.recvs[0].took > window ==>
              EndOf(AfterRecv(net, window).recvs) == EndOf(net.recvs)
  {
    if net.recvs != [] && net.recvs[0].took <= window && net.recvs[0].Data? {
      var chunk := net.recvs[0].chunk;
      assert net.received + (chunk + Bytes(net.recvs[1..])) == net.received + chunk + Bytes(net.recvs[1..]);
    }
  }

  lemma {:induction false} RecvKeepsWire(cfg: Config, s: State, deadline: real)
    ensures SameWire(s, Recv(cfg, s, deadline).1)
  {
    hide Wire;
    if s.sock && deadline - s.net.now > 0.0 {
      StepKeepsWire(s.net, RMin(deadline - s.net.now, cfg.timeout));
    }
  }

  lemma {:induction false} PumpKeepsWire(cfg: Config, s: State, deadline: real)
    ensures SameWire(s, Pump(cfg, s, deadline).1)
    decreases Max(0, FrameCap(cfg) - |s.buffer|)
  {
    hide DecodeOne;
    VerdictBounds(cfg, s.buffer);
    if DecodeOne(cfg, s.buffer).Short? {
      RecvKeepsWire(cfg, s, deadline);
      hide Recv, Wire;
      var (r, s1) := Recv(cfg, s, deadline);
      if r.Ok? {
        PumpKeepsWire(cfg, s1.(buffer := s.buffer + r.value), deadline);
      }
    }
  }

  lemma {:induction false} ReadFrameKeepsWire(cfg: Config, s: State, deadline: real)
    ensures SameWire(s, ReadFrame(cfg, s, deadline).1)
  {
    hide Pump;
    PumpKeepsWire(cfg, s, deadline);
  }

  lemma {:induction false} AwaitKeepsWire(cfg: Config, s: State, deadline: real)
    ensures SameWire(s, Await(cfg, s, deadline).1)
    decreases Max(0, MAX_PENDING - |s.pending|)
  {
    hide ReadFrame, Wire;
    if s.net.now < deadline {
      var (r, s1) := ReadFrame(cfg, s, deadline);
      ReadFrameKeepsWire(cfg, s, deadline);
      ReadFrameKeepsQueue(cfg, s, deadline);
      SameWireSameNet(s, s1);
      if r.Ok? && !IsReply(r.value) && IsEvent(r.value) && Stash(cfg, s1, r.value).Ok? {
        StashSize(cfg, s1, r.value);
        AwaitKeepsWire(cfg, Took(Stash(cfg, s1, r.value).value, r.value, Stream), deadline);
      }
    }
  }

  lemma {:induction false} SameWireSameNet(s: State, s1: State)
    ensures SameWire(s, s1) ==> SameWire(s, Transport.Close(s1))
  {
  }

  lemma {:induction false} CommandKeepsWire(cfg: Config, s: State, line: string)
    ensures SameWire(s, Command(cfg, s, line).1)
  {
    hide Await;
    AwaitKeepsWire(cfg, Send(s, line + "\n\n").1, s.net.now + cfg.timeout);
  }

  lemma {:induction false} ReadEventKeepsWire(cfg: Config, s: State)
    ensures SameWire(s, ReadEvent(cfg, s).1)
  {
    hide ReadFrame, Unwrap, Wire;
    ReadFrameKeepsWire(cfg, s, s.net.now + cfg.timeout);
  }

  lemma {:induction false} ListenKeepsWire(cfg: Config, s: State, choices: seq<bool>)
    ensures SameWire(s, Listen(cfg, s, choices).exit)
    decreases Fuel(s)
  {
    hide ReadEvent, Fuel, Wire;
    ReadEventUsesFuel(cfg, s);
    ReadEventKeepsWire(cfg, s);
    var (r, s1) := ReadEvent(cfg, s);
    if r == Err(Timeout) || (r.Ok? && !IsNamed(r.value)) {
      ListenKeepsWire(cfg, s1, choices);
    } else if r.Ok? && !Stop(choices) {
      ListenKeepsWire(cfg, s1, Later(choices));
    }
  }

  /** A connect takes the next attempt; if it succeeds the wire is that attempt's stream. */
  lemma {:induction false} ConnectTakesDial(cfg: Config, s: State)
    ensures var (r, s1) := Connect(cfg, s);
            && s1.net.dials == (if s.net.dials == [] then [] else s.net.dials[1..])
            && (r.Ok? ==> NextDial(cfg, s.net).Accepted? && Wire(s1.net) == Bytes(NextDial(cfg, s.net).recvs)
                          && EndOf(s1.net.recvs) == EndOf(NextDial(cfg, s.net).recvs))
  {
    hide ReadFrame, Bytes, Elapse;
    if NextDial(cfg, s.net).Accepted? {
      var s1 := Dialed(cfg, s);
      assert [] + Bytes(s1.net.recvs) == Bytes(s1.net.recvs);
      ReadFrameKeepsWire(cfg, s1, s1.net.now + cfg.timeout);
      FrameKeepsSocket(cfg, s1, s1.net.now + cfg.timeout);
    }
  }

  lemma {:induction false} FrameKeepsSocket(cfg: Config, s: State, deadline: real)
    ensures var (r, s1) := ReadFrame(cfg, s, deadline);
            r.Ok? ==> s1.sock == s.sock
  {
    hide Pump, DecodeOne;
    var got := PumpMeetsDecoder(cfg, s, deadline);
  }

  // ---- Starting ----

  /** A start from the closed state ends open with nothing handed out, or closed after
      any failure the listener will retry. */
  lemma {:induction false} StartLaw(cfg: Config, s: State, events: seq<string>)
    requires Canonical(s)
    ensures var (r, s1) := Start(cfg, s, events);
            && (r.Ok? ==> Open(cfg, s1) && Handed(s1) == [] && NextDial(cfg, s.net).Accepted?
                          && Wire(s1.net) == Bytes(NextDial(cfg, s.net).recvs)
                          && EndOf(s1.net.recvs) == EndOf(NextDial(cfg, s.net).recvs))
            && (r.Err? && IsDrop(r.error) ==> Canonical(s1))
            && s1.net.dials == (if s.net.dials == [] then [] else s.net.dials[1..])
  {
    hide Connect, Command, Linked, QueueOk, QueueIsTail, Used, Bytes, Wire, EndOf;
    ConnectLaw(cfg, s);
    ConnectTakesDial(cfg, s);
    var (r, s1) := Connect(cfg, s);
    if r.Ok? {
      var auth := "auth " + cfg.password;
      CommandLaw(cfg, s1, auth);
      CommandKeepsWire(cfg, s1, auth);
      var s2 := Command(cfg, s1, auth).1;
      LoginChangesNoQueue(cfg, s2);
      var s3 := Authenticate(cfg, s1).1;
      if Authenticate(cfg, s1).0.Ok? {
        var subscription := Commands.SubscribeLine(events);
        CommandLaw(cfg, s3, subscription);
        CommandKeepsWire(cfg, s3, subscription);
        if Command(cfg, s3, subscription).0.Ok? {
          OpenHasSocket(cfg, s3);
          OpenHasSocket(cfg, Command(cfg, s3, subscription).1);
        }
      }
    }
  }

  // ---- Nothing sent is missed ----

  lemma {:induction false} ReadEventOnScript(cfg: Config, s: State)
    requires s.sock
    ensures var (r, s1) := ReadEvent(cfg, s);
            match r
            case Err(ConnectionError(cause)) =>
              (r.error == EndOf(s.net.recvs) && s1.net.recvs == []) || (cause == Incomplete && !NeverCut(cfg, s))
            case Err(ProtocolError) => true
            case _ => s1.sock && EndOf(s1.net.recvs) == EndOf(s.net.recvs) && (NeverCut(cfg, s) ==> NeverCut(cfg, s1))
  {
    hide ReadFrame, Unwrap, NeverCut, EndOf;
    var s1 := NextOuter(cfg, s).1;
    if s.pending != [] {
      CutsAreOfScript(cfg, s, s1);
    } else {
      ReadOnScript(cfg, s);
      CutsAreOfScript(cfg, ReadFrame(cfg, s, s.net.now + cfg.timeout).1, s1);
    }
  }

  /** The connection drops only at the end of its stream, or where it cuts a frame. */
  lemma {:induction false} ListenOnScript(cfg: Config, s: State, choices: seq<bool>)
    requires s.sock
    ensures var t := Listen(cfg, s, choices);
            t.error.Some? && t.error.value.ConnectionError? ==>
              || (t.error.value == EndOf(s.net.recvs) && t.exit.net.recvs == [])
              || (t.error.value.cause == Incomplete && !NeverCut(cfg, s))
    decreases Fuel(s)
  {
    hide ReadEvent, Fuel, NeverCut, EndOf;
    ReadEventUsesFuel(cfg, s);
    ReadEventOnScript(cfg, s);
    var (r, s1) := ReadEvent(cfg, s);
    if r == Err(Timeout) || (r.Ok? && !IsNamed(r.value)) {
      ListenOnScript(cfg, s1, choices);
    } else if r.Ok? && !Stop(choices) {
      ListenOnScript(cfg, s1, Later(choices));
    }
  }

  /** A round that ends in a dropped connection: either a frame was cut in two, seen from
      where the start left the script; or the peer's stream came to its end, every byte of it
      was received, and the handler saw the named events of every stream frame among them. */
  ghost predicate Delivers(cfg: Config, events: seq<string>, round: Round) {
    var dial := NextDial(cfg, round.entry.net);
    round.started && dial.Accepted? && round.error.Some? && round.error.value.ConnectionError? ==>
      || (round.error == Some(ConnectionError(Incomplete))
          && !NeverCut(cfg, Start(cfg, round.entry, events).1))
      || (&& round.error == Some(EndOf(dial.recvs))
          && round.exit.net.received == Bytes(dial.recvs)
          && Frames(round.exit.log) == DecodeAll(cfg, Bytes(dial.recvs)).frames
          && round.handled == EventsIn(cfg, Used(round.exit.log, Stream)))
  }

  lemma {:induction false} AttemptDelivers(cfg: Config, events: seq<string>, s: State, choices: seq<bool>)
    requires Canonical(s)
    ensures Delivers(cfg, events, Attempt(cfg, events, s, choices).0)
  {
    hide Start, Listen, Open, Used, DecodeAll, Frames, NeverCut, EndOf, EventsIn;
    StartLaw(cfg, s, events);
    var (r, s1) := Start(cfg, s, events);
    if r.Ok? {
      var t := Listen(cfg, s1, choices);
      var to := ListenLaw(cfg, s1, choices);
      ListenKeepsWire(cfg, s1, choices);
      OpenHasSocket(cfg, s1);
      ListenOnScript(cfg, s1, choices);
      var stream := Used(t.exit.log, Stream);
      assert stream[0..|stream|] == stream;
      assert t.exit.net.received + [] == t.exit.net.received;
      NothingLeft();
    }
  }

  lemma {:induction false} OpenHasSocket(cfg: Config, s: State)
    requires Open(cfg, s)
    ensures s.sock
  {
  }

  lemma {:induction false} NothingLeft()
    ensures Bytes([]) == []
  {
  }

  // ---- All rounds ----

  /** What one pass of the loop does: start from the canonical closed state, read its own
      connection's bytes only, and hand over exactly the named events of the first stream
      frames those bytes decode to, stopping only for one of the reasons above, and for a
      dropped connection only at the end of its stream or at a frame cut in two. */
  ghost predicate RoundOk(cfg: Config, events: seq<string>, round: Round) {
    && Canonical(round.entry)
    && (!round.started ==> round.handled == [])
    && (round.started ==>
          && NextDial(cfg, round.entry.net).Accepted?
          && Wire(round.exit.net) == Bytes(NextDial(cfg, round.entry.net).recvs)
          && Frames(round.exit.log) <= DecodeAll(cfg, round.exit.net.received).frames
          && exists to: nat :: Forwarded(cfg, 0, to, round.exit.log, round.handled)
                               && StoppedAt(cfg, to, round.exit, round.handled, round.error))
    && Delivers(cfg, events, round)
  }

  lemma {:induction false} AttemptLaw(cfg: Config, events: seq<string>, s: State, choices: seq<bool>)
    requires Canonical(s)
    ensures var (round, _) := Attempt(cfg, events, s, choices);
            && RoundOk(cfg, events, round) && round.entry == s
            && (round.error.Some? && IsDrop(round.error.value) ==> Canonical(round.exit))
            && (round.started && round.error.Some? ==> IsDrop(round.error.value))
            && round.exit.net.dials == (if s.net.dials == [] then [] else s.net.dials[1..])
  {
    AttemptDelivers(cfg, events, s, choices);
    hide Start, Listen, Open, Used, DecodeAll, Wire, Bytes, Frames, StoppedAt, Delivers;
    StartLaw(cfg, s, events);
    var (r, s1) := Start(cfg, s, events);
    if r.Ok? {
      var to := ListenLaw(cfg, s1, choices);
      ListenKeepsWire(cfg, s1, choices);
      var t := Listen(cfg, s1, choices);
      assert Forwarded(cfg, 0, to, t.exit.log, t.handled) && StoppedAt(cfg, to, t.exit, t.handled, t.error);
    }
  }

  // ---- Closing ----

  /** The points of a round at which a close could show: after each event handled, after a
      dropped connection, and after the sleep. */
  function Looks(round: Round): nat {
    |round.handled| + (if round.error.Some? && IsDrop(round.error.value) then 1 else 0)
    + if round.slept.Some? then 1 else 0
  }

  function AllLooks(rounds: seq<Round>): nat {
    if rounds == [] then 0 else Looks(rounds[0]) + AllLooks(rounds[1..])
  }

  function Skip(choices: seq<bool>, n: nat): seq<bool> {
    if n <= |choices| then choices[n..] else []
  }

  /** Of the next `n` looks only the last may find the listener closed, and does if `closed`. */
  ghost predicate ClosedAtLast(choices: seq<bool>, n: nat, closed: bool) {
    && (closed ==> n > 0)
    && forall i | 0 <= i < n :: ClosesAt(choices, i) <==> closed && i == n - 1
  }

  lemma {:induction false} MoreLooks(choices: seq<bool>, m: nat, n: nat, closed: bool)
    requires ClosedAtLast(choices, m, false) && ClosedAtLast(Skip(choices, m), n, closed)
    ensures ClosedAtLast(choices, m + n, closed) && Skip(Skip(choices, m), n) == Skip(choices, m + n)
  {
    forall i | 0 <= i < m + n ensures ClosesAt(choices, i) <==> closed && i == m + n - 1 {
      assert i >= m ==> (ClosesAt(choices, i) <==> ClosesAt(Skip(choices, m), i - m));
    }
  }

  lemma {:induction false} OneLook(choices: seq<bool>)
    ensures ClosedAtLast(choices, 1, Stop(choices)) && Later(choices) == Skip(choices, 1)
    ensures ClosedAtLast(choices, 0, false) && Skip(choices, 0) == choices
  {
  }

  lemma {:induction false} ListenLooks(cfg: Config, s: State, choices: seq<bool>)
    ensures var t := Listen(cfg, s, choices);
            ClosedAtLast(choices, |t.handled|, t.error.None?) && t.choices == Skip(choices, |t.handled|)
    decreases Fuel(s)
  {
    hide ReadEvent, Fuel, ClosedAtLast, Skip;
    ReadEventUsesFuel(cfg, s);
    OneLook(choices);
    var (r, s1) := ReadEvent(cfg, s);
    if r == Err(Timeout) || (r.Ok? && !IsNamed(r.value)) {
      ListenLooks(cfg, s1, choices);
    } else if r.Ok? && !Stop(choices) {
      ListenLooks(cfg, s1, Later(choices));
      var rest := Listen(cfg, s1, Later(choices));
      MoreLooks(choices, 1, |rest.handled|, rest.error.None?);
    }
  }

  lemma {:induction false} PassLooks(
    cfg: Config, events: seq<string>, plan: Backoff, s: State, backoff: real, choices: seq<bool>)
    requires Canonical(s)
    ensures var p := OnePass(cfg, events, plan, s, backoff, choices);
            ClosedAtLast(choices, Looks(p.round), p.closed) && p.choices == Skip(choices, Looks(p.round))
  {
    hide Start, Listen, RoundOk, ClosedAtLast, Skip, Stop, Later;
    AttemptLaw(cfg, events, s, choices);
    AttemptUsesChoices(cfg, events, s, choices);
    ListenLooks(cfg, Start(cfg, s, events).1, choices);
    OneLook(choices);
    var (round, c1) := Attempt(cfg, events, s, choices);
    var n := |round.handled|;
    assert ClosedAtLast(choices, n, round.error.None?) && c1 == Skip(choices, n);
    if round.error.Some? && IsDrop(round.error.value) {
      OneLook(c1);
      MoreLooks(choices, n, 1, Stop(c1));
      if !Stop(c1) {
        OneLook(Later(c1));
        MoreLooks(choices, n + 1, 1, Stop(Later(c1)));
      }
    }
  }

  /** The loop closes at the first point that finds the listener closed, and at no other. */
  lemma {:induction false} RunLooks(
    cfg: Config, events: seq<string>, plan: Backoff, s: State, backoff: real, choices: seq<bool>)
    requires Canonical(s)
    ensures var h := Forever(cfg, events, plan, s, backoff, choices);
            ClosedAtLast(choices, AllLooks(h.rounds), h.closed) && h.choices == Skip(choices, AllLooks(h.rounds))
    decreases |choices|
  {
    hide OnePass, RoundOk, Canonical, Start, Listen, ClosedAtLast, Skip, Looks;
    PassLaw(cfg, events, plan, s, backoff, choices);
    PassLooks(cfg, events, plan, s, backoff, choices);
    PassUsesChoices(cfg, events, plan, s, backoff, choices);
    var p := OnePass(cfg, events, plan, s, backoff, choices);
    if !p.closed && p.escaped.None? {
      RunLooks(cfg, events, plan, p.final, p.backoff, p.choices);
      var rest := Forever(cfg, events, plan, p.final, p.backoff, p.choices);
      assert ([p.round] + rest.rounds)[1..] == rest.rounds;
      MoreLooks(choices, Looks(p.round), AllLooks(rest.rounds), rest.closed);
    }
  }

  function Drop(dials: seq<Dial>, n: nat): seq<Dial> {
    if n <= |dials| then dials[n..] else []
  }

  lemma {:induction false} RoundIgnoresSleep(cfg: Config, events: seq<string>, round: Round, pause: Option<real>)
    ensures RoundOk(cfg, events, round.(slept := pause)) == RoundOk(cfg, events, round)
  {
  }

  lemma {:induction false} PassLaw(
    cfg: Config, events: seq<string>, plan: Backoff, s: State, backoff: real, choices: seq<bool>)
    requires Canonical(s)
    ensures var p := OnePass(cfg, events, plan, s, backoff, choices);
            && RoundOk(cfg, events, p.round) && p.round.entry == s
            && Canonical(p.final) && p.final.net.dials == Drop(s.net.dials, 1)
            && (p.escaped.Some? ==> !IsDrop(p.escaped.value) && !p.round.started && !p.closed)
  {
    hide Attempt, RoundOk;
    AttemptLaw(cfg, events, s, choices);
    RoundIgnoresSleep(cfg, events, Attempt(cfg, events, s, choices).0,
                      OnePass(cfg, events, plan, s, backoff, choices).round.slept);
  }

  /** Whole-run listener safety, from a closed client: the i-th pass finds the canonical
      closed state and takes the i-th connection attempt; every pass meets `RoundOk`;
      the client ends closed; connection and OS errors never escape, only a failed start
      lets anything escape; and the loop ends normally exactly if it is closed, at the first
      point at which a close shows. */
  lemma {:induction false} ListenerIsSafe(
    cfg: Config, events: seq<string>, plan: Backoff, s: State, backoff: real, choices: seq<bool>)
    requires Canonical(s)
    ensures var h := Forever(cfg, events, plan, s, backoff, choices);
            && (forall i | 0 <= i < |h.rounds| ::
                  RoundOk(cfg, events, h.rounds[i]) && h.rounds[i].entry.net.dials == Drop(s.net.dials, i))
            && Canonical(h.final)
            && (h.escaped.Some? ==> !IsDrop(h.escaped.value) && !h.rounds[|h.rounds| - 1].started)
            && (h.escaped.None? <==> h.closed)
            && ClosedAtLast(choices, AllLooks(h.rounds), h.closed)
    decreases |choices|
  {
    hide OnePass, RoundOk, Canonical, Start, Listen, ClosedAtLast, AllLooks;
    RunLooks(cfg, events, plan, s, backoff, choices);
    PassLaw(cfg, events, plan, s, backoff, choices);
    PassUsesChoices(cfg, events, plan, s, backoff, choices);
    var p := OnePass(cfg, events, plan, s, backoff, choices);
    if !p.closed && p.escaped.None? {
      ListenerIsSafe(cfg, events, plan, p.final, p.backoff, p.choices);
      var rest := Forever(cfg, events, plan, p.final, p.backoff, p.choices);
      hide Forever;
      MoreRounds(cfg, events, s.net.dials, p.round, rest.rounds);
    }
  }

  lemma {:induction false} MoreRounds(
    cfg: Config, events: seq<string>, dials: seq<Dial>, first: Round, rest: seq<Round>)
    requires RoundOk(cfg, events, first) && first.entry.net.dials == dials
    requires forall i | 0 <= i < |rest| ::
               RoundOk(cfg, events, rest[i]) && rest[i].entry.net.dials == Drop(Drop(dials, 1), i)
    ensures var rounds := [first] + rest;
            forall i | 0 <= i < |rounds| ::
              RoundOk(cfg, events, rounds[i]) && rounds[i].entry.net.dials == Drop(dials, i)
  {
    hide RoundOk;
    var rounds := [first] + rest;
    forall i | 0 <= i < |rounds|
      ensures RoundOk(cfg, events, rounds[i]) && rounds[i].entry.net.dials == Drop(dials, i)
    {
      if i > 0 {
        assert rounds[i] == rest[i - 1];
      }
    }
  }

  lemma {:induction false} AttemptUsesChoices(cfg: Config, events: seq<string>, s: State, choices: seq<bool>)
    ensures |Attempt(cfg, events, s, choices).1| <= |choices|
    ensures Attempt(cfg, events, s, choices).0.slept.None?
  {
    hide Start, Listen;
    ListenUsesChoices(cfg, Start(cfg, s, events).1, choices);
  }

  // ---- Backoff ----

  /** base * 2^k */
  function Doubled(base: real, k: nat): real {
    if k == 0 then base else 2.0 * Doubled(base, k - 1)
  }

  /** Failures in a row before pass `i`, counted from the last successful start, or with
      `earlier` failures before the first pass. */
  function Streak(rounds: seq<Round>, i: nat, earlier: nat): nat
    requires i < |rounds|
  {
    if rounds[i].started then 0
    else if i == 0 then earlier
    else 1 + Streak(rounds, i - 1, earlier)
  }

  /** The delay after `k` earlier failures: doubled each time, capped from the first doubling. */
  function Delay(plan: Backoff, k: nat): real {
    if k == 0 then plan.base else RMin(Doubled(plan.base, k), plan.max)
  }

  lemma {:induction false} DelayDoubles(plan: Backoff, k: nat)
    requires plan.base >= 0.0 && plan.max >= 0.0
    ensures RMin(Delay(plan, k) * 2.0, plan.max) == Delay(plan, k + 1)
  {
    DoubledNonNegative(plan.base, k);
  }

  lemma {:induction false} DoubledNonNegative(base: real, k: nat)
    requires base >= 0.0
    ensures Doubled(base, k) >= 0.0
  {
    if k > 0 {
      DoubledNonNegative(base, k - 1);
    }
  }

  lemma {:induction false} StreakShift(first: Round, rest: seq<Round>, i: nat, earlier: nat)
    requires 0 < i <= |rest|
    ensures var rounds := [first] + rest;
            Streak(rounds, i, earlier) == Streak(rest, i - 1, 1 + Streak(rounds, 0, earlier))
  {
    if i > 1 {
      StreakShift(first, rest, i - 1, earlier);
    }
  }

  lemma {:induction false} BackoffAt(
    cfg: Config, events: seq<string>, plan: Backoff, s: State, earlier: nat, choices: seq<bool>, i: nat)
    requires plan.base >= 0.0 && plan.max >= 0.0
    ensures var rounds := Forever(cfg, events, plan, s, Delay(plan, earlier), choices).rounds;
            i < |rounds| && rounds[i].slept.Some? ==>
              rounds[i].slept.value == Delay(plan, Streak(rounds, i, earlier))
    decreases |choices|
  {
    hide Attempt, Delay, OnePass, Streak;
    var backoff := Delay(plan, earlier);
    var rounds := Forever(cfg, events, plan, s, backoff, choices).rounds;
    var p := OnePass(cfg, events, plan, s, backoff, choices);
    PauseIsDelay(cfg, events, plan, s, earlier, choices);
    FirstStreak(rounds, earlier);
    PassUsesChoices(cfg, events, plan, s, backoff, choices);
    if i > 0 && i < |rounds| {
      var k := Streak(rounds, 0, earlier);
      assert p.backoff == Delay(plan, 1 + k);
      var rest := Forever(cfg, events, plan, p.final, p.backoff, p.choices).rounds;
      assert rounds == [p.round] + rest;
      BackoffAt(cfg, events, plan, p.final, 1 + k, p.choices, i - 1);
      assert Forever(cfg, events, plan, p.final, Delay(plan, 1 + k), p.choices).rounds == rest;
      StreakShift(p.round, rest, i, earlier);
    }
  }

  lemma {:induction false} FirstStreak(rounds: seq<Round>, earlier: nat)
    requires rounds != []
    ensures Streak(rounds, 0, earlier) == if rounds[0].started then 0 else earlier
  {
  }

  lemma {:induction false} PassUsesChoices(
    cfg: Config, events: seq<string>, plan: Backoff, s: State, backoff: real, choices: seq<bool>)
    ensures var p := OnePass(cfg, events, plan, s, backoff, choices);
            !p.closed && p.escaped.None? ==> |p.choices| < |choices|
  {
    hide Attempt;
    AttemptUsesChoices(cfg, events, s, choices);
  }

  lemma {:induction false} PauseIsDelay(
    cfg: Config, events: seq<string>, plan: Backoff, s: State, earlier: nat, choices: seq<bool>)
    requires plan.base >= 0.0 && plan.max >= 0.0
    ensures var p := OnePass(cfg, events, plan, s, Delay(plan, earlier), choices);
            var k := if p.round.started then 0 else earlier;
            && (p.round.slept.Some? ==> p.round.slept.value == Delay(plan, k))
            && (!p.closed && p.escaped.None? ==> p.backoff == Delay(plan, 1 + k))
  {
    hide Attempt;
    AttemptUsesChoices(cfg, events, s, choices);
    DelayDoubles(plan, earlier);
    DelayDoubles(plan, 0);
  }

  lemma {:induction false} DelayIsMin(plan: Backoff, k: nat)
    requires 0.0 < plan.base <= plan.max
    ensures Delay(plan, k) == RMin(Doubled(plan.base, k), plan.max)
  {
  }

  lemma {:induction false} NoDelay(plan: Backoff)
    ensures Delay(plan, 0) == plan.base
  {
  }

  /** Backoff law: after every caught failure, whatever the pattern of failures and
      reconnects, the sleep is exactly min(base * 2^k, max), k being the failures since
      the last successful start or since the loop began. */
  lemma {:induction false} BackoffLaw(
    cfg: Config, events: seq<string>, plan: Backoff, s: State, choices: seq<bool>)
    requires 0.0 < plan.base <= plan.max
    ensures var rounds := Forever(cfg, events, plan, s, plan.base, choices).rounds;
            forall i | 0 <= i < |rounds| && rounds[i].slept.Some? ::
              && rounds[i].slept.value == RMin(Doubled(plan.base, Streak(rounds, i, 0)), plan.max)
              && rounds[i].slept.value <= plan.max
  {
    hide Forever, Doubled, Streak, Delay;
    var rounds := Forever(cfg, events, plan, s, plan.base, choices).rounds;
    NoDelay(plan);
    assert Forever(cfg, events, plan, s, Delay(plan, 0), choices).rounds == rounds;
    forall i | 0 <= i < |rounds| && rounds[i].slept.Some?
      ensures rounds[i].slept.value == RMin(Doubled(plan.base, Streak(rounds, i, 0)), plan.max)
    {
      BackoffAt(cfg, events, plan, s, 0, choices, i);
      DelayIsMin(plan, Streak(rounds, i, 0));
    }
  }
}
