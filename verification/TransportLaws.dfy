/** What holds after every operation and over every run. */
module TransportLaws {
  import opened Utf8
  import opened HeaderBlock
  import opened Framing
  import opened Transport

  // ---- One frame ----

  /** `got` is what the peer delivered between two moments of one connection. */
  predicate Delivered(before: Net, got: seq<byte>, after: Net) {
    after.received == before.received + got
    && after.sent == before.sent && after.dials == before.dials && after.sends == before.sends
  }

  /** The outcome `(r, s1)` is the one-shot verdict on the buffer followed by `got`. */
  ghost predicate DecidedBy(cfg: Config, s: State, got: seq<byte>, r: Result<Headers>, s1: State) {
    var v := DecodeOne(cfg, s.buffer + got);
    match r
    case Ok(f) =>
      v.Good? && v.frame == f && v.used <= |s.buffer + got|
      && s1 == s.(buffer := (s.buffer + got)[v.used..], net := s1.net)
    case Err(ProtocolError) => v.Bad? && s1 == Close(s.(net := s1.net))
    case Err(Timeout) => v.Short? && s1 == s.(buffer := s.buffer + got, net := s1.net)
    case Err(ConnectionError(_)) => v.Short? && s1 == if s.sock then Close(s.(net := s1.net)) else s
    case _ => false
  }

  lemma {:induction false} DecidedEarlier(
    cfg: Config, s: State, chunk: seq<byte>, net: Net, got: seq<byte>, r: Result<Headers>, s1: State)
    requires s.sock && Delivered(s.net, chunk, net)
    requires Delivered(net, got, s1.net)
    requires DecidedBy(cfg, s.(buffer := s.buffer + chunk, net := net), got, r, s1)
    ensures Delivered(s.net, chunk + got, s1.net) && DecidedBy(cfg, s, chunk + got, r, s1)
  {
    hide DecodeOne;
    assert s.buffer + (chunk + got) == s.buffer + chunk + got;
    assert s.net.received + (chunk + got) == s.net.received + chunk + got;
  }

  /** Whatever the chunks were, a frame read ends as the one-shot decoder says. */
  lemma {:induction false} PumpMeetsDecoder(cfg: Config, s: State, deadline: real) returns (got: seq<byte>)
    ensures var (r, s1) := Pump(cfg, s, deadline);
            Delivered(s.net, got, s1.net) && DecidedBy(cfg, s, got, r, s1)
    decreases Max(0, FrameCap(cfg) - |s.buffer|)
  {
    hide DecodeOne;
    VerdictBounds(cfg, s.buffer);
    got := [];
    assert s.buffer + got == s.buffer && s.net.received + got == s.net.received;
    if DecodeOne(cfg, s.buffer).Short? {
      var (r, s1) := Recv(cfg, s, deadline);
      if r.Ok? {
        var rest := PumpMeetsDecoder(cfg, s1.(buffer := s.buffer + r.value), deadline);
        var (r2, s2) := Pump(cfg, s, deadline);
        DecidedEarlier(cfg, s, r.value, s1.net, rest, r2, s2);
        got := r.value + rest;
      }
    }
  }

  function RMax(a: real, b: real): real {
    if a >= b then a else b
  }

  /** Trickled bytes cannot extend a deadline. */
  lemma {:induction false} PumpKeepsDeadline(cfg: Config, s: State, deadline: real)
    ensures var s1 := Pump(cfg, s, deadline).1;
            s.net.now <= s1.net.now <= RMax(s.net.now, deadline)
    decreases Max(0, FrameCap(cfg) - |s.buffer|)
  {
    hide DecodeOne;
    VerdictBounds(cfg, s.buffer);
    if DecodeOne(cfg, s.buffer).Short? {
      var (r, s1) := Recv(cfg, s, deadline);
      if r.Ok? {
        PumpKeepsDeadline(cfg, s1.(buffer := s.buffer + r.value), deadline);
      }
    }
  }

  /** No more receives, those that fail included, than bytes missing up to the caps,
      against any peer. */
  lemma {:induction false} PumpBoundsReceives(cfg: Config, s: State, deadline: real)
    ensures var s1 := Pump(cfg, s, deadline).1;
            s1.net.calls - s.net.calls <= Max(0, FrameCap(cfg) - |s.buffer|)
    decreases Max(0, FrameCap(cfg) - |s.buffer|)
  {
    hide DecodeOne;
    VerdictBounds(cfg, s.buffer);
    if DecodeOne(cfg, s.buffer).Short? {
      var (r, s1) := Recv(cfg, s, deadline);
      if r.Ok? {
        PumpBoundsReceives(cfg, s1.(buffer := s.buffer + r.value), deadline);
      }
    }
  }

  /** After a receive the leftover is a proper part of one chunk. */
  lemma {:induction false} PumpLeavesPartOfChunk(cfg: Config, s: State, deadline: real, before: seq<byte>, chunk: Chunk)
    requires s.buffer == before + chunk && DecodeOne(cfg, before).Short?
    ensures var (r, s1) := Pump(cfg, s, deadline);
            r.Ok? ==> |s1.buffer| <= 4095
    decreases Max(0, FrameCap(cfg) - |s.buffer|)
  {
    hide DecodeOne;
    VerdictBounds(cfg, s.buffer);
    var v := DecodeOne(cfg, s.buffer);
    if v.Good? && v.used <= |before| {
      VerdictNeedsOnlyItsFrame(cfg, s.buffer);
      assert s.buffer[..v.used] + before[v.used..] == before;
      VerdictStays(cfg, s.buffer[..v.used], before[v.used..]);
    } else if v.Short? {
      var (r, s1) := Recv(cfg, s, deadline);
      if r.Ok? {
        PumpLeavesPartOfChunk(cfg, s1.(buffer := s.buffer + r.value), deadline, s.buffer, r.value);
      }
    }
  }

  lemma {:induction false} PumpLeavesLittle(cfg: Config, s: State, deadline: real)
    requires |s.buffer| <= 4095
    ensures var (r, s1) := Pump(cfg, s, deadline);
            r.Ok? ==> |s1.buffer| <= 4095
  {
    hide DecodeOne;
    VerdictBounds(cfg, s.buffer);
    if DecodeOne(cfg, s.buffer).Short? {
      var (r, s1) := Recv(cfg, s, deadline);
      if r.Ok? {
        PumpLeavesPartOfChunk(cfg, s1.(buffer := s.buffer + r.value), deadline, s.buffer, r.value);
      }
    }
  }

  // ---- What holds between public calls ----

  function Frames(log: seq<Taken>): seq<Headers> {
    seq(|log|, i requires 0 <= i < |log| => log[i].frame)
  }

  /** The frames put to one use, in wire order. */
  function Used(log: seq<Taken>, use: Use): seq<Headers> {
    if log == [] then []
    else
      var last := log[|log| - 1];
      Used(log[..|log| - 1], use) + if last.use == use then [last.frame] else []
  }

  function Waiting(pending: seq<Held>): seq<Headers> {
    seq(|pending|, i requires 0 <= i < |pending| => pending[i].frame)
  }

  function Total(pending: seq<Held>): int {
    if pending == [] then 0 else Total(pending[..|pending| - 1]) + pending[|pending| - 1].size
  }

  ghost predicate QueueOk(cfg: Config, s: State) {
    && |s.pending| <= MAX_PENDING
    && (forall i | 0 <= i < |s.pending| ::
          IsEvent(s.pending[i].frame) && s.pending[i].size == Size(s.pending[i].frame))
    && s.pendingBytes == Total(s.pending) <= cfg.maxFrame
  }

  /** Frame boundary: the bytes received are whole taken frames and then the buffer. */
  ghost predicate Linked(cfg: Config, s: State) {
    && s.sock && s.connected
    && s.net.sockTimeout == cfg.timeout
    && |s.buffer| <= 4095
    && Splits(cfg, s.net.received, Frames(s.log), s.buffer)
  }

  /** The stream frames not yet handed out are exactly the queue, in wire order. */
  predicate QueueIsTail(s: State) {
    var stream := Used(s.log, Stream);
    |s.pending| <= |stream| && Waiting(s.pending) == stream[|stream| - |s.pending|..]
  }

  /** The stream frames `read_event` has handed out so far. */
  function Handed(s: State): seq<Headers> {
    var stream := Used(s.log, Stream);
    stream[..Max(0, |stream| - |s.pending|)]
  }

  ghost predicate Live(cfg: Config, s: State) {
    Linked(cfg, s) && QueueOk(cfg, s) && QueueIsTail(s)
  }

  /** Connected, with no command outstanding. */
  ghost predicate Open(cfg: Config, s: State) {
    Live(cfg, s) && |Used(s.log, Answer)| == |s.net.sent|
  }

  /** The closed state every new connection starts from. */
  predicate Canonical(s: State) {
    && !s.sock && !s.connected && !s.authenticated
    && s.buffer == [] && s.pending == [] && s.pendingBytes == 0
  }

  ghost predicate Inv(cfg: Config, s: State) {
    Canonical(s) || Open(cfg, s)
  }

  lemma {:induction false} UsedNext(log: seq<Taken>, t: Taken, use: Use)
    ensures Used(log + [t], use) == Used(log, use) + if t.use == use then [t.frame] else []
  {
    assert (log + [t])[..|log|] == log;
  }

  lemma {:induction false} FramesNext(log: seq<Taken>, t: Taken)
    ensures Frames(log + [t]) == Frames(log) + [t.frame]
  {
  }

  /** One frame read on a live connection: a frame, an idle tick that changes nothing,
      or a closed connection whose stream the decoder ends in the same way. */
  ghost predicate FrameOutcome(cfg: Config, s: State, r: Result<Headers>, s1: State) {
    && s1.net.sent == s.net.sent
    && match r
       case Ok(f) =>
         && s1 == s.(buffer := s1.buffer, net := s1.net)
         && s1.net.sockTimeout == cfg.timeout
         && |s1.buffer| <= 4095
         && Splits(cfg, s1.net.received, Frames(s.log) + [f], s1.buffer)
       case Err(Timeout) =>
         && s.buffer == [] && s1 == s.(net := s1.net)
         && s1.net.received == s.net.received
         && s1.net.sockTimeout == cfg.timeout
       case Err(e) =>
         && s1 == Close(s.(net := s1.net))
         && DecodeAll(cfg, s1.net.received).frames == Frames(s.log)
         && (if e.ProtocolError? then DecodeAll(cfg, s1.net.received).end.Violation?
             else e.ConnectionError? && DecodeAll(cfg, s1.net.received).end.Cut?)
  }

  lemma {:induction false} ReadFrameLaw(cfg: Config, s: State, deadline: real)
    requires Linked(cfg, s)
    ensures var (r, s1) := ReadFrame(cfg, s, deadline);
            FrameOutcome(cfg, s, r, s1)
  {
    hide DecodeOne, Pump, Splits;
    var (r, s1) := Pump(cfg, s, deadline);
    var got := PumpMeetsDecoder(cfg, s, deadline);
    PumpLeavesLittle(cfg, s, deadline);
    var total := s.buffer + got;
    SplitsMore(cfg, s.net.received, Frames(s.log), s.buffer, got);
    if r.Ok? {
      SplitsNext(cfg, s1.net.received, Frames(s.log), total);
    } else {
      SplitsDecode(cfg, s1.net.received, Frames(s.log), total);
      assert Frames(s.log) + [] == Frames(s.log);
    }
  }
}
