/** Whole runs of one client: every interleaving of public calls against every peer. */
module Runs {
  import opened Text
  import opened HeaderBlock
  import opened Framing
  import opened Transport
  import opened TransportLaws
  import opened OperationLaws
  import Commands

  datatype Op =
    | DoConnect
    | DoAuthenticate
    | DoSubscribe(events: seq<string>)
    | DoApi(command: string, allowUnsafe: bool)
    | DoReadEvent
    | DoClose

  /** The line a call sends, if it sends one. */
  function LineOf(cfg: Config, op: Op): Option<string> {
    match op
    case DoAuthenticate => Some("auth " + cfg.password)
    case DoSubscribe(events) => Some(Commands.SubscribeLine(events))
    case DoApi(command, allowUnsafe) =>
      if allowUnsafe || Commands.IsReadOnly(command) then Some("api " + command) else None
    case _ => None
  }

  ghost function After(cfg: Config, s: State, op: Op): State {
    match op
    case DoConnect => Connect(cfg, s).1
    case DoAuthenticate => Authenticate(cfg, s).1
    case DoSubscribe(events) => Subscribe(cfg, s, events).1
    case DoApi(command, allowUnsafe) => Api(cfg, s, command, allowUnsafe).1
    case DoReadEvent => ReadEvent(cfg, s).1
    case DoClose => Close(s)
  }

  ghost function Run(cfg: Config, s: State, ops: seq<Op>): State
    decreases |ops|
  {
    if ops == [] then s else Run(cfg, After(cfg, s, ops[0]), ops[1..])
  }

  /** What the calls of `read_event` returned, in order. */
  ghost function Events(cfg: Config, s: State, ops: seq<Op>): seq<Headers>
    decreases |ops|
  {
    if ops == [] then []
    else
      (if ops[0].DoReadEvent? && ReadEvent(cfg, s).0.Ok? then [ReadEvent(cfg, s).0.value] else [])
      + Events(cfg, After(cfg, s, ops[0]), ops[1..])
  }

  /** What the commands returned, in order. */
  ghost function Answers(cfg: Config, s: State, ops: seq<Op>): seq<Headers>
    decreases |ops|
  {
    if ops == [] then []
    else
      var line := LineOf(cfg, ops[0]);
      (if line.Some? && Command(cfg, s, line.value).0.Ok? then [Command(cfg, s, line.value).0.value] else [])
      + Answers(cfg, After(cfg, s, ops[0]), ops[1..])
  }

  /** Connect is called only in the closed state. */
  ghost predicate WellUsed(cfg: Config, s: State, ops: seq<Op>)
    decreases |ops|
  {
    ops == [] || ((ops[0].DoConnect? ==> Canonical(s)) && WellUsed(cfg, After(cfg, s, ops[0]), ops[1..]))
  }

  predicate OneConnection(ops: seq<Op>) {
    forall i | 0 <= i < |ops| :: !ops[i].DoConnect?
  }

  // ---- The state invariant ----

  lemma {:induction false} CanonicalStays(cfg: Config, s: State, op: Op)
    requires Canonical(s) && !op.DoConnect?
    ensures Canonical(After(cfg, s, op))
    ensures LineOf(cfg, op).Some? ==> Command(cfg, s, LineOf(cfg, op).value).0.Err?
    ensures ReadEvent(cfg, s).0.Err?
  {
    hide Await, DecodeOne;
    assert DecodeOne(cfg, []).Short? by {
      NothingIsShort(cfg);
    }
  }

  /** Each public call keeps the invariant. */
  lemma {:induction false} StepKeepsInvariant(cfg: Config, s: State, op: Op)
    requires Inv(cfg, s) && (op.DoConnect? ==> Canonical(s))
    ensures Inv(cfg, After(cfg, s, op))
  {
    hide Command, ReadEvent, Connect, Splits, QueueOk, QueueIsTail;
    var line := LineOf(cfg, op);
    if line.Some? {
      CommandLaw(cfg, s, line.value);
      LoginChangesNoQueue(cfg, Command(cfg, s, line.value).1);
    }
    match op
    case DoConnect => ConnectLaw(cfg, s);
    case DoAuthenticate =>
    case DoSubscribe(events) => assert line == Some(Commands.SubscribeLine(events));
    case DoApi(_, _) =>
    case DoReadEvent =>
      if Canonical(s) { CanonicalStays(cfg, s, op); } else { ReadEventLaw(cfg, s); }
    case DoClose =>
  }

  /** Over all runs: connected iff a socket is held; authenticated implies connected; a
      closed client holds nothing; the queue is bounded in count and bytes and holds
      events only; the bytes received are whole taken frames, then the buffer. Told by the
      invariant and, for the fields a caller can see, once more in so many words. */
  lemma {:induction false} RunKeepsInvariant(cfg: Config, s: State, ops: seq<Op>)
    requires Inv(cfg, s) && WellUsed(cfg, s, ops)
    ensures Inv(cfg, Run(cfg, s, ops)) && Visible(cfg, Run(cfg, s, ops))
    decreases |ops|
  {
    hide Inv, After, Visible;
    InvariantIsVisible(cfg, s);
    if ops != [] {
      StepKeepsInvariant(cfg, s, ops[0]);
      RunKeepsInvariant(cfg, After(cfg, s, ops[0]), ops[1..]);
    }
  }

  /** The invariant of the fields, spelled out. */
  ghost predicate Visible(cfg: Config, s: State) {
    && (s.connected <==> s.sock) && (s.authenticated ==> s.connected)
    && (!s.sock ==> s.buffer == [] && s.pending == [] && s.pendingBytes == 0)
    && |s.pending| <= 64 && s.pendingBytes <= cfg.maxFrame
    && (forall i | 0 <= i < |s.pending| ::
          "Content-Type" in s.pending[i].frame && s.pending[i].frame["Content-Type"] == "text/event-plain")
  }

  lemma {:induction false} InvariantIsVisible(cfg: Config, s: State)
    requires Inv(cfg, s)
    ensures Visible(cfg, s)
  {
    forall i | 0 <= i < |s.pending|
      ensures "Content-Type" in s.pending[i].frame && s.pending[i].frame["Content-Type"] == "text/event-plain"
    {
      TypesByName(s.pending[i].frame);
    }
  }

  // ---- Conservation and order ----

  /** `events` are the unwrapped forms of `outer`, one for one; only event envelopes differ
      from what is inside them. */
  predicate Unwrapped(cfg: Config, outer: seq<Headers>, events: seq<Headers>) {
    |outer| == |events|
    && forall i | 0 <= i < |outer| ::
         Unwrap(cfg, outer[i]) == Some(events[i])
         && (events[i] == outer[i]
             || ("Content-Type" in outer[i] && outer[i]["Content-Type"] == "text/event-plain"))
  }

  /** The frames handed out by a run that leaves the connection open. */
  ghost predicate Conserved(cfg: Config, s: State, s1: State, events: seq<Headers>, answers: seq<Headers>) {
    && Handed(s) <= Handed(s1)
    && Unwrapped(cfg, Handed(s1)[|Handed(s)|..], events)
    && Used(s1.log, Answer) == Used(s.log, Answer) + answers
  }

  lemma {:induction false} ConservedThen(
    cfg: Config, s: State, s1: State, s2: State, e1: seq<Headers>, e2: seq<Headers>, a1: seq<Headers>, a2: seq<Headers>)
    requires Conserved(cfg, s, s1, e1, a1) && Conserved(cfg, s1, s2, e2, a2)
    ensures Conserved(cfg, s, s2, e1 + e2, a1 + a2)
  {
    hide Handed, Used, Unwrap;
    var h, h1, h2 := Handed(s), Handed(s1), Handed(s2);
    assert h2[|h|..] == h1[|h|..] + h2[|h1|..];
    assert Used(s2.log, Answer) == Used(s.log, Answer) + (a1 + a2);
  }

  lemma {:induction false} StepConserves(cfg: Config, s: State, op: Op)
    requires Open(cfg, s) && !op.DoConnect? && After(cfg, s, op).sock
    ensures var s1 := After(cfg, s, op);
            Open(cfg, s1) && Conserved(cfg, s, s1, Events(cfg, s, [op]), Answers(cfg, s, [op]))
  {
    hide Command, ReadEvent, Splits, QueueOk, QueueIsTail, Handed, Used, Unwrap, Live;
    StepKeepsInvariant(cfg, s, op);
    var s1 := After(cfg, s, op);
    var line := LineOf(cfg, op);
    assert Handed(s)[|Handed(s)|..] == [];
    assert Used(s.log, Answer) + [] == Used(s.log, Answer);
    if line.Some? {
      CommandLaw(cfg, s, line.value);
      LoginChangesNoQueue(cfg, Command(cfg, s, line.value).1);
    } else if op.DoReadEvent? {
      ReadEventLaw(cfg, s);
      if ReadEvent(cfg, s).0.Err? {
        QueueUnchanged(cfg, s, s1);
      }
    }
  }

  lemma {:induction false} ClosedStaysClosed(cfg: Config, s: State, ops: seq<Op>)
    requires Canonical(s) && OneConnection(ops)
    ensures Canonical(Run(cfg, s, ops)) && Events(cfg, s, ops) == [] && Answers(cfg, s, ops) == []
    decreases |ops|
  {
    hide After, Command, ReadEvent;
    if ops != [] {
      CanonicalStays(cfg, s, ops[0]);
      ClosedStaysClosed(cfg, After(cfg, s, ops[0]), ops[1..]);
    }
  }

  lemma {:induction false} RunSplits(cfg: Config, s: State, ops: seq<Op>)
    requires ops != []
    ensures var s1 := After(cfg, s, ops[0]);
            && Run(cfg, s, ops) == Run(cfg, s1, ops[1..])
            && Events(cfg, s, ops) == Events(cfg, s, [ops[0]]) + Events(cfg, s1, ops[1..])
            && Answers(cfg, s, ops) == Answers(cfg, s, [ops[0]]) + Answers(cfg, s1, ops[1..])
  {
    hide After, Command, ReadEvent;
  }

  lemma {:induction false} RunConserves(cfg: Config, s: State, ops: seq<Op>)
    requires Open(cfg, s) && OneConnection(ops) && Run(cfg, s, ops).sock
    ensures var s1 := Run(cfg, s, ops);
            Open(cfg, s1) && Conserved(cfg, s, s1, Events(cfg, s, ops), Answers(cfg, s, ops))
    decreases |ops|
  {
    hide After, Command, ReadEvent, Open, Conserved;
    if ops == [] {
      NothingMoves(cfg, s);
    } else {
      var s1 := After(cfg, s, ops[0]);
      RunSplits(cfg, s, ops);
      StepKeeps(cfg, s, ops[0]);
      if !s1.sock {
        ClosedStaysClosed(cfg, s1, ops[1..]);
      } else {
        StepConserves(cfg, s, ops[0]);
        RunConserves(cfg, s1, ops[1..]);
        ConservedThen(cfg, s, s1, Run(cfg, s, ops), Events(cfg, s, [ops[0]]), Events(cfg, s1, ops[1..]),
                      Answers(cfg, s, [ops[0]]), Answers(cfg, s1, ops[1..]));
      }
    }
  }

  lemma {:induction false} NothingMoves(cfg: Config, s: State)
    ensures Conserved(cfg, s, s, [], [])
  {
    assert Handed(s)[|Handed(s)|..] == [];
  }

  lemma {:induction false} StepKeeps(cfg: Config, s: State, op: Op)
    requires Open(cfg, s) && !op.DoConnect?
    ensures var s1 := After(cfg, s, op);
            s1.sock || Canonical(s1)
  {
    StepKeepsInvariant(cfg, s, op);
  }

  /** Event conservation: on a connection still open, the stream frames taken from the
      wire are those already delivered and then the queue, in wire order; everything
      else taken is the greeting and the answers, one per command sent; the one-shot
      decoding of all bytes received is the frames taken and then those still in the
      buffer. Nothing is lost, duplicated or overtaken. */
  lemma {:induction false} EventsAreConserved(cfg: Config, s: State, ops: seq<Op>)
    requires Canonical(s) && Connect(cfg, s).0.Ok? && OneConnection(ops)
    ensures var s0 := Connect(cfg, s).1;
            var s1 := Run(cfg, s0, ops);
            var stream := Used(s1.log, Stream);
            s1.sock ==>
              && |s1.pending| <= |stream|
              && Unwrapped(cfg, stream[..|stream| - |s1.pending|], Events(cfg, s0, ops))
              && Waiting(s1.pending) == stream[|stream| - |s1.pending|..]
              && Used(s1.log, Answer) == Answers(cfg, s0, ops)
              && |Answers(cfg, s0, ops)| == |s1.net.sent|
              && Splits(cfg, s1.net.received, Frames(s1.log), s1.buffer)
              && DecodeAll(cfg, s1.net.received).frames == Frames(s1.log) + DecodeAll(cfg, s1.buffer).frames
  {
    hide Connect, Run, Events, Answers, Conserved, DecodeAll, Splits, QueueOk, QueueIsTail, Unwrapped, Used, Waiting;
    ConnectLaw(cfg, s);
    var s0 := Connect(cfg, s).1;
    var s1 := Run(cfg, s0, ops);
    if s1.sock {
      RunConserves(cfg, s0, ops);
      SplitsDecode(cfg, s1.net.received, Frames(s1.log), s1.buffer);
      ConservedFromStart(cfg, s0, s1, Events(cfg, s0, ops), Answers(cfg, s0, ops));
    }
  }

  /** From a fresh connection everything handed out was handed out by the run. */
  lemma {:induction false} ConservedFromStart(
    cfg: Config, s: State, s1: State, events: seq<Headers>, answers: seq<Headers>)
    requires Conserved(cfg, s, s1, events, answers) && QueueIsTail(s1)
    requires Used(s.log, Stream) == [] && Used(s.log, Answer) == []
    ensures var stream := Used(s1.log, Stream);
            && |s1.pending| <= |stream|
            && Unwrapped(cfg, stream[..|stream| - |s1.pending|], events)
            && Waiting(s1.pending) == stream[|stream| - |s1.pending|..]
            && Used(s1.log, Answer) == answers
  {
    hide Used, Unwrap, Waiting, Unwrapped;
    assert Handed(s) == [] && Handed(s1)[0..] == Handed(s1);
    assert [] + answers == answers;
  }
}
