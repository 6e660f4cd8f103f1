/** From the peer's printer to the handler: which events `run_forever` hands over. */
module Handling {
  import opened Text
  import opened HeaderBlock
  import opened Framing
  import opened Printing
  import opened Transport
  import opened TransportLaws
  import opened Scripts
  import opened Fragments
  import opened Reconnect
  import opened ReconnectLaws
  import opened EndToEnd
  import opened Dialogue
  import Percent

  /** What the handler is to see of the events a peer sends: those that carry an event name. */
  function Named(events: seq<Event>): seq<Headers> {
    if events == [] then []
    else
      var e := events[0];
      (if "Event-Name" in ToMap(e.fields) then [WithBody(ToMap(e.fields), e.payload)] else []) + Named(events[1..])
  }

  // ---- One connection ----

  ghost predicate AllUnwrap(cfg: Config, frames: seq<Headers>) {
    forall i | 0 <= i < |frames| :: Unwrap(cfg, frames[i]).Some?
  }

  lemma {:induction false} ReadFrameKeeps(cfg: Config, s: State)
    requires s.sock
    ensures var (r, s1) := ReadFrame(cfg, s, s.net.now + cfg.timeout);
            r.Ok? || r == Err(Timeout) ==> s1.sock && s1.pending == s.pending
  {
    ReadKeepsQueue(cfg, s, s.net.now + cfg.timeout);
    hide ReadFrame, NeverCut, EndOf;
    ReadOnScript(cfg, s);
  }

  lemma {:induction false} ReadKeepsQueue(cfg: Config, s: State, deadline: real)
    ensures var (r, s1) := ReadFrame(cfg, s, deadline);
            r.Ok? || r == Err(Timeout) ==> s1.pending == s.pending
  {
    PumpKeepsQueue(cfg, s, deadline);
    hide Pump;
  }

  /** A handler that lets everything pass sees the named events of all frames read. */
  lemma {:induction false} ListenReads(cfg: Config, s: State, choices: seq<bool>)
    requires s.sock && s.pending == []
    ensures var t, read := Listen(cfg, s, choices), ReadAll(cfg, s);
            && t.handled <= EventsIn(cfg, read.frames)
            && (AllUnwrap(cfg, read.frames) && t.error.Some? ==>
                  t.handled == EventsIn(cfg, read.frames) && t.error == Some(read.error))
    decreases Fuel(s)
  {
    hide ReadFrame, Unwrap, Fuel, IsNamed;
    ReadEventUsesFuel(cfg, s);
    ReadFrameKeeps(cfg, s);
    var (r, s1) := ReadFrame(cfg, s, s.net.now + cfg.timeout);
    if r == Err(Timeout) {
      ListenReads(cfg, s1, choices);
    } else if r.Ok? {
      var s2 := Took(s1, r.value, Stream);
      var read, rest := ReadAll(cfg, s), ReadAll(cfg, s1);
      ReadingIsOfScript(cfg, s1, s2);
      assert read.frames == [r.value] + rest.frames && read.frames[1..] == rest.frames;
      var event := Unwrap(cfg, r.value);
      if event.Some? {
        assert ReadEvent(cfg, s) == (Ok(event.value), s2);
        if AllUnwrap(cfg, read.frames) {
          assert forall i | 0 <= i < |rest.frames| :: rest.frames[i] == read.frames[i + 1];
        }
        if !IsNamed(event.value) {
          ListenReads(cfg, s2, choices);
        } else if !Stop(choices) {
          ListenReads(cfg, s2, Later(choices));
        }
      }
    }
  }

  /** Frames that arrived hold the named events of the events sent. */
  lemma {:induction false} ArrivedAreNamed(cfg: Config, events: seq<Event>, frames: seq<Headers>)
    requires Arrived(cfg, events, frames)
    ensures AllUnwrap(cfg, frames) && EventsIn(cfg, frames) == Named(events[..|frames|])
  {
    hide Unwrap, ToMap;
    if frames != [] {
      var e := events[0];
      assert "_body"[0] != "Event-Name"[0];
      assert EventIn(cfg, frames[0])
             == if "Event-Name" in ToMap(e.fields) then [WithBody(ToMap(e.fields), e.payload)] else [];
      forall i | 0 <= i < |frames[1..]|
        ensures Unwrap(cfg, frames[1..][i])
                == Some(WithBody(ToMap(events[1..][i].fields), events[1..][i].payload))
      {
        assert frames[1..][i] == frames[i + 1] && events[1..][i] == events[i + 1];
      }
      ArrivedAreNamed(cfg, events[1..], frames[1..]);
      assert events[..|frames|][1..] == events[1..][..|frames| - 1];
    }
  }

  lemma {:induction false} NamedPrefix(events: seq<Event>, n: nat)
    requires n <= |events|
    ensures Named(events[..n]) <= Named(events)
  {
    hide ToMap;
    if n > 0 {
      NamedPrefix(events[1..], n - 1);
      assert events[..n][1..] == events[1..][..n - 1];
    }
  }

  /** On one connection, however the bytes are cut and the pauses fall: the handler sees, as
      they were and in order, a first stretch of the events sent that carry an event name, up
      to the first at which it closes the listener; if it closes at none and no frame is cut,
      all of them, and then how the connection ends. */
  lemma {:induction false} PrintedEventsHandled(
    cfg: Config, s: State, events: seq<Event>, safe: set<char>, choices: seq<bool>)
    requires Percent.MayStayBare(safe) && forall i | 0 <= i < |events| :: Sendable(cfg, events[i], safe)
    requires s.sock && s.pending == [] && s.buffer == [] && Bytes(s.net.recvs) == WireAll(events, safe)
    ensures var t := Listen(cfg, s, choices);
            && t.handled <= Named(events)
            && ClosedAtLast(choices, |t.handled|, t.error.None?)
            && (t.error.Some? && NeverCut(cfg, s) ==> t.handled == Named(events) && t.error == Some(EndOf(s.net.recvs)))
  {
    hide Listen, ReadAll, WireAll, Bytes, EndOf, Sendable, NeverCut, FirstCut, Named, EventsIn, Arrived, ClosedAtLast;
    var frames := ReadAll(cfg, s).frames;
    PrintedEventsArrive(cfg, s, events, safe);
    assert |frames| <= |events| by {
      ArrivedIsShorter(cfg, events, frames);
    }
    ArrivedAreNamed(cfg, events, frames);
    NamedPrefix(events, |frames|);
    ListenReads(cfg, s, choices);
    ListenLooks(cfg, s, choices);
    assert |frames| == |events| ==> events[..|frames|] == events;
  }

  lemma {:induction false} ArrivedIsShorter(cfg: Config, events: seq<Event>, frames: seq<Headers>)
    requires Arrived(cfg, events, frames)
    ensures |frames| <= |events|
  {
  }

  // ---- The whole run ----

  /** A switch that greets, answers the login and the subscription, and then sends its events,
      cut into receives and pauses in any way that cuts no frame in two, until the connection
      ends in any way. */
  datatype Peer = Peer(login: string, subscription: string, events: seq<Event>, stream: seq<RecvStep>)

  ghost predicate PeerOk(cfg: Config, p: Peer, safe: set<char>) {
    && Brief(p.login) && "+OK" <= p.login && Brief(p.subscription) && "+OK" <= p.subscription
    && (forall i | 0 <= i < |p.events| :: Sendable(cfg, p.events[i], safe))
    && Bytes(p.stream) == WireAll(p.events, safe) && Uncut(cfg, p.stream)
  }

  /** A client with nothing in hand and this script ahead. */
  function Listening(recvs: seq<RecvStep>): State {
    State(true, true, true, [], [], 0, Net(0.0, 0.0, [], [], recvs, [], [], 0), [])
  }

  /** Whoever starts to read here with nothing in hand gets every frame whole. */
  ghost predicate Uncut(cfg: Config, recvs: seq<RecvStep>) {
    NeverCut(cfg, Listening(recvs))
  }

  /** So does a stream that brings each event in a receive of its own, whatever the pauses. */
  lemma {:induction false} OneByOneIsUncut(cfg: Config, recvs: seq<RecvStep>, events: seq<Event>, safe: set<char>)
    requires Percent.MayStayBare(safe) && forall i | 0 <= i < |events| :: Sendable(cfg, events[i], safe)
    requires OneByOne(recvs, events, safe)
    ensures Bytes(recvs) == WireAll(events, safe) && Uncut(cfg, recvs)
  {
    hide ReadAll, Bytes, WireAll, OneByOne, Sendable, EndOf, NeverCut, FirstCut, Arrived, InHand;
    OneByOneBytes(recvs, events, safe);
    EventsNowAndThenArrive(cfg, Listening(recvs), events, safe);
    PrintedEventsArrive(cfg, Listening(recvs), events, safe);
  }

  function DialOf(p: Peer): Dial {
    Greets([Sent(0.0), Sent(0.0)], [Says(Reply(p.login)), Says(Reply(p.subscription))] + p.stream)
  }

  function Dials(peers: seq<Peer>): seq<Dial> {
    seq(|peers|, i requires 0 <= i < |peers| => DialOf(peers[i]))
  }

  function NamedOf(peers: seq<Peer>): seq<Headers> {
    if peers == [] then [] else Named(peers[0].events) + NamedOf(peers[1..])
  }

  /** How often the listener looks whether it is closed while these peers last. */
  function LooksAt(peers: seq<Peer>): nat {
    if peers == [] then 0 else |Named(peers[0].events)| + 2 + LooksAt(peers[1..])
  }

  /** Nobody closes the listener at the next `n` looks. */
  ghost predicate Quiet(choices: seq<bool>, n: nat) {
    forall i | 0 <= i < n :: !ClosesAt(choices, i)
  }

  lemma {:induction false} QuietLater(choices: seq<bool>, m: nat, n: nat)
    requires Quiet(choices, m + n)
    ensures Quiet(Skip(choices, m), n)
  {
    forall i | 0 <= i < n ensures !ClosesAt(Skip(choices, m), i) {
      assert !ClosesAt(choices, m + i);
    }
  }

  lemma {:induction false} QuietIsOpen(choices: seq<bool>, n: nat, k: nat, closed: bool)
    requires Quiet(choices, n) && k <= n && ClosedAtLast(choices, k, closed)
    ensures !closed
  {
    if k > 0 {
      assert ClosesAt(choices, k - 1) <==> closed;
    }
  }

  lemma {:induction false} PeerStarts(cfg: Config, s: State, p: Peer, safe: set<char>, names: seq<string>)
    requires PeerOk(cfg, p, safe) && Canonical(s) && NextDial(cfg, s.net) == DialOf(p)
    ensures var (r, s1) := Start(cfg, s, names);
            r.Ok? && s1.sock && s1.buffer == [] && s1.pending == [] && s1.net.recvs == p.stream
  {
    hide Start, Greets, Says, Reply, Sendable, Bytes, WireAll, Uncut;
    StartByTexts(cfg, s, names, p.login, p.subscription, p.stream);
  }

  /** One such peer: its named events are handled, and the loop goes on. */
  lemma {:induction false} PeerAttempt(
    cfg: Config, names: seq<string>, s: State, choices: seq<bool>, p: Peer, safe: set<char>)
    requires Percent.MayStayBare(safe) && PeerOk(cfg, p, safe) && Canonical(s) && NextDial(cfg, s.net) == DialOf(p)
    requires Quiet(choices, |Named(p.events)|)
    ensures var round := Attempt(cfg, names, s, choices).0;
            && round.started && round.handled == Named(p.events)
            && round.error.Some? && IsDrop(round.error.value)
  {
    hide Start, Listen, Bytes, WireAll, Sendable, EndOf, NeverCut, Named, ClosedAtLast, Quiet, DialOf;
    PeerStarts(cfg, s, p, safe, names);
    var s1 := Start(cfg, s, names).1;
    CutsAreOfScript(cfg, Listening(p.stream), s1);
    PrintedEventsHandled(cfg, s1, p.events, safe, choices);
    var t := Listen(cfg, s1, choices);
    QuietIsOpen(choices, |Named(p.events)|, |t.handled|, t.error.None?);
    EndIsNoCut(p.stream);
  }

  lemma {:induction false} PeerPass(
    cfg: Config, names: seq<string>, plan: Backoff, s: State, backoff: real, choices: seq<bool>,
    p: Peer, safe: set<char>)
    requires Percent.MayStayBare(safe) && PeerOk(cfg, p, safe) && Canonical(s) && NextDial(cfg, s.net) == DialOf(p)
    requires Quiet(choices, |Named(p.events)| + 2)
    ensures var pass := OnePass(cfg, names, plan, s, backoff, choices);
            && pass.round.handled == Named(p.events) && !pass.closed && pass.escaped.None?
            && Looks(pass.round) == |Named(p.events)| + 2
  {
    hide Start, Listen, Sendable, Named, DialOf, RoundOk, ClosedAtLast, PeerOk, Attempt, Stop, Later;
    PeerAttempt(cfg, names, s, choices, p, safe);
    AttemptUsesChoices(cfg, names, s, choices);
    PassLooks(cfg, names, plan, s, backoff, choices);
    var pass := OnePass(cfg, names, plan, s, backoff, choices);
    QuietIsOpen(choices, |Named(p.events)| + 2, Looks(pass.round), pass.closed);
  }

  /** With nobody left to call nothing is handled. */
  lemma {:induction false} NobodyIsHandled(
    cfg: Config, names: seq<string>, plan: Backoff, s: State, backoff: real, choices: seq<bool>)
    requires Canonical(s) && s.net.dials == []
    ensures AllHandled(Forever(cfg, names, plan, s, backoff, choices).rounds) == []
    decreases |choices|
  {
    hide Canonical, RoundOk, Stop, Later;
    var p := OnePass(cfg, names, plan, s, backoff, choices);
    PassLaw(cfg, names, plan, s, backoff, choices);
    PassUsesChoices(cfg, names, plan, s, backoff, choices);
    assert p.round.handled == [] by {
      assert Connect(cfg, s).0 == Err(ConnectionError(DialFailed));
    }
    hide OnePass;
    if !p.closed && p.escaped.None? {
      NobodyIsHandled(cfg, names, plan, p.final, p.backoff, p.choices);
      var rest := Forever(cfg, names, plan, p.final, p.backoff, p.choices);
      assert ([p.round] + rest.rounds)[1..] == rest.rounds;
    } else {
      assert [p.round][1..] == [];
    }
  }

  lemma {:induction false} FirstDial(cfg: Config, s: State, peers: seq<Peer>)
    requires peers != [] && s.net.dials == Dials(peers)
    ensures NextDial(cfg, s.net) == DialOf(peers[0]) && Drop(s.net.dials, 1) == Dials(peers[1..])
  {
    assert DialOf(peers[0]).took == 0.0;
    hide DialOf;
    assert Dials(peers)[1..] == Dials(peers[1..]);
  }

  /** Over a whole run against such switches, one connection after the other, and while nobody
      closes the listener: the handler sees every event sent that carries an event name, as it
      was sent, in order, across all connections, and nothing else. */
  lemma {:induction false} EveryNamedEventIsHandled(
    cfg: Config, names: seq<string>, plan: Backoff, s: State, backoff: real, choices: seq<bool>,
    peers: seq<Peer>, safe: set<char>)
    requires Percent.MayStayBare(safe) && forall i | 0 <= i < |peers| :: PeerOk(cfg, peers[i], safe)
    requires Canonical(s) && s.net.dials == Dials(peers) && Quiet(choices, LooksAt(peers))
    ensures AllHandled(Forever(cfg, names, plan, s, backoff, choices).rounds) == NamedOf(peers)
    decreases |peers|
  {
    hide Canonical, OnePass, PeerOk, RoundOk, Dials, DialOf, Named, ClosedAtLast, Quiet, Skip, Looks;
    if peers == [] {
      NoDials();
      NobodyIsHandled(cfg, names, plan, s, backoff, choices);
    } else {
      var n := |Named(peers[0].events)| + 2;
      FirstDial(cfg, s, peers);
      QuietFirst(choices, n, LooksAt(peers[1..]));
      QuietLater(choices, n, LooksAt(peers[1..]));
      PeerPass(cfg, names, plan, s, backoff, choices, peers[0], safe);
      PassLaw(cfg, names, plan, s, backoff, choices);
      PassLooks(cfg, names, plan, s, backoff, choices);
      var p := OnePass(cfg, names, plan, s, backoff, choices);
      EveryNamedEventIsHandled(cfg, names, plan, p.final, p.backoff, p.choices, peers[1..], safe);
      var rest := Forever(cfg, names, plan, p.final, p.backoff, p.choices);
      assert ([p.round] + rest.rounds)[1..] == rest.rounds;
    }
  }

  lemma {:induction false} QuietFirst(choices: seq<bool>, m: nat, n: nat)
    requires Quiet(choices, m + n)
    ensures Quiet(choices, m)
  {
  }

  lemma {:induction false} NoDials()
    ensures Dials([]) == []
  {
  }
}
