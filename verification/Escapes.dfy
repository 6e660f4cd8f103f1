/** Exactly which errors leave the reconnect loop, read off the peer's script. */
module Escapes {
  import opened Text
  import opened Framing
  import opened Transport
  import Commands
  import opened TransportLaws
  import opened OperationLaws
  import opened Scripts
  import opened Fragments
  import opened ReplyTiming
  import opened Reconnect
  import opened ReconnectLaws

  // ---- One start ----

  /** The connection is accepted and set up, and then nothing comes for a whole timeout. */
  predicate GreetingSilent(cfg: Config, dial: Dial) {
    dial.Accepted? && !dial.setupFails && dial.recvs != [] && dial.recvs[0].took > cfg.timeout
  }

  /** After `m` receives, all in time, the first frame of the stream is complete, and it is
      an `auth/request`. */
  ghost predicate GreetedAt(cfg: Config, s: State, m: nat) {
    && Waited(cfg, s, s.net.now + cfg.timeout, m)
    && var v := DecodeOne(cfg, InHand(s, m));
       v.Good? && "Content-Type" in v.frame && v.frame["Content-Type"] == "auth/request"
  }

  ghost predicate Greeted(cfg: Config, s: State) {
    var dial := NextDial(cfg, s.net);
    dial.Accepted? && !dial.setupFails && exists m :: GreetedAt(cfg, Dialed(cfg, s), m)
  }

  /** Silence is told from a late or broken greeting by the first step of the script; the
      connection stands exactly if the greeting comes whole and in time. */
  lemma {:induction false} ConnectIsTimed(cfg: Config, s: State)
    ensures Connect(cfg, s).0 == Err(Timeout) <==> GreetingSilent(cfg, NextDial(cfg, s.net))
    ensures Connect(cfg, s).0.Ok? <==> Greeted(cfg, s)
  {
    hide ReadFrame, DecodeOne, Waited, RunsOut;
    var dial := NextDial(cfg, s.net);
    if dial.Accepted? && !dial.setupFails {
      var s1 := Dialed(cfg, s);
      var deadline := s1.net.now + cfg.timeout;
      var m := ReadFrameWaits(cfg, s1, deadline);
      var r := ReadFrame(cfg, s1, deadline).0;
      if IsIdle(cfg, s1) {
        IdleRead(cfg, s1);
      } else if r == Err(Timeout) {
        TimeoutIsIdle(cfg, s1);
      }
      forall n: nat | GreetedAt(cfg, s1, n) ensures r.Ok? && HasType(r.value, "auth/request") {
        ReadFrameTakesFirst(cfg, s1, deadline, n);
      }
      if r.Ok? && HasType(r.value, "auth/request") {
        assert GreetedAt(cfg, s1, m);
      }
    }
  }

  /** How connecting and sending fail otherwise, error by error. */
  lemma {:induction false} ConnectFailures(cfg: Config, s: State, line: string)
    ensures var dial, r := NextDial(cfg, s.net), Connect(cfg, s).0;
            && (s.net.dials == [] || s.net.dials[0].Refused? || s.net.dials[0].took > cfg.timeout ==>
                  r == Err(ConnectionError(DialFailed)))
            && (dial.Accepted? && dial.setupFails ==> r == Err(OsError))
            && (dial.Accepted? && !dial.setupFails ==>
                  forall m | Waited(cfg, Dialed(cfg, s), Dialed(cfg, s).net.now + cfg.timeout, m) ::
                    var v := DecodeOne(cfg, InHand(Dialed(cfg, s), m));
                    && (v.Bad? ==> r == Err(ProtocolError))
                    && (v.Good? && !("Content-Type" in v.frame && v.frame["Content-Type"] == "auth/request") ==>
                          r == Err(ConnectionError(BadGreeting))))
    ensures s.sock && !SendsOk(s) ==> Command(cfg, s, line).0 == Err(ConnectionError(SendFailed))
    ensures !s.sock ==> Command(cfg, s, line).0 == Err(ConnectionError(NotConnected))
  {
    hide ReadFrame, DecodeOne, Received, RunsOut, Await;
    var dial := NextDial(cfg, s.net);
    if dial.Accepted? && !dial.setupFails {
      var s1 := Dialed(cfg, s);
      var deadline := s1.net.now + cfg.timeout;
      forall m: nat | Waited(cfg, s1, deadline, m) && DecodeOne(cfg, InHand(s1, m)).Good?
        ensures ReadFrame(cfg, s1, deadline).0 == Ok(DecodeOne(cfg, InHand(s1, m)).frame)
      {
        ReadFrameTakesFirst(cfg, s1, deadline, m);
      }
      forall m: nat | Waited(cfg, s1, deadline, m) && DecodeOne(cfg, InHand(s1, m)).Bad?
        ensures ReadFrame(cfg, s1, deadline).0 == Err(ProtocolError)
      {
        ReadFrameFindsBad(cfg, s1, deadline, m);
      }
    }
  }

  /** The start from `s` meets error `e` that the loop does not catch: the greeting never
      comes; or the switch is late for the login or turns it down; or, logged in, it is
      late for the subscription or turns that down. */
  ghost predicate StartEscapes(cfg: Config, s: State, events: seq<string>, e: Error) {
    var login, subscription := "auth " + cfg.password, Commands.SubscribeLine(events);
    var s1 := Connect(cfg, s).1;
    var s2 := Command(cfg, s1, login).1.(authenticated := true);
    if GreetingSilent(cfg, NextDial(cfg, s.net)) then e == Timeout
    else
      Greeted(cfg, s)
      && ((e == Timeout && CommandLate(cfg, s1, login))
          || (exists f :: CommandAnswered(cfg, s1, login, f) && !SaysOk(f) && e == AuthError)
          || (exists f :: CommandAnswered(cfg, s1, login, f) && SaysOk(f)
                && ((e == Timeout && CommandLate(cfg, s2, subscription))
                    || (exists g :: CommandAnswered(cfg, s2, subscription, g) && !SaysOk(g) && e == CommandError))))
  }

  /** The start from `s` succeeds: greeted in time, the login answered in time by a reply text
      that starts with `+OK`, and then the subscription too. */
  ghost predicate StartStands(cfg: Config, s: State, events: seq<string>) {
    var login, subscription := "auth " + cfg.password, Commands.SubscribeLine(events);
    var s1 := Connect(cfg, s).1;
    var s2 := Command(cfg, s1, login).1.(authenticated := true);
    Greeted(cfg, s)
    && (exists f :: CommandAnswered(cfg, s1, login, f) && SaysOk(f))
    && (exists g :: CommandAnswered(cfg, s2, subscription, g) && SaysOk(g))
  }

  /** What a start returns when the loop will not retry it. */
  ghost function Escaping(r: Result<()>): Option<Error> {
    if r.Err? && !IsDrop(r.error) then Some(r.error) else None
  }

  lemma {:induction false} ConnectErrors(cfg: Config, s: State)
    requires Canonical(s)
    ensures var r := Connect(cfg, s).0;
            r.Err? ==> r.error == Timeout || IsDrop(r.error)
  {
    hide ReadFrame, Splits, Frames;
    if NextDial(cfg, s.net).Accepted? {
      DialedLaw(cfg, s);
      var s1 := Dialed(cfg, s);
      ReadFrameLaw(cfg, s1, s1.net.now + cfg.timeout);
    }
  }

  /** A command on an open connection is answered, late or dropped, and only one of them. */
  lemma {:induction false} CommandOutcome(cfg: Config, s: State, line: string)
    requires Open(cfg, s)
    ensures var (r, s1) := Command(cfg, s, line);
            match r
            case Ok(f) =>
              && Open(cfg, s1.(authenticated := true)) && !CommandLate(cfg, s, line)
              && forall g :: CommandAnswered(cfg, s, line, g) <==> g == f
            case Err(e) =>
              && (e == Timeout <==> CommandLate(cfg, s, line)) && (e == Timeout || IsDrop(e))
              && forall g :: !CommandAnswered(cfg, s, line, g)
  {
    hide Command, CommandLate, CommandAnswered, QueueOk, QueueIsTail, Splits, Frames, Used, Handed, Replies;
    CommandLaw(cfg, s, line);
    CommandErrors(cfg, s, line);
    LoginChangesNoQueue(cfg, Command(cfg, s, line).1);
    forall g ensures Command(cfg, s, line).0 == Ok(g) <==> CommandAnswered(cfg, s, line, g) {
      CommandIsTimed(cfg, s, line, g);
    }
    CommandIsTimed(cfg, s, line, map[]);
  }

  /** Exactly these starts succeed, and exactly those are not retried. */
  lemma {:induction false} StartEscapesIff(cfg: Config, s: State, events: seq<string>, e: Error)
    requires Canonical(s)
    ensures Escaping(Start(cfg, s, events).0) == Some(e) <==> StartEscapes(cfg, s, events, e)
    ensures Start(cfg, s, events).0.Ok? <==> StartStands(cfg, s, events)
  {
    hide Connect, Command, CommandLate, CommandAnswered, Open, Accepts, SaysOk, GreetingSilent, Greeted;
    hide Frames, Used, Handed, Replies;
    var login, subscription := "auth " + cfg.password, Commands.SubscribeLine(events);
    ConnectIsTimed(cfg, s);
    ConnectLaw(cfg, s);
    ConnectErrors(cfg, s);
    var (r, s1) := Connect(cfg, s);
    if r.Ok? {
      CommandOutcome(cfg, s1, login);
      var (r1, s2) := Command(cfg, s1, login);
      if r1.Ok? {
        assert CommandAnswered(cfg, s1, login, r1.value);
        AcceptsSaysOk(r1.value);
        if Accepts(r1.value) {
          var s3 := s2.(authenticated := true);
          CommandOutcome(cfg, s3, subscription);
          var (r2, _) := Command(cfg, s3, subscription);
          assert Authenticate(cfg, s1) == (Ok(()), s3);
          assert r2.Ok? ==> CommandAnswered(cfg, s3, subscription, r2.value);
          if r2.Ok? {
            AcceptsSaysOk(r2.value);
          }
        }
      }
    }
  }

  // ---- The whole run ----

  lemma {:induction false} PassEscapes(
    cfg: Config, events: seq<string>, plan: Backoff, s: State, backoff: real, choices: seq<bool>)
    requires Canonical(s)
    ensures var p := OnePass(cfg, events, plan, s, backoff, choices);
            p.escaped == Escaping(Start(cfg, s, events).0) && p.round.entry == s
  {
    hide Start, Listen, RoundOk;
    AttemptLaw(cfg, events, s, choices);
  }

  /** Exactly what escapes `run_forever`, from a closed client: error `e` leaves the loop
      if and only if the script of its last pass makes the start meet `e` uncaught, and no
      earlier pass met any such error. */
  lemma {:induction false} EscapesExactly(
    cfg: Config, events: seq<string>, plan: Backoff, s: State, backoff: real, choices: seq<bool>, e: Error)
    requires Canonical(s)
    ensures var h := Forever(cfg, events, plan, s, backoff, choices);
            var last := |h.rounds| - 1;
            && last >= 0
            && (h.escaped == Some(e) <==> StartEscapes(cfg, h.rounds[last].entry, events, e))
            && forall i | 0 <= i < last :: !StartEscapes(cfg, h.rounds[i].entry, events, e)
    decreases |choices|
  {
    hide OnePass, Start, StartEscapes, Escaping, Canonical, RoundOk, Listen;
    PassLaw(cfg, events, plan, s, backoff, choices);
    PassEscapes(cfg, events, plan, s, backoff, choices);
    PassUsesChoices(cfg, events, plan, s, backoff, choices);
    StartEscapesIff(cfg, s, events, e);
    var p := OnePass(cfg, events, plan, s, backoff, choices);
    if !p.closed && p.escaped.None? {
      EscapesExactly(cfg, events, plan, p.final, p.backoff, p.choices, e);
      var rest := Forever(cfg, events, plan, p.final, p.backoff, p.choices);
      var h := Forever(cfg, events, plan, s, backoff, choices);
      forall i | 0 <= i < |h.rounds| - 1 ensures !StartEscapes(cfg, h.rounds[i].entry, events, e) {
        if i > 0 {
          assert h.rounds[i] == rest.rounds[i - 1];
        }
      }
    }
  }

  /** The loop returns normally if and only if no pass met such an error. */
  lemma {:induction false} ReturnsIff(
    cfg: Config, events: seq<string>, plan: Backoff, s: State, backoff: real, choices: seq<bool>)
    requires Canonical(s)
    ensures var h := Forever(cfg, events, plan, s, backoff, choices);
            h.escaped.None? <==>
              forall i, e | 0 <= i < |h.rounds| :: !StartEscapes(cfg, h.rounds[i].entry, events, e)
  {
    hide Forever, StartEscapes;
    var h := Forever(cfg, events, plan, s, backoff, choices);
    if h.escaped.Some? {
      EscapesExactly(cfg, events, plan, s, backoff, choices, h.escaped.value);
      assert StartEscapes(cfg, h.rounds[|h.rounds| - 1].entry, events, h.escaped.value);
    } else {
      forall i, e | 0 <= i < |h.rounds| ensures !StartEscapes(cfg, h.rounds[i].entry, events, e) {
        EscapesExactly(cfg, events, plan, s, backoff, choices, e);
      }
    }
  }

  /** An uncaught error in the first start ends the loop at once. */
  lemma {:induction false} FirstStartEscapes(
    cfg: Config, events: seq<string>, plan: Backoff, s: State, backoff: real, choices: seq<bool>, e: Error)
    requires Canonical(s) && Escaping(Start(cfg, s, events).0) == Some(e)
    ensures Forever(cfg, events, plan, s, backoff, choices).escaped == Some(e)
  {
    hide OnePass, Start, Escaping;
    PassEscapes(cfg, events, plan, s, backoff, choices);
  }
}
