/** The reconnecting listener: many connections, one handler, exponential backoff. */
module Reconnect {
  import opened Text
  import opened HeaderBlock
  import opened Framing
  import opened Transport
  import opened Scripts

  // ---- Decisions of the environment ----

  /** Whether the listener is closed at the next point where that can show: by the
      handler, while a failure was under way, or during a sleep. A script that has
      run out closes. */
  predicate Stop(choices: seq<bool>) {
    choices == [] || choices[0]
  }

  function Later(choices: seq<bool>): seq<bool> {
    if choices == [] then [] else choices[1..]
  }

  // ---- One connection's stream ----

  /** Every delivered frame and every idle tick uses something up. */
  lemma {:induction false} ReadEventUsesFuel(cfg: Config, s: State)
    ensures var (r, s1) := ReadEvent(cfg, s);
            r.Ok? || r == Err(Timeout) ==> Fuel(s1) < Fuel(s)
  {
    hide ReadFrame, Unwrap;
    ReadFrameUsesFuel(cfg, s);
  }

  datatype Stretch = Stretch(handled: seq<Headers>, error: Option<Error>, exit: State, choices: seq<bool>)

  predicate IsNamed(f: Headers) {
    "Event-Name" in f
  }

  /** `iter_raw`, `listen` and the handler, fused: frames that carry an event name reach
      the handler, idle ticks and other frames do not. */
  function Listen(cfg: Config, s: State, choices: seq<bool>): Stretch
    decreases Fuel(s)
  {
    ReadEventUsesFuel(cfg, s);
    var (r, s1) := ReadEvent(cfg, s);
    match r
    case Err(Timeout) => Listen(cfg, s1, choices)
    case Err(e) => Stretch([], Some(e), s1, choices)
    case Ok(f) =>
      if !IsNamed(f) then Listen(cfg, s1, choices)
      else if Stop(choices) then Stretch([f], None, Transport.Close(s1), Later(choices))
      else
        var rest := Listen(cfg, s1, Later(choices));
        rest.(handled := [f] + rest.handled)
  }

  // ---- Rounds ----

  ghost function Start(cfg: Config, s: State, events: seq<string>): (Result<()>, State) {
    var (r, s1) := Connect(cfg, s);
    if r.Err? then (r, s1)
    else
      var (r2, s2) := Authenticate(cfg, s1);
      if r2.Err? then (r2, s2) else Subscribe(cfg, s2, events)
  }

  /** One pass of the reconnect loop. `exit` is the client before the final close. */
  datatype Round = Round(
    entry: State, started: bool, handled: seq<Headers>, error: Option<Error>, exit: State, slept: Option<real>)

  datatype History = History(rounds: seq<Round>, escaped: Option<Error>, final: State, closed: bool, choices: seq<bool>)

  ghost function Attempt(cfg: Config, events: seq<string>, s: State, choices: seq<bool>): (Round, seq<bool>) {
    var (r, s1) := Start(cfg, s, events);
    if r.Err? then (Round(s, false, [], Some(r.error), s1, None), choices)
    else
      var t := Listen(cfg, s1, choices);
      (Round(s, true, t.handled, t.error, t.exit, None), t.choices)
  }

  function Slept(s: State, pause: real): State {
    s.(net := s.net.(now := s.net.now + pause))
  }

  datatype Backoff = Backoff(base: real, max: real)

  datatype Pass = Pass(
    round: Round, escaped: Option<Error>, final: State, closed: bool, choices: seq<bool>, backoff: real)

  /** Everything the handler saw over some passes, in order. */
  function AllHandled(rounds: seq<Round>): seq<Headers> {
    if rounds == [] then [] else rounds[0].handled + AllHandled(rounds[1..])
  }

  /** One pass of `run_forever`, entered with the given backoff. Every way out closes
      the client. */
  ghost function OnePass(
    cfg: Config, events: seq<string>, plan: Backoff, s: State, backoff: real, choices: seq<bool>): Pass
  {
    var (round, c1) := Attempt(cfg, events, s, choices);
    var pause := if round.started then plan.base else backoff;
    if round.error.None? then Pass(round, None, Transport.Close(round.exit), true, c1, pause)
    else if !IsDrop(round.error.value) then
      Pass(round, round.error, Transport.Close(round.exit), false, c1, pause)
    else if Stop(c1) then Pass(round, None, Transport.Close(round.exit), true, Later(c1), pause)
    else
      var c2 := Later(c1);
      Pass(round.(slept := Some(pause)), None, Transport.Close(Slept(round.exit, pause)),
           Stop(c2), Later(c2), RMin(pause * 2.0, plan.max))
  }

  /** `run_forever` from the top of its loop, with the listener not closed. */
  ghost function Forever(
    cfg: Config, events: seq<string>, plan: Backoff, s: State, backoff: real, choices: seq<bool>): History
    decreases |choices|
  {
    ListenUsesChoices(cfg, Start(cfg, s, events).1, choices);
    var p := OnePass(cfg, events, plan, s, backoff, choices);
    if p.closed || p.escaped.Some? then History([p.round], p.escaped, p.final, p.closed, p.choices)
    else
      var rest := Forever(cfg, events, plan, p.final, p.backoff, p.choices);
      rest.(rounds := [p.round] + rest.rounds)
  }

  lemma {:induction false} ListenUsesChoices(cfg: Config, s: State, choices: seq<bool>)
    ensures |Listen(cfg, s, choices).choices| <= |choices|
    decreases Fuel(s)
  {
    hide ReadEvent;
    ReadEventUsesFuel(cfg, s);
    var (r, s1) := ReadEvent(cfg, s);
    if r == Err(Timeout) || (r.Ok? && !IsNamed(r.value)) {
      ListenUsesChoices(cfg, s1, choices);
    } else if r.Ok? && !Stop(choices) {
      ListenUsesChoices(cfg, s1, Later(choices));
    }
  }
}
