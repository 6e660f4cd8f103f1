/** What each operation of the client does to its state, against a scripted peer.
    A script fixes in advance how every socket call turns out; the theorems hold
    for every script, so they hold for every peer. */
module Transport {
  import opened Utf8
  import opened HeaderBlock
  import opened Framing
  import Commands

  // ---- The peer and the operating system ----

  type Duration = r: real | r >= 0.0 witness 0.0
  type Chunk = c: seq<byte> | 1 <= |c| <= 4096 witness [0]

  /** What the peer does next on the stream, and how long a receive waits for it. A receive
      whose window closes first times out, and the rest of the wait is still to come. */
  datatype RecvStep =
    | Data(took: Duration, chunk: Chunk)
    | Eof(took: Duration)
    | Broken(took: Duration)

  datatype SendStep = Sent(took: Duration) | SendBroken(took: Duration)

  /** One connection attempt and, if accepted, everything its socket will do. */
  datatype Dial =
    | Refused(took: Duration)
    | Accepted(took: Duration, setupFails: bool, sends: seq<SendStep>, recvs: seq<RecvStep>)

  /** `received` and `sent` record the traffic of the current connection, `calls` the receives made. */
  datatype Net = Net(
    now: real, sockTimeout: real,
    dials: seq<Dial>, sends: seq<SendStep>, recvs: seq<RecvStep>,
    received: seq<byte>, sent: seq<string>, calls: nat)

  function RMin(a: real, b: real): real {
    if a <= b then a else b
  }

  /** A send or a dial lasts no longer than the socket's timeout. */
  function Elapse(net: Net, took: Duration): Net {
    net.(now := net.now + RMin(took, net.sockTimeout))
  }

  // ---- The client ----

  datatype Cause = NotConnected | DialFailed | BadGreeting | SendFailed | ReadFailed | PeerClosed | Incomplete

  datatype Error =
    | Timeout
    | ConnectionError(cause: Cause)
    | ProtocolError
    | AuthError
    | CommandError
    | OsError
    | NotSupported

  /** What `except (ESLConnectionError, OSError)` catches. */
  predicate IsDrop(e: Error) {
    e.ConnectionError? || e.ProtocolError? || e.OsError?
  }

  datatype Result<+T> = Ok(value: T) | Err(error: Error)

  datatype Held = Held(frame: Headers, size: nat)

  /** How a frame taken off the wire was used. */
  datatype Use = Greeting | Answer | Stream
  datatype Taken = Taken(frame: Headers, use: Use)

  /** The client's fields, its environment, and the frames taken on this connection. */
  datatype State = State(
    sock: bool, connected: bool, authenticated: bool,
    buffer: seq<byte>, pending: seq<Held>, pendingBytes: int,
    net: Net, log: seq<Taken>)

  function Close(s: State): State {
    s.(sock := false, connected := false, authenticated := false,
       buffer := [], pending := [], pendingBytes := 0)
  }

  // ---- Socket calls ----

  function NextRecv(net: Net): RecvStep {
    if net.recvs == [] then Eof(0.0) else net.recvs[0]
  }

  /** A receive with the given window: the next step, or a timeout with less of it to wait
      for. Nothing comes behind the end of the stream or an error. */
  function AfterRecv(net: Net, window: Duration): Net {
    var step := NextRecv(net);
    var called := net.(sockTimeout := window, calls := net.calls + 1);
    if step.took > window then
      called.(now := net.now + window, recvs := [step.(took := step.took - window)] + net.recvs[1..])
    else
      called.(now := net.now + step.took, recvs := if step.Data? then net.recvs[1..] else [],
              received := net.received + if step.Data? then step.chunk else [])
  }

  /** `_recv`: at most the time left before the deadline. */
  function Recv(cfg: Config, s: State, deadline: real): (Result<Chunk>, State) {
    if !s.sock then (Err(ConnectionError(NotConnected)), s)
    else if deadline - s.net.now <= 0.0 then (Err(Timeout), s)
    else
      var window := RMin(deadline - s.net.now, cfg.timeout);
      var step := NextRecv(s.net);
      var s1 := s.(net := AfterRecv(s.net, window));
      if step.took > window then (Err(Timeout), s1)
      else
        match step
        case Data(_, chunk) => (Ok(chunk), s1)
        case Eof(_) => (Err(ConnectionError(PeerClosed)), Close(s1))
        case Broken(_) => (Err(ConnectionError(ReadFailed)), Close(s1))
  }

  /** `_send` of a command line with its blank-line terminator; a send that outlasts the
      socket's timeout fails. */
  function Send(s: State, text: string): (Result<()>, State) {
    if !s.sock then (Err(ConnectionError(NotConnected)), s)
    else
      var step := if s.net.sends == [] then SendBroken(0.0) else s.net.sends[0];
      var net1 := Elapse(s.net, step.took).(
        sends := if s.net.sends == [] then [] else s.net.sends[1..],
        sent := s.net.sent + [text]);
      if step.Sent? && step.took <= s.net.sockTimeout then (Ok(()), s.(net := net1))
      else (Err(ConnectionError(SendFailed)), Close(s.(net := net1)))
  }

  // ---- Frames ----

  /** Wait until the buffer holds a verdict, then take the frame. Every receive
      shares the one deadline. The measure mentions neither clock nor script:
      the caps alone end the wait. */
  function Pump(cfg: Config, s: State, deadline: real): (Result<Headers>, State)
    decreases Max(0, FrameCap(cfg) - |s.buffer|)
  {
    VerdictBounds(cfg, s.buffer);
    match DecodeOne(cfg, s.buffer)
    case Good(f, used) => (Ok(f), s.(buffer := s.buffer[used..]))
    case Bad => (Err(ProtocolError), Close(s))
    case Short =>
      var (r, s1) := Recv(cfg, s, deadline);
      match r
      case Err(e) => (Err(e), s1)
      case Ok(chunk) => Pump(cfg, s1.(buffer := s.buffer + chunk), deadline)
  }

  /** The socket timeout is restored on every exit that leaves the socket open. */
  function Restore(cfg: Config, s: State): State {
    if s.sock then s.(net := s.net.(sockTimeout := cfg.timeout)) else s
  }

  /** `_read_frame`: a timeout with part of a frame in hand closes the connection. */
  function ReadFrame(cfg: Config, s: State, deadline: real): (Result<Headers>, State) {
    var (r, s1) := Pump(cfg, s, deadline);
    if r == Err(Timeout) && s1.buffer != [] then (Err(ConnectionError(Incomplete)), Close(s1))
    else (r, Restore(cfg, s1))
  }

  // ---- Commands ----

  const MAX_PENDING := 64

  function Took(s: State, f: Headers, use: Use): State {
    s.(log := s.log + [Taken(f, use)])
  }

  /** An event that arrived during a command waits its turn, within both limits. */
  ghost function Stash(cfg: Config, s: State, f: Headers): Result<State> {
    if |s.pending| >= MAX_PENDING || s.pendingBytes + Size(f) > cfg.maxFrame then Err(ProtocolError)
    else Ok(s.(pending := s.pending + [Held(f, Size(f))], pendingBytes := s.pendingBytes + Size(f)))
  }

  /** The reply loop of `_command`. The measure is the number of free queue slots. */
  ghost function Await(cfg: Config, s: State, deadline: real): (Result<Headers>, State)
    decreases Max(0, MAX_PENDING - |s.pending|)
  {
    if s.net.now >= deadline then (Err(Timeout), Close(s))
    else
      var (r, s1) := ReadFrame(cfg, s, deadline);
      match r
      case Err(e) => (Err(e), if e == Timeout then Close(s1) else s1)
      case Ok(f) =>
        if IsReply(f) then (Ok(f), Took(s1, f, Answer))
        else if !IsEvent(f) then (Err(ProtocolError), Close(s1))
        else
          ReadFrameKeepsQueue(cfg, s, deadline);
          match Stash(cfg, s1, f)
          case Err(e) => (Err(e), Close(s1))
          case Ok(s2) => Await(cfg, Took(s2, f, Stream), deadline)
  }

  ghost function Command(cfg: Config, s: State, line: string): (Result<Headers>, State) {
    var deadline := s.net.now + cfg.timeout;
    var (r, s1) := Send(s, line + "\n\n");
    match r
    case Err(e) => (Err(e), s1)
    case Ok(_) => Await(cfg, s1, deadline)
  }

  // ---- Public operations ----

  function FieldOf(f: Headers, name: string): string {
    if name in f then f[name] else ""
  }

  predicate Accepts(f: Headers) {
    "+OK" <= FieldOf(f, "Reply-Text")
  }

  /** The next connection attempt; one that outlasts the timeout is as good as refused. */
  function NextDial(cfg: Config, net: Net): Dial {
    if net.dials == [] then Refused(0.0)
    else if net.dials[0].took > cfg.timeout then Refused(net.dials[0].took)
    else net.dials[0]
  }

  /** After the next connection attempt, which may last as long as the socket timeout. */
  function AfterDial(cfg: Config, net: Net): Net {
    Elapse(net.(sockTimeout := cfg.timeout), NextDial(cfg, net).took).(
      dials := if net.dials == [] then [] else net.dials[1..])
  }

  /** An accepted connection, with nothing read yet. The queue is not touched. */
  function Dialed(cfg: Config, s: State): State
    requires NextDial(cfg, s.net).Accepted?
  {
    var dial := NextDial(cfg, s.net);
    s.(sock := true, connected := true, authenticated := false, buffer := [],
       net := AfterDial(cfg, s.net).(sends := dial.sends, recvs := dial.recvs, received := [], sent := []),
       log := [])
  }

  /** The socket is set up and the greeting read; any failure releases it. */
  function Connect(cfg: Config, s: State): (Result<()>, State) {
    var dial := NextDial(cfg, s.net);
    match dial
    case Refused(_) => (Err(ConnectionError(DialFailed)), s.(net := AfterDial(cfg, s.net)))
    case Accepted(_, setupFails, _, _) =>
      var s1 := Dialed(cfg, s);
      if setupFails then (Err(OsError), Close(s1))
      else
        var (r, s2) := ReadFrame(cfg, s1, s1.net.now + cfg.timeout);
        match r
        case Err(e) => (Err(e), Close(s2))
        case Ok(f) =>
          if HasType(f, "auth/request") then (Ok(()), Took(s2, f, Greeting))
          else (Err(ConnectionError(BadGreeting)), Close(s2))
  }

  ghost function Authenticate(cfg: Config, s: State): (Result<()>, State) {
    var (r, s1) := Command(cfg, s, "auth " + cfg.password);
    match r
    case Err(e) => (Err(e), s1)
    case Ok(f) =>
      if Accepts(f) then (Ok(()), s1.(authenticated := true)) else (Err(AuthError), Close(s1))
  }

  /** A refusal leaves the connection open. */
  ghost function Subscribe(cfg: Config, s: State, events: seq<string>): (Result<()>, State) {
    var (r, s1) := Command(cfg, s, Commands.SubscribeLine(events));
    match r
    case Err(e) => (Err(e), s1)
    case Ok(f) => (if Accepts(f) then Ok(()) else Err(CommandError), s1)
  }

  function Body(f: Headers): string {
    FieldOf(f, "_body")
  }

  /** `api`: the raw command text is sent once the gate or the opt-in lets it pass. */
  ghost function Api(cfg: Config, s: State, command: string, allowUnsafe: bool): (Result<string>, State) {
    if !allowUnsafe && !Commands.IsReadOnly(command) then (Err(NotSupported), s)
    else
      var (r, s1) := Command(cfg, s, "api " + command);
      match r
      case Err(e) => (Err(e), s1)
      case Ok(f) => (Ok(Body(f)), s1)
  }

  /** The next stream frame: waiting events first, then the wire. */
  function NextOuter(cfg: Config, s: State): (Result<Headers>, State) {
    if s.pending != [] then
      (Ok(s.pending[0].frame),
       s.(pending := s.pending[1..], pendingBytes := s.pendingBytes - s.pending[0].size))
    else
      var (r, s1) := ReadFrame(cfg, s, s.net.now + cfg.timeout);
      (r, if r.Ok? then Took(s1, r.value, Stream) else s1)
  }

  /** `read_event` */
  function ReadEvent(cfg: Config, s: State): (Result<Headers>, State) {
    var (r, s1) := NextOuter(cfg, s);
    match r
    case Err(e) => (Err(e), s1)
    case Ok(f) =>
      match Unwrap(cfg, f)
      case None => (Err(ProtocolError), Close(s1))
      case Some(event) => (Ok(event), s1)
  }

  // ---- Facts the definitions above need ----

  lemma {:induction false} PumpKeepsQueue(cfg: Config, s: State, deadline: real)
    ensures var (r, s1) := Pump(cfg, s, deadline);
            s1.pending == (if r.Ok? || r == Err(Timeout) then s.pending else s1.pending)
    decreases Max(0, FrameCap(cfg) - |s.buffer|)
  {
    hide DecodeOne;
    VerdictBounds(cfg, s.buffer);
    if DecodeOne(cfg, s.buffer).Short? {
      var (r, s1) := Recv(cfg, s, deadline);
      if r.Ok? {
        PumpKeepsQueue(cfg, s1.(buffer := s.buffer + r.value), deadline);
      }
    }
  }

  lemma {:induction false} ReadFrameKeepsQueue(cfg: Config, s: State, deadline: real)
    ensures var (r, s1) := ReadFrame(cfg, s, deadline);
            r.Ok? ==> s1.pending == s.pending
  {
    PumpKeepsQueue(cfg, s, deadline);
  }
}
