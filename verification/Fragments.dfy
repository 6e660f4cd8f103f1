/** Chunk boundaries are invisible: reading a stream frame by frame through any sequence of
    receives equals decoding the whole stream at once, up to the first frame that a read's
    deadline cuts in two, if there is one. */
module Fragments {
  import opened Utf8
  import opened HeaderBlock
  import opened Framing
  import opened Transport
  import opened Scripts

  datatype Reading = Reading(frames: seq<Headers>, error: Error)

  /** Frames until the first error, each read with its own deadline; an idle timeout
      changes nothing and reading goes on. */
  function ReadAll(cfg: Config, s: State): Reading
    decreases Fuel(s)
  {
    ReadFrameUsesFuel(cfg, s);
    var (r, s1) := ReadFrame(cfg, s, s.net.now + cfg.timeout);
    match r
    case Err(Timeout) => ReadAll(cfg, s1)
    case Err(e) => Reading([], e)
    case Ok(f) =>
      var rest := ReadAll(cfg, s1);
      Reading([f] + rest.frames, rest.error)
  }

  /** What a stream read to its end gives: its frames, and how it left the protocol or ended. */
  ghost function AllOf(cfg: Config, s: State): Reading {
    var d := DecodeAll(cfg, Whole(s));
    Reading(d.frames, if d.end.Violation? then ProtocolError else EndOf(s.net.recvs))
  }

  // ---- Frames cut in two ----

  /** How much of a wait passes in idle reads, each as long as the timeout. */
  function Idle(cfg: Config, wait: real): (t: real)
    decreases wait.Floor
  {
    if wait <= cfg.timeout then 0.0 else cfg.timeout + Idle(cfg, wait - cfg.timeout)
  }

  /** When the read under way after `n` receives was opened: when the last frame was complete,
      or as the last idle read before the first byte of a frame timed out. */
  function Opened(cfg: Config, s: State, n: nat): real
    requires n <= |s.net.recvs|
  {
    if n == 0 then s.net.now
    else
      var before, after := DecodeAll(cfg, InHand(s, n - 1)), DecodeAll(cfg, InHand(s, n));
      var start := Opened(cfg, s, n - 1);
      if |after.frames| > |before.frames| then Due(s, n)
      else if before.end == Cut([]) then start + Idle(cfg, Due(s, n) - start)
      else start
  }

  /** After `n` steps of data part of a frame is in hand, and the deadline of its read passes
      before anything else comes. */
  ghost predicate CutAt(cfg: Config, s: State, n: nat) {
    n <= |s.net.recvs| && AllData(s.net.recvs[..n])
    && var end := DecodeAll(cfg, InHand(s, n)).end;
       end.Cut? && end.rest != [] && RunsOut(s, n, Opened(cfg, s, n) + cfg.timeout)
  }

  ghost predicate FirstCut(cfg: Config, s: State, n: nat) {
    CutAt(cfg, s, n) && forall k: nat | k < n :: !CutAt(cfg, s, k)
  }

  ghost predicate NeverCut(cfg: Config, s: State) {
    forall n: nat :: !CutAt(cfg, s, n)
  }

  lemma {:induction false} SomeFirstCut(cfg: Config, s: State, n: nat) returns (first: nat)
    requires CutAt(cfg, s, n)
    ensures FirstCut(cfg, s, first)
  {
    hide CutAt;
    if k: nat :| k < n && CutAt(cfg, s, k) {
      first := SomeFirstCut(cfg, s, k);
    } else {
      first := n;
    }
  }

  // ---- Cuts seen from the next read ----

  lemma {:induction false} OpenedShifts(cfg: Config, s: State, m: nat, f: Headers, s1: State, n: nat)
    requires Takes(cfg, s, s.net.now + cfg.timeout, m, f, s1) && m + n <= |s.net.recvs|
    ensures Opened(cfg, s, m + n) == Opened(cfg, s1, n)
  {
    hide DecodeOne, DecodeAll, InHand, TotalTime;
    var deadline := s.net.now + cfg.timeout;
    FirstStaysFirst(cfg, s, deadline, m, f, s1, n);
    AheadBytes(s, m, s1, n);
    if n > 0 {
      OpenedShifts(cfg, s, m, f, s1, n - 1);
      FirstStaysFirst(cfg, s, deadline, m, f, s1, n - 1);
      assert m + n - 1 == m + (n - 1);
    } else if m > 0 {
      ShortBefore(cfg, s, deadline, m, m - 1);
    } else {
      NoStep(s, deadline);
    }
  }

  lemma {:induction false} CutShifts(cfg: Config, s: State, m: nat, f: Headers, s1: State, n: nat)
    requires Takes(cfg, s, s.net.now + cfg.timeout, m, f, s1)
    ensures CutAt(cfg, s, m + n) <==> CutAt(cfg, s1, n)
  {
    hide DecodeOne, DecodeAll, InHand, TotalTime, Opened, Waited, RunsOut, AllData;
    if m + n <= |s.net.recvs| {
      AllDataConcat(s.net.recvs[..m], s1.net.recvs[..n]);
      assert s.net.recvs[..m] + s1.net.recvs[..n] == s.net.recvs[..m + n];
      FirstStaysFirst(cfg, s, s.net.now + cfg.timeout, m, f, s1, n);
      OpenedShifts(cfg, s, m, f, s1, n);
      AheadRunsOut(s, m, Opened(cfg, s1, n) + cfg.timeout, s1, n);
    }
  }

  /** While no frame is complete the read under way is the first. */
  lemma {:induction false} OpenedStays(cfg: Config, s: State, m: nat, n: nat)
    requires Waited(cfg, s, s.net.now + cfg.timeout, m) && n <= m
    requires n == m ==> DecodeAll(cfg, InHand(s, m)).frames == []
    ensures Opened(cfg, s, n) == s.net.now
  {
    hide DecodeOne, DecodeAll, InHand, TotalTime;
    if n > 0 {
      OpenedStays(cfg, s, m, n - 1);
      ShortBefore(cfg, s, s.net.now + cfg.timeout, m, n - 1);
      if n < m {
        ShortBefore(cfg, s, s.net.now + cfg.timeout, m, n);
      }
      DueGrows(s, n, m);
    }
  }

  lemma {:induction false} NoCutBefore(cfg: Config, s: State, m: nat, n: nat)
    requires Waited(cfg, s, s.net.now + cfg.timeout, m) && n < m
    ensures !CutAt(cfg, s, n)
  {
    hide DecodeOne, DecodeAll, InHand, Waited, RunsOut;
    OpenedStays(cfg, s, m, n);
    ShortBefore(cfg, s, s.net.now + cfg.timeout, m, n);
  }

  // ---- Idle reads ----

  /** Nothing is in hand and the next step is further off than the timeout. */
  predicate IsIdle(cfg: Config, s: State) {
    s.sock && s.buffer == [] && s.net.recvs != [] && s.net.recvs[0].took > cfg.timeout
  }

  /** One timeout later. */
  predicate OneTimeoutLater(cfg: Config, s: State, s1: State) {
    IsIdle(cfg, s) && s1 == s.(net := s1.net) && s1.net.now == s.net.now + cfg.timeout
    && s1.net.recvs
       == [s.net.recvs[0].(took := s.net.recvs[0].took - cfg.timeout)] + s.net.recvs[1..]
  }

  lemma {:induction false} IdleRead(cfg: Config, s: State)
    requires IsIdle(cfg, s)
    ensures var (r, s1) := ReadFrame(cfg, s, s.net.now + cfg.timeout);
            r == Err(Timeout) && OneTimeoutLater(cfg, s, s1) && s1.net.sockTimeout == cfg.timeout
  {
    hide DecodeOne;
    NothingIsShort(cfg);
    var deadline := s.net.now + cfg.timeout;
    var (r, s1) := Recv(cfg, s, deadline);
    assert r == Err(Timeout) && Pump(cfg, s, deadline) == (Err(Timeout), s1);
  }

  lemma {:induction false} TimeoutIsIdle(cfg: Config, s: State)
    requires s.buffer == [] && RunsOut(s, 0, s.net.now + cfg.timeout) && s.sock
    ensures IsIdle(cfg, s)
  {
    NoStep(s, s.net.now);
    if s.net.recvs != [] {
      OneStep(s);
    }
    hide Due;
  }

  lemma {:induction false} IdleScript(cfg: Config, s: State, s1: State, n: nat)
    requires OneTimeoutLater(cfg, s, s1) && n <= |s.net.recvs|
    ensures |s1.net.recvs| == |s.net.recvs| && InHand(s1, n) == InHand(s, n)
    ensures AllData(s1.net.recvs[..n]) <==> AllData(s.net.recvs[..n])
    ensures n > 0 ==> Due(s1, n) == Due(s, n)
  {
    if n > 0 {
      var a, b := s.net.recvs[..n], s1.net.recvs[..n];
      assert a[1..] == b[1..];
      assert forall i | 0 <= i < n :: a[i].Data? <==> b[i].Data?;
      assert a[0].Data? ==> Bytes(a) == a[0].chunk + Bytes(a[1..]) && Bytes(b) == b[0].chunk + Bytes(b[1..]);
      assert TotalTime(a) == a[0].took + TotalTime(a[1..]);
      assert TotalTime(b) == b[0].took + TotalTime(b[1..]);
    }
  }

  /** The first byte opens the same read, counted from either end of the idle one. */
  lemma {:induction false} IdleOpenedOnce(cfg: Config, s: State, s1: State)
    requires OneTimeoutLater(cfg, s, s1)
    ensures Opened(cfg, s, 1) == Opened(cfg, s1, 1)
  {
    IdleScript(cfg, s, s1, 1);
    OneStep(s);
    NothingDecodes(cfg);
    NoStep(s, s.net.now);
    NoStep(s1, s1.net.now);
    hide DecodeAll, InHand, Due;
    assert Opened(cfg, s, 0) == s.net.now && Opened(cfg, s1, 0) == s1.net.now;
  }

  lemma {:induction false} IdleOpened(cfg: Config, s: State, s1: State, n: nat)
    requires OneTimeoutLater(cfg, s, s1) && 0 < n <= |s.net.recvs|
    ensures Opened(cfg, s, n) == Opened(cfg, s1, n)
  {
    hide DecodeAll, InHand, Due, OneTimeoutLater, Opened;
    if n == 1 {
      IdleOpenedOnce(cfg, s, s1);
    } else {
      IdleScript(cfg, s, s1, n);
      IdleScript(cfg, s, s1, n - 1);
      IdleOpened(cfg, s, s1, n - 1);
      OpenedNext(cfg, s, s1, n);
    }
  }

  lemma {:induction false} OpenedNext(cfg: Config, s: State, s1: State, n: nat)
    requires 0 < n <= |s.net.recvs| && n <= |s1.net.recvs|
    requires InHand(s, n) == InHand(s1, n) && InHand(s, n - 1) == InHand(s1, n - 1)
    requires Due(s, n) == Due(s1, n) && Opened(cfg, s, n - 1) == Opened(cfg, s1, n - 1)
    ensures Opened(cfg, s, n) == Opened(cfg, s1, n)
  {
    hide DecodeAll, InHand, Due, Idle;
  }

  lemma {:induction false} NothingDecodes(cfg: Config)
    ensures DecodeAll(cfg, []) == Decoded([], Cut([]))
  {
    hide DecodeOne;
    NothingIsShort(cfg);
  }

  lemma {:induction false} IdleCut(cfg: Config, s: State, s1: State, n: nat)
    requires OneTimeoutLater(cfg, s, s1)
    ensures CutAt(cfg, s, n) <==> CutAt(cfg, s1, n)
  {
    NothingDecodes(cfg);
    NoStep(s, s.net.now);
    hide DecodeAll, InHand, Due, Opened;
    if 0 < n <= |s.net.recvs| {
      IdleScript(cfg, s, s1, n);
      IdleOpened(cfg, s, s1, n);
      if n < |s.net.recvs| {
        IdleScript(cfg, s, s1, n + 1);
      }
    } else if n == 0 {
      IdleScript(cfg, s, s1, 0);
    }
  }

  // ---- Reading a whole script ----

  lemma {:induction false} WholeInHand(s: State)
    ensures InHand(s, |s.net.recvs|) == Whole(s)
  {
    assert s.net.recvs[..|s.net.recvs|] == s.net.recvs;
  }

  /** What reading gives: everything, or the frames before the first cut. */
  ghost predicate ReadsAs(cfg: Config, s: State, r: Reading) {
    && (NeverCut(cfg, s) ==> r == AllOf(cfg, s))
    && forall n | FirstCut(cfg, s, n) ::
         r == Reading(DecodeAll(cfg, InHand(s, n)).frames, ConnectionError(Incomplete))
  }

  lemma {:induction false} ReadsAsNext(cfg: Config, s: State, m: nat, f: Headers, s1: State, rest: Reading)
    requires Takes(cfg, s, s.net.now + cfg.timeout, m, f, s1) && ReadsAs(cfg, s1, rest)
    ensures ReadsAs(cfg, s, Reading([f] + rest.frames, rest.error))
  {
    hide DecodeOne, DecodeAll, InHand, Whole, CutAt, Opened, RunsOut;
    var deadline := s.net.now + cfg.timeout;
    WholeInHand(s);
    WholeInHand(s1);
    FirstStaysFirst(cfg, s, deadline, m, f, s1, |s.net.recvs| - m);
    assert m + (|s.net.recvs| - m) == |s.net.recvs|;
    AheadBytes(s, m, s1, 0);
    forall n: nat ensures CutAt(cfg, s, m + n) <==> CutAt(cfg, s1, n) {
      CutShifts(cfg, s, m, f, s1, n);
    }
    forall n: nat | FirstCut(cfg, s, n)
      ensures n >= m && FirstCut(cfg, s1, n - m) && n <= |s.net.recvs|
              && DecodeAll(cfg, InHand(s, n)).frames == [f] + DecodeAll(cfg, InHand(s1, n - m)).frames
    {
      CutIsInScript(cfg, s, n);
      if n < m {
        NoCutBefore(cfg, s, m, n);
      }
      assert m + (n - m) == n;
      FirstStaysFirst(cfg, s, deadline, m, f, s1, n - m);
      forall k: nat | k < n - m ensures !CutAt(cfg, s1, k) {
        assert !CutAt(cfg, s, m + k);
      }
    }
  }

  lemma {:induction false} CutIsInScript(cfg: Config, s: State, n: nat)
    requires CutAt(cfg, s, n)
    ensures n <= |s.net.recvs| && AllData(s.net.recvs[..n])
  {
  }

  lemma {:induction false} ReadsAsIdle(cfg: Config, s: State, s1: State, r: Reading)
    requires OneTimeoutLater(cfg, s, s1) && ReadsAs(cfg, s1, r)
    ensures ReadsAs(cfg, s, r)
  {
    hide DecodeAll, InHand, Whole, CutAt;
    WholeInHand(s);
    WholeInHand(s1);
    IdleScript(cfg, s, s1, |s.net.recvs|);
    IdleKeepsEnd(cfg, s, s1);
    forall n: nat ensures CutAt(cfg, s, n) <==> CutAt(cfg, s1, n) {
      IdleCut(cfg, s, s1, n);
    }
    forall n: nat | FirstCut(cfg, s, n)
      ensures FirstCut(cfg, s1, n) && n <= |s.net.recvs| && InHand(s, n) == InHand(s1, n)
    {
      CutIsInScript(cfg, s, n);
      IdleScript(cfg, s, s1, n);
    }
  }

  lemma {:induction false} ViolationReadsAs(cfg: Config, s: State, m: nat, e: Error)
    requires Fails(cfg, s, s.net.now + cfg.timeout, m, e) && DecodeOne(cfg, InHand(s, m)).Bad?
    ensures ReadsAs(cfg, s, Reading([], e))
  {
    hide DecodeOne, DecodeAll, InHand, Whole, Opened, RunsOut, EndOf, AllData;
    var deadline := s.net.now + cfg.timeout;
    WholeInHand(s);
    FailureStays(cfg, s, deadline, m, e, |s.net.recvs|);
    forall n: nat ensures !CutAt(cfg, s, n) {
      if n < m {
        NoCutBefore(cfg, s, m, n);
      } else if n <= |s.net.recvs| {
        FailureStays(cfg, s, deadline, m, e, n);
      }
    }
  }

  lemma {:induction false} CutReadsAs(cfg: Config, s: State, m: nat, e: Error)
    requires Fails(cfg, s, s.net.now + cfg.timeout, m, e) && DecodeOne(cfg, InHand(s, m)).Short?
    requires RunsOut(s, m, s.net.now + cfg.timeout)
    ensures ReadsAs(cfg, s, Reading([], e))
  {
    hide DecodeOne, DecodeAll, InHand, Whole, Opened, RunsOut, EndOf, AllData;
    DecodeAllStep(cfg, InHand(s, m));
    OpenedStays(cfg, s, m, m);
    assert CutAt(cfg, s, m);
    forall n: nat | n < m ensures !CutAt(cfg, s, n) {
      NoCutBefore(cfg, s, m, n);
    }
  }

  lemma {:induction false} NoCutAtEnd(cfg: Config, s: State, m: nat, n: nat)
    requires Waited(cfg, s, s.net.now + cfg.timeout, m) && DecodeOne(cfg, InHand(s, m)).Short?
    requires !RunsOut(s, m, s.net.now + cfg.timeout) && (m == |s.net.recvs| || !s.net.recvs[m].Data?)
    ensures !CutAt(cfg, s, n)
  {
    hide DecodeOne, DecodeAll, InHand, Opened, RunsOut, AllData, Received;
    if n < m {
      NoCutBefore(cfg, s, m, n);
    } else if n == m {
      DecodeAllStep(cfg, InHand(s, m));
      OpenedStays(cfg, s, m, m);
    } else if n <= |s.net.recvs| {
      NoDataBehind(s.net.recvs, m, n);
    }
  }

  lemma {:induction false} EndReadsAs(cfg: Config, s: State, m: nat, e: Error)
    requires Fails(cfg, s, s.net.now + cfg.timeout, m, e) && DecodeOne(cfg, InHand(s, m)).Short?
    requires !RunsOut(s, m, s.net.now + cfg.timeout)
    ensures ReadsAs(cfg, s, Reading([], e))
  {
    NothingBehind(s, m);
    hide DecodeOne, DecodeAll, InHand, Whole, Opened, RunsOut, EndOf, AllData, CutAt, Received;
    DecodeAllStep(cfg, InHand(s, m));
    forall n: nat ensures !CutAt(cfg, s, n) {
      NoCutAtEnd(cfg, s, m, n);
    }
  }

  lemma {:induction false} NoDataBehind(recvs: seq<RecvStep>, m: nat, n: nat)
    requires m < n <= |recvs| && !recvs[m].Data?
    ensures !AllData(recvs[..n])
  {
    assert recvs[..n][m] == recvs[m];
  }

  /** A read that fails: the script is cut right there, or never, and the decoder agrees. */
  lemma {:induction false} ReadsAsFailure(cfg: Config, s: State, m: nat, e: Error)
    requires Fails(cfg, s, s.net.now + cfg.timeout, m, e)
    ensures ReadsAs(cfg, s, Reading([], e))
  {
    hide DecodeOne, RunsOut, ReadsAs, Received;
    if DecodeOne(cfg, InHand(s, m)).Bad? {
      ViolationReadsAs(cfg, s, m, e);
    } else if RunsOut(s, m, s.net.now + cfg.timeout) {
      CutReadsAs(cfg, s, m, e);
    } else {
      EndReadsAs(cfg, s, m, e);
    }
  }

  /** Where the data ends the whole stream is in hand. */
  lemma {:induction false} NothingBehind(s: State, m: nat)
    requires m <= |s.net.recvs| && AllData(s.net.recvs[..m]) && (m == |s.net.recvs| || !s.net.recvs[m].Data?)
    ensures Whole(s) == InHand(s, m)
  {
    assert s.net.recvs[..m] + s.net.recvs[m..] == s.net.recvs;
    BytesConcat(s.net.recvs[..m], s.net.recvs[m..]);
  }

  lemma {:induction false} ReadingReadsAs(cfg: Config, s: State)
    requires s.sock
    ensures ReadsAs(cfg, s, ReadAll(cfg, s))
    decreases Fuel(s)
  {
    hide ReadFrame, ReadsAs, Takes, Fails, RunsOut, Fuel;
    var deadline := s.net.now + cfg.timeout;
    var (r, s1) := ReadFrame(cfg, s, deadline);
    var m := ReadFrameWaits(cfg, s, deadline);
    ReadFrameUsesFuel(cfg, s);
    if r.Ok? {
      ReadingReadsAs(cfg, s1);
      ReadsAsNext(cfg, s, m, r.value, s1, ReadAll(cfg, s1));
    } else if r == Err(Timeout) {
      TimeoutIsIdle(cfg, s);
      IdleRead(cfg, s);
      ReadingReadsAs(cfg, s1);
      ReadsAsIdle(cfg, s, s1, ReadAll(cfg, s1));
    } else {
      ReadsAsFailure(cfg, s, m, r.error);
    }
  }

  lemma {:induction false} IdleKeepsEnd(cfg: Config, s: State, s1: State)
    requires OneTimeoutLater(cfg, s, s1)
    ensures EndOf(s1.net.recvs) == EndOf(s.net.recvs)
  {
  }

  // ---- The theorems ----

  lemma {:induction false} DecodesPrefix(cfg: Config, a: seq<byte>, b: seq<byte>)
    ensures DecodeAll(cfg, a).frames <= DecodeAll(cfg, a + b).frames
    decreases |a|
  {
    hide DecodeOne, DecodeAll;
    DecodeAllStep(cfg, a);
    if DecodeOne(cfg, a).Good? {
      VerdictStays(cfg, a, b);
      DecodeAllStep(cfg, a + b);
      VerdictBounds(cfg, a);
      var used := DecodeOne(cfg, a).used;
      assert (a + b)[used..] == a[used..] + b;
      DecodesPrefix(cfg, a[used..], b);
    }
  }

  lemma {:induction false} InHandIsPrefix(cfg: Config, s: State, n: nat)
    requires n <= |s.net.recvs| && AllData(s.net.recvs[..n])
    ensures DecodeAll(cfg, InHand(s, n)).frames <= DecodeAll(cfg, Whole(s)).frames
  {
    hide Bytes, DecodeAll;
    BytesConcat(s.net.recvs[..n], s.net.recvs[n..]);
    assert s.net.recvs[..n] + s.net.recvs[n..] == s.net.recvs;
    assert Whole(s) == InHand(s, n) + Bytes(s.net.recvs[n..]);
    DecodesPrefix(cfg, InHand(s, n), Bytes(s.net.recvs[n..]));
  }

  /** One read along a script: a later read is cut only if this script cuts a frame, and the
      connection drops only at the end of the stream or at a cut. */
  lemma {:induction false} ReadOnScript(cfg: Config, s: State)
    requires s.sock
    ensures var (r, s1) := ReadFrame(cfg, s, s.net.now + cfg.timeout);
            match r
            case Err(ConnectionError(cause)) =>
              (r.error == EndOf(s.net.recvs) && s1.net.recvs == []) || (cause == Incomplete && !NeverCut(cfg, s))
            case Err(ProtocolError) => true
            case _ => s1.sock && EndOf(s1.net.recvs) == EndOf(s.net.recvs) && (NeverCut(cfg, s) ==> NeverCut(cfg, s1))
  {
    hide ReadFrame, Fails, RunsOut, CutAt, DecodeOne, DecodeAll, Whole, InHand, FirstCut, EndOf, Waited;
    var deadline := s.net.now + cfg.timeout;
    var (r, s1) := ReadFrame(cfg, s, deadline);
    var m := ReadFrameWaits(cfg, s, deadline);
    if r.Ok? {
      AheadBytes(s, m, s1, 0);
      forall n: nat ensures CutAt(cfg, s, m + n) <==> CutAt(cfg, s1, n) {
        CutShifts(cfg, s, m, r.value, s1, n);
      }
    } else if r == Err(Timeout) {
      TimeoutIsIdle(cfg, s);
      IdleRead(cfg, s);
      IdleKeepsEnd(cfg, s, s1);
      forall n: nat ensures CutAt(cfg, s, n) <==> CutAt(cfg, s1, n) {
        IdleCut(cfg, s, s1, n);
      }
    } else {
      ReadsAsFailure(cfg, s, m, r.error);
      DropAtTheEnd(cfg, s, deadline);
      EndIsNoCut(s.net.recvs);
    }
  }

  lemma {:induction false} EndIsNoCut(recvs: seq<RecvStep>)
    ensures EndOf(recvs) == ConnectionError(PeerClosed) || EndOf(recvs) == ConnectionError(ReadFailed)
  {
    if recvs != [] {
      EndIsNoCut(recvs[1..]);
    }
  }

  lemma {:induction false} DropAtTheEnd(cfg: Config, s: State, deadline: real)
    requires s.sock
    ensures var (r, s1) := ReadFrame(cfg, s, deadline);
            match r
            case Err(ConnectionError(cause)) =>
              (r.error == EndOf(s.net.recvs) && s1.net.recvs == []) || cause == Incomplete
            case Err(e) => e == Timeout || e == ProtocolError
            case _ => true
  {
    hide Pump, EndOf;
    PumpEnds(cfg, s, deadline);
    EndIsNoCut(s.net.recvs);
  }

  lemma {:induction false} PumpEnds(cfg: Config, s: State, deadline: real)
    requires s.sock
    ensures var (r, s1) := Pump(cfg, s, deadline);
            r.Ok? || r.error == Timeout || r.error == ProtocolError
            || (r.error == EndOf(s.net.recvs) && s1.net.recvs == [])
    decreases Max(0, FrameCap(cfg) - |s.buffer|)
  {
    hide DecodeOne;
    VerdictBounds(cfg, s.buffer);
    if DecodeOne(cfg, s.buffer).Short? {
      var (r, s1) := Recv(cfg, s, deadline);
      if r.Ok? {
        PumpEnds(cfg, s1.(buffer := s.buffer + r.value), deadline);
      }
    }
  }

  /** Cuts depend on the buffer and the script alone. */
  lemma {:induction false} CutIsOfScript(cfg: Config, s: State, s': State, n: nat)
    requires s'.buffer == s.buffer && s'.net.recvs == s.net.recvs
    ensures CutAt(cfg, s', n) <==> CutAt(cfg, s, n)
  {
    hide DecodeAll;
    if n <= |s.net.recvs| {
      OpenedIsOfScript(cfg, s, s', n);
    }
  }

  lemma {:induction false} CutsAreOfScript(cfg: Config, s: State, s': State)
    requires s'.buffer == s.buffer && s'.net.recvs == s.net.recvs
    ensures NeverCut(cfg, s') <==> NeverCut(cfg, s)
    ensures forall n :: FirstCut(cfg, s', n) <==> FirstCut(cfg, s, n)
  {
    forall n: nat ensures CutAt(cfg, s', n) <==> CutAt(cfg, s, n) {
      CutIsOfScript(cfg, s, s', n);
    }
    hide CutAt;
  }

  lemma {:induction false} OpenedIsOfScript(cfg: Config, s: State, s': State, n: nat)
    requires s'.buffer == s.buffer && s'.net.recvs == s.net.recvs && n <= |s.net.recvs|
    ensures Opened(cfg, s', n) - s'.net.now == Opened(cfg, s, n) - s.net.now
  {
    hide DecodeAll, Idle;
    if n > 0 {
      OpenedIsOfScript(cfg, s, s', n - 1);
      assert Due(s', n) - s'.net.now == Due(s, n) - s.net.now;
      assert Due(s', n) - Opened(cfg, s', n - 1) == Due(s, n) - Opened(cfg, s, n - 1);
    }
  }

  /** Fragmentation independence, exactly: for every peer, however it splits its bytes into
      receives, pauses between them and ends the stream, reading gives the frames of the
      one-shot decoder on the whole stream and its ending if and only if no frame is cut; and
      if one is, the frames complete at the first cut, and a dropped connection. */
  lemma {:induction false} ReadingIsDecoding(cfg: Config, s: State)
    requires s.sock
    ensures var r := ReadAll(cfg, s);
            && r.frames <= DecodeAll(cfg, Whole(s)).frames
            && (r == AllOf(cfg, s) <==> NeverCut(cfg, s))
            && forall n | FirstCut(cfg, s, n) ::
                 r == Reading(DecodeAll(cfg, InHand(s, n)).frames, ConnectionError(Incomplete))
  {
    hide ReadAll, DecodeAll, Whole, InHand, CutAt, EndOf;
    ReadingReadsAs(cfg, s);
    EndIsNoCut(s.net.recvs);
    if n: nat :| CutAt(cfg, s, n) {
      var first := SomeFirstCut(cfg, s, n);
      CutIsInScript(cfg, s, first);
      InHandIsPrefix(cfg, s, first);
    }
  }

  /** Two ways of cutting one stream into chunks and pauses agree as far as both read, and
      if neither cuts a frame they agree wholly, up to how the connection ends. */
  lemma {:induction false} ChunkingIsInvisible(cfg: Config, s: State, s': State)
    requires s.sock && s'.sock && Whole(s) == Whole(s')
    ensures var r, r' := ReadAll(cfg, s), ReadAll(cfg, s');
            && (r.frames <= r'.frames || r'.frames <= r.frames)
            && (NeverCut(cfg, s) ==> r'.frames <= r.frames)
            && (NeverCut(cfg, s) && NeverCut(cfg, s') ==>
                  r.frames == r'.frames && (EndOf(s.net.recvs) == EndOf(s'.net.recvs) ==> r == r'))
  {
    hide ReadAll, DecodeAll, NeverCut, EndOf;
    ReadingIsDecoding(cfg, s);
    ReadingIsDecoding(cfg, s');
    PrefixesCompare(ReadAll(cfg, s).frames, ReadAll(cfg, s').frames, DecodeAll(cfg, Whole(s)).frames);
  }

  lemma {:induction false} PrefixesCompare<T>(a: seq<T>, b: seq<T>, whole: seq<T>)
    requires a <= whole && b <= whole
    ensures a <= b || b <= a
  {
    assert a == whole[..|a|] && b == whole[..|b|];
  }

  /** Whatever the pauses, a stream whose every receive ends between two frames is read whole. */
  lemma {:induction false} WholeFramesArrive(cfg: Config, s: State)
    requires s.sock
    requires forall n: nat | n <= |s.net.recvs| && AllData(s.net.recvs[..n]) ::
               DecodeAll(cfg, InHand(s, n)).end.Violation? || DecodeAll(cfg, InHand(s, n)).end.rest == []
    ensures ReadAll(cfg, s) == AllOf(cfg, s)
  {
    hide ReadAll, DecodeAll, Whole, InHand, AllOf, AllData;
    ReadingIsDecoding(cfg, s);
  }

  /** So does what is read. */
  lemma {:induction false} ReadingIsOfScript(cfg: Config, s: State, s': State)
    requires s.sock && s'.sock && s'.buffer == s.buffer && s'.net == s.net
    ensures ReadAll(cfg, s') == ReadAll(cfg, s)
  {
    hide ReadAll, DecodeAll, CutAt, FirstCut, NeverCut, EndOf;
    ReadingIsDecoding(cfg, s);
    ReadingIsDecoding(cfg, s');
    CutsAreOfScript(cfg, s, s');
    assert AllOf(cfg, s') == AllOf(cfg, s);
    SomeCutOrNone(cfg, s);
    if first :| FirstCut(cfg, s, first) {
      CutInScript(cfg, s, first);
      assert InHand(s', first) == InHand(s, first);
    }
  }

  lemma {:induction false} SomeCutOrNone(cfg: Config, s: State)
    ensures NeverCut(cfg, s) || exists n :: FirstCut(cfg, s, n)
  {
    hide CutAt, FirstCut;
    if n: nat :| CutAt(cfg, s, n) {
      var first := SomeFirstCut(cfg, s, n);
    }
  }

  lemma {:induction false} CutInScript(cfg: Config, s: State, n: nat)
    requires FirstCut(cfg, s, n)
    ensures n <= |s.net.recvs|
  {
  }

  // ---- A frame cut by pauses all shorter than the timeout ----

  lemma {:induction false} PartIsShort(cfg: Config, b: seq<byte>, n: nat)
    requires DecodeOne(cfg, b).Good? && DecodeOne(cfg, b).used == |b| && n < |b|
    ensures DecodeOne(cfg, b[..n]).Short?
  {
    hide DecodeOne;
    if !DecodeOne(cfg, b[..n]).Short? {
      VerdictStays(cfg, b[..n], b[n..]);
      assert b[..n] + b[n..] == b;
      VerdictBounds(cfg, b[..n]);
    }
  }

  /** The frame `b` in two chunks, each after its own pause. */
  function InTwo(s: State, b: seq<byte>, n: nat, first: Duration, second: Duration): State
    requires 0 < n < |b| <= 4096
  {
    s.(net := s.net.(recvs := [Data(first, b[..n]), Data(second, b[n..])]))
  }

  /** A read's deadline runs from its start: a frame whose first part comes late in a read is
      cut, though no pause is as long as the timeout ... */
  lemma {:induction false} StraddlingFrameIsCut(cfg: Config, s: State, b: seq<byte>, n: nat)
    requires s.sock && s.buffer == [] && 0 < n < |b| <= 4096
    requires DecodeOne(cfg, b).Good? && DecodeOne(cfg, b).used == |b|
    ensures var late := InTwo(s, b, n, cfg.timeout * 0.75, cfg.timeout * 0.5);
            ReadAll(cfg, late) == Reading([], ConnectionError(Incomplete))
  {
    hide DecodeOne, ReadAll, DecodeAll;
    var late := InTwo(s, b, n, cfg.timeout * 0.75, cfg.timeout * 0.5);
    PartIsShort(cfg, b, n);
    TwoSteps(late);
    NothingDecodes(cfg);
    NoStep(late, late.net.now);
    DecodeAllStep(cfg, b[..n]);
    assert [] + b[..n] == b[..n];
    assert AllData(late.net.recvs) && InHand(late, 1) == b[..n];
    hide InHand, Due;
    assert Opened(cfg, late, 0) == late.net.now;
    assert Opened(cfg, late, 1) == late.net.now;
    assert CutAt(cfg, late, 1) && !CutAt(cfg, late, 0);
    assert FirstCut(cfg, late, 1);
    ReadingIsDecoding(cfg, late);
  }

  lemma {:induction false} TwoSteps(s: State)
    requires |s.net.recvs| == 2
    ensures Due(s, 1) == s.net.now + s.net.recvs[0].took
    ensures Due(s, 2) == s.net.now + s.net.recvs[0].took + s.net.recvs[1].took
    ensures AllData(s.net.recvs) ==>
              InHand(s, 1) == s.buffer + s.net.recvs[0].chunk
              && Whole(s) == s.buffer + s.net.recvs[0].chunk + s.net.recvs[1].chunk
  {
    OneStep(s);
    var all := s.net.recvs;
    assert all[..2] == all && all[1..][1..] == [];
    assert TotalTime(all[1..]) == all[1].took + TotalTime(all[1..][1..]);
    assert all[1].Data? ==> Bytes(all[1..]) == all[1].chunk + Bytes(all[1..][1..]);
    hide Bytes, TotalTime, Due;
  }

  /** ... while without the first pause the same chunks arrive whole. */
  lemma {:induction false} PromptFrameArrives(cfg: Config, s: State, b: seq<byte>, n: nat)
    requires s.sock && s.buffer == [] && 0 < n < |b| <= 4096
    requires DecodeOne(cfg, b).Good? && DecodeOne(cfg, b).used == |b|
    ensures var early := InTwo(s, b, n, 0.0, cfg.timeout * 0.5);
            ReadAll(cfg, early) == Reading([DecodeOne(cfg, b).frame], ConnectionError(PeerClosed))
  {
    hide DecodeOne, ReadAll, DecodeAll;
    var early := InTwo(s, b, n, 0.0, cfg.timeout * 0.5);
    PartIsShort(cfg, b, n);
    TwoSteps(early);
    NothingDecodes(cfg);
    NoStep(early, early.net.now);
    DecodeAllStep(cfg, b[..n]);
    DecodeAllStep(cfg, b);
    assert [] + b[..n] == b[..n] && b[..n] + b[n..] == b && b[|b|..] == [];
    assert AllData(early.net.recvs) && InHand(early, 1) == b[..n];
    assert early.net.recvs[1..][1..] == [];
    assert EndOf(early.net.recvs) == EndOf(early.net.recvs[1..]) == EndOf([]);
    WholeInHand(early);
    hide InHand, Due, Whole;
    assert Opened(cfg, early, 0) == early.net.now;
    assert Opened(cfg, early, 1) == early.net.now;
    assert !CutAt(cfg, early, 0) && !CutAt(cfg, early, 1) && !CutAt(cfg, early, 2);
    assert NeverCut(cfg, early);
    ReadingIsDecoding(cfg, early);
  }
}
