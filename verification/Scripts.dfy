/** The peer's script ahead of a client: what the next receives bring, how long they take,
    and how the wait for one frame goes along it. */
module Scripts {
  import opened Utf8
  import opened HeaderBlock
  import opened Framing
  import opened Transport

  predicate AllData(recvs: seq<RecvStep>) {
    forall i | 0 <= i < |recvs| :: recvs[i].Data?
  }

  /** The stream: every byte before the peer ends the connection or it breaks. */
  function Bytes(recvs: seq<RecvStep>): seq<byte> {
    if recvs == [] || !recvs[0].Data? then [] else recvs[0].chunk + Bytes(recvs[1..])
  }

  /** How a client that reads on sees the stream end: closed, as it does when the script runs
      out, or broken. */
  function EndOf(recvs: seq<RecvStep>): Error {
    if recvs == [] then ConnectionError(PeerClosed)
    else if recvs[0].Data? then EndOf(recvs[1..])
    else ConnectionError(if recvs[0].Broken? then ReadFailed else PeerClosed)
  }

  function TotalTime(recvs: seq<RecvStep>): (t: real)
    ensures t >= 0.0
  {
    if recvs == [] then 0.0 else recvs[0].took + TotalTime(recvs[1..])
  }

  lemma {:induction false} BytesConcat(a: seq<RecvStep>, b: seq<RecvStep>)
    requires AllData(a)
    ensures Bytes(a + b) == Bytes(a) + Bytes(b) && EndOf(a + b) == EndOf(b)
  {
    if a == [] {
      assert a + b == b;
    } else {
      assert (a + b)[1..] == a[1..] + b;
      BytesConcat(a[1..], b);
    }
  }

  lemma {:induction false} TotalTimeConcat(a: seq<RecvStep>, b: seq<RecvStep>)
    ensures TotalTime(a + b) == TotalTime(a) + TotalTime(b)
  {
    if a == [] {
      assert a + b == b;
    } else {
      assert (a + b)[1..] == a[1..] + b;
      TotalTimeConcat(a[1..], b);
    }
  }

  // ---- Reading uses the script up ----

  /** Everything a reading client can still use up: bytes, steps, waiting events, and the
      whole seconds the peer still lets it wait. */
  function Fuel(s: State): nat {
    |s.buffer| + |Bytes(s.net.recvs)| + |s.net.recvs| + |s.pending| + TotalTime(s.net.recvs).Floor
  }

  lemma {:induction false} PumpUsesFuel(cfg: Config, s: State, deadline: real)
    ensures var (r, s1) := Pump(cfg, s, deadline);
            && (r.Ok? ==> Fuel(s1) < Fuel(s))
            && (r == Err(Timeout) ==> |s1.buffer| >= |s.buffer|)
            && (r == Err(Timeout) && s1.buffer == [] && s.net.now + 1.0 <= deadline ==> Fuel(s1) < Fuel(s))
    decreases Max(0, FrameCap(cfg) - |s.buffer|)
  {
    hide DecodeOne;
    VerdictBounds(cfg, s.buffer);
    if DecodeOne(cfg, s.buffer).Short? {
      var (r, s1) := Recv(cfg, s, deadline);
      if r.Ok? {
        PumpUsesFuel(cfg, s1.(buffer := s.buffer + r.value), deadline);
      }
    }
  }

  lemma {:induction false} ReadFrameUsesFuel(cfg: Config, s: State)
    ensures var (r, s1) := ReadFrame(cfg, s, s.net.now + cfg.timeout);
            r.Ok? || r == Err(Timeout) ==> Fuel(s1) < Fuel(s)
  {
    hide Pump;
    PumpUsesFuel(cfg, s, s.net.now + cfg.timeout);
  }

  // ---- The script ahead ----

  /** The bytes in hand after `n` more receives, had no frame been taken. */
  function InHand(s: State, n: nat): seq<byte>
    requires n <= |s.net.recvs|
  {
    s.buffer + Bytes(s.net.recvs[..n])
  }

  /** When the next `n` steps have come. */
  function Due(s: State, n: nat): real
    requires n <= |s.net.recvs|
  {
    s.net.now + TotalTime(s.net.recvs[..n])
  }

  /** Every byte still to be read, up to the end of the stream. */
  function Whole(s: State): seq<byte> {
    s.buffer + Bytes(s.net.recvs)
  }

  /** The next `n` steps bring data and come in time, each receive starting before the deadline. */
  ghost predicate Received(s: State, n: nat, deadline: real) {
    n <= |s.net.recvs| && AllData(s.net.recvs[..n])
    && (n > 0 ==> Due(s, n - 1) < deadline && Due(s, n) <= deadline)
  }

  /** Behind `n` steps the deadline passes before anything else comes. */
  ghost predicate RunsOut(s: State, n: nat, deadline: real)
    requires n <= |s.net.recvs|
  {
    Due(s, n) >= deadline || (n < |s.net.recvs| && Due(s, n + 1) > deadline)
  }

  /** `s1` has the script of `s` some `m` steps of data later. */
  ghost predicate Ahead(s: State, m: nat, s1: State) {
    m <= |s.net.recvs| && AllData(s.net.recvs[..m]) && s1.net.recvs == s.net.recvs[m..] && s1.net.now == Due(s, m)
  }

  lemma {:induction false} AheadBytes(s: State, m: nat, s1: State, n: nat)
    requires Ahead(s, m, s1) && m + n <= |s.net.recvs|
    ensures InHand(s, m + n) == InHand(s, m) + Bytes(s1.net.recvs[..n])
    ensures Due(s, m + n) == Due(s1, n)
    ensures EndOf(s.net.recvs) == EndOf(s1.net.recvs)
  {
    hide Bytes, TotalTime, AllData;
    assert s.net.recvs[..m] + s.net.recvs[m..] == s.net.recvs;
    BytesConcat(s.net.recvs[..m], s.net.recvs[m..]);
    var a, b := s.net.recvs[..m], s1.net.recvs[..n];
    assert a + b == s.net.recvs[..m + n];
    BytesConcat(a, b);
    TotalTimeConcat(a, b);
  }

  lemma {:induction false} AllDataConcat(a: seq<RecvStep>, b: seq<RecvStep>)
    ensures AllData(a + b) <==> AllData(a) && AllData(b)
  {
    assert forall i | 0 <= i < |a| :: (a + b)[i] == a[i];
    assert forall i | 0 <= i < |b| :: (a + b)[|a| + i] == b[i];
  }

  lemma {:induction false} AheadReceived(s: State, m: nat, deadline: real, s1: State, n: nat)
    requires Ahead(s, m, s1) && Received(s, m, deadline) && m + n <= |s.net.recvs|
    ensures Received(s1, n, deadline) <==> Received(s, m + n, deadline)
  {
    AllDataConcat(s.net.recvs[..m], s1.net.recvs[..n]);
    assert s.net.recvs[..m] + s1.net.recvs[..n] == s.net.recvs[..m + n];
    if n == 0 {
      NoStep(s1, deadline);
      assert m + n == m;
    } else {
      AheadBytes(s, m, s1, n - 1);
      AheadBytes(s, m, s1, n);
      assert m + (n - 1) == m + n - 1;
      hide InHand, Due, AllData;
    }
  }

  lemma {:induction false} AheadRunsOut(s: State, m: nat, deadline: real, s1: State, n: nat)
    requires Ahead(s, m, s1) && m + n <= |s.net.recvs|
    ensures RunsOut(s1, n, deadline) <==> RunsOut(s, m + n, deadline)
  {
    hide TotalTime, InHand;
    AheadBytes(s, m, s1, n);
    if m + n < |s.net.recvs| {
      AheadBytes(s, m, s1, n + 1);
    }
  }

  lemma {:induction false} DueGrows(s: State, m: nat, n: nat)
    requires m <= n <= |s.net.recvs|
    ensures Due(s, m) <= Due(s, n)
  {
    assert s.net.recvs[..m] + s.net.recvs[m..n] == s.net.recvs[..n];
    TotalTimeConcat(s.net.recvs[..m], s.net.recvs[m..n]);
  }

  lemma {:induction false} NoStep(s: State, deadline: real)
    ensures InHand(s, 0) == s.buffer && Due(s, 0) == s.net.now && Received(s, 0, deadline) && Ahead(s, 0, s)
  {
    assert s.net.recvs[..0] == [] && s.buffer + [] == s.buffer;
  }

  lemma {:induction false} OneStep(s: State)
    requires s.net.recvs != []
    ensures Due(s, 1) == s.net.now + s.net.recvs[0].took
    ensures s.net.recvs[0].Data? ==> InHand(s, 1) == s.buffer + s.net.recvs[0].chunk
  {
    var one := s.net.recvs[..1];
    assert one[1..] == [];
    assert one[0].Data? ==> Bytes(one) == one[0].chunk + Bytes(one[1..]);
    assert TotalTime(one) == one[0].took + TotalTime(one[1..]);
  }

  // ---- One frame ----

  /** How a wait for one frame goes: `m` receives bring data, and only the last may end it. */
  ghost predicate Waited(cfg: Config, s: State, deadline: real, m: nat) {
    m <= |s.net.recvs| && Received(s, m, deadline) && (m > 0 ==> DecodeOne(cfg, InHand(s, m - 1)).Short?)
  }

  lemma {:induction false} RecvIsAhead(cfg: Config, s: State, deadline: real)
    requires s.sock && s.net.now <= deadline && deadline - s.net.now <= cfg.timeout
    ensures var (r, s1) := Recv(cfg, s, deadline);
            match r
            case Ok(chunk) =>
              s.net.recvs != [] && s1 == s.(net := s1.net) && Ahead(s, 1, s1) && Received(s, 1, deadline)
              && InHand(s, 1) == s.buffer + chunk
            case Err(Timeout) => RunsOut(s, 0, deadline) && s1 == s.(net := s1.net)
            case Err(e) =>
              !RunsOut(s, 0, deadline) && (s.net.recvs == [] || !s.net.recvs[0].Data?) && e == EndOf(s.net.recvs)
  {
    NoStep(s, deadline);
    if s.net.recvs != [] {
      OneStep(s);
      assert s.net.recvs[..1][0] == s.net.recvs[0];
    }
    hide InHand, Due, Bytes, TotalTime;
  }

  lemma {:induction false} OneMore(s: State, deadline: real, s2: State, n: nat)
    requires Ahead(s, 1, s2) && s2.buffer == InHand(s, 1) && n <= |s2.net.recvs|
    requires Received(s, 1, deadline)
    ensures InHand(s, 1 + n) == InHand(s2, n)
    ensures Received(s, 1 + n, deadline) <==> Received(s2, n, deadline)
    ensures RunsOut(s, 1 + n, deadline) <==> RunsOut(s2, n, deadline)
    ensures EndOf(s.net.recvs) == EndOf(s2.net.recvs)
    ensures n < |s2.net.recvs| ==> s2.net.recvs[n] == s.net.recvs[1 + n]
  {
    AheadBytes(s, 1, s2, n);
    AheadReceived(s, 1, deadline, s2, n);
    AheadRunsOut(s, 1, deadline, s2, n);
    hide Due, Received, Bytes, RunsOut;
  }

  lemma {:induction false} AheadTwice(s: State, s2: State, n: nat, s3: State)
    requires Ahead(s, 1, s2) && Ahead(s2, n, s3)
    ensures Ahead(s, 1 + n, s3)
  {
    AheadBytes(s, 1, s2, n);
    hide Due, Bytes;
    assert s.net.recvs[1..][n..] == s.net.recvs[1 + n..];
  }

  lemma {:induction false} PumpWaits(cfg: Config, s: State, deadline: real) returns (m: nat)
    requires s.sock && s.net.now <= deadline && deadline - s.net.now <= cfg.timeout
    ensures var (r, s1) := Pump(cfg, s, deadline);
            && Waited(cfg, s, deadline, m)
            && var v := DecodeOne(cfg, InHand(s, m));
               match r
               case Ok(f) =>
                 v.Good? && v.frame == f && v.used <= |InHand(s, m)| && Ahead(s, m, s1)
                 && s1 == s.(buffer := InHand(s, m)[v.used..], net := s1.net)
               case Err(Timeout) =>
                 v.Short? && s1 == s.(buffer := InHand(s, m), net := s1.net) && RunsOut(s, m, deadline)
               case Err(ProtocolError) => v.Bad?
               case Err(e) =>
                 v.Short? && !RunsOut(s, m, deadline) && (m == |s.net.recvs| || !s.net.recvs[m].Data?)
                 && e == EndOf(s.net.recvs)
    decreases Max(0, FrameCap(cfg) - |s.buffer|)
  {
    hide DecodeOne, Due, InHand, Received, Ahead, RunsOut, Recv;
    VerdictBounds(cfg, s.buffer);
    NoStep(s, deadline);
    m := 0;
    if DecodeOne(cfg, s.buffer).Good? {
      SameAhead(s, Pump(cfg, s, deadline).1);
    }
    if DecodeOne(cfg, s.buffer).Short? {
      var (r, s1) := Recv(cfg, s, deadline);
      RecvIsAhead(cfg, s, deadline);
      if r.Ok? {
        var s2 := s1.(buffer := s.buffer + r.value);
        assert Pump(cfg, s, deadline) == Pump(cfg, s2, deadline);
        SameAhead1(s, deadline, s1, s2);
        var rest := PumpWaits(cfg, s2, deadline);
        m := 1 + rest;
        OneMore(s, deadline, s2, rest);
        var (r3, s3) := Pump(cfg, s, deadline);
        if r3.Ok? {
          AheadTwice(s, s2, rest, s3);
        }
        if rest > 0 {
          OneMore(s, deadline, s2, rest - 1);
        }
      }
    }
  }

  lemma {:induction false} SameAhead(s: State, s1: State)
    requires s1.net == s.net
    ensures Ahead(s, 0, s1)
  {
    NoStep(s, s.net.now);
  }

  lemma {:induction false} SameAhead1(s: State, deadline: real, s1: State, s2: State)
    requires Ahead(s, 1, s1) && s2.net == s1.net && Received(s, 1, deadline)
    ensures Ahead(s, 1, s2) && s2.net.now <= deadline && s2.net.now >= s.net.now
  {
  }

  /** Frame `f` is complete after `m` receives, and the client is then `s1`. */
  ghost predicate Takes(cfg: Config, s: State, deadline: real, m: nat, f: Headers, s1: State) {
    && Waited(cfg, s, deadline, m) && Ahead(s, m, s1)
    && var v := DecodeOne(cfg, InHand(s, m));
       v.Good? && v.frame == f && v.used <= |InHand(s, m)| && s1.buffer == InHand(s, m)[v.used..]
  }

  /** The wait ends in error `e` after `m` receives: the bytes in hand break the protocol, or
      time runs out on part of a frame, or the stream ends. */
  ghost predicate Fails(cfg: Config, s: State, deadline: real, m: nat, e: Error) {
    && Waited(cfg, s, deadline, m)
    && match DecodeOne(cfg, InHand(s, m))
       case Good(_, _) => false
       case Bad => e == ProtocolError
       case Short =>
         if RunsOut(s, m, deadline) then e == ConnectionError(Incomplete) && InHand(s, m) != []
         else e == EndOf(s.net.recvs) && (m == |s.net.recvs| || !s.net.recvs[m].Data?)
  }

  lemma {:induction false} ReadFrameWaits(cfg: Config, s: State, deadline: real) returns (m: nat)
    requires s.sock && s.net.now < deadline && deadline - s.net.now <= cfg.timeout
    ensures var (r, s1) := ReadFrame(cfg, s, deadline);
            match r
            case Ok(f) => Takes(cfg, s, deadline, m, f, s1) && s1 == s.(buffer := s1.buffer, net := s1.net)
            case Err(Timeout) => s.buffer == [] && RunsOut(s, 0, deadline)
            case Err(e) => Fails(cfg, s, deadline, m, e)
  {
    hide Pump, DecodeOne, Received, RunsOut;
    m := PumpWaits(cfg, s, deadline);
    if ReadFrame(cfg, s, deadline).0 == Err(Timeout) {
      NothingInHand(s, deadline, m);
    }
  }

  /** Chunks are never empty, so nothing in hand means nothing received. */
  lemma {:induction false} NothingInHand(s: State, deadline: real, m: nat)
    requires m <= |s.net.recvs| && Received(s, m, deadline) && InHand(s, m) == []
    ensures s.buffer == [] && m == 0
  {
  }

  /** Before a frame is complete the stream decodes to nothing. */
  lemma {:induction false} ShortBefore(cfg: Config, s: State, deadline: real, m: nat, n: nat)
    requires Waited(cfg, s, deadline, m) && n < m
    ensures DecodeOne(cfg, InHand(s, n)).Short?
    ensures DecodeAll(cfg, InHand(s, n)) == Decoded([], Cut(InHand(s, n)))
    ensures s.net.recvs[n].Data? && !RunsOut(s, n, deadline)
  {
    hide DecodeOne, Bytes, TotalTime;
    var a, b := s.net.recvs[..n], s.net.recvs[n..m - 1];
    assert a + b == s.net.recvs[..m - 1];
    BytesConcat(a, b);
    assert InHand(s, m - 1) == InHand(s, n) + Bytes(b);
    if !DecodeOne(cfg, InHand(s, n)).Short? {
      VerdictStays(cfg, InHand(s, n), Bytes(b));
    }
    DecodeAllStep(cfg, InHand(s, n));
    DueGrows(s, n, m - 1);
    DueGrows(s, n + 1, m);
    assert s.net.recvs[..m][n].Data?;
  }

  /** Once the first frame is complete it stays first. */
  lemma {:induction false} FirstStaysFirst(cfg: Config, s: State, deadline: real, m: nat, f: Headers, s1: State, n: nat)
    requires Takes(cfg, s, deadline, m, f, s1) && m + n <= |s.net.recvs|
    ensures var d, d1 := DecodeAll(cfg, InHand(s, m + n)), DecodeAll(cfg, InHand(s1, n));
            d.frames == [f] + d1.frames && d.end == d1.end
  {
    hide DecodeOne, DecodeAll, Bytes, TotalTime;
    AheadBytes(s, m, s1, n);
    var more := Bytes(s1.net.recvs[..n]);
    VerdictStays(cfg, InHand(s, m), more);
    DecodeAllStep(cfg, InHand(s, m + n));
    var used := DecodeOne(cfg, InHand(s, m)).used;
    assert (InHand(s, m) + more)[used..] == InHand(s1, n);
  }

  /** A wait that has failed has decoded nothing, and no later byte changes that. */
  lemma {:induction false} FailureStays(cfg: Config, s: State, deadline: real, m: nat, e: Error, n: nat)
    requires Fails(cfg, s, deadline, m, e) && m <= n <= |s.net.recvs|
    ensures DecodeOne(cfg, InHand(s, m)).Bad? ==> DecodeAll(cfg, InHand(s, n)) == Decoded([], Violation)
    ensures n == m ==> DecodeAll(cfg, InHand(s, n)).frames == []
    ensures n > m && Received(s, n, deadline) ==> DecodeOne(cfg, InHand(s, m)).Bad?
  {
    hide DecodeOne, DecodeAll, TotalTime, Bytes, Due, RunsOut;
    DecodeAllStep(cfg, InHand(s, n));
    if DecodeOne(cfg, InHand(s, m)).Bad? {
      var a, b := s.net.recvs[..m], s.net.recvs[m..n];
      assert a + b == s.net.recvs[..n];
      BytesConcat(a, b);
      assert InHand(s, n) == InHand(s, m) + Bytes(b);
      VerdictStays(cfg, InHand(s, m), Bytes(b));
    } else if n > m && Received(s, n, deadline) {
      NotReceivedBeyond(s, deadline, m, n);
    }
  }

  /** Steps received in time are data, and leave time before each of them. */
  lemma {:induction false} NotReceivedBeyond(s: State, deadline: real, m: nat, n: nat)
    requires Received(s, n, deadline) && m < n
    ensures s.net.recvs[m].Data? && !RunsOut(s, m, deadline)
  {
    assert s.net.recvs[..n][m].Data?;
    DueGrows(s, m, n - 1);
    DueGrows(s, m + 1, n);
    hide TotalTime;
  }

  /** If the first frame is complete in time, that is what the read returns. */
  lemma {:induction false} ReadFrameTakesFirst(cfg: Config, s: State, deadline: real, n: nat)
    requires s.sock && s.net.now < deadline && deadline - s.net.now <= cfg.timeout
    requires Waited(cfg, s, deadline, n) && DecodeOne(cfg, InHand(s, n)).Good?
    ensures ReadFrame(cfg, s, deadline).0 == Ok(DecodeOne(cfg, InHand(s, n)).frame)
  {
    hide ReadFrame, DecodeOne, InHand, RunsOut, Received;
    var m := ReadFrameWaits(cfg, s, deadline);
    NothingIsShort(cfg);
    NoStep(s, deadline);
    if n > 0 {
      ShortBefore(cfg, s, deadline, n, 0);
    }
    if ReadFrame(cfg, s, deadline).0 != Err(Timeout) {
      if m < n {
        ShortBefore(cfg, s, deadline, n, m);
      } else if n < m {
        ShortBefore(cfg, s, deadline, m, n);
      }
    }
  }

  /** If the bytes in hand break the protocol in time, so does the read. */
  lemma {:induction false} ReadFrameFindsBad(cfg: Config, s: State, deadline: real, n: nat)
    requires s.sock && s.net.now < deadline && deadline - s.net.now <= cfg.timeout
    requires Waited(cfg, s, deadline, n) && DecodeOne(cfg, InHand(s, n)).Bad?
    ensures ReadFrame(cfg, s, deadline).0 == Err(ProtocolError)
  {
    hide ReadFrame, DecodeOne, InHand, RunsOut, Received;
    var m := ReadFrameWaits(cfg, s, deadline);
    NothingIsShort(cfg);
    NoStep(s, deadline);
    if n > 0 {
      ShortBefore(cfg, s, deadline, n, 0);
    }
    if ReadFrame(cfg, s, deadline).0 != Err(Timeout) {
      if m < n {
        ShortBefore(cfg, s, deadline, n, m);
      } else if n < m {
        ShortBefore(cfg, s, deadline, m, n);
      }
    }
  }
}
