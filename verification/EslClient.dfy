/** The client object, step by step as the code runs it, proved against the
    transport specification: two-phase reads over one growing buffer. */
module EslClient {
  import opened Text
  import opened Utf8
  import opened HeaderBlock
  import opened Framing
  import opened Transport
  import opened TransportLaws
  import Commands
  import Decimal

  /** Bytes the buffer may ever hold. */
  function BufferCap(cfg: Config): nat {
    Max(cfg.maxHeader, cfg.maxBody) + 4095
  }

  const END: seq<byte> := [LF, LF]

  class ESLClient {
    const cfg: Config
    var sock: bool
    var connected: bool
    var authenticated: bool
    var buffer: seq<byte>
    var pending: seq<Held>
    var pendingBytes: int
    var net: Net
    ghost var log: seq<Taken>
    ghost var peak: nat  // the most bytes the buffer has held

    ghost function S(): State
      reads this
    {
      State(sock, connected, authenticated, buffer, pending, pendingBytes, net, log)
    }

    ghost predicate Valid()
      reads this
    {
      |buffer| <= peak <= BufferCap(cfg) && (!sock ==> buffer == [])
    }

    constructor (config: Config, environment: Net)
      ensures cfg == config && net == environment
      ensures Valid() && Canonical(S())
    {
      cfg := config;
      net := environment;
      sock, connected, authenticated := false, false, false;
      buffer, pending, pendingBytes := [], [], 0;
      log, peak := [], 0;
    }

    method Close()
      requires Valid()
      modifies this
      ensures Valid() && S() == Transport.Close(old(S()))
    {
      connected, authenticated := false, false;
      buffer, pending, pendingBytes := [], [], 0;
      sock := false;
    }

    method RaiseProtocolError() returns (e: Error)
      requires Valid()
      modifies this
      ensures Valid() && e == ProtocolError && S() == Transport.Close(old(S()))
    {
      buffer := [];
      Close();
      e := ProtocolError;
    }

    // ---- Socket calls ----

    method Recv(deadline: real) returns (r: Result<Chunk>)
      requires Valid()
      modifies this
      ensures Valid() && (r, S()) == Transport.Recv(cfg, old(S()), deadline)
    {
      if !sock {
        return Err(ConnectionError(NotConnected));
      }
      var remaining := deadline - net.now;
      if remaining <= 0.0 {
        return Err(Timeout);
      }
      var step, window := NextRecv(net), RMin(remaining, cfg.timeout);
      net := AfterRecv(net, window);
      if step.took > window {
        return Err(Timeout);
      }
      match step {
        case Broken(_) =>
          Close();
          r := Err(ConnectionError(ReadFailed));
        case Eof(_) =>
          Close();
          r := Err(ConnectionError(PeerClosed));
        case Data(_, chunk) =>
          r := Ok(chunk);
      }
    }

    method Send(text: string) returns (r: Result<()>)
      requires Valid()
      modifies this
      ensures Valid() && (r, S()) == Transport.Send(old(S()), text)
    {
      if !sock {
        return Err(ConnectionError(NotConnected));
      }
      var step := if net.sends == [] then SendBroken(0.0) else net.sends[0];
      var inTime := step.took <= net.sockTimeout;
      net := Elapse(net, step.took).(
        sends := if net.sends == [] then [] else net.sends[1..],
        sent := net.sent + [text]);
      if step.SendBroken? || !inTime {
        Close();
        return Err(ConnectionError(SendFailed));
      }
      return Ok(());
    }

    // ---- Reading one frame ----

    /** The header block, taken out of the buffer together with its terminator. */
    method ReadUntil(deadline: real) returns (r: Result<seq<byte>>)
      requires Valid()
      modifies this
      ensures Valid()
      ensures r.Err? ==> Pump(cfg, old(S()), deadline) == (Err(r.error), S())
      ensures r.Ok? ==>
                var whole := r.value + END + buffer;
                && Pump(cfg, old(S()), deadline) == Pump(cfg, S().(buffer := whole), deadline)
                && IndexOfPair(whole, LF) == |r.value| && |r.value| + 2 <= cfg.maxHeader
                && sock
    {
      hide DecodeOne, DecodeBody, IndexOfPair, Pump, Transport.Recv;
      while true
        invariant Valid()
        invariant Pump(cfg, S(), deadline) == Pump(cfg, old(S()), deadline)
        decreases Max(0, cfg.maxHeader - |buffer|)
      {
        var idx := IndexOfPair(buffer, LF);
        HeaderCapIsExact(cfg, buffer);
        PumpVerdict(cfg, S(), deadline);
        if idx >= 0 {
          if idx + 2 > cfg.maxHeader {
            var e := RaiseProtocolError();
            return Err(e);
          }
          var block := buffer[..idx];
          assert buffer == block + END + buffer[idx + 2..];
          buffer := buffer[idx + 2..];
          return Ok(block);
        }
        if |buffer| >= cfg.maxHeader {
          var e := RaiseProtocolError();
          return Err(e);
        }
        PumpReceives(cfg, S(), deadline);
        ghost var before := S();
        var chunk := Recv(deadline);
        if chunk.Err? {
          return Err(chunk.error);
        }
        assert Pump(cfg, before, deadline) == Pump(cfg, S().(buffer := buffer + chunk.value), deadline);
        buffer := buffer + chunk.value;
        peak := Max(peak, |buffer|);
      }
    }

    /** `n` more bytes behind a header `head` that is already out of the buffer. */
    method ReadExact(n: nat, deadline: real, ghost head: seq<byte>) returns (r: Result<seq<byte>>)
      requires Valid() && sock && n <= cfg.maxBody
      requires forall b: seq<byte> | |b| < n :: DecodeOne(cfg, head + b) == Short
      modifies this
      ensures Valid()
      ensures var start := old(S()).(buffer := head + old(buffer));
              && (r.Ok? ==> |r.value| == n && sock
                            && Pump(cfg, start, deadline)
                               == Pump(cfg, S().(buffer := head + r.value + buffer), deadline))
              && (r.Err? ==>
                    Pump(cfg, start, deadline)
                    == (Err(r.error), if r.error == Timeout then S().(buffer := head + buffer) else S()))
    {
      hide DecodeOne, Pump, Transport.Recv;
      ghost var start := S().(buffer := head + buffer);
      while |buffer| < n
        invariant Valid() && sock
        invariant Pump(cfg, start, deadline) == Pump(cfg, S().(buffer := head + buffer), deadline)
        decreases n - |buffer|
      {
        PumpBehindHead(cfg, S(), head, deadline);
        ghost var before := buffer;
        var chunk := Recv(deadline);
        if chunk.Err? {
          return Err(chunk.error);
        }
        buffer := buffer + chunk.value;
        peak := Max(peak, |buffer|);
        assert head + before + chunk.value == head + buffer;
      }
      var block := buffer[..n];
      assert head + buffer == head + block + buffer[n..];
      buffer := buffer[n..];
      r := Ok(block);
    }

    /** One block's lines into a map, in one pass. */
    static method ParseHeaders(text: string, decodeValues: bool) returns (out: Headers)
      ensures out == Parse(text, decodeValues)
    {
      hide Split, ParseLine;
      out := map[];
      var lines := Split(text, '\n');
      ghost var results := ParseLines(lines, decodeValues);
      for i := 0 to |lines|
        invariant out == Collect(results[..i])
      {
        assert results[..i + 1][..i] == results[..i];
        var field := ParseLine(lines[i], decodeValues);
        if field.None? {
          continue;
        }
        out := out[field.value.0 := field.value.1];
      }
      assert results[..|lines|] == results;
    }

    method ParseContentLength(value: string) returns (r: Result<nat>)
      requires Valid()
      modifies this
      ensures Valid()
      ensures match Decimal.ContentLength(value, cfg.maxBody)
              case None => r == Err(ProtocolError) && S() == Transport.Close(old(S()))
              case Some(n) => r == Ok(n) && n <= cfg.maxBody && S() == old(S())
    {
      match Decimal.ContentLength(value, cfg.maxBody) {
        case None =>
          var e := RaiseProtocolError();
          r := Err(e);
        case Some(n) =>
          Decimal.ContentLengthExact(value, cfg.maxBody);
          r := Ok(n);
      }
    }

    /** The declared body of a header block that is already out of the buffer. */
    method ReadBody(headers: Headers, n: nat, deadline: real, ghost header: seq<byte>) returns (r: Result<Headers>)
      requires Valid() && sock && 0 < n <= cfg.maxBody
      requires "Content-Length" in headers && Decimal.ContentLength(headers["Content-Length"], cfg.maxBody) == Some(n)
      requires |header| + 2 <= cfg.maxHeader && |header| + 2 + n <= cfg.maxFrame
      requires headers == Parse(Decode(header), false) && IndexOfPair(header + END + buffer, LF) == |header|
      modifies this
      ensures Valid()
      ensures var start := old(S()).(buffer := header + END + old(buffer));
              Pump(cfg, start, deadline)
              == (r, if r == Err(Timeout) then S().(buffer := header + END + buffer) else S())
    {
      hide DecodeOne, Parse, Decode, DecodeBody, Pump;
      ghost var head, before := header + END, buffer;
      forall b: seq<byte> | |b| < n ensures DecodeOne(cfg, head + b) == Short {
        HeaderStays(header, before, b);
        VerdictBehindHeader(cfg, header, b);
        BodyVerdict(cfg, headers, head + b, |head|);
      }
      var body := ReadExact(n, deadline, head);
      if body.Err? {
        return Err(body.error);
      }
      ghost var rest := body.value + buffer;
      ghost var whole := head + rest;
      assert whole == head + body.value + buffer;
      HeaderStays(header, before, rest);
      VerdictBehindHeader(cfg, header, rest);
      BodyVerdict(cfg, headers, whole, |head|);
      PumpVerdict(cfg, S().(buffer := whole), deadline);
      assert whole[|head|..|head| + n] == body.value && whole[|head| + n..] == buffer;
      r := Ok(headers["_body" := Decode(body.value)]);
    }

    /** The guarded part of a frame read. `whole` is what the decoder still has in hand. */
    method ReadHeaderAndBody(deadline: real) returns (r: Result<Headers>, headerConsumed: bool, ghost whole: seq<byte>)
      requires Valid()
      modifies this
      ensures Valid()
      ensures r != Err(Timeout) ==> Pump(cfg, old(S()), deadline) == (r, S())
      ensures r == Err(Timeout) ==> Pump(cfg, old(S()), deadline) == (r, S().(buffer := whole))
                                    && (whole != [] <==> headerConsumed || buffer != [])
                                    && (!headerConsumed ==> whole == buffer)
    {
      hide DecodeOne, Parse, Decode, DecodeBody, Pump, Transport.Close;
      var header := ReadUntil(deadline);
      whole, headerConsumed := buffer, false;
      if header.Err? {
        return Err(header.error), false, whole;
      }
      headerConsumed := true;
      whole := header.value + END + buffer;
      var headerSize := |header.value| + 2;
      VerdictBehindHeader(cfg, header.value, buffer);
      PumpVerdict(cfg, S().(buffer := whole), deadline);
      assert whole[headerSize..] == buffer;
      if headerSize > cfg.maxFrame {
        CloseForgetsBuffer(S(), whole);
        var e := RaiseProtocolError();
        return Err(e), true, whole;
      }
      var headers := ParseHeaders(Decode(header.value), false);
      BodyVerdict(cfg, headers, whole, headerSize);
      if "Content-Length" !in headers {
        return Ok(headers), true, whole;
      }
      CloseForgetsBuffer(S(), whole);
      var length := ParseContentLength(headers["Content-Length"]);
      if length.Err? {
        return Err(length.error), true, whole;
      }
      var n := length.value;
      if headerSize + n > cfg.maxFrame {
        var e := RaiseProtocolError();
        return Err(e), true, whole;
      }
      if n == 0 {
        return Ok(headers), true, whole;
      }
      r := ReadBody(headers, n, deadline, header.value);
      whole := header.value + END + buffer;
    }

    /** A timeout with part of a frame in hand closes; the socket timeout is restored
        on every exit that keeps the socket. */
    method ReadFrame(deadline: Option<real>) returns (r: Result<Headers>)
      requires Valid()
      modifies this
      ensures Valid()
      ensures var limit := if deadline.None? then old(net.now) + cfg.timeout else deadline.value;
              (r, S()) == Transport.ReadFrame(cfg, old(S()), limit)
    {
      hide Pump;
      var limit := if deadline.None? then net.now + cfg.timeout else deadline.value;
      var headerConsumed: bool;
      ghost var whole: seq<byte>;
      r, headerConsumed, whole := ReadHeaderAndBody(limit);
      if r == Err(Timeout) && (headerConsumed || buffer != []) {
        Close();
        r := Err(ConnectionError(Incomplete));
      }
      if sock {
        net := net.(sockTimeout := cfg.timeout);
      }
    }

    // ---- Commands ----

    /** The bytes a stored frame is charged for: each key and value in UTF-8, and four
        more per entry for its separator and line end. */
    static method FrameSize(frame: Headers) returns (size: nat)
      ensures size == Size(frame)
    {
      hide Encode;
      size := 0;
      var rest := frame;
      while rest != map[]
        invariant size + Size(rest) == Size(frame)
        decreases |rest|
      {
        var k :| k in rest;
        SizeByAnyKey(rest, k);
        size := size + EntrySize(k, rest[k]);
        rest := rest - {k};
      }
    }

    /** One pass of the reply loop: None when the frame was an event, now waiting. */
    method AwaitOne(deadline: real) returns (done: Option<Result<Headers>>)
      requires Valid()
      modifies this
      ensures Valid()
      ensures done.Some? ==> Await(cfg, old(S()), deadline) == (done.value, S())
      ensures done.None? ==> Await(cfg, old(S()), deadline) == Await(cfg, S(), deadline)
                             && |pending| == |old(pending)| + 1 <= MAX_PENDING
    {
      hide Transport.ReadFrame, Size;
      if net.now >= deadline {
        Close();
        return Some(Err(Timeout));
      }
      ghost var start := S();
      ReadFrameKeepsQueue(cfg, start, deadline);
      var r := ReadFrame(Some(deadline));
      if r.Err? {
        if r.error.Timeout? {
          Close();
        }
        return Some(r);
      }
      var frame := r.value;
      if HasType(frame, "api/response") || HasType(frame, "command/reply") {
        log := log + [Taken(frame, Answer)];
        return Some(Ok(frame));
      }
      if !HasType(frame, EVENT_PLAIN) {
        var e := RaiseProtocolError();
        return Some(Err(e));
      }
      var size := FrameSize(frame);
      if |pending| >= MAX_PENDING || pendingBytes + size > cfg.maxFrame {
        var e := RaiseProtocolError();
        return Some(Err(e));
      }
      pending := pending + [Held(frame, size)];
      pendingBytes := pendingBytes + size;
      log := log + [Taken(frame, Stream)];
      return None;
    }

    method Command(line: string) returns (r: Result<Headers>)
      requires Valid()
      modifies this
      ensures Valid() && (r, S()) == Transport.Command(cfg, old(S()), line)
    {
      hide Await;
      var deadline := net.now + cfg.timeout;
      var sent := Send(line + "\n\n");
      if sent.Err? {
        return Err(sent.error);
      }
      ghost var start := S();
      while true
        invariant Valid() && Await(cfg, S(), deadline) == Await(cfg, start, deadline)
        decreases Max(0, MAX_PENDING - |pending|)
      {
        var done := AwaitOne(deadline);
        if done.Some? {
          return done.value;
        }
      }
    }

    // ---- Public operations ----

    method Connect() returns (r: Result<()>)
      requires Valid()
      modifies this
      ensures Valid() && (r, S()) == Transport.Connect(cfg, old(S()))
    {
      hide Transport.ReadFrame;
      var dial := NextDial(cfg, net);
      net := AfterDial(cfg, net);
      if dial.Refused? {
        return Err(ConnectionError(DialFailed));
      }
      sock, buffer, connected, authenticated := true, [], true, false;
      net := net.(sends := dial.sends, recvs := dial.recvs, received := [], sent := []);
      log := [];
      if dial.setupFails {
        Close();
        return Err(OsError);
      }
      var greeting := ReadFrame(None);
      if greeting.Err? {
        Close();
        return Err(greeting.error);
      }
      if !HasType(greeting.value, "auth/request") {
        Close();
        return Err(ConnectionError(BadGreeting));
      }
      log := log + [Taken(greeting.value, Greeting)];
      return Ok(());
    }

    method Authenticate() returns (r: Result<()>)
      requires Valid()
      modifies this
      ensures Valid() && (r, S()) == Transport.Authenticate(cfg, old(S()))
    {
      hide Transport.Command;
      var reply := Command("auth " + cfg.password);
      if reply.Err? {
        return Err(reply.error);
      }
      if !("+OK" <= FieldOf(reply.value, "Reply-Text")) {
        Close();
        return Err(AuthError);
      }
      authenticated := true;
      return Ok(());
    }

    method Subscribe(events: seq<string>) returns (r: Result<()>)
      requires Valid()
      modifies this
      ensures Valid() && (r, S()) == Transport.Subscribe(cfg, old(S()), events)
    {
      hide Transport.Command;
      var custom := Commands.Pick(events, true);
      var parts := Commands.Pick(events, false);
      if custom != [] {
        parts := parts + ["CUSTOM " + Join(custom, ' ')];
      }
      assert parts + [] == parts;
      var reply := Command("event plain " + Join(parts, ' '));
      if reply.Err? {
        return Err(reply.error);
      }
      if !("+OK" <= FieldOf(reply.value, "Reply-Text")) {
        return Err(CommandError);
      }
      return Ok(());
    }

    method Api(command: string, allowUnsafe: bool) returns (r: Result<string>)
      requires Valid()
      modifies this
      ensures Valid() && (r, S()) == Transport.Api(cfg, old(S()), command, allowUnsafe)
    {
      hide Transport.Command, Commands.IsReadOnly;
      if !allowUnsafe && !Commands.IsReadOnly(command) {
        return Err(NotSupported);
      }
      var frame := Command("api " + command);
      if frame.Err? {
        return Err(frame.error);
      }
      return Ok(FieldOf(frame.value, "_body"));
    }

    method ParseEventBody(body: string) returns (r: Result<Headers>)
      requires Valid()
      modifies this
      ensures Valid()
      ensures match EventOf(cfg, body)
              case None => r == Err(ProtocolError) && S() == Transport.Close(old(S()))
              case Some(event) => r == Ok(event) && S() == old(S())
    {
      hide Parse, Encode, Decimal.ContentLength, Transport.Close;
      var sep := IndexOfPair(body, '\n');
      var head := if sep < 0 then body else body[..sep];
      var rest := if sep < 0 then [] else body[sep + 2..];
      var headerSize := |Encode(head)| + if sep < 0 then 0 else 2;
      if headerSize > cfg.maxHeader {
        var e := RaiseProtocolError();
        return Err(e);
      }
      if headerSize > cfg.maxFrame {
        var e := RaiseProtocolError();
        return Err(e);
      }
      var event := ParseHeaders(head, true);
      if "Content-Length" in event {
        var length := ParseContentLength(event["Content-Length"]);
        if length.Err? {
          return Err(length.error);
        }
        var n := length.value;
        if headerSize + n > cfg.maxFrame {
          var e := RaiseProtocolError();
          return Err(e);
        }
        if n > 0 {
          if sep < 0 || |Encode(rest)| < n {
            var e := RaiseProtocolError();
            return Err(e);
          }
          event := event["_body" := rest[..Min(n, |rest|)]];
        }
      }
      return Ok(event);
    }

    method ReadEvent() returns (r: Result<Headers>)
      requires Valid()
      modifies this
      ensures Valid() && (r, S()) == Transport.ReadEvent(cfg, old(S()))
    {
      hide Transport.ReadFrame, EventOf;
      var outer: Headers;
      if pending != [] {
        var held := pending[0];
        pending := pending[1..];
        pendingBytes := pendingBytes - held.size;
        outer := held.frame;
      } else {
        var read := ReadFrame(None);
        if read.Err? {
          return Err(read.error);
        }
        outer := read.value;
        log := log + [Taken(outer, Stream)];
      }
      if HasType(outer, EVENT_PLAIN) {
        r := ParseEventBody(FieldOf(outer, "_body"));
      } else {
        r := Ok(outer);
      }
    }
  }

  lemma {:induction false} CloseForgetsBuffer(s: State, b: seq<byte>)
    ensures Transport.Close(s.(buffer := b)) == Transport.Close(s)
  {
  }

  /** The first blank line stays first, whatever follows it. */
  lemma {:induction false} HeaderStays(header: seq<byte>, rest: seq<byte>, rest': seq<byte>)
    requires IndexOfPair(header + END + rest, LF) == |header|
    ensures IndexOfPair(header + END + rest', LF) == |header|
  {
    var head := header + END;
    assert (head + rest)[..|head|] == head == (head + rest')[..|head|];
    PairInPrefix(head + rest, LF, |head|);
    PairInPrefix(head + rest', LF, |head|);
  }

  lemma {:induction false} VerdictBehindHeader(cfg: Config, header: seq<byte>, rest: seq<byte>)
    requires IndexOfPair(header + END + rest, LF) == |header| && |header| + 2 <= cfg.maxHeader
    ensures var whole := header + END + rest;
            DecodeOne(cfg, whole)
            == if |header| + 2 > cfg.maxFrame then Bad
               else DecodeBody(cfg, Parse(Decode(header), false), whole, |header| + 2)
  {
    hide DecodeOne, Decode, Parse, DecodeBody;
    var whole := header + END + rest;
    HeaderCapIsExact(cfg, whole);
    assert whole[..|header|] == header;
  }

  lemma {:induction false} BodyVerdict(cfg: Config, headers: Headers, b: seq<byte>, start: nat)
    requires start <= |b| && start <= cfg.maxFrame
    ensures DecodeBody(cfg, headers, b, start)
            == if "Content-Length" !in headers then Good(headers, start)
               else match Decimal.ContentLength(headers["Content-Length"], cfg.maxBody)
                    case None => Bad
                    case Some(n) =>
                      if start + n > cfg.maxFrame then Bad
                      else if n == 0 then Good(headers, start)
                      else if |b| < start + n then Short
                      else Good(headers["_body" := Decode(b[start..start + n])], start + n)
  {
    hide Decimal.ContentLength, Decode;
  }

  lemma {:induction false} PumpVerdict(cfg: Config, s: State, deadline: real)
    ensures match DecodeOne(cfg, s.buffer)
            case Good(f, used) =>
              used <= |s.buffer| && Pump(cfg, s, deadline) == (Ok(f), s.(buffer := s.buffer[used..]))
            case Bad => Pump(cfg, s, deadline) == (Err(ProtocolError), Transport.Close(s))
            case Short => true
  {
    hide DecodeOne;
    VerdictBounds(cfg, s.buffer);
  }

  lemma {:induction false} PumpReceives(cfg: Config, s: State, deadline: real)
    requires DecodeOne(cfg, s.buffer) == Short
    ensures var (r, s1) := Recv(cfg, s, deadline);
            match r
            case Err(e) => Pump(cfg, s, deadline) == (Err(e), s1)
            case Ok(chunk) =>
              s1.sock && s1.buffer == s.buffer
              && Pump(cfg, s, deadline) == Pump(cfg, s1.(buffer := s.buffer + chunk), deadline)
  {
    hide DecodeOne;
  }

  /** Receiving with the header set aside is receiving with the header in the buffer. */
  lemma {:induction false} PumpBehindHead(cfg: Config, s: State, head: seq<byte>, deadline: real)
    requires s.sock && DecodeOne(cfg, head + s.buffer) == Short
    ensures var (r, s1) := Recv(cfg, s, deadline);
            Pump(cfg, s.(buffer := head + s.buffer), deadline)
            == match r
               case Err(e) => (Err(e), if e == Timeout then s1.(buffer := head + s.buffer) else s1)
               case Ok(chunk) => Pump(cfg, s1.(buffer := head + s.buffer + chunk), deadline)
    ensures var (r, s1) := Recv(cfg, s, deadline);
            r.Ok? || r == Err(Timeout) ==> s1.sock && s1.buffer == s.buffer
  {
    hide DecodeOne;
  }
}
