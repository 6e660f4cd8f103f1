/** A peer that speaks one chunk a frame: how the client takes its greeting, replies and other
    frames, by their printed types and texts. */
module Dialogue {
  import opened Text
  import opened Utf8
  import opened HeaderBlock
  import opened Framing
  import opened Printing
  import opened Transport
  import Commands
  import opened TransportLaws
  import opened Fragments
  import opened ReplyTiming
  import opened Reconnect

  // ---- What a peer may say, one chunk a frame ----

  /** A printed frame without a payload is one chunk and decodes to its headers. */
  lemma {:induction false} ShortFrame(cfg: Config, fields: seq<Field>)
    requires fields != [] && Printable(fields) && "Content-Length" !in ToMap(fields) && |Print(fields)| <= 200
    ensures var frame := PrintFrame(fields, []);
            1 <= |frame| <= 4096 && DecodeOne(cfg, frame) == Good(ToMap(fields), |frame|)
  {
    hide Encode, Print, Printable, ToMap, DecodeOne;
    EncodeGrows(Print(fields));
    EncodeGrows([]);
    FrameRoundTrip(cfg, fields, [], []);
    assert PrintFrame(fields, []) + [] == PrintFrame(fields, []);
  }

  function Greeting(): seq<Field> {
    [("Content-Type", "auth/request")]
  }

  function Reply(text: string): seq<Field> {
    [("Content-Type", "command/reply"), ("Reply-Text", text)]
  }

  predicate Brief(text: string) {
    ValueOk(text) && |text| <= 100
  }

  lemma {:induction false} GreetingFrame(cfg: Config)
    ensures var frame := PrintFrame(Greeting(), []);
            1 <= |frame| <= 4096 && DecodeOne(cfg, frame) == Good(ToMap(Greeting()), |frame|)
    ensures HasType(ToMap(Greeting()), "auth/request")
  {
    var f := Greeting();
    assert f[..0] == [] && ToMap(f) == map["Content-Type" := "auth/request"];
    assert Printable(f) && |Print(f)| <= 200;
    ShortFrame(cfg, f);
  }

  lemma {:induction false} ReplyMap(text: string)
    ensures var m := ToMap(Reply(text));
            "Content-Length" !in m && IsReply(m) && FieldOf(m, "Reply-Text") == text
  {
    var f := Reply(text);
    assert f[..1] == [f[0]] && f[..1][..0] == [];
    assert ToMap(f[..1]) == map["Content-Type" := "command/reply"];
    assert ToMap(f) == ToMap(f[..1])["Reply-Text" := text];
  }

  lemma {:induction false} ReplyPrints(text: string)
    requires Brief(text)
    ensures Printable(Reply(text)) && |Print(Reply(text))| <= 200
  {
    var lines := PrintLines(Reply(text));
    assert lines[1..] == [PrintLine(Reply(text)[1])];
    assert Join(lines, '\n') == lines[0] + ['\n'] + Join(lines[1..], '\n');
  }

  lemma {:induction false} ReplyFrame(cfg: Config, text: string)
    requires Brief(text)
    ensures var frame := PrintFrame(Reply(text), []);
            1 <= |frame| <= 4096 && DecodeOne(cfg, frame) == Good(ToMap(Reply(text)), |frame|)
    ensures IsReply(ToMap(Reply(text))) && FieldOf(ToMap(Reply(text)), "Reply-Text") == text
  {
    assert Reply(text) != [];
    ReplyMap(text);
    ReplyPrints(text);
    hide DecodeOne, PrintFrame, Reply, ToMap, Print, Printable, IsReply;
    ShortFrame(cfg, Reply(text));
  }

  /** The frame in one receive, if one receive can hold it. */
  function Says(fields: seq<Field>): RecvStep {
    var frame := PrintFrame(fields, []);
    if 1 <= |frame| <= 4096 then Data(0.0, frame) else Eof(0.0)
  }

  /** The client after taking a frame that came as one chunk. */
  function AfterChunk(cfg: Config, s: State): State
    requires s.net.recvs != [] && s.net.recvs[0].Data?
  {
    s.(net := s.net.(recvs := s.net.recvs[1..], received := s.net.received + s.net.recvs[0].chunk,
                     sockTimeout := cfg.timeout, calls := s.net.calls + 1))
  }

  lemma {:induction false} ChunkIsFrame(cfg: Config, s: State, deadline: real, f: Headers)
    requires s.sock && s.buffer == [] && s.net.now < deadline
    requires s.net.recvs != [] && s.net.recvs[0].Data? && s.net.recvs[0].took == 0.0
    requires DecodeOne(cfg, s.net.recvs[0].chunk) == Good(f, |s.net.recvs[0].chunk|)
    ensures ReadFrame(cfg, s, deadline) == (Ok(f), AfterChunk(cfg, s))
  {
    hide DecodeOne;
    NothingIsShort(cfg);
    var chunk := s.net.recvs[0].chunk;
    var (r, s1) := Recv(cfg, s, deadline);
    assert r == Ok(chunk) && s.buffer + chunk == chunk && chunk[|chunk|..] == [];
    assert Pump(cfg, s, deadline) == Pump(cfg, s1.(buffer := chunk), deadline);
  }

  /** A command whose reply comes as one chunk. */
  lemma {:induction false} ChunkIsReply(cfg: Config, s: State, line: string, f: Headers)
    requires s.sock && s.buffer == [] && s.net.sockTimeout == cfg.timeout
    requires SendsOk(s) && s.net.sends[0].took == 0.0
    requires s.net.recvs != [] && s.net.recvs[0].Data? && s.net.recvs[0].took == 0.0
    requires DecodeOne(cfg, s.net.recvs[0].chunk) == Good(f, |s.net.recvs[0].chunk|) && IsReply(f)
    ensures var (r, s1) := Command(cfg, s, line);
            && r == Ok(f) && s1.sock && s1.buffer == [] && s1.pending == s.pending && s1.net.sockTimeout == cfg.timeout
            && s1.net.recvs == s.net.recvs[1..] && s1.net.sends == s.net.sends[1..]
  {
    hide DecodeOne, IsReply, ReadFrame;
    ChunkIsFrame(cfg, Send(s, line + "\n\n").1, s.net.now + cfg.timeout, f);
  }

  lemma {:induction false} SilenceIsTimeout(cfg: Config, s: State, line: string)
    requires s.sock && s.buffer == [] && s.net.sockTimeout == cfg.timeout
    requires SendsOk(s) && s.net.sends[0].took == 0.0 && s.net.recvs != [] && s.net.recvs[0].took > cfg.timeout
    ensures Command(cfg, s, line).0 == Err(Timeout)
  {
    hide ReadFrame;
    var s1 := Send(s, line + "\n\n").1;
    assert s1.net.now == s.net.now && IsIdle(cfg, s1);
    IdleRead(cfg, s1);
  }

  /** A peer that accepts, greets, and then goes on as given. */
  function Greets(sends: seq<SendStep>, recvs: seq<RecvStep>): Dial {
    Accepted(0.0, false, sends, [Says(Greeting())] + recvs)
  }

  /** The client about to meet that peer. */
  function Facing(s: State, dial: Dial): State {
    s.(net := s.net.(dials := [dial] + s.net.dials))
  }

  lemma {:induction false} GreetedClient(cfg: Config, s: State, sends: seq<SendStep>, recvs: seq<RecvStep>)
    requires NextDial(cfg, s.net) == Greets(sends, recvs)
    ensures var (r, s1) := Connect(cfg, s);
            && r == Ok(()) && s1.sock && s1.buffer == [] && s1.pending == s.pending && s1.net.sockTimeout == cfg.timeout
            && s1.net.recvs == recvs && s1.net.sends == sends
  {
    hide DecodeOne, ReadFrame, PrintFrame, HasType, ToMap;
    GreetingFrame(cfg);
    var s1 := Dialed(cfg, s);
    ChunkIsFrame(cfg, s1, s1.net.now + cfg.timeout, ToMap(Greeting()));
    assert ([Says(Greeting())] + recvs)[1..] == recvs;
  }

  // ---- Frames by their type ----

  function Typed(t: string): seq<Field> {
    [("Content-Type", t)]
  }

  lemma {:induction false} TypedFrame(cfg: Config, t: string)
    requires Brief(t)
    ensures var frame, m := PrintFrame(Typed(t), []), ToMap(Typed(t));
            && 1 <= |frame| <= 4096 && DecodeOne(cfg, frame) == Good(m, |frame|) && m == map["Content-Type" := t]
  {
    var f := Typed(t);
    assert f[..0] == [] && ToMap(f) == map["Content-Type" := t];
    assert Printable(f) && |Print(f)| <= 200;
    ShortFrame(cfg, f);
  }

  /** While a command waits, a frame of one of the two reply types answers it; any other that
      is no event breaks the protocol and closes the client. */
  lemma {:induction false} FrameByType(cfg: Config, s: State, line: string, t: string)
    requires s.sock && s.buffer == [] && s.net.sockTimeout == cfg.timeout && Brief(t)
    requires SendsOk(s) && s.net.sends[0].took == 0.0
    requires s.net.recvs != [] && s.net.recvs[0] == Says(Typed(t))
    ensures var (r, s1) := Command(cfg, s, line);
            && (t == "api/response" || t == "command/reply" ==> r == Ok(map["Content-Type" := t]) && s1.sock)
            && (t != "api/response" && t != "command/reply" && t != "text/event-plain" ==>
                  r == Err(ProtocolError) && Canonical(s1))
  {
    hide DecodeOne, IsReply, IsEvent, ReadFrame, PrintFrame;
    var f: Headers := map["Content-Type" := t];
    TypedFrame(cfg, t);
    TypesByName(f);
    ChunkIsFrame(cfg, Send(s, line + "\n\n").1, s.net.now + cfg.timeout, f);
  }

  // ---- Answers by their text ----

  lemma {:induction false} AnswerByText(cfg: Config, t: string)
    requires Brief(t)
    ensures var frame, m := PrintFrame(Reply(t), []), ToMap(Reply(t));
            && 1 <= |frame| <= 4096 && Says(Reply(t)) == Data(0.0, frame)
            && DecodeOne(cfg, frame) == Good(m, |frame|) && IsReply(m) && (Accepts(m) <==> "+OK" <= t)
  {
    hide DecodeOne, PrintFrame, IsReply, ToMap;
    ReplyFrame(cfg, t);
  }

  /** A start against a peer that greets and gives two answers, of any texts, succeeds exactly
      if both start with `+OK`; else the first that does not says how it fails. */
  lemma {:induction false} StartByTexts(
    cfg: Config, s: State, events: seq<string>, t1: string, t2: string, rest: seq<RecvStep>)
    requires Brief(t1) && Brief(t2)
    requires NextDial(cfg, s.net) == Greets([Sent(0.0), Sent(0.0)], [Says(Reply(t1)), Says(Reply(t2))] + rest)
    ensures var (r, s1) := Start(cfg, s, events);
            && r == (if !("+OK" <= t1) then Err(AuthError)
                     else if !("+OK" <= t2) then Err(CommandError)
                     else Ok(()))
            && (r.Ok? ==> s1.sock && s1.buffer == [] && s1.pending == s.pending && s1.net.recvs == rest)
  {
    hide Connect, Command, Greets, DecodeOne, IsReply, Accepts, PrintFrame, ToMap, Says;
    AnswerByText(cfg, t1);
    AnswerByText(cfg, t2);
    var recvs := [Says(Reply(t1)), Says(Reply(t2))] + rest;
    assert recvs[1..] == [Says(Reply(t2))] + rest && recvs[1..][1..] == rest;
    GreetedClient(cfg, s, [Sent(0.0), Sent(0.0)], recvs);
    var s1 := Connect(cfg, s).1;
    var login := "auth " + cfg.password;
    ChunkIsReply(cfg, s1, login, ToMap(Reply(t1)));
    if "+OK" <= t1 {
      var s2 := Command(cfg, s1, login).1.(authenticated := true);
      ChunkIsReply(cfg, s2, Commands.SubscribeLine(events), ToMap(Reply(t2)));
    }
  }
}
