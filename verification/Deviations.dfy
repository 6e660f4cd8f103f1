/** Inputs on which the code departs from its documentation. */
module Deviations {
  import opened Text
  import opened Utf8
  import opened HeaderBlock
  import opened Framing
  import opened Printing
  import opened Dialogue
  import opened Transport
  import Commands
  import opened TransportLaws
  import opened Reconnect
  import opened Escapes

  // ---- Errors that end `run_forever` before the listener is closed ----

  /** A greeting that never comes is not retried: the timeout escapes the loop. */
  lemma {:induction false} GreetingTimeoutEscapes(
    cfg: Config, events: seq<string>, plan: Backoff, s: State, backoff: real, choices: seq<bool>)
    requires Canonical(s) && GreetingSilent(cfg, NextDial(cfg, s.net))
    ensures Forever(cfg, events, plan, s, backoff, choices).escaped == Some(Timeout)
  {
    hide Connect, Authenticate, Subscribe, Forever, GreetingSilent;
    ConnectIsTimed(cfg, s);
    FirstStartEscapes(cfg, events, plan, s, backoff, choices, Timeout);
  }

  /** The peer greets and then never answers the login: the timeout escapes. */
  lemma {:induction false} LoginTimeoutEscapes(
    cfg: Config, events: seq<string>, plan: Backoff, s: State, backoff: real, choices: seq<bool>)
    requires Canonical(s)
    ensures var start := Facing(s, Greets([Sent(0.0)], [Eof(2.0 * cfg.timeout)]));
            Forever(cfg, events, plan, start, backoff, choices).escaped == Some(Timeout)
  {
    var start := Facing(s, Greets([Sent(0.0)], [Eof(2.0 * cfg.timeout)]));
    hide Connect, Command, Subscribe, Forever, Greets;
    GreetedClient(cfg, start, [Sent(0.0)], [Eof(2.0 * cfg.timeout)]);
    SilenceIsTimeout(cfg, Connect(cfg, start).1, "auth " + cfg.password);
    FirstStartEscapes(cfg, events, plan, start, backoff, choices, Timeout);
  }

  /** A login turned down, with any such text, escapes. */
  lemma {:induction false} RejectedLoginEscapes(
    cfg: Config, events: seq<string>, plan: Backoff, s: State, backoff: real, choices: seq<bool>, text: string)
    requires Canonical(s) && Brief(text) && !("+OK" <= text)
    ensures var start := Facing(s, Greets([Sent(0.0), Sent(0.0)], [Says(Reply(text)), Says(Reply(text))]));
            Forever(cfg, events, plan, start, backoff, choices).escaped == Some(AuthError)
  {
    var recvs := [Says(Reply(text)), Says(Reply(text))];
    var start := Facing(s, Greets([Sent(0.0), Sent(0.0)], recvs));
    assert recvs + [] == recvs;
    hide Start, Forever, Says;
    StartByTexts(cfg, start, events, text, text, []);
    hide Greets;
    FirstStartEscapes(cfg, events, plan, start, backoff, choices, AuthError);
  }

  /** A subscription turned down, with any such text, escapes. */
  lemma {:induction false} RefusedSubscriptionEscapes(
    cfg: Config, events: seq<string>, plan: Backoff, s: State, backoff: real, choices: seq<bool>,
    login: string, text: string)
    requires Canonical(s) && Brief(login) && "+OK" <= login && Brief(text) && !("+OK" <= text)
    ensures var start := Facing(s, Greets([Sent(0.0), Sent(0.0)], [Says(Reply(login)), Says(Reply(text))]));
            Forever(cfg, events, plan, start, backoff, choices).escaped == Some(CommandError)
  {
    var recvs := [Says(Reply(login)), Says(Reply(text))];
    var start := Facing(s, Greets([Sent(0.0), Sent(0.0)], recvs));
    assert recvs + [] == recvs;
    hide Start, Forever, Says;
    StartByTexts(cfg, start, events, login, text, []);
    hide Greets;
    FirstStartEscapes(cfg, events, plan, start, backoff, choices, CommandError);
  }

  // ---- The `_body` of a frame ----

  lemma {:induction false} NothingDecoded()
    ensures Decode([]) == []
  {
  }

  /** A frame's `_body` is its payload, an empty one counting as absent, if and only if a
      positive length is declared or no header line sets a `_body` of its own. */
  lemma {:induction false} BodyIsPayloadIff(cfg: Config, b: seq<byte>)
    requires DecodeOne(cfg, b).Good?
    ensures var i := IndexOfPair(b, LF);
            0 <= i && i + 2 <= |b|
            && var h := Parse(Decode(b[..i]), false);
               BodyLength(cfg, h).Some?
               && var n := BodyLength(cfg, h).value;
                  i + 2 + n <= |b|
                  && (Body(DecodeOne(cfg, b).frame) == Decode(b[i + 2..i + 2 + n])
                      <==> n > 0 || FieldOf(h, "_body") == [])
  {
    NothingDecoded();
    hide Parse, BodyLength, Decode, DecodeOne, IndexOfPair;
    HeaderCapIsExact(cfg, b);
    var i := IndexOfPair(b, LF);
    assert b[i + 2..i + 2] == [];
  }

  /** A reply whose header block has a `_body` line and declares no length. */
  function Headed(): seq<Field> {
    [("Content-Type", "api/response"), ("_body", "from the header")]
  }

  lemma {:induction false} HeadedMap()
    ensures var m := ToMap(Headed());
            "Content-Length" !in m && IsReply(m) && Body(m) == "from the header"
  {
    var f := Headed();
    assert f[..1] == [f[0]] && f[..1][..0] == [];
    assert ToMap(f[..1]) == map["Content-Type" := "api/response"];
    assert ToMap(f) == ToMap(f[..1])["_body" := "from the header"];
  }

  lemma {:induction false} HeadedPrints()
    ensures Printable(Headed()) && |Print(Headed())| <= 200
  {
    var lines := PrintLines(Headed());
    assert lines[1..] == [PrintLine(Headed()[1])];
    assert Join(lines, '\n') == lines[0] + ['\n'] + Join(lines[1..], '\n');
  }

  lemma {:induction false} HeadedFrame(cfg: Config)
    ensures var frame := PrintFrame(Headed(), []);
            1 <= |frame| <= 4096 && Says(Headed()) == Data(0.0, frame)
            && DecodeOne(cfg, frame) == Good(ToMap(Headed()), |frame|)
  {
    assert Headed() != [];
    hide DecodeOne, PrintFrame, Headed, ToMap, Print, Printable;
    HeadedMap();
    HeadedPrints();
    ShortFrame(cfg, Headed());
  }

  lemma {:induction false} StatusIsReadOnly()
    ensures Commands.IsReadOnly("status")
  {
    Commands.ReadersPassTheGate(Commands.CoreStatus);
    hide Commands.IsReadOnly;
    assert Commands.QueryLine(Commands.CoreStatus) == Some("status");
  }

  /** What `api` returns is then the header line. */
  lemma {:induction false} ApiReturnsAHeaderLine(cfg: Config, s: State)
    requires s.sock && s.buffer == [] && s.net.sockTimeout == cfg.timeout
    requires s.net.sends == [Sent(0.0)] && s.net.recvs == [Says(Headed())]
    ensures Api(cfg, s, "status", false).0 == Ok("from the header")
  {
    hide Command, DecodeOne, PrintFrame, Commands.IsReadOnly, Headed, ToMap, Says, IsReply, Body;
    HeadedFrame(cfg);
    HeadedMap();
    StatusIsReadOnly();
    ChunkIsReply(cfg, s, "api " + "status", ToMap(Headed()));
  }
}
