/** Which reply answers which command. */
module Pairing {
  import opened Text
  import opened HeaderBlock
  import opened Framing
  import opened Transport
  import opened TransportLaws
  import opened OperationLaws
  import opened Runs

  // ---- Messages on the wire to the switch ----

  function Flat(sent: seq<string>): string {
    if sent == [] then [] else sent[0] + Flat(sent[1..])
  }

  /** How many messages the switch sees: text up to each blank line. */
  function Messages(text: string): nat
    decreases |text|
  {
    var i := IndexOfPair(text, '\n');
    if i < 0 then 0 else 1 + Messages(text[i + 2..])
  }

  /** Neither holds a blank line nor ends in a line feed. */
  predicate IsSingle(line: string) {
    IndexOfPair(line, '\n') < 0 && (line == [] || line[|line| - 1] != '\n')
  }

  /** A line is one message, with nothing left over, exactly when it is single. */
  lemma {:induction false} OneMessageExactly(line: string)
    ensures IndexOfPair(line + "\n\n", '\n') == |line| <==> IsSingle(line)
  {
    var text := line + "\n\n";
    var i := IndexOfPair(text, '\n');
    assert PairAt(text, '\n', |line|);
    IndexOfPairIsFirst(text, '\n', |line|);
    if line != [] && line[|line| - 1] == '\n' {
      assert PairAt(text, '\n', |line| - 1);
      IndexOfPairIsFirst(text, '\n', |line| - 1);
    }
    var k := IndexOfPair(line, '\n');
    if k >= 0 {
      assert PairAt(text, '\n', k);
      IndexOfPairIsFirst(text, '\n', k);
    }
    if i < |line| - 1 {
      assert PairAt(line, '\n', i);
      IndexOfPairIsFirst(line, '\n', i);
    }
  }

  lemma {:induction false} MessagesNext(line: string, rest: string)
    requires IsSingle(line)
    ensures Messages(line + "\n\n" + rest) == 1 + Messages(rest)
  {
    var text := line + "\n\n" + rest;
    assert text[..|line| + 2] == line + "\n\n";
    OneMessageExactly(line);
    PairInPrefix(text, '\n', |line| + 2);
    assert text[|line| + 2..] == rest;
  }

  /** Every text sent is a single line and its terminator. */
  predicate SingleEach(sent: seq<string>) {
    forall i | 0 <= i < |sent| ::
      |sent[i]| >= 2 && sent[i][|sent[i]| - 2..] == "\n\n" && IsSingle(sent[i][..|sent[i]| - 2])
  }

  /** Single lines put exactly one message each on the wire. */
  lemma {:induction false} OneMessageEach(sent: seq<string>)
    requires SingleEach(sent)
    ensures Messages(Flat(sent)) == |sent|
  {
    hide Messages, IsSingle;
    if sent == [] {
      NoMessages();
    } else {
      var line := sent[0][..|sent[0]| - 2];
      assert sent[0] == line + "\n\n";
      MessagesNext(line, Flat(sent[1..]));
      OneMessageEach(sent[1..]);
    }
  }

  lemma {:induction false} GateSkipsBlanks()
    ensures Commands.IsReadOnly("\n\nstatus")
  {
    var command := "\n\nstatus";
    assert command[1..] == "\nstatus" && "\nstatus"[1..] == "status";
    assert LStrip(command) == "status";
    StripTrimmed("status");
    Commands.QueryWords();
    hide Commands.IsWord, Strip;
    Commands.WordsOfWord("status", []);
    assert "status" + [] == "status";
  }

  /** The gate alone does not make a command one message: it judges the words of the
      stripped text, and the raw text is sent. */
  lemma {:induction false} GateAllowsTwoMessages()
    ensures Commands.IsReadOnly("\n\nstatus") && Messages("api " + "\n\nstatus" + "\n\n") == 2
  {
    hide Commands.IsReadOnly, Messages;
    GateSkipsBlanks();
    MessagesNext("api ", "status\n\n");
    assert "api " + "\n\nstatus" + "\n\n" == "api " + "\n\n" + "status\n\n";
    MessagesNext("status", []);
    assert "status\n\n" == "status" + "\n\n" + [];
    assert Messages([]) == 0 by {
      NoMessages();
    }
  }

  lemma {:induction false} NoMessages()
    ensures Messages([]) == 0
  {
  }

  // ---- An honest peer ----

  /** So far the peer has sent no more replies than it has seen messages. */
  ghost predicate Honest(cfg: Config, s: State) {
    |Replies(DecodeAll(cfg, s.net.received).frames)| <= Messages(Flat(s.net.sent))
  }

  ghost predicate HonestRun(cfg: Config, s: State, ops: seq<Op>)
    decreases |ops|
  {
    Honest(cfg, s) && (ops == [] || HonestRun(cfg, After(cfg, s, ops[0]), ops[1..]))
  }

  predicate LinesAreSingle(cfg: Config, ops: seq<Op>) {
    forall i | 0 <= i < |ops| :: LineOf(cfg, ops[i]).Some? ==> IsSingle(LineOf(cfg, ops[i]).value)
  }

  /** Every reply frame taken so far went to a command. */
  ghost predicate Paired(cfg: Config, s: State) {
    Open(cfg, s) && SingleEach(s.net.sent) && Replies(Frames(s.log)) == Used(s.log, Answer)
  }

  lemma {:induction false} RepliesConcat(a: seq<Headers>, b: seq<Headers>)
    ensures Replies(a + b) == Replies(a) + Replies(b)
  {
    if b == [] {
      assert a + b == a;
    } else {
      var n := |b| - 1;
      RepliesConcat(a, b[..n]);
      assert (a + b)[..|a + b| - 1] == a + b[..n];
    }
  }

  /** Under an honest peer no reply is left for anyone but the commands: none among the
      frames taken, none in the buffer. */
  lemma {:induction false} HonestRepliesAreAnswers(cfg: Config, s: State)
    requires Open(cfg, s) && SingleEach(s.net.sent) && Honest(cfg, s)
    requires Used(s.log, Answer) <= Replies(Frames(s.log))
    ensures Replies(Frames(s.log)) == Used(s.log, Answer) == Replies(DecodeAll(cfg, s.net.received).frames)
  {
    hide Splits, Replies, DecodeAll, Used, QueueOk, QueueIsTail, Messages;
    OneMessageEach(s.net.sent);
    SplitsDecode(cfg, s.net.received, Frames(s.log), s.buffer);
    RepliesConcat(Frames(s.log), DecodeAll(cfg, s.buffer).frames);
  }

  lemma {:induction false} SingleNext(sent: seq<string>, line: string)
    requires SingleEach(sent) && IsSingle(line)
    ensures SingleEach(sent + [line + "\n\n"])
  {
    var text := line + "\n\n";
    assert text[|text| - 2..] == "\n\n" && text[..|text| - 2] == line;
  }

  lemma {:induction false} StepKeepsPairing(cfg: Config, s: State, op: Op)
    requires !op.DoConnect? && LinesAreSingle(cfg, [op])
    ensures var s1 := After(cfg, s, op);
            Paired(cfg, s) && s1.sock && Honest(cfg, s1) ==> Paired(cfg, s1)
  {
    hide Command, ReadEvent, Splits, QueueOk, QueueIsTail, Handed, Used, Unwrap, Live;
    hide Replies, Messages, Honest, DecodeAll;
    var s1 := After(cfg, s, op);
    if Paired(cfg, s) && s1.sock && Honest(cfg, s1) {
      var line := LineOf(cfg, op);
      StepConserves(cfg, s, op);
      if line.Some? {
        assert line == LineOf(cfg, [op][0]);
        CommandLaw(cfg, s, line.value);
        SingleNext(s.net.sent, line.value);
      } else if op.DoReadEvent? {
        ReadEventLaw(cfg, s);
      }
      HonestRepliesAreAnswers(cfg, s1);
    }
  }

  lemma {:induction false} RunKeepsPairing(cfg: Config, s: State, ops: seq<Op>)
    requires OneConnection(ops) && LinesAreSingle(cfg, ops)
    ensures var s1 := Run(cfg, s, ops);
            Paired(cfg, s) && HonestRun(cfg, s, ops) && s1.sock ==> Paired(cfg, s1) && Honest(cfg, s1)
    decreases |ops|
  {
    hide After, Paired, Honest, Command, ReadEvent;
    if ops != [] && Paired(cfg, s) && HonestRun(cfg, s, ops) && Run(cfg, s, ops).sock {
      var s1 := After(cfg, s, ops[0]);
      assert HonestRun(cfg, s1, ops[1..]) && Honest(cfg, s1);
      PairedIsOpen(cfg, s);
      StepKeeps(cfg, s, ops[0]);
      if !s1.sock {
        ClosedStaysClosed(cfg, s1, ops[1..]);
      } else {
        assert LinesAreSingle(cfg, [ops[0]]);
        StepKeepsPairing(cfg, s, ops[0]);
        RunKeepsPairing(cfg, s1, ops[1..]);
      }
    }
  }

  lemma {:induction false} PairedIsOpen(cfg: Config, s: State)
    requires Paired(cfg, s)
    ensures Open(cfg, s)
  {
  }

  /** Reply pairing: with single lines and an honest peer, the k-th command answered
      on a connection got the k-th reply the peer sent on it, whatever events and
      `read_event` calls came in between. */
  lemma {:induction false} KthCommandGetsKthReply(cfg: Config, s: State, ops: seq<Op>)
    requires Canonical(s) && Connect(cfg, s).0.Ok? && OneConnection(ops) && LinesAreSingle(cfg, ops)
    requires HonestRun(cfg, Connect(cfg, s).1, ops)
    ensures var s0 := Connect(cfg, s).1;
            var s1 := Run(cfg, s0, ops);
            s1.sock ==> Answers(cfg, s0, ops) == Replies(DecodeAll(cfg, s1.net.received).frames)
                        && |s1.net.sent| == |Answers(cfg, s0, ops)|
  {
    hide Connect, Run, HonestRun, Answers, DecodeAll, Splits, Live, Replies, Honest, Conserved;
    var s0 := Connect(cfg, s).1;
    ConnectLaw(cfg, s);
    var s1 := Run(cfg, s0, ops);
    if s1.sock {
      RunKeepsPairing(cfg, s0, ops);
      RunConserves(cfg, s0, ops);
      ConservedAnswers(cfg, s0, s1, Events(cfg, s0, ops), Answers(cfg, s0, ops));
      HonestRepliesAreAnswers(cfg, s1);
    }
  }

  lemma {:induction false} ConservedAnswers(
    cfg: Config, s: State, s1: State, events: seq<Headers>, answers: seq<Headers>)
    requires Conserved(cfg, s, s1, events, answers) && Used(s.log, Answer) == []
    ensures Used(s1.log, Answer) == answers
  {
    assert [] + answers == answers;
  }
}
