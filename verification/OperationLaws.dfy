/** Invariants of every public operation, and the theorems over whole runs. */
module OperationLaws {
  import opened Text
  import opened HeaderBlock
  import opened Framing
  import opened Transport
  import Commands
  import opened TransportLaws

  // ---- Commands ----

  /** The reply frames in a list of frames. */
  function Replies(frames: seq<Headers>): seq<Headers> {
    if frames == [] then []
    else
      var last := frames[|frames| - 1];
      Replies(frames[..|frames| - 1]) + if IsReply(last) then [last] else []
  }

  lemma {:induction false} RepliesNext(frames: seq<Headers>, f: Headers)
    ensures Replies(frames + [f]) == Replies(frames) + if IsReply(f) then [f] else []
  {
    assert (frames + [f])[..|frames|] == frames;
  }

  lemma {:induction false} TookReplies(s: State, f: Headers, use: Use)
    ensures Replies(Frames(Took(s, f, use).log)) == Replies(Frames(s.log)) + if IsReply(f) then [f] else []
  {
    FramesNext(s.log, Taken(f, use));
    RepliesNext(Frames(s.log), f);
  }

  /** Logging a frame just read keeps the frame boundary. */
  lemma {:induction false} TookKeepsLink(cfg: Config, s: State, r: Result<Headers>, s1: State, use: Use)
    requires Linked(cfg, s) && FrameOutcome(cfg, s, r, s1) && r.Ok?
    ensures Linked(cfg, Took(s1, r.value, use))
  {
    hide Splits;
    FramesNext(s.log, Taken(r.value, use));
  }

  lemma {:induction false} StashKeepsLimits(cfg: Config, s: State, f: Headers)
    requires QueueOk(cfg, s) && IsEvent(f) && Stash(cfg, s, f).Ok?
    ensures QueueOk(cfg, Took(Stash(cfg, s, f).value, f, Stream))
  {
    hide Size, IsEvent;
    var s1 := Took(Stash(cfg, s, f).value, f, Stream);
    assert s1.pending[..|s.pending|] == s.pending;
  }

  /** Queue and stream grow by the same frame; what is ahead of the queue stays. */
  lemma {:induction false} TailGrows(stream: seq<Headers>, pending: seq<Held>, h: Held)
    requires |pending| <= |stream| && Waiting(pending) == stream[|stream| - |pending|..]
    ensures var stream', pending' := stream + [h.frame], pending + [h];
            && Waiting(pending') == stream'[|stream'| - |pending'|..]
            && stream'[..|stream'| - |pending'|] == stream[..|stream| - |pending|]
  {
    assert Waiting(pending + [h]) == Waiting(pending) + [h.frame];
  }

  lemma {:induction false} StashKeepsQueue(cfg: Config, s: State, f: Headers)
    requires QueueOk(cfg, s) && QueueIsTail(s) && IsEvent(f) && Stash(cfg, s, f).Ok?
    ensures var s1 := Took(Stash(cfg, s, f).value, f, Stream);
            QueueOk(cfg, s1) && QueueIsTail(s1) && Handed(s1) == Handed(s)
  {
    StashKeepsLimits(cfg, s, f);
    hide QueueOk, Size, QueueIsTail, Handed, HasType;
    QueueGrows(s, Took(Stash(cfg, s, f).value, f, Stream), f, Size(f));
  }

  lemma {:induction false} QueueGrows(s: State, s1: State, f: Headers, size: nat)
    requires QueueIsTail(s)
    requires s1.log == s.log + [Taken(f, Stream)] && s1.pending == s.pending + [Held(f, size)]
    ensures QueueIsTail(s1) && Handed(s1) == Handed(s)
  {
    hide Used, Waiting;
    UsedNext(s.log, Taken(f, Stream), Stream);
    TailGrows(Used(s.log, Stream), s.pending, Held(f, size));
  }

  /** A reply read during the wait: the connection stays live, the reply is the answer. */
  lemma {:induction false} TakeReply(cfg: Config, s: State, r: Result<Headers>, s1: State)
    requires Live(cfg, s) && r.Ok? && FrameOutcome(cfg, s, r, s1) && IsReply(r.value)
    ensures var s2 := Took(s1, r.value, Answer);
            && Live(cfg, s2) && Handed(s2) == Handed(s)
            && Used(s2.log, Answer) == Used(s.log, Answer) + [r.value]
            && Replies(Frames(s2.log)) == Replies(Frames(s.log)) + [r.value]
  {
    hide Splits, QueueOk, QueueIsTail, Handed, IsReply, Replies, Frames, Used;
    QueueUnchanged(cfg, s, s1);
    TookKeepsLink(cfg, s, r, s1, Answer);
    AnswerKeepsQueue(cfg, s1, r.value);
    TookReplies(s1, r.value, Answer);
  }

  /** An event read during the wait: it joins the queue and nothing else changes. */
  lemma {:induction false} TakeEvent(cfg: Config, s: State, r: Result<Headers>, s1: State)
    requires Live(cfg, s) && FrameOutcome(cfg, s, r, s1) && r.Ok? && IsEvent(r.value) && Stash(cfg, s1, r.value).Ok?
    ensures var s2 := Took(Stash(cfg, s1, r.value).value, r.value, Stream);
            && Live(cfg, s2) && Handed(s2) == Handed(s)
            && Used(s2.log, Answer) == Used(s.log, Answer)
            && Replies(Frames(s2.log)) == Replies(Frames(s.log))
            && s2.net.sent == s.net.sent && s2.authenticated == s.authenticated
            && |s2.pending| == |s.pending| + 1 <= MAX_PENDING
  {
    hide Splits, QueueOk, QueueIsTail, Handed, Replies, Frames, Used, Size;
    QueueUnchanged(cfg, s, s1);
    TookKeepsLink(cfg, s, r, s1, Stream);
    StashKeepsQueue(cfg, s1, r.value);
    UsedNext(s.log, Taken(r.value, Stream), Answer);
    TookReplies(s1, r.value, Stream);
  }

  /** A reply wait ends with the one next reply, a frame of one of the two reply types, and
      every event before it queued, or with the connection closed. */
  lemma {:induction false} AwaitLaw(cfg: Config, s: State, deadline: real)
    requires Live(cfg, s)
    ensures var (r, s1) := Await(cfg, s, deadline);
            && s1.net.sent == s.net.sent
            && (r.Ok? ==> Live(cfg, s1) && IsReply(r.value) && s1.authenticated == s.authenticated
                          && "Content-Type" in r.value
                          && r.value["Content-Type"] in {"api/response", "command/reply"}
                          && Used(s1.log, Answer) == Used(s.log, Answer) + [r.value]
                          && Replies(Frames(s1.log)) == Replies(Frames(s.log)) + [r.value]
                          && Handed(s1) == Handed(s))
            && (r.Err? ==> Canonical(s1))
    decreases Max(0, MAX_PENDING - |s.pending|)
  {
    hide ReadFrame, Handed, IsEvent, IsReply, Replies, Frames, Used, Stash, QueueOk, QueueIsTail, Splits;
    if s.net.now < deadline {
      var (r, s1) := ReadFrame(cfg, s, deadline);
      ReadFrameLaw(cfg, s, deadline);
      if r.Ok? {
        TypesByName(r.value);
        if IsReply(r.value) {
          TakeReply(cfg, s, r, s1);
        } else if IsEvent(r.value) && Stash(cfg, s1, r.value).Ok? {
          TakeEvent(cfg, s, r, s1);
          AwaitLaw(cfg, Took(Stash(cfg, s1, r.value).value, r.value, Stream), deadline);
        }
      }
    }
  }

  lemma {:induction false} StashSize(cfg: Config, s: State, f: Headers)
    requires Stash(cfg, s, f).Ok?
    ensures |s.pending| < MAX_PENDING && |Stash(cfg, s, f).value.pending| == |s.pending| + 1
  {
  }

  lemma {:induction false} QueueUnchanged(cfg: Config, s: State, s1: State)
    requires s1.pending == s.pending && s1.pendingBytes == s.pendingBytes && s1.log == s.log
    ensures QueueOk(cfg, s1) == QueueOk(cfg, s)
    ensures QueueIsTail(s1) == QueueIsTail(s)
    ensures Handed(s1) == Handed(s)
  {
  }

  lemma {:induction false} AnswerKeepsQueue(cfg: Config, s: State, f: Headers)
    ensures var s1 := Took(s, f, Answer);
            && QueueOk(cfg, s1) == QueueOk(cfg, s) && QueueIsTail(s1) == QueueIsTail(s)
            && Handed(s1) == Handed(s)
            && Used(s1.log, Answer) == Used(s.log, Answer) + [f]
  {
    UsedNext(s.log, Taken(f, Answer), Stream);
    UsedNext(s.log, Taken(f, Answer), Answer);
  }

  /** Every normal return of a command leaves no reply outstanding; every exceptional
      exit leaves the client closed, so a late reply can answer nothing. */
  lemma {:induction false} CommandLaw(cfg: Config, s: State, line: string)
    requires Inv(cfg, s)
    ensures var (r, s1) := Command(cfg, s, line);
            && (r.Ok? ==> Open(cfg, s) && Open(cfg, s1) && IsReply(r.value) && s1.authenticated == s.authenticated
                          && "Content-Type" in r.value
                          && r.value["Content-Type"] in {"api/response", "command/reply"}
                          && s1.net.sent == s.net.sent + [line + "\n\n"]
                          && Used(s1.log, Answer) == Used(s.log, Answer) + [r.value]
                          && Replies(Frames(s1.log)) == Replies(Frames(s.log)) + [r.value]
                          && Handed(s1) == Handed(s))
            && (r.Err? ==> Canonical(s1))
  {
    hide Replies, Frames, Await, Splits, QueueOk, QueueIsTail, Handed;
    if Open(cfg, s) {
      var (r, s1) := Send(s, line + "\n\n");
      if r.Ok? {
        QueueUnchanged(cfg, s, s1);
        AwaitLaw(cfg, s1, s.net.now + cfg.timeout);
      }
    }
  }

  // ---- Events ----

  lemma {:induction false} TotalFront(pending: seq<Held>)
    requires pending != []
    ensures Total(pending) == pending[0].size + Total(pending[1..])
  {
    if |pending| > 1 {
      TotalFront(pending[..|pending| - 1]);
      assert pending[1..][..|pending| - 2] == pending[..|pending| - 1][1..];
    }
  }

  lemma {:induction false} PopKeepsLimits(cfg: Config, s: State)
    requires s.pending != [] && QueueOk(cfg, s)
    ensures QueueOk(cfg, s.(pending := s.pending[1..], pendingBytes := s.pendingBytes - s.pending[0].size))
  {
    hide Size, IsEvent;
    TotalFront(s.pending);
  }

  /** Taking the front of the queue hands out the oldest waiting frame. */
  lemma {:induction false} PopLaw(cfg: Config, s: State)
    requires s.pending != [] && QueueOk(cfg, s) && QueueIsTail(s)
    ensures var s1 := s.(pending := s.pending[1..], pendingBytes := s.pendingBytes - s.pending[0].size);
            QueueOk(cfg, s1) && QueueIsTail(s1) && Handed(s1) == Handed(s) + [s.pending[0].frame]
  {
    PopKeepsLimits(cfg, s);
    hide QueueOk, Used;
    var stream := Used(s.log, Stream);
    var k := |stream| - |s.pending|;
    assert stream[k] == Waiting(s.pending)[0];
    assert Waiting(s.pending[1..]) == stream[k + 1..];
    assert stream[..k + 1] == stream[..k] + [stream[k]];
  }

  lemma {:induction false} DirectLaw(cfg: Config, s: State, f: Headers)
    requires s.pending == [] && QueueOk(cfg, s)
    ensures var s1 := Took(s, f, Stream);
            QueueOk(cfg, s1) && QueueIsTail(s1) && Handed(s1) == Handed(s) + [f]
            && Used(s1.log, Answer) == Used(s.log, Answer)
  {
    UsedNext(s.log, Taken(f, Stream), Stream);
    UsedNext(s.log, Taken(f, Stream), Answer);
    var stream := Used(s.log, Stream);
    assert stream[..|stream|] == stream;
    assert (stream + [f])[..|stream| + 1] == stream + [f];
  }

  /** The frames taken are a start of what the received bytes decode to. */
  lemma {:induction false} TakenFramesAreDecoded(cfg: Config, s: State)
    requires Linked(cfg, s)
    ensures Frames(s.log) <= DecodeAll(cfg, s.net.received).frames
  {
    hide DecodeAll;
    SplitsDecode(cfg, s.net.received, Frames(s.log), s.buffer);
  }

  /** Everything received has been taken, and the decoder ends the stream as `e` says. */
  ghost predicate StreamEnded(cfg: Config, s: State, e: Error) {
    var d := DecodeAll(cfg, s.net.received);
    d.frames == Frames(s.log) && if e.ProtocolError? then d.end.Violation? else e.ConnectionError? && d.end.Cut?
  }

  /** The next stream frame on an open connection. */
  ghost predicate OuterOutcome(cfg: Config, s: State, r: Result<Headers>, s1: State) {
    && s1.net.sent == s.net.sent
    && match r
       case Ok(f) =>
         && Open(cfg, s1) && s1.authenticated == s.authenticated
         && Used(s1.log, Answer) == Used(s.log, Answer)
         && Used(s.log, Stream) <= Used(s1.log, Stream)
         && Replies(Frames(s.log)) <= Replies(Frames(s1.log))
         && Handed(s1) == Handed(s) + [f]
       case Err(Timeout) =>
         && s.pending == [] && s.buffer == []
         && s1 == s.(net := s1.net) && s1.net.received == s.net.received && Open(cfg, s1)
       case Err(e) =>
         Canonical(s1) && s.pending == [] && s1.log == s.log && StreamEnded(cfg, s1, e)
  }

  lemma {:induction false} NextOuterLaw(cfg: Config, s: State)
    requires Open(cfg, s)
    ensures var (r, s1) := NextOuter(cfg, s);
            OuterOutcome(cfg, s, r, s1)
  {
    hide ReadFrame, Splits, QueueOk, QueueIsTail, Handed, DecodeAll, Replies, Used;
    if s.pending != [] {
      PopLaw(cfg, s);
    } else {
      var deadline := s.net.now + cfg.timeout;
      var (r, s1) := ReadFrame(cfg, s, deadline);
      ReadFrameLaw(cfg, s, deadline);
      if r.Ok? {
        QueueUnchanged(cfg, s, s1);
        TookKeepsLink(cfg, s, r, s1, Stream);
        DirectLaw(cfg, s1, r.value);
        TookReplies(s1, r.value, Stream);
        UsedNext(s.log, Taken(r.value, Stream), Stream);
      } else if r == Err(Timeout) {
        QueueUnchanged(cfg, s, s1);
      }
    }
  }

  /** Only an event envelope is opened; every other frame surfaces as it is. */
  lemma {:induction false} UnwrapByType(cfg: Config, f: Headers)
    ensures Unwrap(cfg, f)
            == if "Content-Type" in f && f["Content-Type"] == "text/event-plain"
               then EventOf(cfg, if "_body" in f then f["_body"] else "")
               else Some(f)
  {
    hide EventOf;
  }

  lemma {:induction false} HandedIsStream(s: State, i: nat)
    requires i < |Handed(s)|
    ensures i < |Used(s.log, Stream)| && Used(s.log, Stream)[i] == Handed(s)[i]
  {
  }

  /** `read_event` on an open connection: the next stream frame in wire order, unwrapped;
      or as it is if it is no event envelope; or an idle tick with buffer, queue and wire
      position unchanged; or a closed client, its stream read to the end, or the next stream
      frame one that holds no event. */
  lemma {:induction false} ReadEventLaw(cfg: Config, s: State)
    requires Open(cfg, s)
    ensures var (r, s1) := ReadEvent(cfg, s);
            && s1.net.sent == s.net.sent
            && match r
               case Ok(event) =>
                 && Open(cfg, s1) && s1.authenticated == s.authenticated
                 && Used(s1.log, Answer) == Used(s.log, Answer)
                 && Used(s.log, Stream) <= Used(s1.log, Stream)
                 && Replies(Frames(s.log)) <= Replies(Frames(s1.log))
                 && |Handed(s1)| == |Handed(s)| + 1 && Handed(s) < Handed(s1)
                 && var outer := Handed(s1)[|Handed(s)|];
                    && Unwrap(cfg, outer) == Some(event)
                    && (event == outer || ("Content-Type" in outer && outer["Content-Type"] == "text/event-plain"))
               case Err(Timeout) =>
                 && s.pending == [] && s.buffer == []
                 && s1 == s.(net := s1.net) && s1.net.received == s.net.received && Open(cfg, s1)
               case Err(e) =>
                 var stream := Used(s1.log, Stream);
                 && Canonical(s1) && Used(s.log, Stream) <= stream
                 && Frames(s1.log) <= DecodeAll(cfg, s1.net.received).frames
                 && ((s.pending == [] && s1.log == s.log && StreamEnded(cfg, s1, e))
                     || (e.ProtocolError? && |Handed(s)| < |stream| && Unwrap(cfg, stream[|Handed(s)|]).None?))
  {
    hide NextOuter, Linked, QueueOk, QueueIsTail, Handed, Unwrap, DecodeAll, Replies, Used, Frames;
    NextOuterLaw(cfg, s);
    var (r, s1) := NextOuter(cfg, s);
    if r.Ok? {
      UnwrapByType(cfg, r.value);
      TakenFramesAreDecoded(cfg, s1);
      HandedIsStream(s1, |Handed(s)|);
    }
  }

  // ---- Connection ----

  lemma {:induction false} DialedLaw(cfg: Config, s: State)
    requires Canonical(s) && NextDial(cfg, s.net).Accepted?
    ensures var s1 := Dialed(cfg, s);
            Linked(cfg, s1) && s1.log == [] && s1.pending == [] && s1.pendingBytes == 0 && s1.net.sent == []
  {
    EmptySplit(cfg);
  }

  /** The greeting alone has been taken; nothing waits, nothing is answered. */
  lemma {:induction false} GreetingLaw(cfg: Config, s: State, f: Headers)
    requires Linked(cfg, Took(s, f, Greeting)) && s.log == [] && s.pending == [] && s.pendingBytes == 0
    requires s.net.sent == [] && HasType(f, "auth/request")
    ensures var s1 := Took(s, f, Greeting);
            && Open(cfg, s1) && s1.log == [Taken(f, Greeting)]
            && Used(s1.log, Answer) == [] && Used(s1.log, Stream) == [] && Replies(Frames(s1.log)) == []
  {
    hide Splits;
    TookReplies(s, f, Greeting);
    assert Frames(s.log) == [];
    UsedNext([], Taken(f, Greeting), Stream);
    UsedNext([], Taken(f, Greeting), Answer);
    assert [] + [Taken(f, Greeting)] == [Taken(f, Greeting)];
  }

  /** From the closed state, a successful connect starts fresh: one frame taken, the
      greeting; nothing waiting. Failure leaves the closed state. */
  lemma {:induction false} ConnectLaw(cfg: Config, s: State)
    requires Canonical(s)
    ensures var (r, s1) := Connect(cfg, s);
            && (r.Ok? ==> Open(cfg, s1) && !s1.authenticated && s1.net.sent == []
                          && Used(s1.log, Answer) == [] && Used(s1.log, Stream) == []
                          && |s1.log| == 1 && "Content-Type" in s1.log[0].frame
                          && s1.log[0].frame["Content-Type"] == "auth/request"
                          && Replies(Frames(s1.log)) == [])
            && (r.Err? ==> Canonical(s1))
  {
    hide ReadFrame, Splits, Replies, Frames, Used, QueueOk, QueueIsTail, AfterDial;
    if NextDial(cfg, s.net).Accepted? {
      var s1 := Dialed(cfg, s);
      DialedLaw(cfg, s);
      var (r, s2) := ReadFrame(cfg, s1, s1.net.now + cfg.timeout);
      ReadFrameLaw(cfg, s1, s1.net.now + cfg.timeout);
      if r.Ok? {
        TookKeepsLink(cfg, s1, r, s2, Greeting);
        if HasType(r.value, "auth/request") {
          GreetingLaw(cfg, s2, r.value);
        }
      }
    }
  }

  /** The reply text starts with `+OK`, whatever follows. */
  predicate SaysOk(f: Headers) {
    "Reply-Text" in f && |f["Reply-Text"]| >= 3 && f["Reply-Text"][..3] == "+OK"
  }

  lemma {:induction false} AcceptsSaysOk(f: Headers)
    ensures Accepts(f) <==> SaysOk(f)
  {
  }

  lemma {:induction false} LoginChangesNoQueue(cfg: Config, s: State)
    ensures var s1 := s.(authenticated := true);
            && QueueOk(cfg, s1) == QueueOk(cfg, s) && QueueIsTail(s1) == QueueIsTail(s)
            && Linked(cfg, s1) == Linked(cfg, s) && Handed(s1) == Handed(s)
  {
  }

  /** A login succeeds exactly when the switch's answer starts with `+OK`; any other
      outcome leaves the client closed and logged out. */
  lemma {:induction false} AuthenticateLaw(cfg: Config, s: State)
    requires Inv(cfg, s)
    ensures var (r, s1) := Authenticate(cfg, s);
            var answers := Used(s1.log, Answer);
            && (r.Ok? ==> Open(cfg, s1) && s1.authenticated && Handed(s1) == Handed(s)
                          && s1.net.sent == s.net.sent + ["auth " + cfg.password + "\n\n"]
                          && |answers| == |Used(s.log, Answer)| + 1 && SaysOk(answers[|answers| - 1]))
            && (r.Err? ==> Canonical(s1))
            && (r == Err(AuthError) ==> |answers| > 0 && !SaysOk(answers[|answers| - 1]))
  {
    hide Command, Linked, QueueOk, QueueIsTail, Handed, Used, Accepts, SaysOk;
    var reply := Command(cfg, s, "auth " + cfg.password).0;
    if reply.Ok? {
      AcceptsSaysOk(reply.value);
    }
    CommandLaw(cfg, s, "auth " + cfg.password);
    CommandErrors(cfg, s, "auth " + cfg.password);
    LoginChangesNoQueue(cfg, Command(cfg, s, "auth " + cfg.password).1);
  }

  /** A refused subscription has consumed its answer and keeps the connection; every
      other failure closes it. */
  lemma {:induction false} SubscribeLaw(cfg: Config, s: State, events: seq<string>)
    requires Inv(cfg, s)
    ensures var (r, s1) := Subscribe(cfg, s, events);
            var answers := Used(s1.log, Answer);
            && (r.Ok? || r == Err(CommandError) ==>
                  Open(cfg, s1) && s1.authenticated == s.authenticated && Handed(s1) == Handed(s)
                  && |answers| == |Used(s.log, Answer)| + 1 && (r.Ok? <==> SaysOk(answers[|answers| - 1]))
                  && s1.net.sent == s.net.sent + [Commands.SubscribeLine(events) + "\n\n"])
            && (r.Err? && r != Err(CommandError) ==> Canonical(s1))
  {
    hide Command, Linked, QueueOk, QueueIsTail, Handed, Used, Accepts, SaysOk, Await;
    var reply := Command(cfg, s, Commands.SubscribeLine(events)).0;
    if reply.Ok? {
      AcceptsSaysOk(reply.value);
    }
    CommandLaw(cfg, s, Commands.SubscribeLine(events));
    CommandErrors(cfg, s, Commands.SubscribeLine(events));
  }

  /** `api` refuses exactly the commands that neither pass the gate nor carry the opt-in,
      before anything is sent; otherwise it returns the `_body` of the command's own answer. */
  lemma {:induction false} ApiLaw(cfg: Config, s: State, command: string, allowUnsafe: bool)
    requires Inv(cfg, s)
    ensures var (r, s1) := Api(cfg, s, command, allowUnsafe);
            var answers := Used(s1.log, Answer);
            && (r == Err(NotSupported) <==> !allowUnsafe && !Commands.IsReadOnly(command))
            && (r == Err(NotSupported) ==> s1 == s)
            && (r.Ok? ==> Open(cfg, s1) && Handed(s1) == Handed(s)
                          && s1.net.sent == s.net.sent + ["api " + command + "\n\n"]
                          && |answers| == |Used(s.log, Answer)| + 1
                          && var answer := answers[|answers| - 1];
                             r.value == if "_body" in answer then answer["_body"] else "")
            && (r.Err? && r != Err(NotSupported) ==> Canonical(s1))
  {
    hide Command, Linked, QueueOk, QueueIsTail, Handed, Used, Commands.IsReadOnly;
    CommandLaw(cfg, s, "api " + command);
    CommandErrors(cfg, s, "api " + command);
  }

  lemma {:induction false} AwaitErrors(cfg: Config, s: State, deadline: real)
    requires Linked(cfg, s)
    ensures var r := Await(cfg, s, deadline).0;
            r.Err? ==> r.error.Timeout? || r.error.ProtocolError? || r.error.ConnectionError?
    decreases Max(0, MAX_PENDING - |s.pending|)
  {
    hide ReadFrame, Splits;
    if s.net.now < deadline {
      var (r, s1) := ReadFrame(cfg, s, deadline);
      ReadFrameLaw(cfg, s, deadline);
      if r.Ok? && !IsReply(r.value) && IsEvent(r.value) && Stash(cfg, s1, r.value).Ok? {
        StashSize(cfg, s1, r.value);
        TookKeepsLink(cfg, s, r, s1, Stream);
        AwaitErrors(cfg, Took(Stash(cfg, s1, r.value).value, r.value, Stream), deadline);
      }
    }
  }

  lemma {:induction false} CommandErrors(cfg: Config, s: State, line: string)
    requires Inv(cfg, s)
    ensures var r := Command(cfg, s, line).0;
            r.Err? ==> r.error.Timeout? || r.error.ProtocolError? || r.error.ConnectionError?
  {
    hide Await, QueueOk, QueueIsTail, Splits;
    var (r, s1) := Send(s, line + "\n\n");
    if r.Ok? {
      AwaitErrors(cfg, s1, s.net.now + cfg.timeout);
    }
  }

  lemma {:induction false} EmptySplit(cfg: Config)
    ensures Splits(cfg, [], Frames([]), [])
  {
    assert Frames([]) == [];
  }

  // ---- Time and work, against any peer ----

  lemma {:induction false} ReadFrameKeepsDeadline(cfg: Config, s: State, deadline: real)
    ensures s.net.now <= ReadFrame(cfg, s, deadline).1.net.now <= RMax(s.net.now, deadline)
  {
    hide Pump;
    PumpKeepsDeadline(cfg, s, deadline);
  }

  lemma {:induction false} AwaitKeepsDeadline(cfg: Config, s: State, deadline: real)
    ensures s.net.now <= Await(cfg, s, deadline).1.net.now <= RMax(s.net.now, deadline)
    decreases Max(0, MAX_PENDING - |s.pending|)
  {
    hide ReadFrame;
    if s.net.now < deadline {
      var (r, s1) := ReadFrame(cfg, s, deadline);
      ReadFrameKeepsDeadline(cfg, s, deadline);
      ReadFrameKeepsQueue(cfg, s, deadline);
      if r.Ok? && !IsReply(r.value) && IsEvent(r.value) && Stash(cfg, s1, r.value).Ok? {
        StashSize(cfg, s1, r.value);
        AwaitKeepsDeadline(cfg, Took(Stash(cfg, s1, r.value).value, r.value, Stream), deadline);
      }
    }
  }

  /** A command, sending included, ends by start + timeout however many events and
      one-byte chunks arrive. */
  lemma {:induction false} CommandKeepsDeadline(cfg: Config, s: State, line: string)
    requires s.sock ==> s.net.sockTimeout == cfg.timeout
    ensures s.net.now <= Command(cfg, s, line).1.net.now <= s.net.now + cfg.timeout
  {
    hide Await;
    AwaitKeepsDeadline(cfg, Send(s, line + "\n\n").1, s.net.now + cfg.timeout);
  }

  lemma {:induction false} ReadEventKeepsDeadline(cfg: Config, s: State)
    ensures s.net.now <= ReadEvent(cfg, s).1.net.now <= s.net.now + cfg.timeout
  {
    hide ReadFrame, Unwrap;
    ReadFrameKeepsDeadline(cfg, s, s.net.now + cfg.timeout);
  }

  /** Connecting lasts at most one timeout for the connection and one for the greeting. */
  lemma {:induction false} ConnectKeepsDeadline(cfg: Config, s: State)
    ensures s.net.now <= Connect(cfg, s).1.net.now <= s.net.now + cfg.timeout + cfg.timeout
  {
    hide ReadFrame;
    if NextDial(cfg, s.net).Accepted? {
      var s1 := Dialed(cfg, s);
      ReadFrameKeepsDeadline(cfg, s1, s1.net.now + cfg.timeout);
    }
  }

  lemma {:induction false} ReadFrameBoundsWork(cfg: Config, s: State, deadline: real)
    ensures var s1 := ReadFrame(cfg, s, deadline).1;
            s1.net.calls - s.net.calls <= FrameCap(cfg) && s1.log == s.log
  {
    PumpBoundsReceives(cfg, s, deadline);
    var got := PumpMeetsDecoder(cfg, s, deadline);
    hide Pump, DecodeOne;
  }

  lemma {:induction false} Unfold(n: int, k: int)
    ensures (n + 1) * k == k + n * k
  {
  }

  /** One command takes at most one frame more than the free queue slots, and so a
      bounded number of receives: no clock and no cooperation of the peer needed. */
  lemma {:induction false} AwaitBoundsWork(cfg: Config, s: State, deadline: real)
    requires |s.pending| <= MAX_PENDING
    ensures var s1 := Await(cfg, s, deadline).1;
            var frames := 65 - |s.pending|;
            |s1.log| - |s.log| <= frames && s1.net.calls - s.net.calls <= frames * FrameCap(cfg)
    decreases Max(0, MAX_PENDING - |s.pending|)
  {
    hide ReadFrame, FrameCap;
    var k := MAX_PENDING - |s.pending|;
    Unfold(k, FrameCap(cfg));
    assert k * FrameCap(cfg) >= 0;
    if s.net.now < deadline {
      var (r, s1) := ReadFrame(cfg, s, deadline);
      ReadFrameBoundsWork(cfg, s, deadline);
      ReadFrameKeepsQueue(cfg, s, deadline);
      if r.Ok? && !IsReply(r.value) && IsEvent(r.value) && Stash(cfg, s1, r.value).Ok? {
        StashSize(cfg, s1, r.value);
        AwaitBoundsWork(cfg, Took(Stash(cfg, s1, r.value).value, r.value, Stream), deadline);
      }
    }
  }
}
