/** The reference decoder: what a byte string means as ESL frames, with no socket,
    no chunks and no clock. */
module Framing {
  import opened Text
  import opened Utf8
  import opened HeaderBlock
  import Decimal

  const LF: byte := 10

  datatype RawConfig = Config(
    timeout: real, maxHeader: nat, maxBody: nat, maxFrame: nat, password: string)
  {
    /** The ranges the settings are clamped to, each on its own. */
    predicate Clamped() {
      1.0 <= timeout <= 30.0
      && 1024 <= maxHeader <= 1048576
      && 1024 <= maxBody <= 16777216
      && 2048 <= maxFrame <= 17825792
    }
  }

  type Config = c: RawConfig | c.Clamped() witness Config(10.0, 65536, 1048576, 1114112, "")

  function Min(a: int, b: int): int {
    if a <= b then a else b
  }

  function Max(a: int, b: int): int {
    if a >= b then a else b
  }

  /** Short: no verdict yet. Bad: the stream has left the protocol. */
  datatype Verdict = Short | Bad | Good(frame: Headers, used: nat)

  /** Declared length of the body after a header block, or None for a violation. */
  function BodyLength(cfg: Config, headers: Headers): Option<nat> {
    if "Content-Length" in headers then Decimal.ContentLength(headers["Content-Length"], cfg.maxBody)
    else Some(0)
  }

  /** What follows once a header block of `block` bytes has been found. */
  function DecodeBody(cfg: Config, headers: Headers, b: seq<byte>, start: nat): Verdict
    requires start <= |b|
  {
    match BodyLength(cfg, headers)
    case None => Bad
    case Some(n) =>
      if start + n > cfg.maxFrame then Bad
      else if n == 0 then Good(headers, start)
      else if |b| < start + n then Short
      else Good(headers["_body" := Decode(b[start..start + n])], start + n)
  }

  /** Verdict on the first frame of `b`. A header block is accepted only if its
      terminator ends within the first `maxHeader` bytes. */
  function DecodeOne(cfg: Config, b: seq<byte>): Verdict {
    var i := IndexOfPair(b[..Min(|b|, cfg.maxHeader)], LF);
    if i < 0 then if |b| >= cfg.maxHeader then Bad else Short
    else if i + 2 > cfg.maxFrame then Bad
    else DecodeBody(cfg, Parse(Decode(b[..i]), false), b, i + 2)
  }

  datatype Ending = Cut(rest: seq<byte>) | Violation
  datatype Decoded = Decoded(frames: seq<Headers>, end: Ending)

  /** The whole stream at once. */
  function DecodeAll(cfg: Config, b: seq<byte>): Decoded
    decreases |b|
  {
    match DecodeOne(cfg, b)
    case Short => Decoded([], Cut(b))
    case Bad => Decoded([], Violation)
    case Good(f, used) =>
      VerdictBounds(cfg, b);
      var d := DecodeAll(cfg, b[used..]);
      Decoded([f] + d.frames, d.end)
  }

  /** Bytes that can be waiting while the first frame has no verdict. */
  function FrameCap(cfg: Config): nat {
    cfg.maxHeader + cfg.maxBody
  }

  /** A frame takes at least its blank line and at most `maxFrame` bytes; without
      a verdict fewer than `FrameCap` bytes are waiting. */
  lemma {:induction false} VerdictBounds(cfg: Config, b: seq<byte>)
    ensures var v := DecodeOne(cfg, b);
            && (v.Good? ==> 2 <= v.used <= |b| && v.used <= cfg.maxFrame)
            && (v.Short? ==> |b| < FrameCap(cfg))
  {
    var i := IndexOfPair(b[..Min(|b|, cfg.maxHeader)], LF);
    if i >= 0 && i + 2 <= cfg.maxFrame {
      var h := Parse(Decode(b[..i]), false);
      if "Content-Length" in h {
        Decimal.ContentLengthExact(h["Content-Length"], cfg.maxBody);
      }
    }
  }

  /** The two checks on a header, "no blank line and the cap reached" and "blank line
      ending beyond the cap", together reject exactly the headers whose terminator does
      not end within the cap, whatever has come so far; below the cap the wait goes on. */
  lemma {:induction false} HeaderCapIsExact(cfg: Config, b: seq<byte>)
    ensures var i := IndexOfPair(b, LF);
            DecodeOne(cfg, b)
            == if i < 0 then if |b| >= cfg.maxHeader then Bad else Short
               else if i + 2 > cfg.maxHeader || i + 2 > cfg.maxFrame then Bad
               else DecodeBody(cfg, Parse(Decode(b[..i]), false), b, i + 2)
  {
    hide Decode, Parse, DecodeBody;
    PairInPrefix(b, LF, Min(|b|, cfg.maxHeader));
  }

  lemma {:induction false} NothingIsShort(cfg: Config)
    ensures DecodeOne(cfg, []).Short?
  {
  }

  lemma {:induction false} DecodeBodyStays(cfg: Config, headers: Headers, b: seq<byte>, more: seq<byte>, start: nat)
    requires start <= |b| && DecodeBody(cfg, headers, b, start) != Short
    ensures DecodeBody(cfg, headers, b + more, start) == DecodeBody(cfg, headers, b, start)
  {
    match BodyLength(cfg, headers)
    case None =>
    case Some(n) =>
      if start + n <= |b| {
        assert (b + more)[start..start + n] == b[start..start + n];
      }
  }

  /** A verdict never changes when more bytes arrive. */
  lemma {:induction false} VerdictStays(cfg: Config, b: seq<byte>, more: seq<byte>)
    requires DecodeOne(cfg, b) != Short
    ensures DecodeOne(cfg, b + more) == DecodeOne(cfg, b)
  {
    var w := Min(|b|, cfg.maxHeader);
    var w' := Min(|b + more|, cfg.maxHeader);
    var window := (b + more)[..w'];
    assert window[..w] == b[..w];
    PairInPrefix(window, LF, w);
    var i := IndexOfPair(b[..w], LF);
    if i >= 0 {
      assert IndexOfPair(window, LF) == i;
      assert (b + more)[..i] == b[..i];
      if i + 2 <= cfg.maxFrame {
        DecodeBodyStays(cfg, Parse(Decode(b[..i]), false), b, more, i + 2);
      }
    } else {
      assert window == b[..w];
    }
  }

  lemma {:induction false} SliceOfPrefix<T>(s: seq<T>, n: nat, i: nat, j: nat)
    requires i <= j <= n <= |s|
    ensures s[..n][i..j] == s[i..j]
  {
  }

  /** A frame's verdict needs no byte beyond the frame itself. */
  lemma {:induction false} VerdictNeedsOnlyItsFrame(cfg: Config, b: seq<byte>)
    requires DecodeOne(cfg, b).Good?
    ensures var v := DecodeOne(cfg, b);
            v.used <= |b| && DecodeOne(cfg, b[..v.used]) == v
  {
    hide Parse, Decode, IndexOfPair, BodyLength;
    VerdictBounds(cfg, b);
    var v := DecodeOne(cfg, b);
    var w := Min(|b|, cfg.maxHeader);
    var i := IndexOfPair(b[..w], LF);
    var frame := b[..v.used];
    var w' := Min(v.used, cfg.maxHeader);
    assert b[..w][..w'] == frame[..w'];
    PairInPrefix(b[..w], LF, w');
    assert frame[..i] == b[..i];
    var n := v.used - (i + 2);
    if n > 0 {
      SliceOfPrefix(b, v.used, i + 2, i + 2 + n);
    }
  }

  /** `b` is exactly the given frames, one after the other, and then `rest`. */
  ghost predicate Splits(cfg: Config, b: seq<byte>, frames: seq<Headers>, rest: seq<byte>)
    decreases frames
  {
    if frames == [] then b == rest
    else
      var v := DecodeOne(cfg, b);
      v.Good? && v.used <= |b| && v.frame == frames[0] && Splits(cfg, b[v.used..], frames[1..], rest)
  }

  lemma {:induction false} SplitsMore(cfg: Config, b: seq<byte>, frames: seq<Headers>, rest: seq<byte>, more: seq<byte>)
    requires Splits(cfg, b, frames, rest)
    ensures Splits(cfg, b + more, frames, rest + more)
    decreases frames
  {
    hide DecodeOne;
    if frames != [] {
      var used := DecodeOne(cfg, b).used;
      VerdictStays(cfg, b, more);
      assert (b + more)[used..] == b[used..] + more;
      SplitsMore(cfg, b[used..], frames[1..], rest, more);
    }
  }

  lemma {:induction false} SplitsNext(cfg: Config, b: seq<byte>, frames: seq<Headers>, rest: seq<byte>)
    ensures var v := DecodeOne(cfg, rest);
            Splits(cfg, b, frames, rest) && v.Good? ==>
              v.used <= |rest| && Splits(cfg, b, frames + [v.frame], rest[v.used..])
    decreases frames
  {
    hide DecodeOne;
    VerdictBounds(cfg, rest);
    var v := DecodeOne(cfg, rest);
    if !Splits(cfg, b, frames, rest) || !v.Good? {
    } else if frames == [] {
      assert [v.frame][1..] == [];
      assert frames + [v.frame] == [v.frame];
    } else {
      SplitsNext(cfg, b[DecodeOne(cfg, b).used..], frames[1..], rest);
      assert (frames + [v.frame])[1..] == frames[1..] + [v.frame];
    }
  }

  lemma {:induction false} DecodeAllStep(cfg: Config, b: seq<byte>)
    ensures var v := DecodeOne(cfg, b);
            match v
            case Short => DecodeAll(cfg, b) == Decoded([], Cut(b))
            case Bad => DecodeAll(cfg, b) == Decoded([], Violation)
            case Good(f, used) =>
              used <= |b| && DecodeAll(cfg, b)
                             == Decoded([f] + DecodeAll(cfg, b[used..]).frames, DecodeAll(cfg, b[used..]).end)
  {
    hide DecodeOne;
    VerdictBounds(cfg, b);
  }

  /** The one-shot decoding of a split stream: its frames, then those of the rest. */
  lemma {:induction false} SplitsDecode(cfg: Config, b: seq<byte>, frames: seq<Headers>, rest: seq<byte>)
    requires Splits(cfg, b, frames, rest)
    ensures var d := DecodeAll(cfg, rest);
            DecodeAll(cfg, b) == Decoded(frames + d.frames, d.end)
    decreases frames
  {
    hide DecodeOne, DecodeAll;
    var d := DecodeAll(cfg, rest);
    if frames == [] {
      assert frames + d.frames == d.frames;
    } else {
      DecodeAllStep(cfg, b);
      SplitsDecode(cfg, b[DecodeOne(cfg, b).used..], frames[1..], rest);
      assert [frames[0]] + (frames[1..] + d.frames) == frames + d.frames;
    }
  }

  // ---- Inner events ----

  /** The event inside a `text/event-plain` body; None is a protocol violation. */
  function EventOf(cfg: Config, body: string): Option<Headers> {
    var i := IndexOfPair(body, '\n');
    var head := if i < 0 then body else body[..i];
    var rest := if i < 0 then [] else body[i + 2..];
    var headerSize := |Encode(head)| + if i < 0 then 0 else 2;
    if headerSize > cfg.maxHeader || headerSize > cfg.maxFrame then None
    else
      var event := Parse(head, true);
      match BodyLength(cfg, event)
      case None => None
      case Some(n) =>
        if headerSize + n > cfg.maxFrame then None
        else if n == 0 then Some(event)
        else if i < 0 || |Encode(rest)| < n then None
        else Some(event["_body" := rest[..Min(n, |rest|)]])
  }

  const EVENT_PLAIN := "text/event-plain"

  predicate HasType(f: Headers, contentType: string) {
    "Content-Type" in f && f["Content-Type"] == contentType
  }

  predicate IsEvent(f: Headers) {
    HasType(f, EVENT_PLAIN)
  }

  predicate IsReply(f: Headers) {
    HasType(f, "api/response") || HasType(f, "command/reply")
  }

  lemma {:induction false} TypesByName(f: Headers)
    ensures IsEvent(f) <==> "Content-Type" in f && f["Content-Type"] == "text/event-plain"
    ensures IsReply(f) <==> "Content-Type" in f && f["Content-Type"] in {"api/response", "command/reply"}
    ensures !(IsEvent(f) && IsReply(f))
  {
    assert EVENT_PLAIN[0] == 't' && "api/response"[0] == 'a' && "command/reply"[0] == 'c';
  }

  /** What `read_event` makes of a frame: events are unwrapped, others surface as they are. */
  function Unwrap(cfg: Config, f: Headers): Option<Headers> {
    if IsEvent(f) then EventOf(cfg, if "_body" in f then f["_body"] else "") else Some(f)
  }

  /** A header with its blank line in the body of an event: the event is refused exactly if
      the header is too long, or declares a length that is none, exceeds a cap, or exceeds what
      is there in bytes. */
  lemma {:induction false} EventRefusedIff(cfg: Config, head: string, rest: string)
    requires PairFree(head, '\n')
    ensures var event, size := Parse(head, true), |Encode(head)| + 2;
            EventOf(cfg, head + "\n\n" + rest) == None
            <==> || size > cfg.maxHeader || size > cfg.maxFrame
                 || ("Content-Length" in event
                     && var length := Decimal.ContentLength(event["Content-Length"], cfg.maxBody);
                        length.None? || size + length.value > cfg.maxFrame || length.value > |Encode(rest)|)
  {
    hide Parse, Encode, Decimal.ContentLength, PairFree;
    var body := head + "\n\n" + rest;
    assert body == head + ['\n', '\n'] + rest;
    FirstPairAfter(head, '\n', rest);
    assert body[..|head|] == head && body[|head| + 2..] == rest;
  }

  /** Without a blank line everything is header: the event is refused exactly if that is too
      long or declares any length but zero, and else is the header's fields. */
  lemma {:induction false} BareEventIff(cfg: Config, body: string)
    requires IndexOfPair(body, '\n') < 0
    ensures var event, size := Parse(body, true), |Encode(body)|;
            EventOf(cfg, body)
            == if size > cfg.maxHeader || size > cfg.maxFrame
                  || ("Content-Length" in event
                      && Decimal.ContentLength(event["Content-Length"], cfg.maxBody) != Some(0))
               then None else Some(event)
  {
    hide Parse, Encode, Decimal.ContentLength;
  }
}
