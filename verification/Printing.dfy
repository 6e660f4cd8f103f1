/** A peer that prints frames and events, and the round trips the client completes. */
module Printing {
  import opened Text
  import opened Utf8
  import opened HeaderBlock
  import opened Framing
  import Decimal
  import Percent

  // ---- Blank lines end headers and nothing else does ----

  lemma {:induction false} JoinIsPairFree(parts: seq<string>, sep: char)
    requires parts != [] && forall i | 0 <= i < |parts| :: parts[i] != [] && sep !in parts[i]
    ensures PairFree(Join(parts, sep), sep) && Join(parts, sep) != [] && Join(parts, sep)[0] != sep
  {
    var s := Join(parts, sep);
    assert parts[0][0] in parts[0] && parts[0][|parts[0]| - 1] in parts[0];
    if |parts| > 1 {
      var rest := Join(parts[1..], sep);
      JoinIsPairFree(parts[1..], sep);
      forall i ensures !PairAt(s, sep, i) {
        if 0 <= i < |parts[0]| {
          assert s[i] == parts[0][i];
        } else if i > |parts[0]| && PairAt(s, sep, i) {
          assert PairAt(rest, sep, i - |parts[0]| - 1);
        }
      }
    } else {
      assert forall i | 0 <= i < |s| :: s[i] in parts[0];
    }
  }

  lemma {:induction false} PrintIsPairFree(fields: seq<Field>)
    requires Printable(fields) && fields != []
    ensures PairFree(Print(fields), '\n')
  {
    forall i | 0 <= i < |fields| ensures '\n' !in PrintLine(fields[i]) {}
    JoinIsPairFree(PrintLines(fields), '\n');
  }

  lemma {:induction false} EncodeIsPairFree(t: string)
    requires PairFree(t, '\n')
    ensures PairFree(Encode(t), LF)
  {
    if t != [] {
      var head, tail := EncodeChar(t[0]), Encode(t[1..]);
      assert PairFree(t[1..], '\n') by {
        forall i ensures !PairAt(t[1..], '\n', i) {
          assert !PairAt(t, '\n', i + 1);
        }
      }
      EncodeIsPairFree(t[1..]);
      FirstByte(t[1..]);
      assert !PairAt(t, '\n', 0);
      forall i ensures !PairAt(head + tail, LF, i) {
        if i >= |head| {
          assert !PairAt(tail, LF, i - |head|);
        }
      }
    }
  }

  lemma {:induction false} FirstByte(t: string)
    ensures t == [] <==> Encode(t) == []
    ensures t != [] ==> (Encode(t)[0] == LF <==> t[0] == '\n')
  {
  }

  // ---- Outer frames ----

  function PrintFrame(fields: seq<Field>, payload: string): seq<byte> {
    Encode(Print(fields)) + [LF, LF] + Encode(payload)
  }

  /** The headers declare the payload's size in bytes, or no size when it is empty. */
  predicate Declares(m: Headers, payload: string) {
    if "Content-Length" in m then m["Content-Length"] == Decimal.Digits(|Encode(payload)|) else payload == []
  }

  function WithBody(m: Headers, payload: string): Headers {
    if payload == [] then m else m["_body" := payload]
  }

  predicate Fits(cfg: Config, header: string, payload: string) {
    var h, n := |Encode(header)| + 2, |Encode(payload)|;
    h <= cfg.maxHeader && n <= cfg.maxBody && h + n <= cfg.maxFrame
  }

  lemma {:induction false} DeclaredLength(cfg: Config, m: Headers, payload: string)
    requires Declares(m, payload) && |Encode(payload)| <= cfg.maxBody
    ensures BodyLength(cfg, m) == Some(|Encode(payload)|)
  {
    Decimal.PrintedLength(|Encode(payload)|, cfg.maxBody);
  }

  lemma {:induction false} EmptyEncoding(s: string)
    ensures s == [] <==> |Encode(s)| == 0
  {
  }

  /** A printed frame decodes to its headers and its payload, whatever follows it. */
  lemma {:induction false} FrameRoundTrip(cfg: Config, fields: seq<Field>, payload: string, rest: seq<byte>)
    requires Printable(fields) && fields != [] && Declares(ToMap(fields), payload) && Fits(cfg, Print(fields), payload)
    ensures var frame := PrintFrame(fields, payload);
            DecodeOne(cfg, frame + rest) == Good(WithBody(ToMap(fields), payload), |frame|)
  {
    hide Encode, Print, Parse, Decode, BodyLength, Declares, PairFree, Printable;
    var header, body := Encode(Print(fields)), Encode(payload);
    var b := PrintFrame(fields, payload) + rest;
    assert b == header + [LF, LF] + (body + rest);
    PrintIsPairFree(fields);
    EncodeIsPairFree(Print(fields));
    FirstPairAfter(header, LF, body + rest);
    PairInPrefix(b, LF, Min(|b|, cfg.maxHeader));
    assert b[..|header|] == header;
    Utf8.RoundTrip(Print(fields));
    HeaderBlock.RoundTrip(fields);
    DeclaredLength(cfg, ToMap(fields), payload);
    EmptyEncoding(payload);
    assert b[|header| + 2..|header| + 2 + |body|] == body;
    Utf8.RoundTrip(payload);
  }

  // ---- Inner events ----

  function PrintEvent(fields: seq<Field>, safe: set<char>, payload: string): string {
    Print(QuoteFields(fields, safe)) + "\n\n" + payload
  }

  predicate Keyed(fields: seq<Field>) {
    fields != [] && forall i | 0 <= i < |fields| :: KeyOk(fields[i].0)
  }

  /** What the client takes as payload: as many characters as bytes were declared. */
  lemma {:induction false} EventWithTail(
    cfg: Config, fields: seq<Field>, safe: set<char>, payload: string, tail: string)
    requires Percent.MayStayBare(safe) && Keyed(fields) && Declares(ToMap(fields), payload)
    requires Fits(cfg, Print(QuoteFields(fields, safe)), payload)
    ensures EventOf(cfg, PrintEvent(fields, safe, payload) + tail)
            == Some(if payload == [] then ToMap(fields)
                    else ToMap(fields)["_body" := (payload + tail)[..Min(|Encode(payload)|, |payload + tail|)]])
  {
    hide Encode, Print, Parse, BodyLength, Declares, PairFree, Printable, ToMap;
    var quoted := QuoteFields(fields, safe);
    var head, rest := Print(quoted), payload + tail;
    var body := PrintEvent(fields, safe, payload) + tail;
    assert body == head + ['\n', '\n'] + rest;
    QuotedFieldsPrint(fields, safe);
    PrintIsPairFree(quoted);
    FirstPairAfter(head, '\n', rest);
    assert body[..|head|] == head && body[|head| + 2..] == rest;
    EncodedRoundTrip(fields, safe);
    DeclaredLength(cfg, ToMap(fields), payload);
    EncodeConcat(payload, tail);
    EmptyEncoding(payload);
    EncodeGrows(payload);
  }

  /** Event round trip: arbitrary decoded values, and the payload when nothing follows it. */
  lemma {:induction false} EventRoundTrip(cfg: Config, fields: seq<Field>, safe: set<char>, payload: string)
    requires Percent.MayStayBare(safe) && Keyed(fields) && Declares(ToMap(fields), payload)
    requires Fits(cfg, Print(QuoteFields(fields, safe)), payload)
    ensures EventOf(cfg, PrintEvent(fields, safe, payload)) == Some(WithBody(ToMap(fields), payload))
  {
    hide EventOf, PrintEvent, Declares, Fits, ToMap, Print;
    EventWithTail(cfg, fields, safe, payload, []);
    EncodeGrows(payload);
    assert payload + [] == payload && payload[..|payload|] == payload;
    assert PrintEvent(fields, safe, payload) + [] == PrintEvent(fields, safe, payload);
  }

  lemma {:induction false} AsciiByLength(s: string)
    ensures |Encode(s)| == |s| <==> IsAscii(s)
  {
    if s != [] {
      AsciiByLength(s[1..]);
      EncodeGrows(s[1..]);
      NonAsciiIsLonger(s[0]);
      assert IsAscii(s) <==> s[0] as int < 0x80 && IsAscii(s[1..]) by {
        if s[0] as int < 0x80 && IsAscii(s[1..]) {
          forall i | 0 <= i < |s| ensures s[i] as int < 0x80 {
            assert i > 0 ==> s[1..][i - 1] as int < 0x80;
          }
        }
        if IsAscii(s) {
          forall i | 0 <= i < |s[1..]| ensures s[1..][i] as int < 0x80 {
            assert s[i + 1] as int < 0x80;
          }
        }
      }
    }
  }

  lemma {:induction false} NonAsciiIsLonger(c: char)
    ensures |EncodeChar(c)| == 1 <==> c as int < 0x80
  {
  }

  /** The length is checked in bytes and the slice taken in characters: with text behind
      the payload the result is the payload exactly when the payload is single-byte
      text or nothing follows it. */
  lemma {:induction false} PayloadIsExactIff(
    cfg: Config, fields: seq<Field>, safe: set<char>, payload: string, tail: string)
    requires Percent.MayStayBare(safe) && Keyed(fields) && Declares(ToMap(fields), payload) && payload != []
    requires Fits(cfg, Print(QuoteFields(fields, safe)), payload)
    ensures EventOf(cfg, PrintEvent(fields, safe, payload) + tail) == Some(WithBody(ToMap(fields), payload))
            <==> IsAscii(payload) || tail == []
  {
    hide EventOf, PrintEvent, Declares, Fits, ToMap, Print, IsAscii, Encode;
    EventWithTail(cfg, fields, safe, payload, tail);
    EncodeGrows(payload);
    AsciiByLength(payload);
    var taken := (payload + tail)[..Min(|Encode(payload)|, |payload + tail|)];
    assert taken == payload <==> |taken| == |payload| by {
      if |taken| == |payload| {
        assert taken == (payload + tail)[..|payload|] == payload;
      }
    }
    var m := ToMap(fields);
    assert m["_body" := taken]["_body"] == taken && m["_body" := payload]["_body"] == payload;
  }

  lemma {:induction false} TwoByteExample(cfg: Config, safe: set<char>)
    requires Percent.MayStayBare(safe)
    ensures var fields, payload := [("Content-Length", "2")], [0xE9 as char];
            && Keyed(fields) && Declares(ToMap(fields), payload) && |Encode(payload)| == 2
            && Fits(cfg, Print(QuoteFields(fields, safe)), payload)
  {
    var fields, payload := [("Content-Length", "2")], [0xE9 as char];
    assert fields[..0] == [] && ToMap(fields) == map["Content-Length" := "2"];
    assert payload[1..] == [] && Encode(payload) == EncodeChar(0xE9 as char) + Encode([]);
    assert Decimal.Digits(2) == "2" && KeyOk("Content-Length");
    var line := PrintLine(QuoteFields(fields, safe)[0]);
    assert Encode("2") == [50] + Encode([]) by {
      assert "2"[1..] == [];
    }
    assert Percent.Quote("2", safe) == Percent.QuoteByte(50, safe) + Percent.QuoteBytes([], safe) by {
      assert [50][1..] == [];
    }
    assert |line| <= 20 && Print(QuoteFields(fields, safe)) == line;
    EncodeGrows(line);
  }

  /** The failing case is real: two bytes are declared for one two-byte character, and the
      client takes two characters, the second from behind the payload. */
  lemma {:induction false} PayloadCanOverrun(cfg: Config, safe: set<char>)
    requires Percent.MayStayBare(safe)
    ensures var fields, payload := [("Content-Length", "2")], [0xE9 as char];
            && EventOf(cfg, PrintEvent(fields, safe, payload) + "x")
               == Some(ToMap(fields)["_body" := payload + "x"])
            && EventOf(cfg, PrintEvent(fields, safe, payload)) == Some(ToMap(fields)["_body" := payload])
  {
    hide EventOf, PrintEvent, Declares, Fits, ToMap, Print, Encode;
    var fields, payload := [("Content-Length", "2")], [0xE9 as char];
    TwoByteExample(cfg, safe);
    EventWithTail(cfg, fields, safe, payload, "x");
    assert (payload + "x")[..2] == payload + "x";
    EventRoundTrip(cfg, fields, safe, payload);
  }

  // ---- A whole stream of events ----

  datatype Event = Event(fields: seq<Field>, payload: string)

  function Envelope(body: string): seq<Field> {
    [("Content-Length", Decimal.Digits(|Encode(body)|)), ("Content-Type", "text/event-plain")]
  }

  function WireOf(e: Event, safe: set<char>): seq<byte> {
    var body := PrintEvent(e.fields, safe, e.payload);
    PrintFrame(Envelope(body), body)
  }

  function WireAll(events: seq<Event>, safe: set<char>): seq<byte> {
    if events == [] then [] else WireOf(events[0], safe) + WireAll(events[1..], safe)
  }

  ghost predicate Sendable(cfg: Config, e: Event, safe: set<char>) {
    var body := PrintEvent(e.fields, safe, e.payload);
    && Keyed(e.fields) && Declares(ToMap(e.fields), e.payload)
    && Fits(cfg, Print(QuoteFields(e.fields, safe)), e.payload)
    && Fits(cfg, Print(Envelope(body)), body)
  }

  lemma {:induction false} EnvelopeNames()
    ensures KeyOk("Content-Length") && KeyOk("Content-Type") && ValueOk("text/event-plain")
    ensures "Content-Length" != "Content-Type"
  {
  }

  lemma {:induction false} DigitsAreValue(s: string)
    requires Decimal.AllDigits(s)
    ensures ValueOk(s)
  {
  }

  lemma {:induction false} EnvelopePrints(body: string)
    ensures Printable(Envelope(body)) && Declares(ToMap(Envelope(body)), body) && IsEvent(ToMap(Envelope(body)))
  {
    var digits := Decimal.Digits(|Encode(body)|);
    EnvelopeNames();
    DigitsAreValue(digits);
    hide KeyOk, ValueOk, Encode, Decimal.Digits;
    var f := Envelope(body);
    assert f[..1] == [f[0]] && f[..1][..0] == [];
    assert ToMap(f[..1]) == ToMap([])["Content-Length" := digits];
    assert ToMap(f) == ToMap(f[..1])["Content-Type" := "text/event-plain"];
  }

  /** One printed event: its frame decodes, and unwraps to its fields and payload. */
  lemma {:induction false} WireRoundTrip(cfg: Config, e: Event, safe: set<char>, rest: seq<byte>)
    requires Percent.MayStayBare(safe) && Sendable(cfg, e, safe)
    ensures var v := DecodeOne(cfg, WireOf(e, safe) + rest);
            v.Good? && v.used == |WireOf(e, safe)|
            && Unwrap(cfg, v.frame) == Some(WithBody(ToMap(e.fields), e.payload))
  {
    hide DecodeOne, EventOf, Encode, Print, PrintFrame, Fits, Declares, Printable, ToMap, Decimal.Digits;
    var body := PrintEvent(e.fields, safe, e.payload);
    EnvelopePrints(body);
    FrameRoundTrip(cfg, Envelope(body), body, rest);
    EventRoundTrip(cfg, e.fields, safe, e.payload);
  }

  /** A printed stream decodes to its events, in order, with nothing left over. */
  lemma {:induction false} StreamRoundTrip(cfg: Config, events: seq<Event>, safe: set<char>)
    requires Percent.MayStayBare(safe) && forall i | 0 <= i < |events| :: Sendable(cfg, events[i], safe)
    ensures var d := DecodeAll(cfg, WireAll(events, safe));
            && |d.frames| == |events| && d.end == Cut([])
            && forall i | 0 <= i < |events| ::
                 Unwrap(cfg, d.frames[i]) == Some(WithBody(ToMap(events[i].fields), events[i].payload))
  {
    hide DecodeOne, Unwrap, WireOf, Sendable, ToMap;
    DecodeAllStep(cfg, WireAll(events, safe));
    if events == [] {
      assert DecodeOne(cfg, []).Short? by {
        NothingIsShort(cfg);
      }
    } else {
      var rest := WireAll(events[1..], safe);
      WireRoundTrip(cfg, events[0], safe, rest);
      assert WireAll(events, safe)[|WireOf(events[0], safe)|..] == rest;
      StreamRoundTrip(cfg, events[1..], safe);
      forall i | 0 < i < |events| ensures events[i] == events[1..][i - 1] {}
    }
  }
}
