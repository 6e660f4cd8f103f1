/** Printer, wire, chunks and reader together. */
module EndToEnd {
  import opened Text
  import opened HeaderBlock
  import opened Framing
  import opened Transport
  import opened Scripts
  import opened Fragments
  import opened Printing
  import Percent

  predicate Arrived(cfg: Config, events: seq<Event>, frames: seq<Headers>) {
    |frames| <= |events|
    && forall i | 0 <= i < |frames| ::
         Unwrap(cfg, frames[i]) == Some(WithBody(ToMap(events[i].fields), events[i].payload))
  }

  /** Events a peer prints arrive as they were and in order, whatever their texts hold and
      however the bytes are cut into receives and pauses and the stream ends: all of them,
      and then that end seen as a drop, if and only if no frame is cut; else those complete
      at the first cut. */
  lemma {:induction false} PrintedEventsArrive(cfg: Config, s: State, events: seq<Event>, safe: set<char>)
    requires Percent.MayStayBare(safe) && forall i | 0 <= i < |events| :: Sendable(cfg, events[i], safe)
    requires s.sock && s.buffer == [] && Bytes(s.net.recvs) == WireAll(events, safe)
    ensures var r := ReadAll(cfg, s);
            && Arrived(cfg, events, r.frames)
            && (|r.frames| == |events| && r.error == EndOf(s.net.recvs) <==> NeverCut(cfg, s))
            && forall n | FirstCut(cfg, s, n) ::
                 r.error == ConnectionError(Incomplete) && |r.frames| == |DecodeAll(cfg, InHand(s, n)).frames|
  {
    hide ReadAll, DecodeAll, Unwrap, Sendable, WireAll, Bytes, EndOf, ToMap, InHand, NeverCut, FirstCut;
    ReadingIsDecoding(cfg, s);
    assert Whole(s) == Bytes(s.net.recvs);
    StreamRoundTrip(cfg, events, safe);
    var r, d := ReadAll(cfg, s), DecodeAll(cfg, Whole(s));
    assert |r.frames| == |d.frames| ==> r.frames == d.frames;
  }

  /** The peer sends one event now and then, each in a receive of its own, and nothing else
      before the stream ends. */
  predicate OneByOne(recvs: seq<RecvStep>, events: seq<Event>, safe: set<char>) {
    |events| <= |recvs| && (|events| < |recvs| ==> !recvs[|events|].Data?)
    && forall i | 0 <= i < |events| :: recvs[i].Data? && recvs[i].chunk == WireOf(events[i], safe)
  }

  lemma {:induction false} OneByOneBytes(recvs: seq<RecvStep>, events: seq<Event>, safe: set<char>)
    requires OneByOne(recvs, events, safe)
    ensures Bytes(recvs) == WireAll(events, safe)
  {
    hide WireOf;
    if events != [] {
      OneByOneBytes(recvs[1..], events[1..], safe);
    }
  }

  /** Then they all arrive, however long the pauses between them and before the end. */
  lemma {:induction false} EventsNowAndThenArrive(cfg: Config, s: State, events: seq<Event>, safe: set<char>)
    requires Percent.MayStayBare(safe) && forall i | 0 <= i < |events| :: Sendable(cfg, events[i], safe)
    requires s.sock && s.buffer == [] && OneByOne(s.net.recvs, events, safe)
    ensures var r := ReadAll(cfg, s);
            Arrived(cfg, events, r.frames) && |r.frames| == |events| && r.error == EndOf(s.net.recvs)
  {
    hide ReadAll, DecodeAll, Unwrap, Sendable, WireAll, WireOf, Bytes, EndOf, ToMap, Arrived, NeverCut, FirstCut;
    forall n: nat | n <= |s.net.recvs| && AllData(s.net.recvs[..n])
      ensures DecodeAll(cfg, InHand(s, n)).end == Cut([])
    {
      if n > |events| {
        NoDataBehind(s.net.recvs, |events|, n);
      }
      OneByOneBytes(s.net.recvs[..n], events[..n], safe);
      StreamRoundTrip(cfg, events[..n], safe);
      assert InHand(s, n) == WireAll(events[..n], safe);
    }
    OneByOneBytes(s.net.recvs, events, safe);
    WholeFramesArrive(cfg, s);
    ReadingIsDecoding(cfg, s);
    PrintedEventsArrive(cfg, s, events, safe);
  }
}
