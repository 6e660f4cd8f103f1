/** When a command is answered and when it times out, read off the peer's script:
    the steps still to come, how long each takes, and what their bytes decode to. */
module ReplyTiming {
  import opened HeaderBlock
  import opened Framing
  import opened Transport
  import opened OperationLaws
  import opened Scripts

  /** Frames complete before the last of `n` receives. */
  ghost function Earlier(cfg: Config, s: State, n: nat): nat
    requires n <= |s.net.recvs|
  {
    if n == 0 then 0 else |DecodeAll(cfg, InHand(s, n - 1)).frames|
  }

  ghost function Sizes(frames: seq<Headers>): nat {
    if frames == [] then 0 else Size(frames[0]) + Sizes(frames[1..])
  }

  predicate AllEvents(frames: seq<Headers>) {
    forall i | 0 <= i < |frames| ::
      "Content-Type" in frames[i] && frames[i]["Content-Type"] == "text/event-plain"
  }

  /** All events, and the queue, of at most 64 and `maxFrame` stored bytes, has room for them. */
  ghost predicate Queueable(cfg: Config, s: State, frames: seq<Headers>) {
    && AllEvents(frames)
    && (frames != [] ==> |s.pending| + |frames| <= 64 && s.pendingBytes + Sizes(frames) <= cfg.maxFrame)
  }

  /** After `n` receives and nothing but queued events, either time is up as the last of them
      completes one frame more, or it runs out between two frames. */
  ghost predicate LateAt(cfg: Config, s: State, deadline: real, n: nat) {
    && Received(s, n, deadline)
    && var d := DecodeAll(cfg, InHand(s, n));
       if Due(s, n) >= deadline then
         Earlier(cfg, s, n) < |d.frames| && Queueable(cfg, s, d.frames[..Earlier(cfg, s, n) + 1])
       else
         RunsOut(s, n, deadline) && d.end == Cut([]) && Queueable(cfg, s, d.frames)
  }

  ghost predicate Late(cfg: Config, s: State, deadline: real) {
    s.net.now >= deadline || exists n :: LateAt(cfg, s, deadline, n)
  }

  /** The last of `n` receives brings frame `f`, the `k`-th and first that cannot be queued; if
      it ends at the deadline, as the first frame it completes. */
  ghost predicate MetAt(cfg: Config, s: State, deadline: real, f: Headers, n: nat, k: nat) {
    && Received(s, n, deadline)
    && var d := DecodeAll(cfg, InHand(s, n));
       && Earlier(cfg, s, n) <= k < |d.frames| && d.frames[k] == f
       && Queueable(cfg, s, d.frames[..k]) && !Queueable(cfg, s, d.frames[..k + 1])
       && (Due(s, n) >= deadline ==> k == Earlier(cfg, s, n))
  }

  /** In time, behind queued events only, the script brings `f`, which ends the wait. */
  ghost predicate Met(cfg: Config, s: State, deadline: real, f: Headers) {
    s.net.now < deadline && exists n, k :: MetAt(cfg, s, deadline, f, n, k)
  }

  predicate AnswersCommand(f: Headers) {
    "Content-Type" in f && f["Content-Type"] in {"api/response", "command/reply"}
  }

  ghost predicate Answered(cfg: Config, s: State, deadline: real, f: Headers) {
    Met(cfg, s, deadline, f) && AnswersCommand(f)
  }

  // ---- The first frame decides, or is queued ----

  lemma {:induction false} EarlierIsNone(cfg: Config, s: State, deadline: real, m: nat)
    requires Waited(cfg, s, deadline, m)
    ensures Earlier(cfg, s, m) == 0
  {
    if m > 0 {
      ShortBefore(cfg, s, deadline, m, m - 1);
    }
  }

  lemma {:induction false} SilenceStops(s: State, deadline: real, n: nat)
    requires Received(s, n, deadline) && RunsOut(s, 0, deadline) && s.net.now < deadline
    ensures n == 0
  {
    NoStep(s, deadline);
    if n > 0 {
      DueGrows(s, 1, n);
    }
  }

  /** A silence between frames, before anything came. */
  lemma {:induction false} SilenceIsLate(cfg: Config, s: State, deadline: real, f: Headers)
    requires s.net.now < deadline && s.buffer == [] && RunsOut(s, 0, deadline)
    ensures Late(cfg, s, deadline) && !Met(cfg, s, deadline, f)
  {
    NoStep(s, deadline);
    NothingIsShort(cfg);
    hide DecodeOne, DecodeAll, Due;
    DecodeAllStep(cfg, []);
    assert LateAt(cfg, s, deadline, 0);
    forall n: nat, k: nat ensures !MetAt(cfg, s, deadline, f, n, k) {
      if Received(s, n, deadline) {
        SilenceStops(s, deadline, n);
      }
    }
  }

  /** A failing wait is neither late nor answered, whatever the script says further on. */
  lemma {:induction false} FailureIsFinal(cfg: Config, s: State, deadline: real, m: nat, e: Error, f: Headers)
    requires Fails(cfg, s, deadline, m, e) && s.net.now < deadline
    ensures !Late(cfg, s, deadline) && !Met(cfg, s, deadline, f)
  {
    hide DecodeOne, Waited, Queueable;
    forall n ensures !LateAt(cfg, s, deadline, n) {
      FailureAt(cfg, s, deadline, m, e, n);
    }
    forall n, k ensures !MetAt(cfg, s, deadline, f, n, k) {
      FailureAt(cfg, s, deadline, m, e, n);
    }
  }

  lemma {:induction false} FailureAt(cfg: Config, s: State, deadline: real, m: nat, e: Error, n: nat)
    requires Fails(cfg, s, deadline, m, e) && s.net.now < deadline
    ensures Received(s, n, deadline) ==> DecodeAll(cfg, InHand(s, n)).frames == []
    ensures !LateAt(cfg, s, deadline, n)
  {
    hide DecodeOne, DecodeAll, InHand, Due;
    if Received(s, n, deadline) {
      if n < m {
        ShortBefore(cfg, s, deadline, m, n);
      } else {
        FailureStays(cfg, s, deadline, m, e, n);
        DecodeAllStep(cfg, InHand(s, n));
      }
    }
  }

  /** A receive count that gets as far as the first frame. */
  lemma {:induction false} ReachesFirst(cfg: Config, s: State, deadline: real, m: nat, f: Headers, s1: State, n: nat)
    requires Takes(cfg, s, deadline, m, f, s1) && Received(s, n, deadline)
    ensures LateAt(cfg, s, deadline, n) ==> n >= m
    ensures forall f', k :: MetAt(cfg, s, deadline, f', n, k) ==> n >= m
  {
    hide DecodeOne, DecodeAll, Due;
    if n < m {
      ShortBefore(cfg, s, deadline, m, n);
    }
  }

  // ---- The wait for a reply ----

  lemma {:induction false} AllEventsCons(f: Headers, frames: seq<Headers>)
    ensures AllEvents([f] + frames) <==> IsEvent(f) && AllEvents(frames)
  {
    TypesByName(f);
    hide IsEvent;
    var all := [f] + frames;
    assert all[0] == f;
    assert forall i | 0 <= i < |frames| :: all[i + 1] == frames[i];
    assert forall i | 0 < i < |all| :: all[i] == frames[i - 1];
  }

  lemma {:induction false} SizesCons(f: Headers, frames: seq<Headers>)
    ensures Sizes([f] + frames) == Size(f) + Sizes(frames)
  {
    hide Size;
    assert ([f] + frames)[1..] == frames;
  }

  /** Queueing frame after frame is queueing them all. */
  lemma {:induction false} QueueableCons(cfg: Config, s: State, s1: State, f: Headers, frames: seq<Headers>)
    requires s1.pending == s.pending && s1.pendingBytes == s.pendingBytes
    ensures Queueable(cfg, s, [f] + frames)
            <==> IsEvent(f) && Stash(cfg, s1, f).Ok? && Queueable(cfg, Stash(cfg, s1, f).value, frames)
  {
    AllEventsCons(f, frames);
    SizesCons(f, frames);
    NoEvents();
    hide Size, IsEvent, AllEvents;
    assert |[f] + frames| == 1 + |frames|;
    assert frames == [] ==> Sizes(frames) == 0;
    hide Sizes;
  }

  lemma {:induction false} NoEvents()
    ensures AllEvents([])
  {
  }

  /** Event `f` is taken off the wire and queued: `s1` after the read, `s2` after queueing. */
  ghost predicate Queues(cfg: Config, s: State, deadline: real, m: nat, f: Headers, s1: State, s2: State) {
    && Takes(cfg, s, deadline, m, f, s1) && s1.pending == s.pending && s1.pendingBytes == s.pendingBytes
    && IsEvent(f) && Stash(cfg, s1, f).Ok? && s2 == Took(Stash(cfg, s1, f).value, f, Stream)
  }

  lemma {:induction false} EarlierShifts(cfg: Config, s: State, deadline: real, m: nat, f: Headers, s1: State, n: nat)
    requires Takes(cfg, s, deadline, m, f, s1) && m + n <= |s.net.recvs|
    ensures Earlier(cfg, s, m + n) == if n == 0 then 0 else 1 + Earlier(cfg, s1, n)
  {
    hide DecodeOne, DecodeAll, InHand;
    if n == 0 {
      EarlierIsNone(cfg, s, deadline, m);
    } else {
      FirstStaysFirst(cfg, s, deadline, m, f, s1, n - 1);
      assert m + n - 1 == m + (n - 1);
    }
  }

  /** What a script does `n` receives behind a queued first frame is what it does after
      `m + n` receives. */
  lemma {:induction false} Shifts(
    cfg: Config, s: State, deadline: real, m: nat, f: Headers, s1: State, s2: State, n: nat, k: nat)
    requires Queues(cfg, s, deadline, m, f, s1, s2) && m + n <= |s.net.recvs|
    ensures var d, d2 := DecodeAll(cfg, InHand(s, m + n)), DecodeAll(cfg, InHand(s2, n));
            && d.frames == [f] + d2.frames && d.end == d2.end
            && (k <= |d2.frames| ==>
                  (Queueable(cfg, s, d.frames[..1 + k]) <==> Queueable(cfg, s2, d2.frames[..k])))
            && Earlier(cfg, s, m + n) == (if n == 0 then 0 else 1 + Earlier(cfg, s2, n))
            && (Received(s, m + n, deadline) <==> Received(s2, n, deadline))
            && Due(s, m + n) == Due(s2, n)
            && (RunsOut(s, m + n, deadline) <==> RunsOut(s2, n, deadline))
  {
    hide DecodeOne, DecodeAll, Queueable, IsEvent, Bytes, TotalTime, Stash, Received;
    assert Stash(cfg, s1, f).value.net == s1.net && Stash(cfg, s1, f).value.buffer == s1.buffer by {
      StashKeepsNet(cfg, s1, f);
    }
    SameScript(cfg, s1, s2, deadline, n);
    AheadBytes(s, m, s1, n);
    AheadReceived(s, m, deadline, s1, n);
    AheadRunsOut(s, m, deadline, s1, n);
    FirstStaysFirst(cfg, s, deadline, m, f, s1, n);
    EarlierShifts(cfg, s, deadline, m, f, s1, n);
    var frames := DecodeAll(cfg, InHand(s2, n)).frames;
    if k <= |frames| {
      QueueableCons(cfg, s, s1, f, frames[..k]);
      assert ([f] + frames)[..1 + k] == [f] + frames[..k];
      SameQueue(cfg, Stash(cfg, s1, f).value, s2, frames[..k]);
    }
  }

  lemma {:induction false} StashKeepsNet(cfg: Config, s: State, f: Headers)
    requires Stash(cfg, s, f).Ok?
    ensures var s1 := Stash(cfg, s, f).value;
            s1.net == s.net && s1.buffer == s.buffer && s1.sock == s.sock
  {
  }

  lemma {:induction false} SameScript(cfg: Config, s: State, s': State, deadline: real, n: nat)
    requires s'.net == s.net && s'.buffer == s.buffer && n <= |s.net.recvs|
    ensures InHand(s', n) == InHand(s, n) && Due(s', n) == Due(s, n)
    ensures Received(s', n, deadline) <==> Received(s, n, deadline)
    ensures RunsOut(s', n, deadline) <==> RunsOut(s, n, deadline)
    ensures Earlier(cfg, s', n) == Earlier(cfg, s, n)
  {
    hide DecodeAll;
  }

  lemma {:induction false} SameQueue(cfg: Config, s: State, s': State, frames: seq<Headers>)
    requires s'.pending == s.pending && s'.pendingBytes == s.pendingBytes
    ensures Queueable(cfg, s', frames) <==> Queueable(cfg, s, frames)
  {
    hide IsEvent;
  }

  lemma {:induction false} LateShifts(
    cfg: Config, s: State, deadline: real, m: nat, f: Headers, s1: State, s2: State, n: nat)
    requires Queues(cfg, s, deadline, m, f, s1, s2) && m + n <= |s.net.recvs| && s2.net.now < deadline
    ensures LateAt(cfg, s, deadline, m + n) <==> LateAt(cfg, s2, deadline, n)
  {
    hide DecodeOne, DecodeAll, Queueable, Received, Due, InHand, Earlier, Stash;
    assert s2.net.recvs == s.net.recvs[m..] by {
      StashKeepsNet(cfg, s1, f);
    }
    hide Queues;
    var d, d2 := DecodeAll(cfg, InHand(s, m + n)), DecodeAll(cfg, InHand(s2, n));
    Shifts(cfg, s, deadline, m, f, s1, s2, n, Earlier(cfg, s2, n) + 1);
    Shifts(cfg, s, deadline, m, f, s1, s2, n, |d2.frames|);
    NoStep(s2, deadline);
    assert d.frames[..1 + |d2.frames|] == d.frames && d2.frames[..|d2.frames|] == d2.frames;
    assert n < |s2.net.recvs| ==> s2.net.recvs[n] == s.net.recvs[m + n];
  }

  lemma {:induction false} MetShifts(
    cfg: Config, s: State, deadline: real, m: nat, f: Headers, s1: State, s2: State, g: Headers, n: nat, k: nat)
    requires Queues(cfg, s, deadline, m, f, s1, s2) && m + n <= |s.net.recvs| && s2.net.now < deadline
    ensures MetAt(cfg, s, deadline, g, m + n, 1 + k) <==> MetAt(cfg, s2, deadline, g, n, k)
  {
    hide DecodeOne, DecodeAll, Queueable, Received, Due, InHand, Earlier, Stash, Queues;
    Shifts(cfg, s, deadline, m, f, s1, s2, n, k);
    Shifts(cfg, s, deadline, m, f, s1, s2, n, k + 1);
    NoStep(s2, deadline);
    assert n == 0 ==> Earlier(cfg, s2, n) == 0 by {
      NothingEarlier(cfg, s2);
    }
  }

  lemma {:induction false} NothingEarlier(cfg: Config, s: State)
    ensures Earlier(cfg, s, 0) == 0
  {
  }

  lemma {:induction false} LateAfterQueueing(
    cfg: Config, s: State, deadline: real, m: nat, f: Headers, s1: State, s2: State)
    requires Queues(cfg, s, deadline, m, f, s1, s2) && s.net.now < deadline
    ensures Late(cfg, s, deadline) <==> Late(cfg, s2, deadline)
  {
    hide LateAt, DecodeOne, Stash, Received;
    assert s2.net == s1.net by {
      StashKeepsNet(cfg, s1, f);
    }
    if s2.net.now >= deadline {
      QueuedAtTheDeadline(cfg, s, deadline, m, f, s1, s2);
    } else {
      forall n: nat | LateAt(cfg, s, deadline, n) ensures exists n2 :: LateAt(cfg, s2, deadline, n2) {
        LateIsReceived(cfg, s, deadline, n);
        ReachesFirst(cfg, s, deadline, m, f, s1, n);
        LateShifts(cfg, s, deadline, m, f, s1, s2, n - m);
        assert m + (n - m) == n;
      }
      forall n: nat | LateAt(cfg, s2, deadline, n) ensures exists n1 :: LateAt(cfg, s, deadline, n1) {
        LateIsReceived(cfg, s2, deadline, n);
        LateShifts(cfg, s, deadline, m, f, s1, s2, n);
      }
    }
  }

  lemma {:induction false} LateIsReceived(cfg: Config, s: State, deadline: real, n: nat)
    requires LateAt(cfg, s, deadline, n)
    ensures n <= |s.net.recvs| && Received(s, n, deadline)
  {
  }

  lemma {:induction false} MetIsReceived(cfg: Config, s: State, deadline: real, g: Headers, n: nat, k: nat)
    requires MetAt(cfg, s, deadline, g, n, k)
    ensures n <= |s.net.recvs| && Received(s, n, deadline)
  {
  }

  lemma {:induction false} NothingQueueable(cfg: Config, s: State)
    ensures Queueable(cfg, s, [])
  {
  }

  /** An event completed by the receive that ends at the deadline: too late for a reply. */
  lemma {:induction false} QueuedAtTheDeadline(
    cfg: Config, s: State, deadline: real, m: nat, f: Headers, s1: State, s2: State)
    requires Queues(cfg, s, deadline, m, f, s1, s2) && s.net.now < deadline && s1.net.now >= deadline
    ensures LateAt(cfg, s, deadline, m)
  {
    EarlierIsNone(cfg, s, deadline, m);
    NothingQueueable(cfg, s2);
    hide DecodeOne, DecodeAll, InHand, Stash, IsEvent, Earlier, Due, Received, Queueable;
    Shifts(cfg, s, deadline, m, f, s1, s2, 0, 0);
    hide Takes;
    var d, d2 := DecodeAll(cfg, InHand(s, m)), DecodeAll(cfg, InHand(s2, 0));
    assert m + 0 == m && d2.frames[..0] == [];
    assert Queueable(cfg, s, d.frames[..1]);
  }

  lemma {:induction false} MetAfterQueueing(
    cfg: Config, s: State, deadline: real, m: nat, f: Headers, s1: State, s2: State, g: Headers)
    requires Queues(cfg, s, deadline, m, f, s1, s2) && s.net.now < deadline
    ensures Met(cfg, s, deadline, g) <==> Met(cfg, s2, deadline, g)
  {
    hide MetAt, DecodeOne, Stash, Received;
    assert s2.net == s1.net by {
      StashKeepsNet(cfg, s1, f);
    }
    forall n: nat, k: nat | MetAt(cfg, s, deadline, g, n, k)
      ensures n >= m && k >= 1 && s2.net.now < deadline
    {
      MetIsReceived(cfg, s, deadline, g, n, k);
      ReachesFirst(cfg, s, deadline, m, f, s1, n);
      QueuedIsNotMet(cfg, s, deadline, m, f, s1, s2, g, n, k);
    }
    if s2.net.now < deadline {
      forall n: nat, k: nat | MetAt(cfg, s, deadline, g, n, k)
        ensures MetAt(cfg, s2, deadline, g, n - m, k - 1)
      {
        MetIsReceived(cfg, s, deadline, g, n, k);
        MetShifts(cfg, s, deadline, m, f, s1, s2, g, n - m, k - 1);
        assert m + (n - m) == n && 1 + (k - 1) == k;
      }
      forall n: nat, k: nat | MetAt(cfg, s2, deadline, g, n, k)
        ensures MetAt(cfg, s, deadline, g, m + n, 1 + k)
      {
        MetIsReceived(cfg, s2, deadline, g, n, k);
        MetShifts(cfg, s, deadline, m, f, s1, s2, g, n, k);
      }
    }
  }

  lemma {:induction false} QueuedIsNotFirst(
    cfg: Config, s: State, deadline: real, m: nat, f: Headers, s1: State, g: Headers, n: nat, k: nat)
    requires Takes(cfg, s, deadline, m, f, s1) && Queueable(cfg, s, [f])
    requires MetAt(cfg, s, deadline, g, n, k) && n >= m
    ensures k >= 1
  {
    hide DecodeOne, DecodeAll, Queueable, InHand, Due, Earlier, Waited;
    FirstStaysFirst(cfg, s, deadline, m, f, s1, n - m);
    assert m + (n - m) == n;
    assert DecodeAll(cfg, InHand(s, n)).frames[..1] == [f];
  }

  lemma {:induction false} MetInTime(
    cfg: Config, s: State, deadline: real, m: nat, f: Headers, s1: State, g: Headers, n: nat, k: nat)
    requires Takes(cfg, s, deadline, m, f, s1) && MetAt(cfg, s, deadline, g, n, k) && n >= m && k >= 1
    ensures s1.net.now < deadline
  {
    hide DecodeOne, DecodeAll, Queueable, InHand, Due, Earlier;
    EarlierIsNone(cfg, s, deadline, m);
    if n > m {
      DueGrows(s, m, n - 1);
    }
  }

  /** What ends the wait stands behind the queued event, and came before time was up. */
  lemma {:induction false} QueuedIsNotMet(
    cfg: Config, s: State, deadline: real, m: nat, f: Headers, s1: State, s2: State, g: Headers, n: nat, k: nat)
    requires Queues(cfg, s, deadline, m, f, s1, s2)
    requires MetAt(cfg, s, deadline, g, n, k) && n >= m
    ensures k >= 1 && s1.net.now < deadline
  {
    hide Takes, MetAt, Queueable, Stash, IsEvent;
    FirstIsQueueable(cfg, s, s1, f);
    QueuedIsNotFirst(cfg, s, deadline, m, f, s1, g, n, k);
    MetInTime(cfg, s, deadline, m, f, s1, g, n, k);
  }

  lemma {:induction false} FirstIsQueueable(cfg: Config, s: State, s1: State, f: Headers)
    requires s1.pending == s.pending && s1.pendingBytes == s.pendingBytes
    ensures Queueable(cfg, s, [f]) <==> IsEvent(f) && Stash(cfg, s1, f).Ok?
  {
    hide IsEvent, Stash;
    if Stash(cfg, s1, f).Ok? {
      NothingQueueable(cfg, Stash(cfg, s1, f).value);
    }
    QueueableCons(cfg, s, s1, f, []);
    assert [f] + [] == [f];
    hide Queueable;
  }

  /** A frame that ends the wait: a reply, a stranger, or an event the queue has no room for. */
  ghost predicate Unqueueable(cfg: Config, s: State, f: Headers) {
    forall frames | frames != [] && frames[0] == f :: !Queueable(cfg, s, frames)
  }

  lemma {:induction false} UnqueueableAt(
    cfg: Config, s: State, deadline: real, m: nat, f: Headers, s1: State, g: Headers, n: nat, k: nat)
    requires Takes(cfg, s, deadline, m, f, s1) && Unqueueable(cfg, s, f) && n <= |s.net.recvs|
    ensures !LateAt(cfg, s, deadline, n)
    ensures MetAt(cfg, s, deadline, g, n, k) ==> g == f && k == 0
  {
    hide DecodeOne, DecodeAll, Queueable, InHand, Waited, Earlier, Due, Received;
    if Received(s, n, deadline) {
      ReachesFirst(cfg, s, deadline, m, f, s1, n);
      if n >= m {
        FirstStaysFirst(cfg, s, deadline, m, f, s1, n - m);
        assert m + (n - m) == n;
      }
    }
  }

  /** Such a first frame decides: no timeout, and it alone is met. */
  lemma {:induction false} FirstDecides(
    cfg: Config, s: State, deadline: real, m: nat, f: Headers, s1: State, g: Headers)
    requires Takes(cfg, s, deadline, m, f, s1) && Unqueueable(cfg, s, f) && s.net.now < deadline
    ensures !Late(cfg, s, deadline) && (Met(cfg, s, deadline, g) <==> g == f)
  {
    FirstIsMet(cfg, s, deadline, m, f, s1);
    hide DecodeOne, DecodeAll, InHand, Queueable, Takes, LateAt, MetAt, Received, Unqueueable;
    forall n: nat ensures !LateAt(cfg, s, deadline, n) {
      if LateAt(cfg, s, deadline, n) {
        LateIsReceived(cfg, s, deadline, n);
        UnqueueableAt(cfg, s, deadline, m, f, s1, g, n, 0);
      }
    }
    forall n: nat, k: nat | MetAt(cfg, s, deadline, g, n, k) ensures g == f {
      MetIsReceived(cfg, s, deadline, g, n, k);
      UnqueueableAt(cfg, s, deadline, m, f, s1, g, n, k);
    }
  }

  lemma {:induction false} FirstIsMet(cfg: Config, s: State, deadline: real, m: nat, f: Headers, s1: State)
    requires Takes(cfg, s, deadline, m, f, s1) && Unqueueable(cfg, s, f)
    ensures MetAt(cfg, s, deadline, f, m, 0)
  {
    NothingQueueable(cfg, s);
    hide DecodeOne, DecodeAll, InHand, Earlier, Due, Queueable;
    EarlierIsNone(cfg, s, deadline, m);
    FirstStaysFirst(cfg, s, deadline, m, f, s1, 0);
    var frames := DecodeAll(cfg, InHand(s, m)).frames;
    assert m + 0 == m && frames[..0] == [] && frames[..1][0] == f;
  }

  lemma {:induction false} EndsTheWait(cfg: Config, s: State, s1: State, f: Headers)
    requires s1.pending == s.pending && s1.pendingBytes == s.pendingBytes
    requires IsReply(f) || !IsEvent(f) || Stash(cfg, s1, f).Err?
    ensures Unqueueable(cfg, s, f) && (Stash(cfg, s1, f).Err? ==> Stash(cfg, s1, f).error == ProtocolError)
  {
    TypesByName(f);
    assert Stash(cfg, s1, f).Err? ==> Stash(cfg, s1, f).error == ProtocolError;
    hide IsReply, IsEvent, Stash, Queueable;
    forall frames | frames != [] && frames[0] == f ensures !Queueable(cfg, s, frames) {
      QueueableCons(cfg, s, s1, f, frames[1..]);
      assert frames == [f] + frames[1..];
    }
  }

  /** The wait for a reply, read off the script: it times out exactly when the script is
      late, returns exactly the reply the script answers with, and takes any other frame that
      cannot be queued for a protocol error. */
  lemma {:induction false} AwaitIsTimed(cfg: Config, s: State, deadline: real, g: Headers)
    requires s.sock && deadline - s.net.now <= cfg.timeout
    ensures var r := Await(cfg, s, deadline).0;
            && (r == Err(Timeout) <==> Late(cfg, s, deadline))
            && (r == Ok(g) <==> Answered(cfg, s, deadline, g))
            && (Met(cfg, s, deadline, g) && !AnswersCommand(g) ==> r == Err(ProtocolError))
    decreases Max(0, MAX_PENDING - |s.pending|)
  {
    hide ReadFrame, Stash, IsReply, IsEvent, Late, Met, Takes, Fails;
    if s.net.now >= deadline {
      TimeIsUp(cfg, s, deadline, g);
    } else {
      var (r, s1) := ReadFrame(cfg, s, deadline);
      var m := ReadFrameWaits(cfg, s, deadline);
      if r == Err(Timeout) {
        SilenceIsLate(cfg, s, deadline, g);
      } else if r.Err? {
        FailureIsFinal(cfg, s, deadline, m, r.error, g);
      } else {
        var f := r.value;
        TypesByName(f);
        if IsReply(f) || !IsEvent(f) || Stash(cfg, s1, f).Err? {
          EndsTheWait(cfg, s, s1, f);
          FirstDecides(cfg, s, deadline, m, f, s1, g);
        } else {
          var s2 := Took(Stash(cfg, s1, f).value, f, Stream);
          ReadFrameKeepsDeadline(cfg, s, deadline);
          StashSize(cfg, s1, f);
          StashKeepsNet(cfg, s1, f);
          LateAfterQueueing(cfg, s, deadline, m, f, s1, s2);
          MetAfterQueueing(cfg, s, deadline, m, f, s1, s2, g);
          AwaitIsTimed(cfg, s2, deadline, g);
        }
      }
    }
  }

  lemma {:induction false} TimeIsUp(cfg: Config, s: State, deadline: real, g: Headers)
    requires s.net.now >= deadline
    ensures Late(cfg, s, deadline) && !Met(cfg, s, deadline, g)
  {
  }

  // ---- Commands ----

  predicate SendsOk(s: State) {
    s.net.sends != [] && s.net.sends[0].Sent? && s.net.sends[0].took <= s.net.sockTimeout
  }

  /** The command goes out and the script has no reply to it in time. */
  ghost predicate CommandLate(cfg: Config, s: State, line: string) {
    SendsOk(s) && Late(cfg, Send(s, line + "\n\n").1, s.net.now + cfg.timeout)
  }

  /** The command goes out and the script answers it with `reply`. */
  ghost predicate CommandAnswered(cfg: Config, s: State, line: string, reply: Headers) {
    SendsOk(s) && Answered(cfg, Send(s, line + "\n\n").1, s.net.now + cfg.timeout, reply)
  }

  /** In time, behind queued events only, the script brings `f`, which ends the command. */
  ghost predicate CommandMeets(cfg: Config, s: State, line: string, f: Headers) {
    SendsOk(s) && Met(cfg, Send(s, line + "\n\n").1, s.net.now + cfg.timeout, f)
  }

  /** A command times out exactly when the script is late for it, returns exactly the reply
      the script answers with, and takes any other frame that cannot be queued for a protocol
      error. */
  lemma {:induction false} CommandIsTimed(cfg: Config, s: State, line: string, reply: Headers)
    requires s.sock && s.net.sockTimeout == cfg.timeout
    ensures var r := Command(cfg, s, line).0;
            && (r == Err(Timeout) <==> CommandLate(cfg, s, line))
            && (r == Ok(reply) <==> CommandAnswered(cfg, s, line, reply))
            && (CommandMeets(cfg, s, line, reply) && !AnswersCommand(reply) ==> r == Err(ProtocolError))
  {
    hide Await, Late, Met;
    if SendsOk(s) {
      AwaitIsTimed(cfg, Send(s, line + "\n\n").1, s.net.now + cfg.timeout, reply);
    }
  }
}
