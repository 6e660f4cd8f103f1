/** The listener object: the reconnect loop over one client, proved against `Reconnect`. */
module EslListener {
  import opened Text
  import opened HeaderBlock
  import opened Transport
  import Reconnect
  import Scripts
  import opened EslClient

  class ESLEventListener {
    const client: ESLClient
    const events: seq<string>
    var closed: bool
    var choices: seq<bool>
    ghost var handled: seq<Headers>
    ghost var rounds: seq<Reconnect.Round>

    constructor (c: ESLClient, names: seq<string>, environment: seq<bool>)
      ensures client == c && events == names && choices == environment
      ensures !closed && handled == [] && rounds == []
    {
      client, events, choices := c, names, environment;
      closed, handled, rounds := false, [], [];
    }

    method Start() returns (r: Result<()>)
      requires client.Valid()
      modifies client
      ensures client.Valid() && (r, client.S()) == Reconnect.Start(client.cfg, old(client.S()), events)
    {
      hide Transport.Connect, Transport.Authenticate, Transport.Subscribe;
      r := client.Connect();
      if r.Err? { return; }
      r := client.Authenticate();
      if r.Err? { return; }
      r := client.Subscribe(events);
    }

    method Close()
      requires client.Valid()
      modifies this`closed, client
      ensures closed && client.Valid() && client.S() == Transport.Close(old(client.S()))
    {
      closed := true;
      client.Close();
    }

    /** The handler sees one frame and may close the listener. */
    method OnEvent(frame: Headers)
      requires client.Valid()
      modifies this`closed, this`choices, this`handled, client
      ensures client.Valid() && handled == old(handled) + [frame]
      ensures choices == Reconnect.Later(old(choices))
      ensures Reconnect.Stop(old(choices)) ==> closed && client.S() == Transport.Close(old(client.S()))
      ensures !Reconnect.Stop(old(choices)) ==> closed == old(closed) && client.S() == old(client.S())
    {
      handled := handled + [frame];
      if Reconnect.Stop(choices) {
        Close();
      }
      choices := Reconnect.Later(choices);
    }

    method ListenUntilDrop() returns (error: Option<Error>)
      requires client.Valid() && !closed
      modifies this`closed, this`choices, this`handled, client
      ensures client.Valid()
      ensures var t := Reconnect.Listen(client.cfg, old(client.S()), old(choices));
              handled == old(handled) + t.handled && error == t.error && client.S() == t.exit && choices == t.choices
      ensures closed <==> error.None?
    {
      hide Transport.ReadEvent, Scripts.Fuel;
      ghost var target := Reconnect.Listen(client.cfg, client.S(), choices);
      assert handled + target.handled == old(handled) + target.handled;
      while !closed
        invariant client.Valid()
        invariant !closed ==>
                    var t := Reconnect.Listen(client.cfg, client.S(), choices);
                    handled + t.handled == old(handled) + target.handled
                    && t.error == target.error && t.exit == target.exit && t.choices == target.choices
        invariant closed ==>
                    handled == old(handled) + target.handled
                    && target.error.None? && client.S() == target.exit && choices == target.choices
        decreases !closed, Scripts.Fuel(client.S())
      {
        Reconnect.ReadEventUsesFuel(client.cfg, client.S());
        ghost var t := Reconnect.Listen(client.cfg, client.S(), choices);
        var frame := client.ReadEvent();
        if frame == Err(Timeout) {
          continue;
        }
        if frame.Err? {
          assert handled + [] == handled;
          return Some(frame.error);
        }
        if "Event-Name" !in frame.value {
          continue;
        }
        ghost var before := handled;
        OnEvent(frame.value);
        assert before + ([frame.value] + t.handled[1..]) == before + [frame.value] + t.handled[1..];
      }
      return None;
    }

    /** The guarded part of one pass: connect, then stream until closed or dropped. */
    method Attempt() returns (started: bool, error: Option<Error>, ghost round: Reconnect.Round)
      requires client.Valid() && !closed
      modifies this`closed, this`choices, this`handled, client
      ensures client.Valid()
      ensures (round, choices) == Reconnect.Attempt(client.cfg, events, old(client.S()), old(choices))
      ensures started == round.started && error == round.error && client.S() == round.exit && round.slept.None?
      ensures closed <==> error.None?
      ensures |choices| <= |old(choices)| && handled == old(handled) + round.handled
    {
      hide Reconnect.Start, Reconnect.Listen;
      ghost var entry := client.S();
      Reconnect.ListenUsesChoices(client.cfg, Reconnect.Start(client.cfg, entry, events).1, choices);
      ghost var before := handled;
      var r := Start();
      started := r.Ok?;
      if started {
        error := ListenUntilDrop();
        ghost var s1 := Reconnect.Start(client.cfg, entry, events).1;
        assert handled[|before|..] == Reconnect.Listen(client.cfg, s1, old(choices)).handled;
      } else {
        error := Some(r.error);
        assert handled[|before|..] == [];
      }
      round := Reconnect.Round(entry, started, handled[|before|..], error, client.S(), None);
    }

    /** The backoff sleep, during which the listener may be closed. */
    method Sleep(pause: real)
      requires client.Valid()
      modifies this`closed, this`choices, client
      ensures client.Valid() && client.S() == Reconnect.Slept(old(client.S()), pause)
      ensures closed == (old(closed) || Reconnect.Stop(old(choices))) && choices == Reconnect.Later(old(choices))
    {
      client.net := client.net.(now := client.net.now + pause);
      if Reconnect.Stop(choices) {
        closed := true;
      }
      choices := Reconnect.Later(choices);
    }

    /** One pass of the reconnect loop; the client is closed on every way out. */
    method OnePass(plan: Reconnect.Backoff, backoff: real) returns (next: real, escaped: Option<Error>)
      requires client.Valid() && !closed
      modifies this, client
      ensures client.Valid()
      ensures var p := Reconnect.OnePass(client.cfg, events, plan, old(client.S()), backoff, old(choices));
              && rounds == old(rounds) + [p.round] && next == p.backoff && escaped == p.escaped
              && client.S() == p.final && closed == p.closed && choices == p.choices
              && handled == old(handled) + p.round.handled
      ensures !closed && escaped.None? ==> |choices| < |old(choices)|
    {
      hide Reconnect.Attempt, Transport.Close, Reconnect.Slept;
      ghost var round: Reconnect.Round;
      var started: bool;
      var error: Option<Error>;
      next, escaped := backoff, None;
      started, error, round := Attempt();
      if started {
        next := plan.base;
      }
      if error.Some? {
        if !IsDrop(error.value) {
          escaped := error;
        } else {
          // the listener may have been closed while the failure was under way
          closed := Reconnect.Stop(choices);
          choices := Reconnect.Later(choices);
          if !closed {
            Sleep(next);
            round := round.(slept := Some(next));
            next := RMin(next * 2.0, plan.max);
          }
        }
      }
      client.Close();
      rounds := rounds + [round];
    }

    /** Returns normally only once closed; what escapes is returned as `escaped`. */
    method RunForever(plan: Reconnect.Backoff) returns (escaped: Option<Error>)
      requires client.Valid()
      modifies this, client
      ensures client.Valid()
      ensures escaped.None? ==> closed
      ensures old(closed) ==> escaped.None? && client.S() == old(client.S()) && rounds == old(rounds)
      ensures !old(closed) ==>
                var h := Reconnect.Forever(client.cfg, events, plan, old(client.S()), plan.base, old(choices));
                rounds == old(rounds) + h.rounds && escaped == h.escaped
                && client.S() == h.final && closed == h.closed && choices == h.choices
                && handled == old(handled) + Reconnect.AllHandled(h.rounds)
    {
      hide Reconnect.OnePass, Reconnect.AllHandled;
      var backoff := plan.base;
      ghost var target := Reconnect.Forever(client.cfg, events, plan, client.S(), backoff, choices);
      ghost var before := rounds;
      ghost var seen := handled;
      assert before + target.rounds == rounds + target.rounds;
      while !closed
        invariant client.Valid()
        invariant old(closed) ==> closed && client.S() == old(client.S()) && rounds == before
        invariant !closed ==>
                    var h := Reconnect.Forever(client.cfg, events, plan, client.S(), backoff, choices);
                    target == h.(rounds := target.rounds) && rounds + h.rounds == before + target.rounds
                    && handled + Reconnect.AllHandled(h.rounds) == seen + Reconnect.AllHandled(target.rounds)
        invariant closed && !old(closed) ==>
                    rounds == before + target.rounds && target.escaped.None? && target.closed
                    && client.S() == target.final && choices == target.choices
                    && handled == seen + Reconnect.AllHandled(target.rounds)
        decreases !closed, |choices|
      {
        ghost var h := Reconnect.Forever(client.cfg, events, plan, client.S(), backoff, choices);
        ghost var mark, sofar := rounds, handled;
        backoff, escaped := OnePass(plan, backoff);
        assert mark + ([h.rounds[0]] + h.rounds[1..]) == mark + [h.rounds[0]] + h.rounds[1..];
        Regroup(sofar, h.rounds);
        if escaped.Some? {
          return;
        }
      }
      return None;
    }
  }

  lemma {:induction false} Regroup(before: seq<Headers>, rounds: seq<Reconnect.Round>)
    requires rounds != []
    ensures before + Reconnect.AllHandled(rounds)
            == before + rounds[0].handled + Reconnect.AllHandled(rounds[1..])
    ensures |rounds| == 1 ==> before + Reconnect.AllHandled(rounds) == before + rounds[0].handled
  {
    assert |rounds| == 1 ==> rounds[1..] == [];
    assert before + (rounds[0].handled + Reconnect.AllHandled(rounds[1..]))
           == before + rounds[0].handled + Reconnect.AllHandled(rounds[1..]);
  }
}
