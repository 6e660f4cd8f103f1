/** What the command lines are, word for word, and exactly what the read-only gate lets through. */
module CommandLaws {
  import opened Text
  import opened TextLaws
  import opened Commands
  import Percent
  import Profiles
  import Statuses

  // ---- The gate, exactly ----

  datatype Table = BridgedCalls | Calls | AllChannels | DetailedBridgedCalls | DetailedCalls | AllRegistrations
  datatype Target = AnyAgent | AnyQueue | AnyTier
  datatype Key = StatusKey | StateKey | UuidKey

  /** Every sanctioned query. */
  datatype Sanctioned =
    | Status
    | Version
    | Uptime
    | Help
    | Show(table: Table)
    | ShowChannelsAsJson
    | SofiaStatus
    | SofiaXmlStatus
    | SofiaProfile(profile: string)
    | SofiaRegistrations(profile: string)
    | List(target: Target)
    | ListAgent(agent: string)
    | GetAgent(key: Key, agent: string)

  function TableWord(t: Table): string {
    match t
    case BridgedCalls => "bridged_calls"
    case Calls => "calls"
    case AllChannels => "channels"
    case DetailedBridgedCalls => "detailed_bridged_calls"
    case DetailedCalls => "detailed_calls"
    case AllRegistrations => "registrations"
  }

  function TargetWord(t: Target): string {
    match t
    case AnyAgent => "agent"
    case AnyQueue => "queue"
    case AnyTier => "tier"
  }

  function KeyWord(k: Key): string {
    match k
    case StatusKey => "status"
    case StateKey => "state"
    case UuidKey => "uuid"
  }

  function SanctionedWords(q: Sanctioned): seq<string> {
    match q
    case Status => ["status"]
    case Version => ["version"]
    case Uptime => ["uptime"]
    case Help => ["help"]
    case Show(t) => ["show", TableWord(t)]
    case ShowChannelsAsJson => ["show", "channels", "as", "json"]
    case SofiaStatus => ["sofia", "status"]
    case SofiaXmlStatus => ["sofia", "xmlstatus"]
    case SofiaProfile(p) => ["sofia", "status", "profile", p]
    case SofiaRegistrations(p) => ["sofia", "status", "profile", p, "reg"]
    case List(t) => ["callcenter_config", TargetWord(t), "list"]
    case ListAgent(a) => ["callcenter_config", "agent", "list", a]
    case GetAgent(k, a) => ["callcenter_config", "agent", "get", KeyWord(k), a]
  }

  predicate SanctionedOk(q: Sanctioned) {
    match q
    case SofiaProfile(p) => Profiles.ProfileOk(p)
    case SofiaRegistrations(p) => Profiles.ProfileOk(p)
    case ListAgent(a) => AgentOk(a)
    case GetAgent(_, a) => AgentOk(a)
    case _ => true
  }

  lemma {:induction false} SanctionedIsAllowed(q: Sanctioned)
    requires SanctionedOk(q)
    ensures ReadOnlyForm(SanctionedWords(q))
  {
    if q.SofiaProfile? || q.SofiaRegistrations? {
      ProfileIsWord(q.profile);
    }
    hide AgentOk, ProfileOk, Profiles.ProfileOk;
  }

  lemma {:induction false} ShortFormIsSanctioned(p: seq<string>) returns (q: Sanctioned)
    requires ReadOnlyForm(p) && |p| <= 2
    ensures SanctionedOk(q) && SanctionedWords(q) == p
  {
    hide AgentOk, ProfileOk;
    if |p| == 1 {
      q := if p[0] == "status" then Status else if p[0] == "version" then Version
           else if p[0] == "uptime" then Uptime else Help;
    } else if p[0] == "sofia" {
      q := if p[1] == "status" then SofiaStatus else SofiaXmlStatus;
    } else {
      q := Show(if p[1] == "bridged_calls" then BridgedCalls else if p[1] == "calls" then Calls
                else if p[1] == "channels" then AllChannels
                else if p[1] == "detailed_bridged_calls" then DetailedBridgedCalls
                else if p[1] == "detailed_calls" then DetailedCalls else AllRegistrations);
    }
    assert p == SanctionedWords(q);
  }

  lemma {:induction false} LongFormIsSanctioned(p: seq<string>) returns (q: Sanctioned)
    requires ReadOnlyForm(p) && |p| > 2
    ensures SanctionedOk(q) && SanctionedWords(q) == p
  {
    if |p| >= 4 && p[0] != "callcenter_config" {
      q := SofiaFormIsSanctioned(p);
    } else {
      q := ConfigFormIsSanctioned(p);
    }
  }

  lemma {:induction false} SofiaFormIsSanctioned(p: seq<string>) returns (q: Sanctioned)
    requires ReadOnlyForm(p) && |p| >= 4 && p[0] != "callcenter_config"
    ensures SanctionedOk(q) && SanctionedWords(q) == p
  {
    ProfileIsWord(p[3]);
    assert p[..3][0] == p[0] && p[..3][1] == p[1] && p[..3][2] == p[2];
    hide AgentOk, ProfileOk, Profiles.ProfileOk;
    if p[0] == "show" {
      q := ShowChannelsAsJson;
    } else if |p| == 4 {
      q := SofiaProfile(p[3]);
      assert p == ["sofia", "status", "profile", p[3]];
    } else {
      q := SofiaRegistrations(p[3]);
      assert p == ["sofia", "status", "profile", p[3], "reg"];
    }
  }

  lemma {:induction false} ConfigFormIsSanctioned(p: seq<string>) returns (q: Sanctioned)
    requires ReadOnlyForm(p) && |p| > 2 && (|p| >= 4 ==> p[0] == "callcenter_config")
    ensures SanctionedOk(q) && SanctionedWords(q) == p
  {
    hide AgentOk, ProfileOk;
    if |p| >= 4 {
      assert p[..3][0] == p[0] && p[..3][1] == p[1] && p[..3][2] == p[2];
    }
    q := if |p| == 3 then List(if p[1] == "agent" then AnyAgent else if p[1] == "queue" then AnyQueue else AnyTier)
         else if |p| == 4 then ListAgent(p[3])
         else GetAgent(if p[3] == "status" then StatusKey else if p[3] == "state" then StateKey else UuidKey, p[4]);
    assert p == SanctionedWords(q);
  }

  /** The gate lets exactly the sanctioned queries through, whatever blanks stand between and
      around their words. */
  lemma {:induction false} GateIsExact(command: string)
    ensures IsReadOnly(command)
            <==> exists q | SanctionedOk(q) :: Words(Strip(command)) == SanctionedWords(q)
  {
    hide ReadOnlyForm, Words, Strip, SanctionedWords, SanctionedOk;
    var p := Words(Strip(command));
    if IsReadOnly(command) {
      FormIsShort(p);
      var q: Sanctioned;
      if |p| <= 2 {
        q := ShortFormIsSanctioned(p);
      } else {
        q := LongFormIsSanctioned(p);
      }
    }
    forall q | SanctionedOk(q) && p == SanctionedWords(q) ensures IsReadOnly(command) {
      SanctionedIsAllowed(q);
    }
  }

  lemma {:induction false} FormIsShort(p: seq<string>)
    requires ReadOnlyForm(p)
    ensures 1 <= |p| <= 5
  {
    FormsAreSafe(p);
  }

  /** No accepted command opens with any other verb. */
  lemma {:induction false} AcceptedVerbs(command: string)
    requires IsReadOnly(command)
    ensures var p := Words(Strip(command));
            p != [] && p[0] in {"status", "version", "uptime", "help", "show", "sofia", "callcenter_config"}
  {
    hide Words, Strip;
    GateIsExact(command);
    hide IsReadOnly;
  }

  // ---- The lines, word for word ----

  lemma {:induction false} JoinTwo(a: string, b: string)
    ensures Join([a, b], ' ') == a + " " + b
  {
    assert [a, b][1..] == [b];
  }

  lemma {:induction false} JoinThree(a: string, b: string, c: string)
    ensures Join([a, b, c], ' ') == a + " " + b + " " + c
  {
    assert [a, b, c][1..] == [b, c];
    JoinTwo(b, c);
    assert Join([a, b, c], ' ') == a + [' '] + Join([b, c], ' ');
  }

  lemma {:induction false} JoinFour(a: string, b: string, c: string, d: string)
    ensures Join([a, b, c, d], ' ') == a + " " + b + " " + c + " " + d
  {
    assert [a, b, c, d][1..] == [b, c, d];
    JoinThree(b, c, d);
    assert Join([a, b, c, d], ' ') == a + [' '] + Join([b, c, d], ' ');
  }

  lemma {:induction false} JoinFive(a: string, b: string, c: string, d: string, e: string)
    ensures Join([a, b, c, d, e], ' ') == a + " " + b + " " + c + " " + d + " " + e
  {
    assert [a, b, c, d, e][1..] == [b, c, d, e];
    JoinFour(b, c, d, e);
    assert Join([a, b, c, d, e], ' ') == a + [' '] + Join([b, c, d, e], ' ');
  }

  lemma {:induction false} JoinSix(a: string, b: string, c: string, d: string, e: string, f: string)
    ensures Join([a, b, c, d, e, f], ' ') == a + " " + b + " " + c + " " + d + " " + e + " " + f
  {
    assert [a, b, c, d, e, f][1..] == [b, c, d, e, f];
    JoinFive(b, c, d, e, f);
    assert Join([a, b, c, d, e, f], ' ') == a + [' '] + Join([b, c, d, e, f], ' ');
  }

  lemma {:induction false} AgentReaders(a: string)
    ensures Join(["callcenter_config", "agent", "list", a], ' ') == "callcenter_config agent list " + a
    ensures Join(["callcenter_config", "agent", "list"], ' ') == "callcenter_config agent list"
  {
    JoinFour("callcenter_config", "agent", "list", a);
    JoinThree("callcenter_config", "agent", "list");
    hide Join;
    assert "callcenter_config" + " " + "agent" + " " + "list" == "callcenter_config agent list";
    assert "callcenter_config agent list" + " " == "callcenter_config agent list ";
  }

  lemma {:induction false} AgentGetters(a: string)
    ensures Join(["callcenter_config", "agent", "get", "status", a], ' ') == "callcenter_config agent get status " + a
    ensures Join(["callcenter_config", "agent", "get", "state", a], ' ') == "callcenter_config agent get state " + a
  {
    JoinFive("callcenter_config", "agent", "get", "status", a);
    JoinFive("callcenter_config", "agent", "get", "state", a);
    hide Join;
    assert "callcenter_config" + " " + "agent" + " " + "get" + " " == "callcenter_config agent get ";
    assert "callcenter_config agent get " + "status" + " " == "callcenter_config agent get status ";
    assert "callcenter_config agent get " + "state" + " " == "callcenter_config agent get state ";
  }

  lemma {:induction false} ConfigReaders()
    ensures Join(["callcenter_config", "queue", "list"], ' ') == "callcenter_config queue list"
    ensures Join(["callcenter_config", "tier", "list"], ' ') == "callcenter_config tier list"
  {
    JoinThree("callcenter_config", "queue", "list");
    JoinThree("callcenter_config", "tier", "list");
    hide Join;
    assert "callcenter_config" + " " + "queue" + " " + "list" == "callcenter_config queue list";
    assert "callcenter_config" + " " + "tier" + " " + "list" == "callcenter_config tier list";
  }

  lemma {:induction false} ProfileReaders(p: string)
    ensures Join(["sofia", "status", "profile", p], ' ') == "sofia status profile " + p
    ensures Join(["sofia", "status", "profile", p, "reg"], ' ') == "sofia status profile " + p + " reg"
  {
    JoinFour("sofia", "status", "profile", p);
    JoinFive("sofia", "status", "profile", p, "reg");
    hide Join;
    assert "sofia" + " " + "status" + " " + "profile" + " " == "sofia status profile ";
    assert p + " " + "reg" == p + " reg";
  }

  lemma {:induction false} CoreReaders()
    ensures Join(["status"], ' ') == "status"
    ensures Join(["show", "channels", "as", "json"], ' ') == "show channels as json"
    ensures Join(["sofia", "status"], ' ') == "sofia status"
    ensures Join(["sofia", "xmlstatus"], ' ') == "sofia xmlstatus"
  {
    JoinOne("status");
    JoinFour("show", "channels", "as", "json");
    JoinTwo("sofia", "status");
    JoinTwo("sofia", "xmlstatus");
    hide Join;
    assert "show" + " " + "channels" + " " + "as" + " " + "json" == "show channels as json";
  }

  /** What each typed reader sends, behind `api `. */
  lemma {:induction false} ReaderLines(q: Query)
    requires QueryLine(q).Some?
    ensures var line := QueryLine(q).value;
            match q
            case CoreStatus => line == "status"
            case Channels => line == "show channels as json"
            case Sofia(None) => line == "sofia status"
            case Sofia(Some(p)) => line == "sofia status profile " + p
            case SofiaXml => line == "sofia xmlstatus"
            case Registrations(p) => line == "sofia status profile " + p + " reg"
            case Queues => line == "callcenter_config queue list"
            case Agents(None) => line == "callcenter_config agent list"
            case Agents(Some(a)) => line == "callcenter_config agent list " + a
            case Tiers => line == "callcenter_config tier list"
            case AgentStatus(a) => line == "callcenter_config agent get status " + a
            case AgentState(a) => line == "callcenter_config agent get state " + a
  {
    hide QueryOk, Join;
    match q
    case CoreStatus => CoreReaders();
    case Channels => CoreReaders();
    case Sofia(None) => CoreReaders();
    case Sofia(Some(p)) => ProfileReaders(p);
    case SofiaXml => CoreReaders();
    case Registrations(p) => ProfileReaders(p);
    case Queues => ConfigReaders();
    case Agents(None) => AgentReaders("");
    case Agents(Some(a)) => AgentReaders(a);
    case Tiers => ConfigReaders();
    case AgentStatus(a) => AgentGetters(a);
    case AgentState(a) => AgentGetters(a);
  }

  lemma {:induction false} JoinOne(a: string)
    ensures Join([a], ' ') == a
  {
  }

  function LegFlag(leg: Leg): string {
    match leg
    case ALeg => ""
    case BLeg => "-bleg "
    case BothLegs => "-both "
  }

  function StatusArgument(v: Statuses.AgentStatus): string {
    match v
    case LoggedOut => "'Logged Out'"
    case Available => "'Available'"
    case AvailableOnDemand => "'Available (On Demand)'"
    case OnBreak => "'On Break'"
    case StatusUnknown => "'Unknown'"
  }

  function StateArgument(v: Statuses.AgentState): string {
    match v
    case Waiting => "'Waiting'"
    case Receiving => "'Receiving'"
    case InAQueueCall => "'In a queue call'"
    case Idle => "'Idle'"
    case StateUnknown => "'Unknown'"
  }

  lemma {:induction false} QuotedStatus(v: Statuses.AgentStatus)
    ensures "'" + Statuses.StatusText(v) + "'" == StatusArgument(v)
  {
    match v
    case AvailableOnDemand => assert "'" + "Available (On Demand)" + "'" == "'Available (On Demand)'";
    case LoggedOut => assert "'" + "Logged Out" + "'" == "'Logged Out'";
    case Available => assert "'" + "Available" + "'" == "'Available'";
    case OnBreak => assert "'" + "On Break" + "'" == "'On Break'";
    case StatusUnknown => assert "'" + "Unknown" + "'" == "'Unknown'";
  }

  lemma {:induction false} QuotedState(v: Statuses.AgentState)
    ensures "'" + Statuses.StateText(v) + "'" == StateArgument(v)
  {
    match v
    case InAQueueCall => assert "'" + "In a queue call" + "'" == "'In a queue call'";
    case Waiting => assert "'" + "Waiting" + "'" == "'Waiting'";
    case Receiving => assert "'" + "Receiving" + "'" == "'Receiving'";
    case Idle => assert "'" + "Idle" + "'" == "'Idle'";
    case StateUnknown => assert "'" + "Unknown" + "'" == "'Unknown'";
  }

  lemma {:induction false} StatusWriter(a: string, v: Statuses.AgentStatus)
    ensures Join(MutationTokens(SetStatus(a, v)), ' ')
            == "callcenter_config agent set status " + a + " " + StatusArgument(v)
  {
    QuotedStatus(v);
    hide Statuses.StatusText, StatusArgument;
    JoinSix("callcenter_config", "agent", "set", "status", a, StatusArgument(v));
    hide Join;
    assert "callcenter_config" + " " + "agent" + " " + "set" + " " == "callcenter_config agent set ";
    assert "callcenter_config agent set " + "status" + " " == "callcenter_config agent set status ";
  }

  lemma {:induction false} StateWriter(a: string, v: Statuses.AgentState)
    ensures Join(MutationTokens(SetState(a, v)), ' ')
            == "callcenter_config agent set state " + a + " " + StateArgument(v)
  {
    QuotedState(v);
    hide Statuses.StateText, StateArgument;
    JoinSix("callcenter_config", "agent", "set", "state", a, StateArgument(v));
    hide Join;
    assert "callcenter_config" + " " + "agent" + " " + "set" + " " == "callcenter_config agent set ";
    assert "callcenter_config agent set " + "state" + " " == "callcenter_config agent set state ";
  }

  lemma {:induction false} Deleters(q: string, a: string)
    ensures Join(["callcenter_config", "tier", "del", q, a], ' ') == "callcenter_config tier del " + q + " " + a
    ensures Join(["callcenter_config", "agent", "del", a], ' ') == "callcenter_config agent del " + a
  {
    JoinFive("callcenter_config", "tier", "del", q, a);
    JoinFour("callcenter_config", "agent", "del", a);
    hide Join;
    assert "callcenter_config" + " " + "tier" + " " + "del" + " " == "callcenter_config tier del ";
    assert "callcenter_config" + " " + "agent" + " " + "del" + " " == "callcenter_config agent del ";
  }

  lemma {:induction false} CallWriters(u: string, x: string)
    ensures Join(["uuid_kill", u], ' ') == "uuid_kill " + u
    ensures Join(["uuid_kill", u, x], ' ') == "uuid_kill " + u + " " + x
    ensures Join(["uuid_broadcast", u, "att_xfer::" + x, "aleg"], ' ')
            == "uuid_broadcast " + u + " att_xfer::" + x + " aleg"
    ensures Join(["uuid_record", u, "start", x], ' ') == "uuid_record " + u + " start " + x
    ensures Join(["uuid_record", u, "stop", x], ' ') == "uuid_record " + u + " stop " + x
  {
    JoinTwo("uuid_kill", u);
    JoinThree("uuid_kill", u, x);
    JoinFour("uuid_broadcast", u, "att_xfer::" + x, "aleg");
    JoinFour("uuid_record", u, "start", x);
    JoinFour("uuid_record", u, "stop", x);
    hide Join;
    assert " " + ("att_xfer::" + x) == " att_xfer::" + x;
  }

  /** What each typed writer sends, behind `api `. */
  lemma {:induction false} WriterLines(m: Mutation)
    requires MutationLine(m).Some?
    ensures var line := MutationLine(m).value;
            match m
            case SetStatus(a, v) =>
              v != Statuses.StatusUnknown
              && line == "callcenter_config agent set status " + a + " " + StatusArgument(v)
            case SetState(a, v) =>
              v != Statuses.StateUnknown
              && line == "callcenter_config agent set state " + a + " " + StateArgument(v)
            case DeleteTier(q, a) => line == "callcenter_config tier del " + q + " " + a
            case DeleteAgent(a) => line == "callcenter_config agent del " + a
            case Kill(u, None) => line == "uuid_kill " + u
            case Kill(u, Some(c)) => line == "uuid_kill " + u + " " + c
            case Transfer(u, d, leg, p, None) => line == "uuid_transfer " + u + " " + LegFlag(leg) + d + " " + p
            case Transfer(u, d, leg, p, Some(c)) =>
              line == "uuid_transfer " + u + " " + LegFlag(leg) + d + " " + p + " " + c
            case AttendedTransfer(u, d) => line == "uuid_broadcast " + u + " att_xfer::" + d + " aleg"
            case Record(u, true, p) => line == "uuid_record " + u + " start " + p
            case Record(u, false, p) => line == "uuid_record " + u + " stop " + p
  {
    assert MutationOk(m);
    hide Join, MutationOk, StatusArgument, StateArgument, LegFlag;
    match m
    case SetStatus(a, v) => StatusWriter(a, v);
    case SetState(a, v) => StateWriter(a, v);
    case DeleteTier(q, a) => Deleters(q, a);
    case DeleteAgent(a) => Deleters("", a);
    case Kill(u, c) =>
      CallWriters(u, if c.Some? then c.value else "");
      if c.Some? {
        assert ["uuid_kill", u] + [c.value] == ["uuid_kill", u, c.value];
      } else {
        assert ["uuid_kill", u] + [] == ["uuid_kill", u];
      }
    case Transfer(u, d, leg, p, c) => TransferLine(u, d, leg, p, c);
    case AttendedTransfer(u, d) => CallWriters(u, d);
    case Record(u, _, p) => CallWriters(u, p);
  }

  lemma {:induction false} TransferLine(u: string, d: string, leg: Leg, p: string, c: Option<string>)
    ensures Join(MutationTokens(Transfer(u, d, leg, p, c)), ' ')
            == "uuid_transfer " + u + " " + LegFlag(leg) + d + " " + p + if c.Some? then " " + c.value else ""
  {
    TransferTokens(u, d, leg, p, c);
    hide MutationTokens, Join;
    if leg.ALeg? {
      WithContext(["uuid_transfer", u, d, p], c);
      JoinFour("uuid_transfer", u, d, p);
      assert "uuid_transfer " + u + " " + LegFlag(ALeg) == "uuid_transfer" + " " + u + " ";
    } else {
      var flag := if leg.BLeg? then "-bleg" else "-both";
      WithContext(["uuid_transfer", u, flag, d, p], c);
      FlaggedTransfer(u, flag, d, p);
    }
  }

  lemma {:induction false} FlaggedTransfer(u: string, flag: string, d: string, p: string)
    ensures Join(["uuid_transfer", u, flag, d, p], ' ') == "uuid_transfer " + u + " " + (flag + " ") + d + " " + p
  {
    JoinFive("uuid_transfer", u, flag, d, p);
    hide Join;
    assert "uuid_transfer " + u + " " + (flag + " ") == "uuid_transfer" + " " + u + " " + flag + " ";
  }

  /** An optional last word. */
  lemma {:induction false} WithContext(tokens: seq<string>, c: Option<string>)
    requires tokens != []
    ensures Join(tokens + if c.Some? then [c.value] else [], ' ')
            == Join(tokens, ' ') + if c.Some? then " " + c.value else ""
  {
    if c.None? {
      assert tokens + [] == tokens;
    } else {
      JoinMore(tokens, c.value);
    }
  }

  lemma {:induction false} JoinMore(tokens: seq<string>, more: string)
    requires tokens != []
    ensures Join(tokens + [more], ' ') == Join(tokens, ' ') + " " + more
  {
    if |tokens| == 1 {
      assert tokens + [more] == [tokens[0], more];
      JoinTwo(tokens[0], more);
    } else {
      assert (tokens + [more])[1..] == tokens[1..] + [more];
      JoinMore(tokens[1..], more);
    }
  }

  lemma {:induction false} TransferTokens(u: string, d: string, leg: Leg, p: string, c: Option<string>)
    ensures MutationTokens(Transfer(u, d, leg, p, c))
            == (if leg.ALeg? then ["uuid_transfer", u, d, p]
                else ["uuid_transfer", u, if leg.BLeg? then "-bleg" else "-both", d, p])
               + if c.Some? then [c.value] else []
  {
  }

  // ---- The arguments they take ----

  lemma {:induction false} AlphabetsByName(s: string, more: string)
    ensures (forall i | 0 <= i < |s| :: IsAlnum(s[i]) || s[i] in more)
            <==> forall i | 0 <= i < |s| :: s[i] in Alnum() + more
    ensures (forall i | 0 <= i < |s| :: IsDigit(s[i]) || 'A' <= s[i] <= 'Z' || s[i] in more)
            <==> forall i | 0 <= i < |s| :: s[i] in DIGITS + CAPITALS + more
  {
    forall i | 0 <= i < |s|
      ensures s[i] in Alnum() + more <==> IsAlnum(s[i]) || s[i] in more
      ensures s[i] in DIGITS + CAPITALS + more <==> IsDigit(s[i]) || 'A' <= s[i] <= 'Z' || s[i] in more
    {
      AlnumByName(s[i], more);
    }
    hide Alnum, IsAlnum, IsDigit;
  }

  lemma {:induction false} AgentClass(s: string)
    ensures AgentOk(s) <==> Over(s, Alnum() + "_.@+-", 1, 128)
  {
    AlphabetsByName(s, "_.@+-");
    hide Alnum, IsAlnum, IsDigit;
    forall c: char ensures c in "_.@+-" <==> c in {'_', '.', '@', '+', '-'} {}
  }

  lemma {:induction false} ProfileClass(s: string)
    ensures ProfileOk(s) <==> Over(s, Alnum() + "_.-", 1, 64)
    ensures Profiles.ProfileOk(s) <==> Over(s, Alnum() + "_.-", 1, 64)
  {
    ProfileIsWord(s);
    hide ProfileOk;
    AlphabetsByName(s, "_.-");
    hide Alnum, IsAlnum, IsDigit;
    forall c: char ensures c in "_.-" <==> c in {'_', '.', '-'} {}
  }

  lemma {:induction false} DialplanClass(s: string)
    ensures DialplanOk(s) <==> Over(s, Alnum() + "_.-", 1, 32)
  {
    AlphabetsByName(s, "_.-");
    hide Alnum, IsAlnum, IsDigit;
    forall c: char ensures c in "_.-" <==> c in {'_', '.', '-'} {}
  }

  lemma {:induction false} CauseClass(s: string)
    ensures CauseOk(s) <==> Over(s, DIGITS + CAPITALS + "_", 1, 64)
  {
    AlphabetsByName(s, "_");
    hide Alnum, IsAlnum, IsDigit;
    forall c: char ensures c in "_" <==> c in {'_'} {}
  }

  lemma {:induction false} DialstringClass(s: string)
    ensures DialstringOk(s) <==> Over(s, Alnum() + "_./@:+*#-", 1, 256)
  {
    AlphabetsByName(s, "_./@:+*#-");
    hide Alnum, IsAlnum, IsDigit;
    forall c: char ensures c in "_./@:+*#-" <==> c in {'_', '.', '/', '@', ':', '+', '*', '#', '-'} {}
  }

  lemma {:induction false} DestinationClass(s: string)
    ensures DestinationOk(s) <==> Over(s, Alnum() + "_*#+.-", 1, 64) && s[0] != '-'
  {
    AlphabetsByName(s, "_*#+.-");
    hide Alnum, IsAlnum, IsDigit;
    forall c: char ensures c in "_*#+.-" <==> c in {'_', '*', '#', '+', '.', '-'} {}
  }

  /** The texts each writer and reader takes as an argument, as character classes and lengths. */
  lemma {:induction false} ArgumentClasses(s: string)
    ensures AgentOk(s) <==> Over(s, Alnum() + "_.@+-", 1, 128)
    ensures Profiles.ProfileOk(s) <==> Over(s, Alnum() + "_.-", 1, 64)
    ensures DialplanOk(s) <==> Over(s, Alnum() + "_.-", 1, 32)
    ensures CauseOk(s) <==> Over(s, DIGITS + CAPITALS + "_", 1, 64)
    ensures DialstringOk(s) <==> Over(s, Alnum() + "_./@:+*#-", 1, 256)
    ensures DestinationOk(s) <==> Over(s, Alnum() + "_*#+.-", 1, 64) && s[0] != '-'
  {
    hide AgentOk, Profiles.ProfileOk, DialplanOk, CauseOk, DialstringOk, DestinationOk, Alnum;
    AgentClass(s);
    ProfileClass(s);
    DialplanClass(s);
    CauseClass(s);
    DialstringClass(s);
    DestinationClass(s);
  }

  /** An agent name with one `@` that has text on both sides. */
  ghost predicate IsQualified(s: string) {
    Over(s, Alnum() + "_.@+-", 1, 128)
    && exists local, domain ::
         local != "" && domain != "" && '@' !in local && '@' !in domain && s == local + "@" + domain
  }

  lemma {:induction false} QualifiedNames(s: string)
    ensures QualifiedOk(s) <==> IsQualified(s)
  {
    AgentClass(s);
    hide AgentOk, Over, Alnum;
    var at := IndexOf(s, '@');
    if QualifiedOk(s) {
      var local, domain := s[..at], s[at + 1..];
      NotBefore(s, '@');
      NotIn(domain, '@');
      assert s == local + "@" + domain;
    }
    forall local, domain |
      local != "" && domain != "" && '@' !in local && '@' !in domain && s == local + "@" + domain
      ensures 0 < at < |s| - 1 && IndexOf(s[at + 1..], '@') < 0
    {
      IndexOfSplit(local, '@', domain);
      assert s == local + ['@'] + domain && s[|local| + 1..] == domain;
      NotIn(domain, '@');
    }
  }

  lemma {:induction false} NotBefore(s: string, c: char)
    ensures IndexOf(s, c) >= 0 ==> c !in s[..IndexOf(s, c)]
  {
    var i := IndexOf(s, c);
    if i >= 0 && c in s[..i] {
      var j :| 0 <= j < i && s[..i][j] == c;
      IndexOfIsFirst(s, c, j);
    }
  }

  lemma {:induction false} NotIn(s: string, c: char)
    ensures IndexOf(s, c) < 0 <==> c !in s
  {
    if c in s {
      var j :| 0 <= j < |s| && s[j] == c;
      IndexOfIsFirst(s, c, j);
    }
  }

  const HEX := "0123456789abcdefABCDEF"

  lemma {:induction false} HexByName(c: char)
    ensures Percent.IsHex(c) <==> c in HEX
  {
    if IsDigit(c) {
      assert HEX[c as int - '0' as int] == c;
    } else if 'a' <= c <= 'f' {
      assert HEX[c as int - 'a' as int + 10] == c;
    } else if 'A' <= c <= 'F' {
      assert HEX[c as int - 'A' as int + 16] == c;
    }
  }

  predicate HexRun(s: string, n: nat) {
    Over(s, HEX, n, n)
  }

  /** A uuid is five runs of hexadecimal digits, of 8, 4, 4, 4 and 12, joined by hyphens. */
  ghost predicate IsUuid(s: string) {
    exists a, b, c, d, e ::
      HexRun(a, 8) && HexRun(b, 4) && HexRun(c, 4) && HexRun(d, 4) && HexRun(e, 12)
      && s == a + "-" + b + "-" + c + "-" + d + "-" + e
  }

  lemma {:induction false} UuidShape(s: string)
    ensures UuidOk(s) <==> IsUuid(s)
  {
    if UuidOk(s) {
      UuidHasParts(s);
    }
    hide UuidOk;
    if IsUuid(s) {
      var a, b, c, d, e :|
        HexRun(a, 8) && HexRun(b, 4) && HexRun(c, 4) && HexRun(d, 4) && HexRun(e, 12)
        && s == a + "-" + b + "-" + c + "-" + d + "-" + e;
      hide HexRun, IsUuid;
      UuidParts(s, a, b, c, d, e);
    }
  }

  lemma {:induction false} RunOf(s: string, i: nat, n: nat)
    requires i + n <= |s| && forall k | i <= k < i + n :: Percent.IsHex(s[k])
    ensures HexRun(s[i..i + n], n)
  {
    var run := s[i..i + n];
    forall k | 0 <= k < n ensures run[k] in HEX {
      HexByName(s[i + k]);
    }
  }

  lemma {:induction false} UuidHasParts(s: string)
    requires UuidOk(s)
    ensures IsUuid(s)
  {
    hide Percent.IsHex;
    RunOf(s, 0, 8);
    RunOf(s, 9, 4);
    RunOf(s, 14, 4);
    RunOf(s, 19, 4);
    RunOf(s, 24, 12);
    hide HexRun;
    var a, b, c, d, e := s[0..8], s[9..13], s[14..18], s[19..23], s[24..36];
    assert s == a + "-" + b + "-" + c + "-" + d + "-" + e;
  }

  lemma {:induction false} UuidParts(s: string, a: string, b: string, c: string, d: string, e: string)
    requires HexRun(a, 8) && HexRun(b, 4) && HexRun(c, 4) && HexRun(d, 4) && HexRun(e, 12)
    requires s == a + "-" + b + "-" + c + "-" + d + "-" + e
    ensures UuidOk(s)
  {
    forall i | 0 <= i < 36
      ensures if i == 8 || i == 13 || i == 18 || i == 23 then s[i] == '-' else Percent.IsHex(s[i])
    {
      HexByName(s[i]);
      hide Percent.IsHex;
      if 8 < i < 13 {
        assert s[i] == b[i - 9];
      } else if 13 < i < 18 {
        assert s[i] == c[i - 14];
      } else if 18 < i < 23 {
        assert s[i] == d[i - 19];
      } else if 23 < i {
        assert s[i] == e[i - 24];
      }
    }
  }

  ghost predicate HasTwoDots(s: string) {
    exists before, after :: s == before + ".." + after
  }

  lemma {:induction false} TwoDots(s: string)
    ensures HasTwoDots(s) <==> exists i | 0 <= i < |s| - 1 :: s[i] == '.' && s[i + 1] == '.'
  {
    if i :| 0 <= i < |s| - 1 && s[i] == '.' && s[i + 1] == '.' {
      assert s == s[..i] + ".." + s[i + 2..];
    }
    if HasTwoDots(s) {
      var before, after :| s == before + ".." + after;
      assert s[|before|] == '.' && s[|before| + 1] == '.';
    }
  }

  /** A recording path is absolute, of a few plain characters, and never climbs. */
  ghost predicate IsRecordingPath(s: string) {
    |s| >= 2 && s[0] == '/' && Over(s[1..], Alnum() + "_./-", 1, 512) && !HasTwoDots(s)
  }

  lemma {:induction false} RecordingPaths(s: string)
    ensures PathOk(s) <==> IsRecordingPath(s)
  {
    TwoDots(s);
    hide HasTwoDots;
    AlphabetsByName(s, "_./-");
    AlnumByName('/', "_./-");
    hide Alnum, IsAlnum, IsDigit;
    forall c: char ensures c in "_./-" <==> c in {'_', '.', '/', '-'} {}
    assert |s| > 0 ==> forall i | 0 < i < |s| :: s[i] == s[1..][i - 1];
    assert |s| > 0 ==> forall i | 0 <= i < |s| - 1 :: s[1..][i] == s[i + 1];
  }

  /** A typed reader refuses its argument exactly if it is not of its class. */
  lemma {:induction false} ReaderTakes(q: Query)
    ensures QueryLine(q).Some?
            <==> match q
                 case Sofia(Some(p)) => Over(p, Alnum() + "_.-", 1, 64)
                 case Registrations(p) => Over(p, Alnum() + "_.-", 1, 64)
                 case Agents(Some(a)) => Over(a, Alnum() + "_.@+-", 1, 128)
                 case AgentStatus(a) => Over(a, Alnum() + "_.@+-", 1, 128)
                 case AgentState(a) => Over(a, Alnum() + "_.@+-", 1, 128)
                 case _ => true
  {
    hide Over, Alnum, AgentOk, ProfileOk, QueryTokens;
    match q
    case Sofia(Some(p)) => ProfileClass(p);
    case Registrations(p) => ProfileClass(p);
    case Agents(Some(a)) => AgentClass(a);
    case AgentStatus(a) => AgentClass(a);
    case AgentState(a) => AgentClass(a);
    case _ =>
  }

  /** And so does a typed writer, which also refuses the unknown status and state. */
  lemma {:induction false} WriterTakes(m: Mutation)
    ensures MutationLine(m).Some?
            <==> match m
                 case SetStatus(a, v) => Over(a, Alnum() + "_.@+-", 1, 128) && v != Statuses.StatusUnknown
                 case SetState(a, v) => Over(a, Alnum() + "_.@+-", 1, 128) && v != Statuses.StateUnknown
                 case DeleteTier(q, a) => IsQualified(q) && IsQualified(a)
                 case DeleteAgent(a) => IsQualified(a)
                 case Kill(u, c) => IsUuid(u) && (c.Some? ==> Over(c.value, DIGITS + CAPITALS + "_", 1, 64))
                 case Transfer(u, d, _, p, c) =>
                   IsUuid(u) && Over(d, Alnum() + "_*#+.-", 1, 64) && d[0] != '-' && Over(p, Alnum() + "_.-", 1, 32)
                   && (c.Some? ==> Over(c.value, Alnum() + "_.-", 1, 32))
                 case AttendedTransfer(u, d) => IsUuid(u) && Over(d, Alnum() + "_./@:+*#-", 1, 256)
                 case Record(u, _, p) => IsUuid(u) && IsRecordingPath(p)
  {
    hide Alnum, AgentOk, QualifiedOk, UuidOk, CauseOk, DestinationOk, DialplanOk, DialstringOk, PathOk;
    hide IsUuid, IsQualified, IsRecordingPath, MutationTokens;
    match m
    case SetStatus(a, _) => AgentClass(a);
    case SetState(a, _) => AgentClass(a);
    case DeleteTier(q, a) =>
      QualifiedNames(q);
      QualifiedNames(a);
    case DeleteAgent(a) => QualifiedNames(a);
    case Kill(u, c) =>
      UuidShape(u);
      if c.Some? {
        CauseClass(c.value);
      }
    case Transfer(u, d, _, p, c) =>
      UuidShape(u);
      DestinationClass(d);
      DialplanClass(p);
      if c.Some? {
        DialplanClass(c.value);
      }
    case AttendedTransfer(u, d) =>
      UuidShape(u);
      DialstringClass(d);
    case Record(u, _, p) =>
      UuidShape(u);
      RecordingPaths(p);
  }

  // ---- The subscription line ----

  /** The name of a custom event subclass holds a double colon. */
  ghost predicate IsSubclass(event: string) {
    exists before, after :: event == before + "::" + after
  }

  lemma {:induction false} SubclassByColons(event: string)
    ensures IsCustom(event) <==> IsSubclass(event)
  {
    if i :| 0 <= i < |event| - 1 && event[i] == ':' && event[i + 1] == ':' {
      assert event == event[..i] + "::" + event[i + 2..];
    }
    if IsSubclass(event) {
      var before, after :| event == before + "::" + after;
      assert event[|before|] == ':' && event[|before| + 1] == ':';
    }
  }

  lemma {:induction false} PickAll(events: seq<string>, custom: bool)
    requires forall i | 0 <= i < |events| :: IsSubclass(events[i]) == custom
    ensures Pick(events, custom) == events && Pick(events, !custom) == []
  {
    if events != [] {
      SubclassByColons(events[0]);
      hide IsCustom, IsSubclass;
      PickAll(events[1..], custom);
    }
  }

  lemma {:induction false} PickConcat(a: seq<string>, b: seq<string>, custom: bool)
    ensures Pick(a + b, custom) == Pick(a, custom) + Pick(b, custom)
  {
    hide IsCustom;
    if a == [] {
      assert a + b == b;
    } else {
      assert (a + b)[1..] == a[1..] + b;
      PickConcat(a[1..], b, custom);
    }
  }

  /** Sorted events give the line word for word: the plain ones, then one `CUSTOM` and the
      subclasses. */
  lemma {:induction false} SortedEventsLine(plain: seq<string>, custom: seq<string>)
    requires plain + custom != [] && forall i | 0 <= i < |plain + custom| :: IsWord((plain + custom)[i])
    requires forall i | 0 <= i < |plain| :: !IsSubclass(plain[i])
    requires forall i | 0 <= i < |custom| :: IsSubclass(custom[i])
    ensures Words(SubscribeLine(plain + custom))
            == ["event", "plain"] + plain + if custom == [] then [] else ["CUSTOM"] + custom
  {
    hide Words, IsWord, SubscribeLine, IsSubclass;
    SubscribeLineWords(plain + custom);
    PickConcat(plain, custom, false);
    PickConcat(plain, custom, true);
    PickAll(plain, false);
    PickAll(custom, true);
    hide Pick;
    assert plain + [] == plain && [] + custom == custom;
  }

  /** And where a subclass stands among the plain events makes no difference. */
  lemma {:induction false} EventOrderIsSorted(a: seq<string>, subclass: string, plain: string, b: seq<string>)
    requires IsSubclass(subclass) && !IsSubclass(plain)
    ensures SubscribeLine(a + [subclass, plain] + b) == SubscribeLine(a + [plain, subclass] + b)
  {
    SubclassByColons(subclass);
    SubclassByColons(plain);
    PickPair(subclass, plain);
    hide IsCustom, IsSubclass, Join;
    forall custom: bool ensures Pick(a + [subclass, plain] + b, custom) == Pick(a + [plain, subclass] + b, custom) {
      PickConcat(a + [subclass, plain], b, custom);
      PickConcat(a + [plain, subclass], b, custom);
      PickConcat(a, [subclass, plain], custom);
      PickConcat(a, [plain, subclass], custom);
    }
  }

  lemma {:induction false} PickPair(subclass: string, plain: string)
    requires IsCustom(subclass) && !IsCustom(plain)
    ensures forall custom: bool ::
              Pick([subclass, plain], custom) == Pick([plain, subclass], custom)
  {
    hide IsCustom;
    forall custom: bool ensures Pick([subclass, plain], custom) == Pick([plain, subclass], custom) {
      assert [subclass, plain][1..] == [plain] && [plain][1..] == [];
      assert [plain, subclass][1..] == [subclass] && [subclass][1..] == [];
    }
  }
}
