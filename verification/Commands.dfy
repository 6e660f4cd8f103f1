/** Command lines: the read-only gate and the typed readers and writers. */
module Commands {
  import opened Text
  import Percent
  import Profiles
  import Statuses

  // ---- Words of a line ----

  function WordRun(s: string): (n: nat)
    ensures n <= |s|
  {
    if s == [] || IsSpace(s[0]) then 0 else 1 + WordRun(s[1..])
  }

  /** A line split at blanks, as Python splits it. */
  function Words(s: string): seq<string>
    decreases |s|
  {
    if s == [] then []
    else if IsSpace(s[0]) then Words(s[1..])
    else [s[..WordRun(s)]] + Words(s[WordRun(s)..])
  }

  predicate IsWord(s: string) {
    s != [] && forall i | 0 <= i < |s| :: !IsSpace(s[i])
  }

  lemma {:induction false} RunOfWord(w: string, rest: string)
    requires forall i | 0 <= i < |w| :: !IsSpace(w[i])
    requires rest == [] || IsSpace(rest[0])
    ensures WordRun(w + rest) == |w|
  {
    if w != [] {
      assert (w + rest)[1..] == w[1..] + rest;
      RunOfWord(w[1..], rest);
    } else {
      assert w + rest == rest;
    }
  }

  lemma {:induction false} WordsOfWord(w: string, rest: string)
    requires IsWord(w) && (rest == [] || IsSpace(rest[0]))
    ensures Words(w + rest) == [w] + Words(rest)
  {
    RunOfWord(w, rest);
    assert (w + rest)[..|w|] == w && (w + rest)[|w|..] == rest;
  }

  /** Words joined by blanks split into themselves. */
  lemma {:induction false} WordsOfJoin(tokens: seq<string>)
    requires forall i | 0 <= i < |tokens| :: IsWord(tokens[i])
    ensures Words(Join(tokens, ' ')) == tokens
    ensures Trimmed(Join(tokens, ' '))
  {
    if |tokens| == 1 {
      WordsOfWord(tokens[0], []);
      assert tokens[0] + [] == tokens[0];
    } else if |tokens| > 1 {
      var rest := Join(tokens[1..], ' ');
      WordsOfJoin(tokens[1..]);
      assert Join(tokens, ' ') == tokens[0] + ([' '] + rest);
      assert ([' '] + rest)[1..] == rest;
      WordsOfWord(tokens[0], [' '] + rest);
      assert rest != [] by {
        assert tokens[1..][0] == tokens[1];
      }
      assert Join(tokens, ' ')[|Join(tokens, ' ')| - 1] == rest[|rest| - 1];
    }
  }

  // ---- Identifiers ----

  predicate AgentOk(s: string) {
    1 <= |s| <= 128 && forall i | 0 <= i < |s| :: IsAlnum(s[i]) || s[i] in {'_', '.', '@', '+', '-'}
  }

  predicate QualifiedOk(s: string) {
    var at := IndexOf(s, '@');
    AgentOk(s) && 0 < at < |s| - 1 && IndexOf(s[at + 1..], '@') < 0
  }

  predicate UuidOk(s: string) {
    |s| == 36 && forall i | 0 <= i < 36 ::
      if i == 8 || i == 13 || i == 18 || i == 23 then s[i] == '-' else Percent.IsHex(s[i])
  }

  predicate DestinationOk(s: string) {
    1 <= |s| <= 64 && s[0] != '-'
    && forall i | 0 <= i < |s| :: IsAlnum(s[i]) || s[i] in {'_', '*', '#', '+', '.', '-'}
  }

  predicate DialplanOk(s: string) {
    1 <= |s| <= 32 && forall i | 0 <= i < |s| :: IsAlnum(s[i]) || s[i] in {'_', '.', '-'}
  }

  predicate CauseOk(s: string) {
    1 <= |s| <= 64 && forall i | 0 <= i < |s| :: IsDigit(s[i]) || 'A' <= s[i] <= 'Z' || s[i] == '_'
  }

  predicate DialstringOk(s: string) {
    1 <= |s| <= 256
    && forall i | 0 <= i < |s| :: IsAlnum(s[i]) || s[i] in {'_', '.', '/', '@', ':', '+', '*', '#', '-'}
  }

  predicate PathOk(s: string) {
    2 <= |s| <= 513 && s[0] == '/'
    && (forall i | 0 <= i < |s| :: IsAlnum(s[i]) || s[i] in {'_', '.', '/', '-'})
    && forall i | 0 <= i < |s| - 1 :: !(s[i] == '.' && s[i + 1] == '.')
  }

  /** A profile name is valid if normalising the list of it alone gives it back. */
  predicate ProfileOk(s: string) {
    Profiles.Normalized(Profiles.Listed([Profiles.Name(s)])) == [s]
  }

  lemma {:induction false} ProfileIsWord(s: string)
    ensures ProfileOk(s) <==> Profiles.ProfileOk(s)
  {
    var items := [Profiles.Name(s)];
    assert items[..0] == [];
    assert Profiles.Distinct(items) == if Profiles.ProfileOk(s) then [s] else [];
  }

  // ---- The gate ----

  predicate ReadOnlyForm(p: seq<string>) {
    || (|p| == 1 && p[0] in {"status", "version", "uptime", "help"})
    || (|p| == 2 && p[0] == "show"
        && p[1] in {"bridged_calls", "calls", "channels", "detailed_bridged_calls", "detailed_calls", "registrations"})
    || p == ["show", "channels", "as", "json"]
    || (|p| == 2 && p[0] == "sofia" && p[1] in {"status", "xmlstatus"})
    || (|p| == 3 && p[0] == "callcenter_config" && p[1] in {"agent", "queue", "tier"} && p[2] == "list")
    || (|p| == 4 && p[..3] == ["callcenter_config", "agent", "list"] && AgentOk(p[3]))
    || (|p| == 5 && p[..3] == ["callcenter_config", "agent", "get"]
        && p[3] in {"status", "state", "uuid"} && AgentOk(p[4]))
    || (|p| == 4 && p[..3] == ["sofia", "status", "profile"] && ProfileOk(p[3]))
    || (|p| == 5 && p[..3] == ["sofia", "status", "profile"] && ProfileOk(p[3]) && p[4] == "reg")
  }

  predicate IsReadOnly(command: string) {
    ReadOnlyForm(Words(Strip(command)))
  }

  /** Splitting yields words only. */
  lemma {:induction false} WordsAreWords(s: string)
    ensures forall i | 0 <= i < |Words(s)| :: IsWord(Words(s)[i])
    decreases |s|
  {
    if s != [] {
      if IsSpace(s[0]) {
        WordsAreWords(s[1..]);
      } else {
        RunHasNoSpace(s);
        WordsAreWords(s[WordRun(s)..]);
      }
    }
  }

  lemma {:induction false} RunHasNoSpace(s: string)
    ensures forall i | 0 <= i < WordRun(s) :: !IsSpace(s[i])
  {
    if s != [] && !IsSpace(s[0]) {
      RunHasNoSpace(s[1..]);
      assert forall i | 0 < i < WordRun(s) :: s[i] == s[1..][i - 1];
    }
  }

  /** The gate judges the words alone: any spacing of a command is judged like its
      single-blank form. */
  lemma {:induction false} GateSeesWordsOnly(command: string)
    ensures IsReadOnly(command) <==> IsReadOnly(Join(Words(Strip(command)), ' '))
  {
    hide ReadOnlyForm, Strip;
    var words := Words(Strip(command));
    WordsAreWords(Strip(command));
    WordsOfJoin(words);
    StripTrimmed(Join(words, ' '));
  }

  lemma {:induction false} QueryVerbsAreSafe()
    ensures AgentOk("status") && AgentOk("version") && AgentOk("uptime") && AgentOk("help") && AgentOk("show")
    ensures AgentOk("sofia") && AgentOk("xmlstatus") && AgentOk("profile") && AgentOk("reg") && AgentOk("as")
    ensures AgentOk("json") && AgentOk("callcenter_config")
  {
  }

  lemma {:induction false} QueryObjectsAreSafe()
    ensures AgentOk("bridged_calls") && AgentOk("calls") && AgentOk("channels") && AgentOk("registrations")
    ensures AgentOk("detailed_bridged_calls") && AgentOk("detailed_calls")
    ensures AgentOk("agent") && AgentOk("queue") && AgentOk("tier") && AgentOk("list") && AgentOk("get")
    ensures AgentOk("state") && AgentOk("uuid")
  {
  }

  /** Every word of an accepted command is made of identifier characters: no quote,
      bracket, semicolon or other syntax of the switch gets through. */
  lemma {:induction false} AcceptedWordsAreSafe(command: string)
    requires IsReadOnly(command)
    ensures var p := Words(Strip(command));
            1 <= |p| <= 5 && forall i | 0 <= i < |p| :: AgentOk(p[i])
  {
    hide Words, Strip;
    FormsAreSafe(Words(Strip(command)));
  }

  lemma {:induction false} FormsAreSafe(p: seq<string>)
    requires ReadOnlyForm(p)
    ensures 1 <= |p| <= 5 && forall i | 0 <= i < |p| :: AgentOk(p[i])
  {
    QueryVerbsAreSafe();
    QueryObjectsAreSafe();
    if |p| >= 4 {
      ProfileIsAgent(p[3]);
      assert p[..3][0] == p[0] && p[..3][1] == p[1] && p[..3][2] == p[2];
    }
    hide AgentOk, ProfileOk;
  }

  lemma {:induction false} ProfileIsAgent(s: string)
    ensures ProfileOk(s) ==> AgentOk(s)
  {
    ProfileIsWord(s);
  }

  // ---- Typed readers ----

  datatype Query =
    | CoreStatus
    | Channels
    | Sofia(profile: Option<string>)
    | SofiaXml
    | Registrations(profileName: string)
    | Queues
    | Agents(agent: Option<string>)
    | Tiers
    | AgentStatus(agentName: string)
    | AgentState(agentName: string)

  function QueryTokens(q: Query): seq<string> {
    match q
    case CoreStatus => ["status"]
    case Channels => ["show", "channels", "as", "json"]
    case Sofia(None) => ["sofia", "status"]
    case Sofia(Some(p)) => ["sofia", "status", "profile", p]
    case SofiaXml => ["sofia", "xmlstatus"]
    case Registrations(p) => ["sofia", "status", "profile", p, "reg"]
    case Queues => ["callcenter_config", "queue", "list"]
    case Agents(None) => ["callcenter_config", "agent", "list"]
    case Agents(Some(a)) => ["callcenter_config", "agent", "list", a]
    case Tiers => ["callcenter_config", "tier", "list"]
    case AgentStatus(a) => ["callcenter_config", "agent", "get", "status", a]
    case AgentState(a) => ["callcenter_config", "agent", "get", "state", a]
  }

  predicate QueryOk(q: Query) {
    match q
    case Sofia(Some(p)) => ProfileOk(p)
    case Registrations(p) => ProfileOk(p)
    case Agents(Some(a)) => AgentOk(a)
    case AgentStatus(a) => AgentOk(a)
    case AgentState(a) => AgentOk(a)
    case _ => true
  }

  /** The line a typed reader hands to `api`, or None when it refuses its argument. */
  function QueryLine(q: Query): Option<string> {
    if QueryOk(q) then Some(Join(QueryTokens(q), ' ')) else None
  }

  lemma {:induction false} CallcenterWords()
    ensures IsWord("callcenter_config") && IsWord("agent") && IsWord("queue") && IsWord("tier")
    ensures IsWord("list") && IsWord("get") && IsWord("set") && IsWord("del")
  {
  }

  lemma {:induction false} QueryWords()
    ensures IsWord("status") && IsWord("state") && IsWord("show") && IsWord("channels") && IsWord("as")
    ensures IsWord("json") && IsWord("sofia") && IsWord("xmlstatus") && IsWord("profile") && IsWord("reg")
  {
  }

  lemma {:induction false} QueryTokensAreWords(q: Query)
    requires QueryOk(q)
    ensures forall i | 0 <= i < |QueryTokens(q)| :: IsWord(QueryTokens(q)[i])
  {
    CallcenterWords();
    QueryWords();
    hide IsWord;
    match q
    case Sofia(Some(p)) => ProfileWord(p);
    case Registrations(p) => ProfileWord(p);
    case Agents(Some(a)) => AgentWord(a);
    case AgentStatus(a) => AgentWord(a);
    case AgentState(a) => AgentWord(a);
    case _ =>
  }

  lemma {:induction false} ProfileWord(s: string)
    requires ProfileOk(s)
    ensures IsWord(s)
  {
    ProfileIsWord(s);
  }

  lemma {:induction false} AgentWord(s: string)
    requires AgentOk(s)
    ensures IsWord(s)
  {
  }

  lemma {:induction false} QueryFormAllowed(q: Query)
    requires QueryOk(q)
    ensures ReadOnlyForm(QueryTokens(q))
  {
    hide AgentOk, ProfileOk;
  }

  lemma {:induction false} WordsHaveNoLineFeed(tokens: seq<string>)
    requires forall i | 0 <= i < |tokens| :: IsWord(tokens[i])
    ensures '\n' !in Join(tokens, ' ')
  {
    JoinChars(tokens, ' ', '\n');
  }

  /** Every line of a typed reader splits into its intended tokens, passes the gate
      and holds no line feed. */
  lemma {:induction false} ReadersPassTheGate(q: Query)
    requires QueryLine(q).Some?
    ensures var line := QueryLine(q).value;
            Words(Strip(line)) == QueryTokens(q) && IsReadOnly(line) && '\n' !in line
  {
    hide IsWord, ReadOnlyForm, Words, Join, Strip;
    var tokens := QueryTokens(q);
    QueryTokensAreWords(q);
    WordsOfJoin(tokens);
    StripTrimmed(Join(tokens, ' '));
    WordsHaveNoLineFeed(tokens);
    QueryFormAllowed(q);
  }

  // ---- Typed writers ----

  datatype Leg = ALeg | BLeg | BothLegs

  datatype Mutation =
    | SetStatus(agent: string, status: Statuses.AgentStatus)
    | SetState(agent: string, state: Statuses.AgentState)
    | DeleteTier(queue: string, agent: string)
    | DeleteAgent(agent: string)
    | Kill(uuid: string, cause: Option<string>)
    | Transfer(uuid: string, destination: string, leg: Leg, dialplan: string, context: Option<string>)
    | AttendedTransfer(uuid: string, dialstring: string)
    | Record(uuid: string, start: bool, path: string)

  predicate MutationOk(m: Mutation) {
    match m
    case SetStatus(a, v) => AgentOk(a) && v != Statuses.StatusUnknown
    case SetState(a, v) => AgentOk(a) && v != Statuses.StateUnknown
    case DeleteTier(q, a) => QualifiedOk(q) && QualifiedOk(a)
    case DeleteAgent(a) => QualifiedOk(a)
    case Kill(u, c) => UuidOk(u) && (c.Some? ==> CauseOk(c.value))
    case Transfer(u, d, _, p, c) => UuidOk(u) && DestinationOk(d) && DialplanOk(p) && (c.Some? ==> DialplanOk(c.value))
    case AttendedTransfer(u, d) => UuidOk(u) && DialstringOk(d)
    case Record(u, _, p) => UuidOk(u) && PathOk(p)
  }

  function MutationTokens(m: Mutation): seq<string> {
    match m
    case SetStatus(a, v) => ["callcenter_config", "agent", "set", "status", a, "'" + Statuses.StatusText(v) + "'"]
    case SetState(a, v) => ["callcenter_config", "agent", "set", "state", a, "'" + Statuses.StateText(v) + "'"]
    case DeleteTier(q, a) => ["callcenter_config", "tier", "del", q, a]
    case DeleteAgent(a) => ["callcenter_config", "agent", "del", a]
    case Kill(u, c) => ["uuid_kill", u] + if c.Some? then [c.value] else []
    case Transfer(u, d, l, p, c) =>
      ["uuid_transfer", u] + (if l.ALeg? then [] else if l.BLeg? then ["-bleg"] else ["-both"])
      + [d, p] + if c.Some? then [c.value] else []
    case AttendedTransfer(u, d) => ["uuid_broadcast", u, "att_xfer::" + d, "aleg"]
    case Record(u, start, p) => ["uuid_record", u, if start then "start" else "stop", p]
  }

  /** The line a typed writer hands to `api`, or None when it refuses an argument. */
  function MutationLine(m: Mutation): Option<string> {
    if MutationOk(m) then Some(Join(MutationTokens(m), ' ')) else None
  }

  // ---- The subscription line ----

  predicate IsCustom(event: string) {
    exists i | 0 <= i < |event| - 1 :: event[i] == ':' && event[i + 1] == ':'
  }

  /** The custom subclasses, or the others, in order. */
  function Pick(events: seq<string>, custom: bool): seq<string> {
    if events == [] then []
    else (if IsCustom(events[0]) == custom then [events[0]] else []) + Pick(events[1..], custom)
  }

  function SubscribeLine(events: seq<string>): string {
    var custom := Pick(events, true);
    "event plain " + Join(Pick(events, false) + if custom == [] then [] else ["CUSTOM " + Join(custom, ' ')], ' ')
  }

  lemma {:induction false} PickWords(events: seq<string>, custom: bool)
    requires forall i | 0 <= i < |events| :: IsWord(events[i])
    ensures forall i | 0 <= i < |Pick(events, custom)| :: IsWord(Pick(events, custom)[i])
  {
    hide IsWord, IsCustom;
    if events != [] {
      PickWords(events[1..], custom);
    }
  }

  lemma {:induction false} JoinLastTwo(parts: seq<string>, a: string, b: string)
    ensures Join(parts + [a + " " + b], ' ') == Join(parts + [a, b], ' ')
  {
    if parts != [] {
      assert (parts + [a + " " + b])[1..] == parts[1..] + [a + " " + b];
      assert (parts + [a, b])[1..] == parts[1..] + [a, b];
      JoinLastTwo(parts[1..], a, b);
    }
  }

  lemma {:induction false} JoinNested(parts: seq<string>, tail: seq<string>)
    requires tail != []
    ensures Join(parts + [Join(tail, ' ')], ' ') == Join(parts + tail, ' ')
  {
    if parts == [] {
      assert parts + tail == tail;
    } else {
      assert (parts + [Join(tail, ' ')])[1..] == parts[1..] + [Join(tail, ' ')];
      assert (parts + tail)[1..] == parts[1..] + tail;
      JoinNested(parts[1..], tail);
    }
  }

  lemma {:induction false} SubscribeWordsOk()
    ensures IsWord("event") && IsWord("plain") && IsWord("CUSTOM")
  {
  }

  /** The words of the line: the plain events, then one CUSTOM and all subclasses. */
  function SubscribeTokens(events: seq<string>): seq<string> {
    var custom := Pick(events, true);
    ["event", "plain"] + (Pick(events, false) + if custom == [] then [] else ["CUSTOM"] + custom)
  }

  lemma {:induction false} CustomJoined(plain: seq<string>, custom: seq<string>)
    requires custom != []
    ensures Join(plain + ["CUSTOM " + Join(custom, ' ')], ' ') == Join(plain + (["CUSTOM"] + custom), ' ')
  {
    hide Join;
    var text := Join(custom, ' ');
    JoinLastTwo(plain, "CUSTOM", text);
    assert "CUSTOM " + text == "CUSTOM" + " " + text;
    assert plain + ["CUSTOM", text] == plain + ["CUSTOM"] + [text];
    JoinNested(plain + ["CUSTOM"], custom);
    assert plain + ["CUSTOM"] + custom == plain + (["CUSTOM"] + custom);
  }

  lemma {:induction false} SubscribeLineJoined(events: seq<string>)
    requires events != []
    ensures SubscribeLine(events) == Join(SubscribeTokens(events), ' ')
  {
    PickedIsSomething(events);
    hide Pick, Join;
    var plain, custom := Pick(events, false), Pick(events, true);
    if custom == [] {
      JoinFront(plain + []);
    } else {
      CustomJoined(plain, custom);
      JoinFront(plain + (["CUSTOM"] + custom));
    }
  }

  /** The subscription line of a non-empty list of event names is those words in that
      order, on one line. */
  lemma {:induction false} SubscribeLineWords(events: seq<string>)
    requires events != [] && forall i | 0 <= i < |events| :: IsWord(events[i])
    ensures Words(SubscribeLine(events)) == SubscribeTokens(events) && '\n' !in SubscribeLine(events)
  {
    PickWords(events, false);
    PickWords(events, true);
    SubscribeWordsOk();
    hide IsWord, Pick, Words, Join, SubscribeLine;
    SubscribeLineJoined(events);
    WordsOfJoin(SubscribeTokens(events));
    WordsHaveNoLineFeed(SubscribeTokens(events));
  }

  lemma {:induction false} JoinFront(tail: seq<string>)
    requires tail != []
    ensures "event plain " + Join(tail, ' ') == Join(["event", "plain"] + tail, ' ')
  {
    var all := ["event", "plain"] + tail;
    assert all[1..] == ["plain"] + tail && all[1..][1..] == tail;
    assert Join(all[1..], ' ') == "plain" + [' '] + Join(tail, ' ');
    assert Join(all, ' ') == "event" + [' '] + Join(all[1..], ' ');
  }

  lemma {:induction false} PickedIsSomething(events: seq<string>)
    requires events != []
    ensures Pick(events, false) != [] || Pick(events, true) != []
  {
    hide IsCustom;
  }

  // ---- Writers never reach the switch through the gate, and send one line each ----

  lemma {:induction false} WordsCons(tokens: seq<string>)
    requires |tokens| >= 2 && IsWord(tokens[0])
    ensures Words(Join(tokens, ' ')) == [tokens[0]] + Words(Join(tokens[1..], ' '))
  {
    var rest := Join(tokens[1..], ' ');
    assert Join(tokens, ' ') == tokens[0] + ([' '] + rest);
    assert ([' '] + rest)[1..] == rest;
    WordsOfWord(tokens[0], [' '] + rest);
  }

  lemma {:induction false} WordsPrefix(prefix: seq<string>, rest: seq<string>)
    requires rest != [] && forall i | 0 <= i < |prefix| :: IsWord(prefix[i])
    ensures Words(Join(prefix + rest, ' ')) == prefix + Words(Join(rest, ' '))
  {
    hide Words, Join, IsWord;
    if prefix == [] {
      assert prefix + rest == rest;
    } else {
      var all := prefix + rest;
      assert all[0] == prefix[0] && all[1..] == prefix[1..] + rest;
      WordsCons(all);
      WordsPrefix(prefix[1..], rest);
      assert prefix + Words(Join(rest, ' ')) == [prefix[0]] + (prefix[1..] + Words(Join(rest, ' ')));
    }
  }

  /** Starts and ends with something `strip` keeps. */
  predicate IsSolid(s: string) {
    s != [] && Trimmed(s)
  }

  lemma {:induction false} JoinSolid(tokens: seq<string>)
    requires tokens != [] && forall i | 0 <= i < |tokens| :: IsSolid(tokens[i])
    ensures IsSolid(Join(tokens, ' '))
  {
    if |tokens| > 1 {
      JoinSolid(tokens[1..]);
      var s, rest := Join(tokens, ' '), Join(tokens[1..], ' ');
      assert s[0] == tokens[0][0] && s[|s| - 1] == rest[|rest| - 1];
    }
  }

  predicate HasPrefix(p: seq<string>, prefix: seq<string>) {
    |prefix| < |p| && p[..|prefix|] == prefix
  }

  /** The first words of a writer's line: none of them opens a read-only form. */
  function MutationPrefix(m: Mutation): seq<string> {
    match m
    case SetStatus(_, _) => ["callcenter_config", "agent", "set"]
    case SetState(_, _) => ["callcenter_config", "agent", "set"]
    case DeleteTier(_, _) => ["callcenter_config", "tier", "del"]
    case DeleteAgent(_) => ["callcenter_config", "agent", "del"]
    case Kill(_, _) => ["uuid_kill"]
    case Transfer(_, _, _, _, _) => ["uuid_transfer"]
    case AttendedTransfer(_, _) => ["uuid_broadcast"]
    case Record(_, _, _) => ["uuid_record"]
  }

  lemma {:induction false} MutationPrefixRefused(m: Mutation, p: seq<string>)
    requires HasPrefix(p, MutationPrefix(m))
    ensures !ReadOnlyForm(p)
  {
    hide AgentOk, ProfileOk;
    var prefix := MutationPrefix(m);
    assert p[0] == prefix[0];
    if |prefix| == 3 {
      assert p[1] == prefix[1] && p[2] == prefix[2];
      assert p[..3][2] != "list" && p[..3][2] != "get" && p[..3][0] != "sofia";
    }
  }

  predicate IsPlain(s: string) {
    IsSolid(s) && '\n' !in s
  }

  lemma {:induction false} WriterWords()
    ensures IsWord("uuid_kill") && IsWord("uuid_transfer") && IsWord("uuid_broadcast") && IsWord("uuid_record")
  {
  }

  lemma {:induction false} WriterLiterals()
    ensures IsPlain("status") && IsPlain("state") && IsPlain("aleg") && IsPlain("-bleg") && IsPlain("-both")
    ensures IsPlain("start") && IsPlain("stop")
  {
  }

  lemma {:induction false} WordIsPlain(s: string)
    requires IsWord(s)
    ensures IsPlain(s)
  {
  }

  lemma {:induction false} QuotedStatusIsPlain(v: Statuses.AgentStatus)
    ensures IsPlain("'" + Statuses.StatusText(v) + "'")
  {
  }

  lemma {:induction false} QuotedStateIsPlain(v: Statuses.AgentState)
    ensures IsPlain("'" + Statuses.StateText(v) + "'")
  {
  }

  lemma {:induction false} AttXferIsWord(d: string)
    requires DialstringOk(d)
    ensures IsWord("att_xfer::" + d)
  {
    assert IsWord("att_xfer::");
  }

  lemma {:induction false} MutationTokensArePlain(m: Mutation)
    requires MutationOk(m)
    ensures var tokens := MutationTokens(m);
            forall i | 0 <= i < |tokens| :: IsPlain(tokens[i])
  {
    hide IsPlain, IsWord, MutationOk, Join;
    CallcenterWords();
    WriterWords();
    WriterLiterals();
    forall s: string | IsWord(s) ensures IsPlain(s) {
      WordIsPlain(s);
    }
    ArgumentsArePlain(m);
  }

  predicate Arguments(m: Mutation, s: string) {
    match m
    case SetStatus(a, v) => s == a || s == "'" + Statuses.StatusText(v) + "'"
    case SetState(a, v) => s == a || s == "'" + Statuses.StateText(v) + "'"
    case DeleteTier(q, a) => s == q || s == a
    case DeleteAgent(a) => s == a
    case Kill(u, c) => s == u || c == Some(s)
    case Transfer(u, d, _, p, c) => s == u || s == d || s == p || c == Some(s)
    case AttendedTransfer(u, d) => s == u || s == "att_xfer::" + d
    case Record(u, _, p) => s == u || s == p
  }

  lemma {:induction false} ArgumentIsPlain(m: Mutation, s: string)
    requires MutationOk(m) && Arguments(m, s)
    ensures IsPlain(s)
  {
    hide IsPlain, Join;
    match m
    case SetStatus(a, v) => if s != a { QuotedStatusIsPlain(v); } else { WordIsPlain(s); }
    case SetState(a, v) => if s != a { QuotedStateIsPlain(v); } else { WordIsPlain(s); }
    case AttendedTransfer(u, d) =>
      if s != u { AttXferIsWord(d); }
      WordIsPlain(s);
    case _ => WordIsPlain(s);
  }

  lemma {:induction false} ArgumentsArePlain(m: Mutation)
    requires MutationOk(m)
    ensures forall s :: Arguments(m, s) ==> IsPlain(s)
  {
    forall s | Arguments(m, s) ensures IsPlain(s) {
      ArgumentIsPlain(m, s);
    }
  }

  lemma {:induction false} MutationTokensStart(m: Mutation)
    ensures var tokens, prefix := MutationTokens(m), MutationPrefix(m);
            |prefix| < |tokens| && tokens[..|prefix|] == prefix
            && forall i | 0 <= i < |prefix| :: IsWord(prefix[i])
  {
    CallcenterWords();
    WriterWords();
    hide IsWord;
  }

  /** Every line of a typed writer is one line, and the gate refuses it: it passes
      only with the explicit opt-in. */
  lemma {:induction false} WritersNeedTheOptIn(m: Mutation)
    requires MutationLine(m).Some?
    ensures var line := MutationLine(m).value;
            '\n' !in line && !IsReadOnly(line)
  {
    hide Words, IsWord, ReadOnlyForm, Join, Strip;
    var tokens, prefix := MutationTokens(m), MutationPrefix(m);
    var line, rest := Join(tokens, ' '), Join(tokens[|prefix|..], ' ');
    MutationTokensArePlain(m);
    JoinSolid(tokens);
    StripTrimmed(line);
    JoinChars(tokens, ' ', '\n');
    MutationTokensStart(m);
    assert tokens == prefix + tokens[|prefix|..];
    WordsPrefix(prefix, tokens[|prefix|..]);
    JoinSolid(tokens[|prefix|..]);
    assert |Words(rest)| >= 1 by {
      SolidHasAWord(rest);
    }
    MutationPrefixRefused(m, Words(line));
  }

  lemma {:induction false} SolidHasAWord(s: string)
    requires IsSolid(s)
    ensures |Words(s)| >= 1
  {
  }
}
