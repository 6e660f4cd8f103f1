/** The texts of agent statuses, agent states and tier states, and their readers. */
module Statuses {
  import opened Text

  datatype AgentStatus = StatusUnknown | LoggedOut | Available | AvailableOnDemand | OnBreak
  datatype AgentState = StateUnknown | Waiting | Receiving | InAQueueCall | Idle
  datatype TierState = TierUnknown | NoAnswer | Ready | Offering | ActiveInbound | Standby

  /** The status a reply spells in any case, blanks around it ignored; else unknown. */
  function StatusFromText(value: string): AgentStatus {
    var lowered := Lower(Strip(value));
    if lowered == "unknown" then StatusUnknown
    else if lowered == "logged out" then LoggedOut
    else if lowered == "available" then Available
    else if lowered == "available (on demand)" then AvailableOnDemand
    else if lowered == "on break" then OnBreak
    else StatusUnknown
  }

  function StateFromText(value: string): AgentState {
    var lowered := Lower(Strip(value));
    if lowered == "unknown" then StateUnknown
    else if lowered == "waiting" then Waiting
    else if lowered == "receiving" then Receiving
    else if lowered == "in a queue call" then InAQueueCall
    else if lowered == "idle" then Idle
    else StateUnknown
  }

  function TierFromText(value: string): TierState {
    var lowered := Lower(Strip(value));
    if lowered == "unknown" then TierUnknown
    else if lowered == "no answer" then NoAnswer
    else if lowered == "ready" then Ready
    else if lowered == "offering" then Offering
    else if lowered == "active inbound" then ActiveInbound
    else if lowered == "standby" then Standby
    else TierUnknown
  }

  /** The text the switch uses for a status. */
  function StatusText(s: AgentStatus): string {
    match s
    case StatusUnknown => "Unknown"
    case LoggedOut => "Logged Out"
    case Available => "Available"
    case AvailableOnDemand => "Available (On Demand)"
    case OnBreak => "On Break"
  }

  function StateText(s: AgentState): string {
    match s
    case StateUnknown => "Unknown"
    case Waiting => "Waiting"
    case Receiving => "Receiving"
    case InAQueueCall => "In a queue call"
    case Idle => "Idle"
  }

  function TierText(s: TierState): string {
    match s
    case TierUnknown => "Unknown"
    case NoAnswer => "No Answer"
    case Ready => "Ready"
    case Offering => "Offering"
    case ActiveInbound => "Active Inbound"
    case Standby => "Standby"
  }

  lemma {:induction false} StatusNames()
    ensures Lower("Logged Out") == "logged out" && Lower("Available") == "available"
    ensures Lower("Available (On Demand)") == "available (on demand)" && Lower("On Break") == "on break"
    ensures Lower("Unknown") == "unknown"
  {
  }

  lemma {:induction false} StateNames()
    ensures Lower("Waiting") == "waiting" && Lower("Receiving") == "receiving"
    ensures Lower("In a queue call") == "in a queue call" && Lower("Idle") == "idle" && Lower("Unknown") == "unknown"
  {
  }

  lemma {:induction false} TierNames()
    ensures Lower("No Answer") == "no answer" && Lower("Ready") == "ready" && Lower("Offering") == "offering"
    ensures Lower("Active Inbound") == "active inbound" && Lower("Standby") == "standby"
    ensures Lower("Unknown") == "unknown"
  {
  }

  /** A reply means a status exactly when it spells it, in any case and with any blanks
      around it; everything else is Unknown. */
  lemma {:induction false} StatusBySpelling(value: string, s: AgentStatus)
    requires s != StatusUnknown
    ensures StatusFromText(value) == s <==> Lower(Strip(value)) == Lower(StatusText(s))
  {
    StatusNames();
    hide Lower, Strip;
    assert "available" != "available (on demand)" && "logged out"[0] != "on break"[0];
  }

  lemma {:induction false} StateBySpelling(value: string, s: AgentState)
    requires s != StateUnknown
    ensures StateFromText(value) == s <==> Lower(Strip(value)) == Lower(StateText(s))
  {
    StateNames();
    hide Lower, Strip;
    assert "waiting"[0] == 'w' && "receiving"[0] == 'r' && "in a queue call"[1] == 'n' && "idle"[1] == 'd';
  }

  lemma {:induction false} TierBySpelling(value: string, s: TierState)
    requires s != TierUnknown
    ensures TierFromText(value) == s <==> Lower(Strip(value)) == Lower(TierText(s))
  {
    TierNames();
    hide Lower, Strip;
    assert "no answer"[0] == 'n' && "ready"[0] == 'r' && "offering"[0] == 'o' && "active inbound"[0] == 'a';
    assert "standby"[0] == 's' && "unknown"[0] == 'u';
  }
}
