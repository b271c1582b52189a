/** The normalized agent events and their session contract. */
module AgentEvents {

  datatype CompletionReason = Success | Failure | Cancelled | Timeout | SubprocessExit

  datatype TokenUsage = TokenUsage(input: nat, output: nat, cachedInput: nat, total: nat)

  datatype AgentEvent =
    | Started(session: string, issue: string)
    | Message(session: string, role: string, content: string)
    | ToolUse(session: string, tool: string)
    | Usage(session: string, usage: TokenUsage)
    | RateLimit(session: string)
    | Completed(session: string, reason: CompletionReason)
    | Failed(session: string, error: string)

  /** Whether the event ends its session. */
  predicate IsTerminal(e: AgentEvent) {
    e.Completed? || e.Failed?
  }

  /** A session id is the thread id and the turn id joined by a dash. */
  function SessionId(thread: string, turn: string): string {
    thread + "-" + turn
  }

  /** The contract of an adapter: no event on a session id after its terminal one. */
  predicate ContractKept(events: seq<AgentEvent>) {
    forall i, j | 0 <= i < j < |events| :: IsTerminal(events[i]) ==> events[j].session != events[i].session
  }

  /** What the contract forbids: any event on a session id that was completed or failed before. */
  lemma ContractExactlyWhen(events: seq<AgentEvent>)
    ensures ContractKept(events)
            <==> forall i, j | 0 <= i < j < |events| && events[i].session == events[j].session ::
                   !events[i].Completed? && !events[i].Failed?
  {
  }

  lemma ContractOfPrefix(a: seq<AgentEvent>, b: seq<AgentEvent>)
    requires a <= b && ContractKept(b)
    ensures ContractKept(a)
  {
  }

  /** Two stretches that share no session id keep the contract together. */
  lemma ContractOfConcat(a: seq<AgentEvent>, b: seq<AgentEvent>)
    requires ContractKept(a) && ContractKept(b)
    requires forall x, y | x in a && y in b :: x.session != y.session
    ensures ContractKept(a + b)
  {
    var c := a + b;
    forall i, j | 0 <= i < j < |c| && IsTerminal(c[i])
      ensures c[j].session != c[i].session
    {
      if j < |a| {
        assert c[i] == a[i] && c[j] == a[j];
      } else if i < |a| {
        assert c[i] in a && c[j] in b;
      } else {
        assert c[i] == b[i - |a|] && c[j] == b[j - |a|];
      }
    }
  }
}
