/**
 * The chat transcript both pages keep in the session: an append-only list of
 * `{role, content}` messages, grown by one user message and one assistant message per turn.
 */
module Transcript {

  datatype Role = User | Assistant

  datatype Message = Message(role: Role, content: string)

  /** One completed turn: what the user asked and what the assistant message says. */
  datatype Exchange = Exchange(prompt: string, reply: string)

  /** Even length, user messages at even indices and assistant messages at odd ones. */
  ghost predicate Alternating(msgs: seq<Message>) {
    |msgs| % 2 == 0 &&
    forall i :: 0 <= i < |msgs| ==> msgs[i].role == (if i % 2 == 0 then User else Assistant)
  }

  /** Appending the user message and then the assistant message of one turn. */
  function AppendExchange(msgs: seq<Message>, e: Exchange): (r: seq<Message>)
    ensures |r| == |msgs| + 2 && r[..|msgs|] == msgs
    ensures r[|msgs|] == Message(User, e.prompt) && r[|msgs| + 1] == Message(Assistant, e.reply)
    ensures Alternating(msgs) ==> Alternating(r)
  {
    msgs + [Message(User, e.prompt), Message(Assistant, e.reply)]
  }
}


