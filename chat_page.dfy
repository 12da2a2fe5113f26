/**
 * The chat page's turn handler. The session holds the transcript and a map from the index
 * of each assistant message to the details shown under it; each submitted prompt appends
 * a user message and an assistant message and stores the details of the new turn.
 */
module ChatPage {
  import opened Wrappers
  import opened Text
  import opened Backend
  import opened SourceList
  import opened Transcript

  const NoDetails := "No details available."

  /** The details block of an answered turn (the template's line breaks and indentation are not modelled). */
  function DetailsHtml(queryId: string, time: string, sourcesHtml: string): (details: string)
    ensures |details| >= |sourcesHtml| && details[|details| - |sourcesHtml|..] == sourcesHtml
    ensures details != NoDetails
  {
    "<p><strong>Query ID:</strong> " + queryId
      + "</p><p><strong>Time:</strong> " + time
      + "</p><p><strong>Sources:</strong></p>" + sourcesHtml
  }

  /** The assistant message one turn appends and the details it stores. */
  datatype TurnReply = TurnReply(content: string, details: string)

  /** The assistant message and details of one turn, by the status dispatch. */
  function ReplyFor(o: Outcome, formatTime: int -> string): (r: TurnReply)
    ensures r.details == NoDetails <==> Interpret(o).Failed?
  {
    match Interpret(o)
    case Failed(message) => TurnReply(message, NoDetails)
    case Answered(a) =>
      TurnReply(a.text, DetailsHtml(a.queryId, formatTime(a.createTime), FormattedSources(a.sources)))
  }

  /** `x` sits between `a` and `b`. */
  lemma ContainsMiddle(a: string, x: string, b: string)
    ensures Contains(a + x + b, x)
  {
    assert (a + x + b)[|a|..|a| + |x|] == x;
    assert OccursAt(a + x + b, x, |a|);
  }

  /** The details block names the query id, holds the source list, and is never the placeholder. */
  lemma DetailsHtmlShape(queryId: string, time: string, sourcesHtml: string)
    ensures var details := DetailsHtml(queryId, time, sourcesHtml);
      Contains(details, queryId) && Contains(details, sourcesHtml) && details != NoDetails
  {
    var head := "<p><strong>Query ID:</strong> ";
    var tail := "</p><p><strong>Time:</strong> " + time + "</p><p><strong>Sources:</strong></p>";
    var details := DetailsHtml(queryId, time, sourcesHtml);
    assert details == head + queryId + (tail + sourcesHtml);
    ContainsMiddle(head, queryId, tail + sourcesHtml);
    assert details == (head + queryId + tail) + sourcesHtml + [];
    ContainsMiddle(head + queryId + tail, sourcesHtml, []);
    assert details[0] == '<' && NoDetails[0] == 'N';
  }

  /**
   * Every failure stores "No details available." and shows its error message; an answered
   * turn stores details that name the query id and hold the formatted source list.
   */
  lemma ReplyDetails(o: Outcome, formatTime: int -> string)
    ensures ReplyFor(o, formatTime).details == NoDetails <==> !Parsed200(o)
    ensures !Parsed200(o) ==> ReplyFor(o, formatTime).content == Interpret(o).message
    ensures Parsed200(o) ==>
              var a, details := Interpret(o).answer, ReplyFor(o, formatTime).details;
              ReplyFor(o, formatTime).content == a.text &&
              Contains(details, a.queryId) && Contains(details, FormattedSources(a.sources))
  {
    if Parsed200(o) {
      var a := Interpret(o).answer;
      DetailsHtmlShape(a.queryId, formatTime(a.createTime), FormattedSources(a.sources));
    }
  }

  /** The session state the page keeps: `messages` and `details`. */
  datatype Session = Session(messages: seq<Message>, details: map<nat, string>)

  /** Alternating roles, and a details entry for exactly the assistant indices. */
  ghost predicate WellFormed(s: Session) {
    Alternating(s.messages) &&
    forall i: nat :: i in s.details <==> i < |s.messages| && i % 2 == 1
  }

  /** One submitted prompt: append both messages, store the details under the assistant's index. */
  function Turn(s: Session, input: TurnInput, formatTime: int -> string): (t: Session)
    ensures |t.messages| == |s.messages| + 2 && t.messages[..|s.messages|] == s.messages
  {
    var reply := ReplyFor(input.outcome, formatTime);
    var messages := AppendExchange(s.messages, Exchange(input.prompt, reply.content));
    Session(messages, s.details[|messages| - 1 := reply.details])
  }

  /** A turn keeps the session well formed and changes nothing that was there before. */
  lemma TurnPreservesWellFormed(s: Session, input: TurnInput, formatTime: int -> string)
    requires WellFormed(s)
    ensures var t := Turn(s, input, formatTime);
      WellFormed(t) &&
      t.messages[..|s.messages|] == s.messages &&
      (forall i :: i in s.details ==> i in t.details && t.details[i] == s.details[i]) &&
      t.details[|s.messages| + 1] == ReplyFor(input.outcome, formatTime).details
  {
    var reply := ReplyFor(input.outcome, formatTime);
    AppendPreservesWellFormed(s, Exchange(input.prompt, reply.content), reply.details);
  }

  /** Appending one exchange and storing its details under the new assistant index keeps the session well formed. */
  lemma AppendPreservesWellFormed(s: Session, e: Exchange, details: string)
    requires WellFormed(s)
    ensures var messages := AppendExchange(s.messages, e);
      WellFormed(Session(messages, s.details[|messages| - 1 := details]))
  {
    var messages := AppendExchange(s.messages, e);
    var t := Session(messages, s.details[|messages| - 1 := details]);
    forall i: nat
      ensures i in t.details <==> i < |t.messages| && i % 2 == 1
    {
      assert i in t.details <==> i in s.details || i == |s.messages| + 1;
    }
  }

  /** `details.get(i, "No details available.")`, what the history shows under message `i`. */
  function ShownDetails(s: Session, i: nat): (shown: string)
    ensures shown == NoDetails || shown in s.details.Values
  {
    if i in s.details then s.details[i] else NoDetails
  }

  /** In a well-formed session the fallback is never needed: every assistant message has its entry. */
  lemma ShownDetailsAreStored(s: Session, i: nat)
    requires WellFormed(s) && i < |s.messages| && s.messages[i].role == Assistant
    ensures i in s.details && ShownDetails(s, i) == s.details[i]
  {
  }

  /** The session after a fresh start and the given turns, in order. */
  function Run(inputs: seq<TurnInput>, formatTime: int -> string): Session {
    if inputs == [] then Session([], map[])
    else Turn(Run(inputs[..|inputs| - 1], formatTime), inputs[|inputs| - 1], formatTime)
  }

  /**
   * The session holds exactly the given turns: 2N messages in a well-formed session, turn
   * k's prompt at index 2k, its reply at 2k+1, and its details shown under 2k+1.
   */
  ghost predicate HoldsTurns(s: Session, inputs: seq<TurnInput>, formatTime: int -> string) {
    WellFormed(s) && |s.messages| == 2 * |inputs| &&
    forall k :: 0 <= k < |inputs| ==>
      var reply := ReplyFor(inputs[k].outcome, formatTime);
      s.messages[2 * k] == Message(User, inputs[k].prompt) &&
      s.messages[2 * k + 1] == Message(Assistant, reply.content) &&
      ShownDetails(s, 2 * k + 1) == reply.details
  }

  /**
   * After N prompts the transcript holds 2N messages, user and assistant alternating,
   * turn k at indices 2k and 2k+1, and the details of turn k under index 2k+1.
   */
  lemma {:induction false} RunShape(inputs: seq<TurnInput>, formatTime: int -> string)
    ensures HoldsTurns(Run(inputs, formatTime), inputs, formatTime)
    decreases |inputs|
  {
    if inputs != [] {
      var n := |inputs| - 1;
      PrefixAppend(inputs, n);
      assert inputs[..n + 1] == inputs;
      RunShape(inputs[..n], formatTime);
      TurnExtends(Run(inputs[..n], formatTime), inputs[..n], inputs[n], formatTime);
    }
  }

  /** A turn applied to a session holding some turns holds those turns and the new one. */
  lemma TurnExtends(s: Session, inputs: seq<TurnInput>, input: TurnInput, formatTime: int -> string)
    requires HoldsTurns(s, inputs, formatTime)
    ensures HoldsTurns(Turn(s, input, formatTime), inputs + [input], formatTime)
  {
    TurnPreservesWellFormed(s, input, formatTime);
    var t, all := Turn(s, input, formatTime), inputs + [input];
    forall k | 0 <= k < |all|
      ensures t.messages[2 * k] == Message(User, all[k].prompt)
      ensures t.messages[2 * k + 1] == Message(Assistant, ReplyFor(all[k].outcome, formatTime).content)
      ensures ShownDetails(t, 2 * k + 1) == ReplyFor(all[k].outcome, formatTime).details
    {
      if k < |inputs| {
        EarlierTurn(s, input, formatTime, k);
      } else {
        NewTurn(s, input, formatTime);
      }
    }
  }

  /** A turn places its prompt and reply at the end and shows its own details under the reply. */
  lemma NewTurn(s: Session, input: TurnInput, formatTime: int -> string)
    requires WellFormed(s)
    ensures var t, reply, n := Turn(s, input, formatTime), ReplyFor(input.outcome, formatTime), |s.messages|;
      t.messages[n] == Message(User, input.prompt) && t.messages[n + 1] == Message(Assistant, reply.content) &&
      ShownDetails(t, n + 1) == reply.details
  {
    TurnPreservesWellFormed(s, input, formatTime);
  }

  /** A turn leaves an earlier turn's messages and shown details as they were. */
  lemma EarlierTurn(s: Session, input: TurnInput, formatTime: int -> string, k: nat)
    requires WellFormed(s) && 2 * k + 1 < |s.messages|
    ensures var t := Turn(s, input, formatTime);
      t.messages[2 * k] == s.messages[2 * k] && t.messages[2 * k + 1] == s.messages[2 * k + 1] &&
      ShownDetails(t, 2 * k + 1) == ShownDetails(s, 2 * k + 1)
  {
    TurnPreservesWellFormed(s, input, formatTime);
    var t := Turn(s, input, formatTime);
    assert t.messages[2 * k] == t.messages[..|s.messages|][2 * k];
    assert t.messages[2 * k + 1] == t.messages[..|s.messages|][2 * k + 1];
  }

  /** One entry of the rendered history: the message and, for an assistant message, its details. */
  datatype Bubble = Bubble(role: Role, content: string, details: Option<string>)

  function BubbleAt(s: Session, i: nat): Bubble
    requires i < |s.messages|
  {
    var m := s.messages[i];
    Bubble(m.role, m.content, if m.role == Assistant then Some(ShownDetails(s, i)) else None)
  }

  /** The request block of the handler: the reply text and the details for one outcome. */
  method Respond(o: Outcome, formatTime: int -> string) returns (assistantResponse: string, additionalInfo: string)
    ensures TurnReply(assistantResponse, additionalInfo) == ReplyFor(o, formatTime)
  {
    match o {
      case Response(status, body) =>
        if status == 200 {
          match body {
            case None =>
              assistantResponse := ParseFailure;
              additionalInfo := NoDetails;
            case Some(json) =>
              assistantResponse := json.answerText.GetOr(AnswerFallback);
              var queryId := json.queryId.GetOr(QueryIdFallback);
              var createTime := formatTime(json.createTime.GetOr(CreateTimeFallback));
              var sources := json.sources.GetOr([]);
              var sourcesHtml := FormatSources(sources);
              additionalInfo := DetailsHtml(queryId, createTime, sourcesHtml);
          }
        } else if status == 403 {
          assistantResponse := Unauthorized;
          additionalInfo := NoDetails;
        } else {
          assistantResponse := StatusFailure(status);
          additionalInfo := NoDetails;
        }
      case ConnectionError(reason) =>
        assistantResponse := ConnectPrefix + reason;
        additionalInfo := NoDetails;
    }
  }

  /** The session state of the chat page, updated in place by each prompt and by "Clear Chat History". */
  class ChatState {
    var messages: seq<Message>
    var details: map<nat, string>

    function Snapshot(): Session
      reads this
    {
      Session(messages, details)
    }

    ghost predicate Valid()
      reads this
    {
      WellFormed(Snapshot())
    }

    /** The first visit to the page: both keys start empty. */
    constructor ()
      ensures Valid() && Snapshot() == Session([], map[])
    {
      messages := [];
      details := map[];
    }

    /** Handles one prompt, given what the query endpoint answered and how a timestamp is formatted. */
    method Submit(prompt: string, o: Outcome, formatTime: int -> string)
      requires Valid()
      modifies this
      ensures Valid()
      ensures Snapshot() == Turn(old(Snapshot()), TurnInput(prompt, o), formatTime)
    {
      ghost var before := Snapshot();
      messages := messages + [Message(User, prompt)];
      var assistantResponse, additionalInfo := Respond(o, formatTime);
      messages := messages + [Message(Assistant, assistantResponse)];
      details := details[|messages| - 1 := additionalInfo];
      TurnPreservesWellFormed(before, TurnInput(prompt, o), formatTime);
    }

    /** "Clear Chat History": both the transcript and the details map become empty. */
    method ClearHistory()
      modifies this
      ensures Valid() && Snapshot() == Session([], map[])
    {
      messages := [];
      details := map[];
    }

    /** The history shown on each rerun, one entry per message, in order. */
    method Render() returns (view: seq<Bubble>)
      ensures |view| == |messages|
      ensures forall i :: 0 <= i < |messages| ==> view[i] == BubbleAt(Snapshot(), i)
    {
      view := [];
      for i := 0 to |messages|
        invariant |view| == i
        invariant forall k :: 0 <= k < i ==> view[k] == BubbleAt(Snapshot(), k)
      {
        var message := messages[i];
        var shown := None;
        if message.role == Assistant {
          shown := Some(if i in details then details[i] else NoDetails);
        }
        view := view + [Bubble(message.role, message.content, shown)];
      }
    }
  }
}


