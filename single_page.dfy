/**
 * The older single-page chat script. It keeps only the transcript in the session; the
 * details of a turn (query id, time and the source lines) are shown once, under the new
 * assistant message, and only when the endpoint's answer was parsed.
 */
module SinglePage {
  import opened Wrappers
  import opened Text
  import opened Backend
  import opened Transcript

  /** `assistant_response`, `additional_info` and `sources` after the request block. */
  datatype TurnResult = TurnResult(content: string, info: string, sources: seq<string>)

  /** The markdown details of an answered turn (the template's indentation is not modelled). */
  function InfoMarkdown(queryId: string, time: string): (info: string)
    ensures |info| > 16 + |queryId|
    ensures info[..16] == "**Query ID:**  \n" && info[16..16 + |queryId|] == queryId
  {
    "**Query ID:**  \n" + queryId + "\n\n**Time:**  \n" + time + "\n\n**Sources:**\n"
  }

  /** The request block's three variables for one outcome. */
  function ResultFor(o: Outcome, formatTime: int -> string): (r: TurnResult)
    ensures r.info == [] <==> Interpret(o).Failed?
    ensures r.info == [] ==> r.sources == []
  {
    match Interpret(o)
    case Failed(message) => TurnResult(message, "", [])
    case Answered(a) => TurnResult(a.text, InfoMarkdown(a.queryId, formatTime(a.createTime)), a.sources)
  }

  /**
   * The details appear exactly for a parsed 200 response; every other branch shows its
   * error message with empty details and no sources.
   */
  lemma DetailsOnlyWhenParsed(o: Outcome, formatTime: int -> string)
    ensures ResultFor(o, formatTime).info != [] <==> Parsed200(o)
    ensures !Parsed200(o) ==>
              ResultFor(o, formatTime) == TurnResult(Interpret(o).message, "", [])
    ensures Parsed200(o) ==>
              var a := Interpret(o).answer;
              ResultFor(o, formatTime).content == a.text && ResultFor(o, formatTime).sources == a.sources
  {
    InterpretCases(o);
    if Parsed200(o) {
      var a := Interpret(o).answer;
      assert InfoMarkdown(a.queryId, formatTime(a.createTime))[0] == '*';
    }
  }

  /** The marker of source line `i`: "- " for the first, "* " for every later one. */
  function Marker(i: nat): (m: string)
    ensures |m| == 2 && m[1] == ' '
    ensures m[0] == '-' <==> i == 0
    ensures i > 0 ==> m[0] == '*'
  {
    if i == 0 then "- " else "* "
  }

  /**
   * What the details expander shows under a new assistant message: nothing when the
   * details are empty, otherwise the details, one marked line per source in order, and a rule.
   */
  function Expander(r: TurnResult): (lines: seq<string>)
    ensures r.info == [] <==> lines == []
    ensures r.info != [] ==>
              |lines| == |r.sources| + 2 && lines[0] == r.info && lines[|lines| - 1] == "---" &&
              forall i :: 0 <= i < |r.sources| ==> lines[i + 1] == Marker(i) + r.sources[i]
  {
    if r.info == [] then []
    else [r.info] + seq(|r.sources|, i requires 0 <= i < |r.sources| => Marker(i) + r.sources[i]) + ["---"]
  }

  /** The expander block: the lines it writes, built one source at a time. */
  method ExpanderLines(r: TurnResult) returns (lines: seq<string>)
    ensures lines == Expander(r)
  {
    lines := [];
    if r.info != [] {
      lines := [r.info];
      for i := 0 to |r.sources|
        invariant |lines| == i + 1 && lines[0] == r.info
        invariant forall k :: 0 <= k < i ==> lines[k + 1] == Marker(k) + r.sources[k]
      {
        if i == 0 {
          lines := lines + ["- " + r.sources[i]];
        } else {
          lines := lines + ["* " + r.sources[i]];
        }
      }
      lines := lines + ["---"];
      assert forall k :: 0 <= k < |lines| ==> lines[k] == Expander(r)[k];
    }
  }

  /** The request block: the three variables each branch assigns. */
  method Respond(o: Outcome, formatTime: int -> string) returns (r: TurnResult)
    ensures r == ResultFor(o, formatTime)
  {
    var assistantResponse, additionalInfo, sources;
    match o {
      case Response(status, body) =>
        if status == 200 {
          match body {
            case None =>
              assistantResponse := ParseFailure;
              additionalInfo := "";
              sources := [];
            case Some(json) =>
              assistantResponse := json.answerText.GetOr(AnswerFallback);
              var queryId := json.queryId.GetOr(QueryIdFallback);
              var createTime := formatTime(json.createTime.GetOr(CreateTimeFallback));
              sources := json.sources.GetOr([]);
              additionalInfo := InfoMarkdown(queryId, createTime);
          }
        } else if status == 403 {
          assistantResponse := Unauthorized;
          additionalInfo := "";
          sources := [];
        } else {
          assistantResponse := StatusFailure(status);
          additionalInfo := "";
          sources := [];
        }
      case ConnectionError(reason) =>
        assistantResponse := ConnectPrefix + reason;
        additionalInfo := "";
        sources := [];
    }
    r := TurnResult(assistantResponse, additionalInfo, sources);
  }

  /** The transcript after a fresh start and the given prompts, in order. */
  function Run(inputs: seq<TurnInput>, formatTime: int -> string): seq<Message> {
    if inputs == [] then []
    else
      var last := inputs[|inputs| - 1];
      AppendExchange(Run(inputs[..|inputs| - 1], formatTime),
                     Exchange(last.prompt, ResultFor(last.outcome, formatTime).content))
  }

  /** After N prompts: 2N messages, alternating, turn k's prompt and reply at 2k and 2k+1. */
  lemma {:induction false} RunShape(inputs: seq<TurnInput>, formatTime: int -> string)
    ensures Alternating(Run(inputs, formatTime))
    ensures |Run(inputs, formatTime)| == 2 * |inputs|
    ensures forall k :: 0 <= k < |inputs| ==>
              Run(inputs, formatTime)[2 * k] == Message(User, inputs[k].prompt) &&
              Run(inputs, formatTime)[2 * k + 1] ==
                Message(Assistant, ResultFor(inputs[k].outcome, formatTime).content)
    decreases |inputs|
  {
    if inputs != [] {
      var n := |inputs| - 1;
      var earlier := inputs[..n];
      RunShape(earlier, formatTime);
      var before := Run(earlier, formatTime);
      var e := Exchange(inputs[n].prompt, ResultFor(inputs[n].outcome, formatTime).content);
      assert Run(inputs, formatTime) == AppendExchange(before, e);
      forall k | 0 <= k < n
        ensures Run(inputs, formatTime)[2 * k] == Message(User, inputs[k].prompt)
        ensures Run(inputs, formatTime)[2 * k + 1] ==
                  Message(Assistant, ResultFor(inputs[k].outcome, formatTime).content)
      {
        assert earlier[k] == inputs[k];
        AppendKeepsEarlier(before, e, 2 * k);
        AppendKeepsEarlier(before, e, 2 * k + 1);
      }
    }
  }

  /** Appending an exchange leaves every earlier message in place. */
  lemma AppendKeepsEarlier(msgs: seq<Message>, e: Exchange, i: nat)
    requires i < |msgs|
    ensures AppendExchange(msgs, e)[i] == msgs[i]
  {
    assert AppendExchange(msgs, e)[..|msgs|][i] == msgs[i];
  }

  /** The session state of the script: only the transcript. */
  class SinglePageChat {
    var messages: seq<Message>

    ghost predicate Valid()
      reads this
    {
      Alternating(messages)
    }

    constructor ()
      ensures Valid() && messages == []
    {
      messages := [];
    }

    /**
     * Handles one prompt: appends the user message, runs the request block, returns what
     * the details expander shows, and appends the assistant message last.
     */
    method Submit(prompt: string, o: Outcome, formatTime: int -> string) returns (shown: seq<string>)
      requires Valid()
      modifies this
      ensures Valid()
      ensures messages ==
                AppendExchange(old(messages), Exchange(prompt, ResultFor(o, formatTime).content))
      ensures shown == Expander(ResultFor(o, formatTime))
      ensures (shown != []) == Parsed200(o)
    {
      messages := messages + [Message(User, prompt)];
      var r := Respond(o, formatTime);
      shown := ExpanderLines(r);
      messages := messages + [Message(Assistant, r.content)];
      DetailsOnlyWhenParsed(o, formatTime);
    }

    /** "Clear Chat History": the transcript becomes empty. */
    method ClearHistory()
      modifies this
      ensures Valid() && messages == []
    {
      messages := [];
    }
  }
}


