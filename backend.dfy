/**
 * The query endpoint as the chat pages see it: the outcome of one POST, and the status
 * dispatch that turns it into either an answer or an error message. Both pages use the
 * same branches, defaults and messages.
 */
module Backend {
  import opened Wrappers
  import opened Text

  /** The keys of a parsed JSON body that the pages read; a field is `None` when its key is absent. */
  datatype Body = Body(
    answerText: Option<string>,
    queryId: Option<string>,
    createTime: Option<int>,
    sources: Option<seq<string>>)

  /** What the POST to the query endpoint led to. */
  datatype Outcome =
    | Response(status: nat, body: Option<Body>)  // `body` is None when the text is not valid JSON
    | ConnectionError(reason: string)            // the text of the transport exception

  /** One submitted prompt and what the endpoint answered to it. */
  datatype TurnInput = TurnInput(prompt: string, outcome: Outcome)

  const AnswerFallback := "Sorry, I couldn't process that request."
  const QueryIdFallback := "N/A"
  const CreateTimeFallback := 0
  const ErrorPrefix := "Error: "
  const ParseFailure := ErrorPrefix + "Unable to parse the server response."
  const Unauthorized := ErrorPrefix + "Invalid API key or unauthorized access."
  const StatusPrefix := ErrorPrefix + "Received status code "
  const ConnectPrefix := ErrorPrefix + "Unable to connect to the server. "

  /** A successful answer, with every missing key replaced by its default. */
  datatype Answer = Answer(text: string, queryId: string, createTime: int, sources: seq<string>)

  datatype Reply = Answered(answer: Answer) | Failed(message: string)

  /** `f"Error: Received status code {response.status_code}"`. */
  function StatusFailure(code: nat): (m: string)
    ensures |m| > |StatusPrefix| && m[..|StatusPrefix|] == StatusPrefix
  {
    StatusPrefix + Decimal(code)
  }

  /** The status code can be read back from the digits after the message's prefix. */
  lemma StatusFailureCode(code: nat)
    ensures var digits := StatusFailure(code)[|StatusPrefix|..];
      (forall i :: 0 <= i < |digits| ==> IsDigit(digits[i])) && ParseDecimal(digits) == code
  {
    assert StatusFailure(code)[|StatusPrefix|..] == Decimal(code);
    ParseDecimalOfDecimal(code);
  }

  /** The message `ErrorPrefix + tail` starts with "Error: ". */
  lemma ErrorMessage(tail: string)
    ensures |ErrorPrefix + tail| >= 7 && (ErrorPrefix + tail)[..7] == ErrorPrefix
  {
  }

  /**
   * The branches on the outcome: parsed 200, unparseable 200, 403, other status, transport
   * error. Only a parsed 200 gives an answer; every failure message starts with "Error: ".
   */
  function Interpret(o: Outcome): (r: Reply)
    ensures r.Answered? <==> Parsed200(o)
    ensures r.Failed? ==> |r.message| >= 7 && r.message[..7] == ErrorPrefix
  {
    ErrorMessage("Unable to parse the server response.");
    ErrorMessage("Invalid API key or unauthorized access.");
    ErrorMessage("Received status code " + Decimal(if o.Response? then o.status else 0));
    ErrorMessage("Unable to connect to the server. " + (if o.ConnectionError? then o.reason else ""));
    match o
    case ConnectionError(reason) => Failed(ConnectPrefix + reason)
    case Response(status, body) =>
      if status == 200 then
        match body
        case None => Failed(ParseFailure)
        case Some(b) =>
          Answered(Answer(
            b.answerText.GetOr(AnswerFallback),
            b.queryId.GetOr(QueryIdFallback),
            b.createTime.GetOr(CreateTimeFallback),
            b.sources.GetOr([])))
      else if status == 403 then Failed(Unauthorized)
      else Failed(StatusFailure(status))
  }

  /** An answer exactly for a 200 whose body parses. */
  predicate Parsed200(o: Outcome) {
    o.Response? && o.status == 200 && o.body.Some?
  }

  /** Each failure branch and its literal message; a parsed 200 takes every missing key's default. */
  lemma InterpretCases(o: Outcome)
    ensures Interpret(o).Answered? <==> Parsed200(o)
    ensures o.ConnectionError? ==> Interpret(o) == Failed(ConnectPrefix + o.reason)
    ensures o.Response? && o.status == 200 && o.body.None? ==> Interpret(o) == Failed(ParseFailure)
    ensures o.Response? && o.status == 403 ==> Interpret(o) == Failed(Unauthorized)
    ensures o.Response? && o.status != 200 && o.status != 403 ==>
              Interpret(o) == Failed(StatusFailure(o.status))
    ensures Parsed200(o) ==>
              var b := o.body.value;
              var a := Interpret(o).answer;
              (b.answerText.None? ==> a.text == AnswerFallback) &&
              (b.queryId.None? ==> a.queryId == QueryIdFallback) &&
              (b.createTime.None? ==> a.createTime == 0) &&
              (b.sources.None? ==> a.sources == []) &&
              (b.answerText.Some? ==> a.text == b.answerText.value) &&
              (b.queryId.Some? ==> a.queryId == b.queryId.value) &&
              (b.createTime.Some? ==> a.createTime == b.createTime.value) &&
              (b.sources.Some? ==> a.sources == b.sources.value)
  {
  }

  /** Two outcomes fail the same way: the same transport error text, or the same status code. */
  predicate SameFailure(o1: Outcome, o2: Outcome) {
    match o1
    case ConnectionError(r1) => o2.ConnectionError? && o2.reason == r1
    case Response(s1, _) => o2.Response? && o2.status == s1
  }

  /** The characters at indices 7 and 17 of a failure message; they differ between the four kinds. */
  function Signature(o: Outcome): (char, char) {
    match o
    case ConnectionError(_) => ('U', 'c')
    case Response(status, _) =>
      if status == 200 then ('U', 'p') else if status == 403 then ('I', 'I') else ('R', 't')
  }

  lemma MessageSignature(o: Outcome)
    requires Interpret(o).Failed?
    ensures |Interpret(o).message| > 17
    ensures Interpret(o).message[..7] == ErrorPrefix
    ensures (Interpret(o).message[7], Interpret(o).message[17]) == Signature(o)
  {
    var m := Interpret(o).message;
    match o
    case ConnectionError(r) =>
      assert m == ConnectPrefix + r;
      assert m[..18] == ConnectPrefix[..18];
    case Response(status, _) =>
      if status != 200 && status != 403 {
        assert m == StatusFailure(status);
        assert m[..18] == StatusPrefix[..18];
      } else if status == 200 {
        assert m == ParseFailure;
        var rest := "Unable to parse the server response.";
        assert m == ErrorPrefix + rest && |ErrorPrefix| == 7;
        assert m[7] == rest[0] && m[17] == rest[10];
      } else {
        assert m == Unauthorized;
        var rest := "Invalid API key or unauthorized access.";
        assert m == ErrorPrefix + rest && |ErrorPrefix| == 7;
        assert m[7] == rest[0] && m[17] == rest[10];
      }
  }

  /** Every failure message starts with "Error: ", and the message tells which failure it was. */
  lemma FailureMessageDeterminesCause(o1: Outcome, o2: Outcome)
    requires Interpret(o1).Failed? && Interpret(o2).Failed?
    ensures Interpret(o1).message[..7] == ErrorPrefix
    ensures Interpret(o1).message == Interpret(o2).message ==> SameFailure(o1, o2)
  {
    MessageSignature(o1);
    MessageSignature(o2);
    var m1, m2 := Interpret(o1).message, Interpret(o2).message;
    if m1 == m2 {
      if o1.ConnectionError? {
        assert o2.ConnectionError?;
        assert o1.reason == m1[|ConnectPrefix|..] == m2[|ConnectPrefix|..] == o2.reason;
      } else if o1.status != 200 && o1.status != 403 {
        assert o2.Response? && o2.status != 200 && o2.status != 403;
        assert Decimal(o1.status) == m1[|StatusPrefix|..] == m2[|StatusPrefix|..] == Decimal(o2.status);
        DecimalInjective(o1.status, o2.status);
      }
    }
  }
}


