/**
 * The decision `run` makes for one HTTP request: whether the filter claims
 * it, and what it writes back once the RPC reply (or its failure) is known.
 * The reply is an input; writing to the servlet response is an outcome value.
 */
module Reply {
  import opened Wrappers
  import opened Json
  import opened TypeTags

  /** How `getResponse()` ended: it threw, or it returned a JSON object or null. */
  datatype CallReply = Threw | Returned(reply: Option<JObject>)

  /** What a claimed request gets back. Unanswered: an exception was caught
      and printed; nothing is written and the Zuul response is not switched
      off. */
  datatype Answer =
    | Unanswered
    | FailureText(text: string)
    | Body(contentType: string, body: JObject)

  /** UriFault: the URI is empty, so `substring(1)` throws out of `run`.
      Declined: the service code does not match and `run` does nothing.
      Handled: the CORS header `Access-Control-Allow-Origin: *` is added and
      the answer is given. */
  datatype RunOutcome = UriFault | Declined | Handled(answer: Answer)

  const FailureMessage: string := "RPC调用失败"
  const ContentType: string := "text/html;charset=utf-8"
  const SuccessKey: string := "success"
  const TargetResultKey: string := "targetResult"
  const ErrorContextKey: string := "errorContext"
  const ErrorInfosKey: string := "errorInfos"
  const StackTraceKey: string := "stackTraceElements"

  /** `getRequestServiceCode()`: the request URI without its first character,
      None when the URI is empty. */
  function RequestServiceCode(uri: string): (r: Option<string>)
    ensures r.Some? <==> uri != []
    ensures r.Some? ==> uri == [uri[0]] + r.value
  {
    if uri == [] then None else Some(uri[1..])
  }

  /** `isServiceCodeMatch()`: null-safe equality, and the request code is
      never null, so an unset service code matches nothing. */
  function IsServiceCodeMatch(serviceCode: Option<string>, requestCode: string): (r: bool)
    ensures r ==> serviceCode.Some?
    ensures serviceCode.Some? ==> (r <==> serviceCode.value == requestCode)
  {
    serviceCode == Some(requestCode)
  }

  predicate AllObjects(items: seq<Json>) {
    forall i :: 0 <= i < |items| ==> items[i].JObj?
  }

  /** Every ErrorInfo with its stack trace set to null, which fastjson then
      leaves out when it serialises. */
  function ClearItems(items: seq<Json>): (r: seq<Json>)
    requires AllObjects(items)
  {
    seq(|items|, i requires 0 <= i < |items| => JObj(items[i].fields - {StackTraceKey}))
  }

  /** The error context of a reply, its ErrorInfos all objects without a
      stack trace. */
  predicate NoStackTraces(base: JObject) {
    && ErrorContextKey in base && base[ErrorContextKey].JObj?
    && var ec := base[ErrorContextKey].fields;
    && ErrorInfosKey in ec && ec[ErrorInfosKey].JArr?
    && var items := ec[ErrorInfosKey].items;
    && forall i :: 0 <= i < |items| ==> items[i].JObj? && StackTraceKey !in items[i].fields
  }

  /** The loop over `errorContext.getErrorInfos()` clearing each stack trace,
      then `put("errorContext", …)`. None when the error context is missing
      or not an object, or its error infos are missing, not a list, or hold a
      non-object: each of these throws. */
  function ClearStackTraces(base: JObject): (r: Option<JObject>)
    ensures r.Some? ==> NoStackTraces(r.value)
    ensures r.Some? ==> r.value.Keys == base.Keys
    ensures r.Some? ==> forall k :: k in base && k != ErrorContextKey ==> r.value[k] == base[k]
    ensures r.Some? <==>
      && ErrorContextKey in base && base[ErrorContextKey].JObj?
      && ErrorInfosKey in base[ErrorContextKey].fields
      && base[ErrorContextKey].fields[ErrorInfosKey].JArr?
      && AllObjects(base[ErrorContextKey].fields[ErrorInfosKey].items)
    ensures r.Some? ==>
      var ec := base[ErrorContextKey].fields;
      var ec' := r.value[ErrorContextKey].fields;
      && ec'.Keys == ec.Keys
      && (forall k :: k in ec && k != ErrorInfosKey ==> ec'[k] == ec[k])
      && var items := ec[ErrorInfosKey].items;
      && var items' := ec'[ErrorInfosKey].items;
      && |items'| == |items|
      && forall i :: 0 <= i < |items| ==> items'[i].fields == items[i].fields - {StackTraceKey}
  {
    match GetObject(base, ErrorContextKey)
    case None => None
    case Some(ec) =>
      if ErrorInfosKey in ec && ec[ErrorInfosKey].JArr? && AllObjects(ec[ErrorInfosKey].items) then
        Some(base[ErrorContextKey := JObj(ec[ErrorInfosKey := JArr(ClearItems(ec[ErrorInfosKey].items))])])
      else None
  }

  /** Clearing stack traces keeps an object free of type tags. */
  lemma ClearStackTracesKeepsTagFree(base: JObject)
    requires TagFree(base) && ClearStackTraces(base).Some?
    ensures TagFree(ClearStackTraces(base).value)
  {
    var ec := base[ErrorContextKey].fields;
    assert TagFree(ec);
    var ec' := ec[ErrorInfosKey := JArr(ClearItems(ec[ErrorInfosKey].items))];
    assert TagFree(ec') by {
      forall k | k in ec' && ec'[k].JObj? ensures TagFree(ec'[k].fields) {
        assert k != ErrorInfosKey && ec'[k] == ec[k];
      }
    }
  }

  /** The answer `run` gives a claimed request. */
  function AnswerFor(call: CallReply): (r: Answer)
    ensures call.Threw? || call == Returned(None) ==> r == Unanswered
    ensures r.FailureText? ==> r.text == FailureMessage
    ensures r.Body? ==> r.contentType == ContentType
  {
    match call
    case Threw => Unanswered
    // removeJsonType(null) throws before the null check below it
    case Returned(None) => Unanswered
    case Returned(Some(o)) =>
      var response := Strip(o);
      match GetBoolean(response, SuccessKey)
      case None => Unanswered
      case Some(false) => FailureText(FailureMessage)
      case Some(true) =>
        match GetObject(response, TargetResultKey)
        case None => Unanswered
        case Some(base) =>
          match GetBoolean(base, SuccessKey)
          case None => Unanswered
          case Some(true) => Body(ContentType, base)
          case Some(false) =>
            match ClearStackTraces(base)
            case None => Unanswered
            case Some(cleared) => Body(ContentType, cleared)
  }

  /** `run()`: the filter claims the request exactly when the URI minus its
      first character is the service code, and answers it as the reply
      directs; an empty URI is a fault. */
  function Run(serviceCode: Option<string>, uri: string, call: CallReply): (r: RunOutcome)
    ensures r.UriFault? <==> uri == []
    ensures uri != [] ==> (r.Handled? <==> serviceCode == Some(uri[1..]))
    ensures r.Handled? ==> r.answer == AnswerFor(call)
  {
    match RequestServiceCode(uri)
    case None => UriFault
    case Some(code) =>
      if IsServiceCodeMatch(serviceCode, code) then Handled(AnswerFor(call)) else Declined
  }

  /** The fixed failure text is written exactly when the stripped reply's
      `success` is false. */
  lemma {:induction false} FailureTextWhenOuterFalse(call: CallReply)
    ensures AnswerFor(call).FailureText? <==>
      (call.Returned? && call.reply.Some? && GetBoolean(Strip(call.reply.value), SuccessKey) == Some(false))
    ensures AnswerFor(call).FailureText? ==> AnswerFor(call).text == FailureMessage
  {
  }

  /** A body is written only for a successful reply with a targetResult: the
      body is that targetResult, as is when its own `success` is true, with its
      stack traces cleared when false; it is HTML-typed, and no type tag is
      left in it. */
  lemma BodyIsTargetResult(call: CallReply)
    requires AnswerFor(call).Body?
    ensures call.Returned? && call.reply.Some?
    ensures var response := Strip(call.reply.value);
      && GetBoolean(response, SuccessKey) == Some(true)
      && GetObject(response, TargetResultKey).Some?
      && var base := GetObject(response, TargetResultKey).value;
      && var body := AnswerFor(call).body;
      && (GetBoolean(base, SuccessKey) == Some(true) ==> body == base)
      && (GetBoolean(base, SuccessKey) == Some(false) ==> Some(body) == ClearStackTraces(base) && NoStackTraces(body))
    ensures AnswerFor(call).contentType == ContentType
    ensures TagFree(AnswerFor(call).body)
  {
    var o := call.reply.value;
    StripIsTagFree(o);
    var base := GetObject(Strip(o), TargetResultKey).value;
    assert TagFree(base);
    if GetBoolean(base, SuccessKey) == Some(false) {
      ClearStackTracesKeepsTagFree(base);
    }
  }

  /** A successful reply whose targetResult is a successful result is answered
      with that targetResult. */
  lemma SuccessfulReplyAnswered(o: JObject)
    requires GetBoolean(Strip(o), SuccessKey) == Some(true)
    requires GetObject(Strip(o), TargetResultKey).Some?
    requires GetBoolean(GetObject(Strip(o), TargetResultKey).value, SuccessKey) == Some(true)
    ensures AnswerFor(Returned(Some(o))) == Body(ContentType, GetObject(Strip(o), TargetResultKey).value)
  {
  }

  /** A successful reply whose targetResult reports failure is answered with
      that targetResult, its stack traces cleared, when its error context is
      well formed; otherwise the clearing throws and nothing is written. */
  lemma FailedResultAnswered(o: JObject)
    requires GetBoolean(Strip(o), SuccessKey) == Some(true)
    requires GetObject(Strip(o), TargetResultKey).Some?
    requires GetBoolean(GetObject(Strip(o), TargetResultKey).value, SuccessKey) == Some(false)
    ensures var base := GetObject(Strip(o), TargetResultKey).value;
      && (ClearStackTraces(base).Some? ==> AnswerFor(Returned(Some(o))) == Body(ContentType, ClearStackTraces(base).value))
      && (ClearStackTraces(base).None? ==> AnswerFor(Returned(Some(o))) == Unanswered)
  {
    var response := Strip(o);
    var base := GetObject(response, TargetResultKey).value;
    assert GetObject(response, TargetResultKey) == Some(base);
    assert AnswerFor(Returned(Some(o))) == match ClearStackTraces(base)
      case None => Unanswered
      case Some(cleared) => Body(ContentType, cleared);
  }
}
