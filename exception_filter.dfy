/**
 * The global exception filter of the HTTP layer. `AllExceptionsFilter.catch`
 * picks a status code and a message from the caught exception and always
 * answers with HTTP 200 and the JSON body `{ code, msg }`.
 */
module ExceptionFilter {
  import opened Wrappers

  /** HttpStatus.INTERNAL_SERVER_ERROR, the default code. */
  const INTERNAL_SERVER_ERROR: int := 500

  /** The HTTP status every reply is sent with. */
  const REPLY_STATUS: int := 200

  /** The `name` that marks an upstream API error. */
  const API_ERROR: string := "ApiError"

  /**
   * A JavaScript value that reaches the reply's `msg` through a template
   * literal: `undefined`, a string, or an array of strings (the validation
   * messages of a BadRequestException).
   */
  datatype JsText = Undefined | Str(s: string) | StrArray(items: seq<string>)

  /** JavaScript truthiness: `undefined` and "" are falsy, arrays are truthy. */
  predicate Truthy(v: JsText) {
    match v
    case Undefined => false
    case Str(s) => s != ""
    case StrArray(_) => true
  }

  /** `items.join(",")`, which is what an array becomes inside a template literal. */
  function Join(items: seq<string>): string
    decreases |items|
  {
    if |items| == 0 then ""
    else if |items| == 1 then items[0]
    else items[0] + "," + Join(items[1..])
  }

  /** The string a template literal `${v}` produces. */
  function Stringify(v: JsText): string {
    match v
    case Undefined => "undefined"
    case Str(s) => s
    case StrArray(items) => Join(items)
  }

  /** The `body` field of an ApiError, of which only `msg` is read. */
  datatype ApiBody = ApiBody(msg: JsText)

  /** The `response` object of a BadRequestException, of which only `message` is read. */
  datatype BadRequestResponse = BadRequestResponse(message: JsText)

  /** Where the exception sits in NestJS's class hierarchy. */
  datatype Kind =
    | BadRequestException(response: BadRequestResponse)  // a subclass of HttpException
    | OtherHttpException                                  // any other HttpException
    | NotHttpException                                    // anything else thrown

  /**
   * A caught exception. `status` is `getStatus()` for an HttpException and
   * the plain `status` field otherwise; `body` is only read for an ApiError.
   */
  datatype Exception = Exception(kind: Kind, name: string, message: JsText, status: int, body: Option<ApiBody>)

  /** The reply: its HTTP status and the JSON body `{ code, msg }`. */
  datatype Reply = Reply(httpStatus: int, code: int, msg: string)

  /** The condition `body && body['msg']`. */
  predicate HasBodyMsg(e: Exception) {
    e.body.Some? && Truthy(e.body.value.msg)
  }

  /** The branches of the if/else-if chain, in the order they are tried. */
  datatype Branch = BadRequestBranch | HttpBranch | ApiErrorBranch | DefaultBranch

  /** The branch the chain takes for `e`: the first whose test passes. */
  function BranchOf(e: Exception): (b: Branch)
    ensures b == BadRequestBranch <==> e.kind.BadRequestException?
    ensures b == HttpBranch <==> e.kind.OtherHttpException?
    ensures b == ApiErrorBranch <==> e.kind.NotHttpException? && e.name == API_ERROR
    ensures b == DefaultBranch <==> e.kind.NotHttpException? && e.name != API_ERROR
  {
    if e.kind.BadRequestException? then BadRequestBranch
    else if e.kind.OtherHttpException? then HttpBranch
    else if e.name == API_ERROR then ApiErrorBranch
    else DefaultBranch
  }

  /** `AllExceptionsFilter.catch`: the code and message chosen per branch, sent with HTTP 200. */
  function Catch(e: Exception): (r: Reply)
    ensures r.httpStatus == REPLY_STATUS
    ensures e.kind.BadRequestException? ==>
              r.code == INTERNAL_SERVER_ERROR && r.msg == Stringify(e.kind.response.message)
    ensures e.kind.OtherHttpException? ==> r.code == e.status && r.msg == Stringify(e.message)
    ensures e.kind.NotHttpException? && e.name == API_ERROR ==>
              r.code == e.status &&
              r.msg == (if HasBodyMsg(e) then Stringify(e.body.value.msg) else Stringify(e.message))
    ensures e.kind.NotHttpException? && e.name != API_ERROR ==>
              r.code == INTERNAL_SERVER_ERROR && r.msg == Stringify(e.message)
  {
    // `status` and `message` start at their defaults and each branch may replace them
    var defaultStatus, defaultMessage := INTERNAL_SERVER_ERROR, e.message;
    var (status, message) :=
      match BranchOf(e)
      case BadRequestBranch => (defaultStatus, e.kind.response.message)
      case HttpBranch => (e.status, defaultMessage)
      case ApiErrorBranch => (e.status, if HasBodyMsg(e) then e.body.value.msg else defaultMessage)
      case DefaultBranch => (defaultStatus, defaultMessage);
    Reply(REPLY_STATUS, status, Stringify(message))
  }

  /** The code is either the default 500 or the exception's own status, and the latter only in the Http and ApiError branches. */
  lemma CatchCodeSource(e: Exception)
    ensures Catch(e).code == INTERNAL_SERVER_ERROR || Catch(e).code == e.status
    ensures Catch(e).code != INTERNAL_SERVER_ERROR ==> BranchOf(e) in {HttpBranch, ApiErrorBranch}
  {
  }

  /** A BadRequestException's own status (400) never reaches the reply: the code is always 500. */
  lemma BadRequestIgnoresStatus(e: Exception, status: int)
    requires e.kind.BadRequestException?
    ensures Catch(e.(status := status)) == Catch(e)
    ensures Catch(e).code == INTERNAL_SERVER_ERROR
  {
  }

  /** The HttpException test comes before the name test: an HttpException called "ApiError" is handled as an HttpException and its body is ignored. */
  lemma HttpExceptionIgnoresName(e: Exception, name: string, body: Option<ApiBody>)
    requires e.kind.OtherHttpException?
    ensures Catch(e.(name := name, body := body)) == Catch(e)
    ensures Catch(e.(name := API_ERROR)) == Reply(REPLY_STATUS, e.status, Stringify(e.message))
  {
  }

  /** Joining two non-empty message arrays puts one comma between their joined parts. */
  lemma {:induction false} JoinAppend(xs: seq<string>, ys: seq<string>)
    requires xs != [] && ys != []
    ensures Join(xs + ys) == Join(xs) + "," + Join(ys)
    decreases |xs|
  {
    if |xs| == 1 {
      assert (xs + ys)[1..] == ys;
    } else {
      assert (xs + ys)[1..] == xs[1..] + ys;
      JoinAppend(xs[1..], ys);
    }
  }

  /** A BadRequestException carrying several validation messages is answered with code 500 and those messages separated by commas. */
  lemma BadRequestArrayMessage(e: Exception, xs: seq<string>, ys: seq<string>)
    requires e.kind == BadRequestException(BadRequestResponse(StrArray(xs + ys)))
    requires xs != [] && ys != []
    ensures Catch(e) == Reply(REPLY_STATUS, INTERNAL_SERVER_ERROR, Join(xs) + "," + Join(ys))
  {
    JoinAppend(xs, ys);
  }
}
