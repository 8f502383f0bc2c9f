/**
 * The request side of `POST /api/generate-prompt` up to the downstream call:
 * which client a request is charged to, the input validation, the usage log,
 * and the order in which the handler applies them.
 */
module Api {
  import opened Wrappers
  import opened Quota

  /** The JavaScript values a JSON request body can carry in a field. */
  datatype JsValue = Undefined | Null | Bool(b: bool) | Num(n: int) | NaN | Str(s: string) | Obj

  /** JavaScript truthiness: what `!v` negates. */
  predicate Truthy(v: JsValue) {
    match v
    case Undefined => false
    case Null => false
    case Bool(b) => b
    case Num(n) => n != 0
    case NaN => false
    case Str(s) => s != ""
    case Obj => true
  }

  /** The fields of the request body that validation looks at. */
  datatype Body = Body(userInput: JsValue, ia: JsValue, lang: JsValue, promptType: JsValue)

  /**
   * `validateInput`: the user text must be a string of 5 to 1200 characters
   * and the provider, language and prompt type must all be present.
   */
  function ValidateInput(body: Body): (ok: bool)
    ensures ok <==> body.userInput.Str? && 5 <= |body.userInput.s| <= 1200
                    && Truthy(body.ia) && Truthy(body.lang) && Truthy(body.promptType)
  {
    var u := body.userInput;
    if !Truthy(u) || !u.Str? || |u.s| < 5 || |u.s| > 1200 then false
    else if !Truthy(body.ia) || !Truthy(body.lang) || !Truthy(body.promptType) then false
    else true
  }

  /** `p` is what `h.split(',')[0]` yields: the text of `h` before its first comma. */
  predicate IsFirstSegment(h: string, p: string) {
    p <= h && ',' !in p && (|p| < |h| ==> h[|p|] == ',')
  }

  /** A header has exactly one first segment. */
  lemma {:induction false} FirstSegmentUnique(h: string, p: string, q: string)
    requires IsFirstSegment(h, p) && IsFirstSegment(h, q)
    ensures p == q
  {
  }

  /** `h.split(',')[0]`, untrimmed. */
  function FirstSegment(h: string): (p: string)
    ensures IsFirstSegment(h, p)
  {
    if h == [] || h[0] == ',' then [] else [h[0]] + FirstSegment(h[1..])
  }

  /**
   * The client id of a request: the first comma-separated segment of the
   * `x-forwarded-for` header, or the socket's remote address when the header
   * is absent or that segment is empty. Both may be absent (`None`).
   */
  function ClientId(forwardedFor: Option<string>, remoteAddress: Option<string>): (id: Option<string>)
    ensures forwardedFor.None? ==> id == remoteAddress
    ensures forwardedFor.Some? && IsFirstSegment(forwardedFor.value, "") ==> id == remoteAddress
    ensures forwardedFor.Some? && !IsFirstSegment(forwardedFor.value, "") ==>
              id.Some? && id.value != "" && IsFirstSegment(forwardedFor.value, id.value)
  {
    match forwardedFor
    case None => remoteAddress
    case Some(h) =>
      var first := FirstSegment(h);
      if first != "" then Some(first)
      else
        FirstSegmentUnique(h, first, "");
        remoteAddress
  }

  /**
   * The key the id is counted under: a JavaScript property key, so an absent
   * id is counted (and logged) as the string "undefined".
   */
  function QuotaKey(id: Option<string>): (key: string)
    ensures id.Some? ==> key == id.value
    ensures id.None? ==> key == "undefined"
  {
    id.GetOr("undefined")
  }

  /** One line of `api_usage.log`. */
  datatype LogEntry = LogEntry(timestamp: string, ip: string, ia: JsValue, promptType: JsValue, lang: JsValue)

  /** The append-only usage log. */
  class UsageLog {
    var entries: seq<LogEntry>

    constructor ()
      ensures entries == []
    {
      entries := [];
    }

    /** `logRequest`: append one line stamped with the current time. */
    method LogRequest(timestamp: string, ip: string, ia: JsValue, promptType: JsValue, lang: JsValue)
      modifies this
      ensures entries == old(entries) + [LogEntry(timestamp, ip, ia, promptType, lang)]
    {
      entries := entries + [LogEntry(timestamp, ip, ia, promptType, lang)];
    }
  }

  datatype Request = Request(forwardedFor: Option<string>, remoteAddress: Option<string>, body: Body)

  /**
   * How the handler ends before the downstream call: rejected with an HTTP
   * status, or passed on to the generation step (which is not modelled).
   */
  datatype Reply = Rejected(status: int) | Forwarded

  const TooManyRequests := 429
  const BadRequest := 400

  /**
   * The handler up to the downstream call: the quota is charged first (429
   * when it is used up), then the body is validated (400), then the request
   * is logged and forwarded. An invalid request that was admitted still uses
   * up one request of the quota.
   */
  method HandleGeneratePrompt(store: RateLimitStore, log: UsageLog, req: Request, timestamp: string)
    returns (reply: Reply)
    modifies store, log
    ensures var ip := QuotaKey(ClientId(req.forwardedFor, req.remoteAddress));
            var d := CheckAndUpdate(old(store.Load()), ip);
            (reply == Rejected(TooManyRequests) <==> !d.admitted) &&
            (reply == Rejected(BadRequest) <==> d.admitted && !ValidateInput(req.body)) &&
            (reply == Forwarded <==> d.admitted && ValidateInput(req.body)) &&
            store.file == (if d.admitted then Some(d.next) else old(store.file)) &&
            log.entries == if reply == Forwarded
                           then old(log.entries) + [LogEntry(timestamp, ip, req.body.ia, req.body.promptType, req.body.lang)]
                           else old(log.entries)
  {
    var ip := QuotaKey(ClientId(req.forwardedFor, req.remoteAddress));
    var admitted := store.CheckAndUpdateQuota(ip);
    if !admitted {
      return Rejected(TooManyRequests);
    }
    if !ValidateInput(req.body) {
      return Rejected(BadRequest);
    }
    log.LogRequest(timestamp, ip, req.body.ia, req.body.promptType, req.body.lang);
    reply := Forwarded;
  }
}
