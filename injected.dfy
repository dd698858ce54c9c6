/**
  * The page-world script: storage wrappers that swallow native failures and
  * post an error record, and the request monitor's classification and body
  * capture.
  *
  * `JSON.parse` is a caller-supplied `parse` (None when it throws), and the
  * UTF-8 size of `new Blob([s])` a caller-supplied `byteSize`.
  */
module Injected {
  import opened Text

  /** The JavaScript values the monitor reads and produces. */
  datatype JsValue =
    | Undefined
    | Null
    | Bool(b: bool)
    | Num(n: real)
    | Str(s: string)
    | Arr(items: seq<JsValue>)
    | Obj(props: map<string, JsValue>)
    | Blob(size: nat, mime: string)
    | ArrayBuffer(byteLength: nat)
    | FormData(entries: seq<(string, string)>)

  /** JavaScript truthiness. */
  predicate Truthy(v: JsValue) {
    match v
    case Undefined => false
    case Null => false
    case Bool(b) => b
    case Num(n) => n != 0.0
    case Str(s) => s != ""
    case _ => true
  }

  /** `v?.[name]` for the plain-object properties the monitor reads. */
  function Prop(v: JsValue, name: string): JsValue {
    if v.Obj? && name in v.props then v.props[name] else Undefined
  }

  const SAVE_LOG := "__EXTENSION_SAVE_LOG__"

  /** A message posted to the window: `{type: tag, payload: {key, value}}`. */
  datatype Message = Message(tag: string, key: string, value: JsValue)

  /** `StorageRecorder.getStorageKey()` */
  function StorageErrorKey(host: string): (r: string)
    ensures StartsWith(r, "storage_") && r[8..] == host
  {
    "storage_" + host
  }

  /** `ErrorRequestMonitor.getStorageKey()` */
  function RequestKey(host: string): (r: string)
    ensures StartsWith(r, StorageErrorKey(host)) && EndsWith(r, "_request")
    ensures |r| == |StorageErrorKey(host)| + |"_request"|
  {
    var r := "storage_" + host + "_request";
    Affixes("storage_" + host, "", "_request");
    assert r == "storage_" + host + "" + "_request";
    r
  }

  /** The two record kinds of one host never share a key. */
  lemma KeysOfOneHostDiffer(host: string)
    ensures StorageErrorKey(host) != RequestKey(host)
  {
    assert |RequestKey(host)| == |StorageErrorKey(host)| + 8;
  }

  /**
    * Across hosts the two kinds can meet: the request key of a host is the
    * storage-error key of the same host with `_request` appended.
    */
  lemma KeysAcrossHostsMeet(host: string)
    ensures StorageErrorKey(host + "_request") == RequestKey(host)
  {
    assert "storage_" + (host + "_request") == "storage_" + host + "_request";
  }

  // ---------------------------------------------------------------------------
  // Storage wrappers
  // ---------------------------------------------------------------------------

  /** The `name` and `message` of the exception a native storage primitive threw. */
  datatype DomError = DomError(name: string, message: string)

  /** What the native primitive did: returned, or threw (for example on quota). */
  datatype NativeOutcome = Completed | Threw(error: DomError)

  /** The `errorInfo` object of `handleStorageError`. */
  function StorageErrorInfo(storageType: string, error: DomError, key: string, now: string): (r: JsValue)
    ensures r.Obj? && r.props.Keys == {"storageType", "error", "timestamp"}
    ensures Prop(r, "storageType") == Str(storageType) && Prop(r, "timestamp") == Str(now)
    ensures var err := Prop(r, "error");
      err.Obj? && err.props.Keys == {"name", "message", "key"}
      && Prop(err, "name") == Str(error.name) && Prop(err, "message") == Str(error.message) && Prop(err, "key") == Str(key)
  {
    Obj(map[
      "storageType" := Str(storageType),
      "error" := Obj(map["name" := Str(error.name), "message" := Str(error.message), "key" := Str(key)]),
      "timestamp" := Str(now)])
  }

  /** The recorder; `posted` is every message it has posted, oldest first. */
  class StorageRecorder {
    const host: string
    var posted: seq<Message>

    constructor (host: string)
      ensures this.host == host && posted == []
    {
      this.host := host;
      posted := [];
    }

    /** `handleStorageError`: post exactly one save-log message keyed by the host. */
    method HandleStorageError(error: DomError, storageType: string, key: string, now: string)
      modifies this
      ensures posted == old(posted) + [Message(SAVE_LOG, StorageErrorKey(host), StorageErrorInfo(storageType, error, key, now))]
    {
      posted := posted + [Message(SAVE_LOG, StorageErrorKey(host), StorageErrorInfo(storageType, error, key, now))];
    }
  }

  /**
    * A storage object after `wrapStorage(storage, type)`. Each wrapped
    * primitive runs the native one (whose outcome is a parameter) and, when
    * that throws, reports to the recorder instead of re-throwing.
    */
  class WrappedStorage {
    const storageType: string
    const recorder: StorageRecorder
    var items: map<string, string>

    /** `wrapStorage(storage, type)` */
    constructor Wrap(recorder: StorageRecorder, storageType: string, items: map<string, string>)
      ensures this.recorder == recorder && this.storageType == storageType && this.items == items
    {
      this.recorder := recorder;
      this.storageType := storageType;
      this.items := items;
    }

    method SetItem(key: string, value: string, native: NativeOutcome, now: string)
      modifies this, recorder
      ensures native.Completed? ==> items == old(items)[key := value] && recorder.posted == old(recorder.posted)
      ensures native.Threw? ==>
        && items == old(items)
        && recorder.posted == old(recorder.posted) + [Message(SAVE_LOG, StorageErrorKey(recorder.host),
          StorageErrorInfo(storageType, native.error, key, now))]
    {
      match native
      case Completed => items := items[key := value];
      case Threw(e) => recorder.HandleStorageError(e, storageType, key, now);
    }

    method RemoveItem(key: string, native: NativeOutcome, now: string)
      modifies this, recorder
      ensures native.Completed? ==> items == old(items) - {key} && recorder.posted == old(recorder.posted)
      ensures native.Threw? ==>
        && items == old(items)
        && recorder.posted == old(recorder.posted) + [Message(SAVE_LOG, StorageErrorKey(recorder.host),
          StorageErrorInfo(storageType, native.error, key, now))]
    {
      match native
      case Completed => items := items - {key};
      case Threw(e) => recorder.HandleStorageError(e, storageType, key, now);
    }

    /** `clear()` reports with the default key `''`. */
    method Clear(native: NativeOutcome, now: string)
      modifies this, recorder
      ensures native.Completed? ==> items == map[] && recorder.posted == old(recorder.posted)
      ensures native.Threw? ==>
        && items == old(items)
        && recorder.posted == old(recorder.posted) + [Message(SAVE_LOG, StorageErrorKey(recorder.host),
          StorageErrorInfo(storageType, native.error, "", now))]
    {
      match native
      case Completed => items := map[];
      case Threw(e) => recorder.HandleStorageError(e, storageType, "", now);
    }
  }

  // ---------------------------------------------------------------------------
  // Classification
  // ---------------------------------------------------------------------------

  const ERROR_STATUS_CODES: seq<int> := [400, 401, 403, 404, 500, 502, 503]

  /** Every listed status is already an HTTP error by the numeric test. */
  lemma ErrorStatusCodesAreHttpErrors()
    ensures forall c :: c in ERROR_STATUS_CODES ==> c >= 400
  {
  }

  /** `isErrorStatus(status, responseBody)` */
  function IsErrorStatus(status: int, body: JsValue): (r: bool)
    ensures status >= 400 ==> r
    ensures status < 400 && status != 200 ==> !r
    ensures status == 200 ==> (r <==>
      (Prop(body, "code") != Undefined && Prop(body, "code") != Num(200.0)) || Truthy(Prop(body, "_parseError")))
  {
    var isHttpError := status >= 400 || status in ERROR_STATUS_CODES;
    var code := Prop(body, "code");
    var isBusinessError := status == 200 &&
      ((code != Undefined && code != Num(200.0)) || Truthy(Prop(body, "_parseError")));
    isHttpError || isBusinessError
  }

  /** The fetch wrapper reports when `!response.ok || isErrorStatus(...)`; `ok` is a 2xx status. */
  function FetchReports(status: int, body: JsValue): (r: bool)
    ensures r <==> status < 200 || status > 299 || (status == 200 && IsErrorStatus(200, body))
  {
    var ok := 200 <= status <= 299;
    !ok || IsErrorStatus(status, body)
  }

  /** A 3xx status is reported by the fetch wrapper (it is not `ok`) but not by the XHR wrapper, which tests only `isErrorStatus`. */
  lemma RedirectsReportedOnlyByFetch(status: int, body: JsValue)
    requires 300 <= status < 400
    ensures FetchReports(status, body) && !IsErrorStatus(status, body)
  {
  }

  // ---------------------------------------------------------------------------
  // Request bodies
  // ---------------------------------------------------------------------------

  const SIZE_LIMIT := 1000000
  const RAW_LIMIT := 1000
  const BODY_TOO_LARGE := "[BODY TOO LARGE]"
  const TEXT_TOO_LONG := "[TEXT TOO LONG]"
  const JSON_TOO_LARGE := "[JSON TOO LARGE]"

  /** `Object.fromEntries(formData.entries())`: later entries win. */
  function FromEntries(entries: seq<(string, string)>): (m: map<string, JsValue>)
    ensures m.Keys == set i | 0 <= i < |entries| :: entries[i].0
  {
    if entries == [] then map[]
    else
      var init, last := entries[..|entries| - 1], entries[|entries| - 1];
      var m := FromEntries(init)[last.0 := Str(last.1)];
      assert forall i :: 0 <= i < |init| ==> init[i] == entries[i];
      m
  }

  /** The value kept for a name is the one of its last entry. */
  lemma {:induction false} FromEntriesLastWins(entries: seq<(string, string)>, i: int)
    requires 0 <= i < |entries|
    requires forall j :: i < j < |entries| ==> entries[j].0 != entries[i].0
    ensures FromEntries(entries)[entries[i].0] == Str(entries[i].1)
  {
    if i < |entries| - 1 {
      var init := entries[..|entries| - 1];
      FromEntriesLastWins(init, i);
    }
  }

  /** The kinds whose size is checked: string, Blob and ArrayBuffer. */
  predicate Sized(body: JsValue) {
    body.Str? || body.Blob? || body.ArrayBuffer?
  }

  /** The byte size `parseBody` measures for a sized body. */
  function BodySize(body: JsValue, byteSize: string -> nat): nat
    requires Sized(body)
  {
    match body
    case Str(s) => byteSize(s)
    case Blob(size, _) => size
    case ArrayBuffer(n) => n
  }

  /** `parseBody(body)` */
  function ParseBody(body: JsValue, parse: string -> Option<JsValue>, byteSize: string -> nat): (r: JsValue)
    ensures body.Null? || body.Undefined? ==> r == Null
    ensures Sized(body) && BodySize(body, byteSize) > SIZE_LIMIT ==> r == Str(BODY_TOO_LARGE)
    ensures (body.Blob? || body.ArrayBuffer?) && BodySize(body, byteSize) <= SIZE_LIMIT ==> r == body
    ensures body.Str? && byteSize(body.s) <= SIZE_LIMIT ==>
      r == (match parse(body.s) case Some(v) => v case None => body)
    ensures body.FormData? ==> r == Obj(FromEntries(body.entries))
    ensures body.Bool? || body.Num? || body.Arr? || body.Obj? ==> r == body
  {
    match body
    case Null => Null
    case Undefined => Null
    case Str(s) =>
      if byteSize(s) > SIZE_LIMIT then Str(BODY_TOO_LARGE)
      else (match parse(s) case Some(v) => v case None => body)
    case Blob(size, _) => if size > SIZE_LIMIT then Str(BODY_TOO_LARGE) else body
    case ArrayBuffer(n) => if n > SIZE_LIMIT then Str(BODY_TOO_LARGE) else body
    case FormData(entries) => Obj(FromEntries(entries))
    case _ => body
  }

  /** The limit is exclusive: a body of exactly the limit is kept. */
  lemma ParseBodyAtLimit(mime: string, parse: string -> Option<JsValue>, byteSize: string -> nat)
    ensures ParseBody(Blob(SIZE_LIMIT, mime), parse, byteSize) == Blob(SIZE_LIMIT, mime)
    ensures ParseBody(Blob(SIZE_LIMIT + 1, mime), parse, byteSize) == Str(BODY_TOO_LARGE)
  {
  }

  // ---------------------------------------------------------------------------
  // Response bodies
  // ---------------------------------------------------------------------------

  /** The result of awaiting one of the response readers. */
  datatype Read<T> = Done(value: T) | Failed(message: string)

  /**
    * A response as `parseResponseBody` sees it: the status, the two headers it
    * reads (None when absent), and what `text()` and `blob()` (size and type)
    * would give.
    */
  datatype Response = Response(
    status: int,
    contentType: Option<string>,
    contentLength: Option<string>,
    text: Read<string>,
    blob: Read<(nat, string)>)

  /** `response.headers.get('content-type') || ''` */
  function ContentType(resp: Response): string {
    if resp.contentType.Some? then resp.contentType.value else ""
  }

  predicate IsStream(ct: string) { Contains(ct, "stream") }
  predicate IsText(ct: string) { !IsStream(ct) && StartsWith(ct, "text/") }
  predicate IsJson(ct: string) { !IsStream(ct) && !StartsWith(ct, "text/") && Contains(ct, "json") }
  predicate IsBinary(ct: string) { !IsStream(ct) && !StartsWith(ct, "text/") && !Contains(ct, "json") }

  function StreamInfo(resp: Response): JsValue {
    Obj(map[
      "_type" := Str("stream"),
      "contentLength" := (if resp.contentLength.Some? then Str(resp.contentLength.value) else Null),
      "contentType" := Str(ContentType(resp))])
  }

  function BlobInfo(size: nat, mime: string): JsValue {
    Obj(map["_type" := Str("blob"), "size" := Num(size as real), "type" := Str(mime)])
  }

  function ParseErrorInfo(text: string): JsValue {
    Obj(map["_parseError" := Bool(true), "raw" := Str(Prefix(text, RAW_LIMIT))])
  }

  function ReadErrorInfo(message: string, status: int): JsValue {
    Obj(map["_error" := Str(message), "_status" := Num(status as real)])
  }

  /** `parseResponseBody(response)` */
  function ParseResponseBody(resp: Response, parse: string -> Option<JsValue>): (r: JsValue)
    ensures IsStream(ContentType(resp)) ==> r == StreamInfo(resp)
    ensures IsText(ContentType(resp)) && resp.text.Done? ==>
      r == (if |resp.text.value| > SIZE_LIMIT then Str(TEXT_TOO_LONG) else Str(resp.text.value))
    ensures IsJson(ContentType(resp)) && resp.text.Done? && |resp.text.value| > SIZE_LIMIT ==>
      r == Str(JSON_TOO_LARGE)
    ensures IsJson(ContentType(resp)) && resp.text.Done? && |resp.text.value| <= SIZE_LIMIT ==>
      r == (match parse(resp.text.value) case Some(v) => v case None => ParseErrorInfo(resp.text.value))
    ensures (IsText(ContentType(resp)) || IsJson(ContentType(resp))) && resp.text.Failed? ==>
      r == ReadErrorInfo(resp.text.message, resp.status)
    ensures IsBinary(ContentType(resp)) ==>
      r == (match resp.blob case Done(b) => BlobInfo(b.0, b.1) case Failed(m) => ReadErrorInfo(m, resp.status))
  {
    var ct := ContentType(resp);
    if Contains(ct, "stream") then StreamInfo(resp)
    else if StartsWith(ct, "text/") then
      match resp.text
      case Failed(m) => ReadErrorInfo(m, resp.status)
      case Done(t) => if |t| > SIZE_LIMIT then Str(TEXT_TOO_LONG) else Str(t)
    else if Contains(ct, "json") then
      match resp.text
      case Failed(m) => ReadErrorInfo(m, resp.status)
      case Done(t) =>
        if |t| > SIZE_LIMIT then Str(JSON_TOO_LARGE)
        else match parse(t) case Some(v) => v case None => ParseErrorInfo(t)
    else
      match resp.blob
      case Failed(m) => ReadErrorInfo(m, resp.status)
      case Done(b) => BlobInfo(b.0, b.1)
  }

  /** Exactly one branch applies to every content type. */
  lemma BranchesPartition(ct: string)
    ensures IsStream(ct) || IsText(ct) || IsJson(ct) || IsBinary(ct)
    ensures !(IsStream(ct) && IsText(ct)) && !(IsStream(ct) && IsJson(ct)) && !(IsText(ct) && IsJson(ct))
    ensures !(IsBinary(ct) && (IsStream(ct) || IsText(ct) || IsJson(ct)))
  {
  }

  /** A streamed body is never read: the result does not depend on what the readers would give. */
  lemma StreamBodyNotRead(resp: Response, text: Read<string>, blob: Read<(nat, string)>, parse: string -> Option<JsValue>)
    requires IsStream(ContentType(resp))
    ensures ParseResponseBody(resp.(text := text, blob := blob), parse) == ParseResponseBody(resp, parse)
  {
  }

  /** `text/event-stream` is a stream, though it also starts with `text/`. */
  lemma EventStreamIsStream()
    ensures IsStream("text/event-stream") && StartsWith("text/event-stream", "text/")
  {
    ContainsMiddle("text/event-", "stream", "");
    assert "text/event-" + "stream" + "" == "text/event-stream";
  }

  /** Without a content-type header the body is reported as blob metadata. */
  lemma MissingContentTypeIsBinary(resp: Response)
    requires resp.contentType.None?
    ensures IsBinary(ContentType(resp))
  {
  }

  /** A JSON parse failure keeps at most the first 1000 characters of the text. */
  lemma ParseErrorRawIsShortPrefix(resp: Response, parse: string -> Option<JsValue>)
    requires IsJson(ContentType(resp)) && resp.text.Done?
    requires |resp.text.value| <= SIZE_LIMIT && parse(resp.text.value).None?
    ensures var r := ParseResponseBody(resp, parse);
      var raw := Prop(r, "raw");
      Prop(r, "_parseError") == Bool(true) && raw.Str? &&
      |raw.s| == Min(RAW_LIMIT, |resp.text.value|) && StartsWith(resp.text.value, raw.s)
  {
  }

  /**
    * On a 200 response, only the JSON branch can yield a business error: the
    * stream, text, blob and read-failure results carry neither `code` nor
    * `_parseError`.
    */
  lemma BusinessErrorsComeFromJson(resp: Response, parse: string -> Option<JsValue>)
    requires IsErrorStatus(200, ParseResponseBody(resp, parse))
    ensures IsJson(ContentType(resp)) && resp.text.Done? && |resp.text.value| <= SIZE_LIMIT
  {
    BranchesPartition(ContentType(resp));
  }

  /** A 200 JSON response whose text does not parse is classified as an error. */
  lemma UnparsableJsonIsError(resp: Response, parse: string -> Option<JsValue>)
    requires IsJson(ContentType(resp)) && resp.text.Done?
    requires |resp.text.value| <= SIZE_LIMIT && parse(resp.text.value).None?
    ensures IsErrorStatus(200, ParseResponseBody(resp, parse))
  {
    ParseErrorRawIsShortPrefix(resp, parse);
  }

  /** A 200 JSON response whose parsed `code` is present and not 200 is classified as an error. */
  lemma BusinessCodeIsError(resp: Response, parse: string -> Option<JsValue>)
    requires IsJson(ContentType(resp)) && resp.text.Done? && |resp.text.value| <= SIZE_LIMIT
    requires parse(resp.text.value).Some?
    requires Prop(parse(resp.text.value).value, "code") !in {Undefined, Num(200.0)}
    ensures IsErrorStatus(200, ParseResponseBody(resp, parse))
  {
  }

  /**
    * The fetch wrapper's report for one completed call: a save-log message
    * keyed by the request key exactly when the call is reported. The request
    * body is `init.body`, or undefined when no init was given.
    */
  function FetchReport(
    host: string,
    url: string,
    requestBody: JsValue,
    resp: Response,
    now: int,
    parse: string -> Option<JsValue>,
    byteSize: string -> nat
  ): (r: Option<Message>)
    ensures r.Some? <==> FetchReports(resp.status, ParseResponseBody(resp, parse))
    ensures r.Some? ==> r.value.tag == SAVE_LOG && r.value.key == RequestKey(host)
    ensures r.Some? ==>
      && Prop(r.value.value, "response") == ParseResponseBody(resp, parse)
      && Prop(r.value.value, "request") == ParseBody(requestBody, parse, byteSize)
  {
    var responseBody := ParseResponseBody(resp, parse);
    if !(200 <= resp.status <= 299) || IsErrorStatus(resp.status, responseBody) then
      Some(Message(SAVE_LOG, RequestKey(host), Obj(map[
        "url" := Str(url),
        "request" := ParseBody(requestBody, parse, byteSize),
        "response" := responseBody,
        "timestamp" := Num(now as real)])))
    else None
  }

  /** The record `send`'s `loadend` listener reports: `{type: 'xhr', url, request, response, timestamp}`. */
  function XhrRecord(url: JsValue, request: JsValue, response: JsValue, now: int): (r: JsValue)
    ensures r.Obj? && r.props.Keys == {"type", "url", "request", "response", "timestamp"}
    ensures Prop(r, "type") == Str("xhr") && Prop(r, "url") == url && Prop(r, "timestamp") == Num(now as real)
    ensures Prop(r, "request") == request && Prop(r, "response") == response
  {
    Obj(map[
      "type" := Str("xhr"),
      "url" := url,
      "request" := request,
      "response" := response,
      "timestamp" := Num(now as real)])
  }

  /** `n` copies of one message. */
  function Repeat(m: Message, n: nat): (r: seq<Message>)
    ensures |r| == n && forall k :: 0 <= k < n ==> r[k] == m
  {
    if n == 0 then [] else Repeat(m, n - 1) + [m]
  }

  /**
    * An `XMLHttpRequest` created after `wrapXHR()`: the `_request` and
    * `_response` fields the wrapper keeps, the number of `loadend` listeners
    * its `send` calls have added, and the messages it has posted.
    */
  class MonitoredXhr {
    const host: string
    var isOpen: bool
    var httpMethod: JsValue
    var url: JsValue
    var headers: map<string, string>
    var requestBody: JsValue
    var responseBody: JsValue
    var listeners: nat
    var posted: seq<Message>

    /** `constructor()`: `_request` and `_response` start as empty objects. */
    constructor (host: string)
      ensures this.host == host && !isOpen
      ensures httpMethod == Undefined && url == Undefined && requestBody == Undefined && responseBody == Undefined
      ensures headers == map[] && listeners == 0 && posted == []
    {
      this.host := host;
      isOpen := false;
      httpMethod := Undefined;
      url := Undefined;
      headers := map[];
      requestBody := Undefined;
      responseBody := Undefined;
      listeners := 0;
      posted := [];
    }

    /**
      * `open(method, url)` replaces `_request` with a fresh method, URL and
      * empty header set. Listeners added by earlier `send` calls stay.
      */
    method Open(m: string, u: string)
      modifies this
      ensures isOpen && httpMethod == Str(m) && url == Str(u) && headers == map[] && requestBody == Undefined
      ensures responseBody == old(responseBody) && listeners == old(listeners) && posted == old(posted)
    {
      isOpen := true;
      httpMethod := Str(m);
      url := Str(u);
      headers := map[];
      requestBody := Undefined;
    }

    /**
      * `setRequestHeader(name, value)`. Before `open`, `_request` has no
      * header set, and the assignment throws a TypeError (`threw`) that
      * changes nothing.
      */
    method SetRequestHeader(name: string, value: string) returns (threw: bool)
      modifies this
      ensures threw <==> !old(isOpen)
      ensures headers == if threw then old(headers) else old(headers)[name := value]
      ensures isOpen == old(isOpen) && httpMethod == old(httpMethod) && url == old(url) && requestBody == old(requestBody)
      ensures responseBody == old(responseBody) && listeners == old(listeners) && posted == old(posted)
    {
      threw := !isOpen;
      if !threw {
        headers := headers[name := value];
      }
    }

    /** `send(body)` stores the normalised request body and adds one more `loadend` listener. */
    method Send(body: JsValue, parse: string -> Option<JsValue>, byteSize: string -> nat)
      modifies this
      ensures requestBody == ParseBody(body, parse, byteSize) && listeners == old(listeners) + 1
      ensures isOpen == old(isOpen) && httpMethod == old(httpMethod) && url == old(url) && headers == old(headers)
      ensures responseBody == old(responseBody) && posted == old(posted)
    {
      requestBody := ParseBody(body, parse, byteSize);
      listeners := listeners + 1;
    }

    /**
      * One run of the `loadend` listener: normalise `this.response` with
      * `parseBody` and report when the status is an error status. There is
      * no `ok` test here.
      */
    method RunListener(status: int, response: JsValue, now: int, parse: string -> Option<JsValue>, byteSize: string -> nat)
      modifies this
      ensures responseBody == ParseBody(response, parse, byteSize)
      ensures IsErrorStatus(status, responseBody) ==>
        posted == old(posted) + [Message(SAVE_LOG, RequestKey(host), XhrRecord(url, requestBody, responseBody, now))]
      ensures !IsErrorStatus(status, responseBody) ==> posted == old(posted)
      ensures isOpen == old(isOpen) && httpMethod == old(httpMethod) && url == old(url)
      ensures headers == old(headers) && requestBody == old(requestBody) && listeners == old(listeners)
    {
      responseBody := ParseBody(response, parse, byteSize);
      if IsErrorStatus(status, responseBody) {
        posted := posted + [Message(SAVE_LOG, RequestKey(host), XhrRecord(url, requestBody, responseBody, now))];
      }
    }

    /**
      * A `loadend` event runs every listener the `send` calls have added,
      * so an error response posts one record per `send` so far.
      */
    method LoadEnd(status: int, response: JsValue, now: int, parse: string -> Option<JsValue>, byteSize: string -> nat)
      modifies this
      ensures responseBody == if old(listeners) == 0 then old(responseBody) else ParseBody(response, parse, byteSize)
      ensures old(listeners) > 0 && IsErrorStatus(status, responseBody) ==>
        posted == old(posted) + Repeat(Message(SAVE_LOG, RequestKey(host), XhrRecord(url, requestBody, responseBody, now)), listeners)
      ensures old(listeners) == 0 || !IsErrorStatus(status, responseBody) ==> posted == old(posted)
      ensures isOpen == old(isOpen) && httpMethod == old(httpMethod) && url == old(url)
      ensures headers == old(headers) && requestBody == old(requestBody) && listeners == old(listeners)
    {
      var k := 0;
      while k < listeners
        invariant 0 <= k <= listeners == old(listeners)
        invariant isOpen == old(isOpen) && httpMethod == old(httpMethod) && url == old(url)
        invariant headers == old(headers) && requestBody == old(requestBody)
        invariant responseBody == if k == 0 then old(responseBody) else ParseBody(response, parse, byteSize)
        invariant k > 0 && IsErrorStatus(status, responseBody) ==>
          posted == old(posted) + Repeat(Message(SAVE_LOG, RequestKey(host), XhrRecord(url, requestBody, responseBody, now)), k)
        invariant k == 0 || !IsErrorStatus(status, responseBody) ==> posted == old(posted)
      {
        RunListener(status, response, now, parse, byteSize);
        k := k + 1;
      }
    }
  }

  /**
    * A request used once (constructed, opened, sent) posts exactly one record
    * on an error response; one opened and sent a second time posts two.
    */
  method ReportsPerSend(host: string, u: string, status: int, response: JsValue, now: int,
                        parse: string -> Option<JsValue>, byteSize: string -> nat)
    returns (first: seq<Message>, second: seq<Message>)
    requires IsErrorStatus(status, ParseBody(response, parse, byteSize))
    ensures |first| == 1 && |second| == 2
    ensures first[0].key == RequestKey(host) && Prop(first[0].value, "type") == Str("xhr")
  {
    var xhr := new MonitoredXhr(host);
    xhr.Open("GET", u);
    xhr.Send(Null, parse, byteSize);
    xhr.LoadEnd(status, response, now, parse, byteSize);
    first := xhr.posted;
    xhr.Open("GET", u);
    xhr.Send(Null, parse, byteSize);
    var before := xhr.posted;
    xhr.LoadEnd(status, response, now, parse, byteSize);
    second := xhr.posted[|before|..];
  }
}
