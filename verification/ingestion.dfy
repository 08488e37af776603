/** Turning a tracking request into a stored event: the browser-facing
    endpoint (`api_track_event`, app.py), the server-side helper the page
    routes call (`track_event`), and the client-address rule
    (`get_client_ip`). Ambient request state (the logged-in user, the
    session, the headers, the request URL, the clock) is passed in as a
    `RequestContext`. */
module Ingestion {
  import opened Wrappers
  import opened Text
  import opened JsonValues
  import opened Events

  /** The three sources of a client address: the `X-Forwarded-For` and
      `X-Real-IP` headers and the transport peer address. */
  datatype Headers = Headers(forwardedFor: Option<string>, realIp: Option<string>, remoteAddr: Option<string>)

  datatype RequestContext = RequestContext(
    authenticatedId: Option<nat>,  // `current_user.id` when logged in
    sessionValue: Option<string>,  // `session['session_id']`, if ever set
    headers: Headers,
    url: string,                   // `request.url`
    now: nat)                      // the insertion time, microseconds

  /** The client address: the first comma-separated `X-Forwarded-For`
      entry with surrounding white space removed, else `X-Real-IP` as
      sent, else the peer address. Empty headers count as missing. */
  function ClientIp(h: Headers): (r: Option<string>)
    ensures TextPresent(h.forwardedFor) ==>
      && r.Some?
      && ',' !in r.value
      && (|r.value| > 0 ==> !PyIsSpace(r.value[0]) && !PyIsSpace(r.value[|r.value| - 1]))
    ensures !TextPresent(h.forwardedFor) && TextPresent(h.realIp) ==> r == h.realIp
    ensures !TextPresent(h.forwardedFor) && !TextPresent(h.realIp) ==> r == h.remoteAddr
  {
    if TextPresent(h.forwardedFor) then
      var first := FirstPiece(h.forwardedFor.value, ",");
      NotContainsChar(first, ',');
      TrimAddsNothing(first, PyIsSpace, ',');
      Some(PyStrip(first))
    else if TextPresent(h.realIp) then h.realIp
    else h.remoteAddr
  }

  /** A forwarded-for header written by a proxy chain, `hop, hop2, …`,
      yields its first hop, stripped. */
  lemma ClientIpFirstHop(hop: string, more: seq<string>, h: Headers)
    requires ',' !in hop
    requires h.forwardedFor == Some(Join([hop] + more, ","))
    requires |hop| > 0 || |more| > 0
    ensures ClientIp(h) == Some(PyStrip(hop))
  {
    var x := Join([hop] + more, ",");
    if |more| == 0 {
      assert x == hop;
    } else {
      assert x == hop + "," + Join(more, ",");
      assert x[|hop|] == ',';
    }
    FirstPieceUnique(x, ',', hop);
  }

  // ---------------------------------------------------------------------
  // The browser-facing endpoint
  // ---------------------------------------------------------------------

  /** The JSON body fields the endpoint reads with `data.get(key)`, as
      sent: `None` when the key is missing. Any JSON value can arrive in
      any field; `additionalData` is `None` when the key is missing and
      `Some(JNull)` when it is sent as null. */
  datatype TrackRequest = TrackRequest(
    eventType: Option<Json>,
    elementId: Option<Json>,
    elementType: Option<Json>,
    pageUrl: Option<Json>,
    additionalData: Option<Json>)

  /** Why the endpoint fails:
      - the body is not a JSON object, so it has no `.get`;
      - the payload is not a dict, so it has no `.get`;
      - a column value cannot be bound to its SQLite parameter (a list, a
        dict, or an integer outside 64 bits), named by its column;
      - the non-null `event_type` column receives NULL on commit. */
  datatype IngestError = BodyNotObject | PayloadNotObject | UnbindableColumn(key: string) | NullEventType

  /** `data.get(key)` for the four text fields and `additional_data`. A
      body that is not an object has no `.get`. */
  function ReadBody(body: Json): (r: Result<TrackRequest, IngestError>)
    ensures r.Failure? <==> !body.JObject?
    ensures r.Failure? ==> r.error == BodyNotObject
    ensures r.Success? ==>
      && r.value.eventType == Get(body.fields, "event_type")
      && r.value.elementId == Get(body.fields, "element_id")
      && r.value.elementType == Get(body.fields, "element_type")
      && r.value.pageUrl == Get(body.fields, "page_url")
      && r.value.additionalData == Get(body.fields, "additional_data")
  {
    match body
    case JObject(f) =>
      Success(TrackRequest(Get(f, "event_type"), Get(f, "element_id"), Get(f, "element_type"),
                           Get(f, "page_url"), Get(f, "additional_data")))
    case _ => Failure(BodyNotObject)
  }

  /** A body with the five keys in the order the browser posts them reads
      back as exactly those five values. */
  lemma ReadsPosted(eventType: string, elementId: string, elementType: string, url: string, data: Json)
    ensures ReadBody(JObject([("event_type", JStr(eventType)), ("element_id", JStr(elementId)),
                              ("element_type", JStr(elementType)), ("page_url", JStr(url)), ("additional_data", data)]))
      == Success(TrackRequest(Some(JStr(eventType)), Some(JStr(elementId)), Some(JStr(elementType)), Some(JStr(url)),
                              Some(data)))
  {
    var body := [("event_type", JStr(eventType)), ("element_id", JStr(elementId)),
                 ("element_type", JStr(elementType)), ("page_url", JStr(url)), ("additional_data", data)];
    FiveGets(body);
  }

  /** Each of five distinct keys, in the posted order, reads its own value. */
  lemma FiveGets(body: seq<(string, Json)>)
    requires |body| == 5
    requires Keys(body) == ["event_type", "element_id", "element_type", "page_url", "additional_data"]
    ensures Get(body, "event_type") == Some(body[0].1) && Get(body, "element_id") == Some(body[1].1)
    ensures Get(body, "element_type") == Some(body[2].1) && Get(body, "page_url") == Some(body[3].1)
    ensures Get(body, "additional_data") == Some(body[4].1)
  {
    GetFirst(body, 0, "event_type");
    GetFirst(body, 1, "element_id");
    GetFirst(body, 2, "element_type");
    GetFirst(body, 3, "page_url");
    GetFirst(body, 4, "additional_data");
  }

  /** The payload keys copied into their own columns, in column order. */
  const FamilyKeys: seq<string> := ["video_id", "video_action", "video_time", "quiz_id", "question_id", "answer_selected"]

  /** The family keys whose columns hold text: all but `video_time`, whose
      column holds a float. */
  const TextFamilyKeys: seq<string> := ["video_id", "video_action", "quiz_id", "question_id", "answer_selected"]

  /** `additional_data.get(key)` as its column stores it: a JSON null and a
      missing key both become NULL. */
  function ColumnValue(fields: seq<(string, Json)>, key: string): (r: Option<Json>)
    ensures r.Some? ==> HasKey(fields, key) && r.value != JNull
    ensures HasKey(fields, key) && Get(fields, key).value != JNull ==> r == Get(fields, key)
  {
    match Get(fields, key)
    case Some(JNull) => None
    case x => x
  }

  /** A value its column accepts: the `video_time` column needs one that
      Python's `float` converts, the text columns one the driver binds. */
  predicate ColumnBindable(key: string, v: Json)
  {
    if key == "video_time" then FloatOf(v).Some? else Bindable(v)
  }

  /** Every one of `keys` present in the payload has a value its column
      accepts. */
  predicate ColumnsBindable(fields: seq<(string, Json)>, keys: seq<string>)
  {
    forall k :: k in keys && ColumnValue(fields, k).Some? ==> ColumnBindable(k, ColumnValue(fields, k).value)
  }

  /** The first of `keys` whose column value cannot be bound. */
  function FirstUnbindable(fields: seq<(string, Json)>, keys: seq<string>): (r: Option<string>)
    ensures r.None? <==> ColumnsBindable(fields, keys)
    ensures r.Some? ==> r.value in keys && ColumnValue(fields, r.value).Some? && !ColumnBindable(r.value, ColumnValue(fields, r.value).value)
  {
    if |keys| == 0 then None
    else
      var v := ColumnValue(fields, keys[0]);
      if v.Some? && !ColumnBindable(keys[0], v.value) then Some(keys[0])
      else
        var r := FirstUnbindable(fields, keys[1..]);
        assert forall k :: k in keys <==> k == keys[0] || k in keys[1..];
        r
  }

  /** The column holding the payload value for one of the text family keys. */
  function FamilyColumn(e: Event, key: string): Option<Json>
    requires key in TextFamilyKeys
  {
    if key == "video_id" then e.videoId
    else if key == "video_action" then e.videoAction
    else if key == "quiz_id" then e.quizId
    else if key == "question_id" then e.questionId
    else e.answerSelected
  }

  /** What the `video_time` column holds for a payload value: NULL for
      none, else the value `float` converted it to. */
  function TimeColumn(v: Option<Json>): (r: Option<real>)
    ensures v.None? ==> r.None?
    ensures v.Some? && FloatOf(v.value).Some? ==> r == FloatOf(v.value)
  {
    if v.None? then None else FloatOf(v.value)
  }

  /** The stored payload is a dict, every text family column holds exactly
      what that dict says for its key, and the `video_time` column holds
      the conversion of what it says for `video_time`. */
  predicate ColumnsMatchPayload(e: Event)
  {
    && e.additionalData.Parsed?
    && e.additionalData.value.JObject?
    && (forall k :: k in TextFamilyKeys ==> FamilyColumn(e, k) == ColumnValue(e.additionalData.value.fields, k))
    && e.videoTime == TimeColumn(ColumnValue(e.additionalData.value.fields, "video_time"))
  }

  /** The payload dict the endpoint works on: the body's, or `{}`. */
  function PayloadOf(req: TrackRequest): (r: Json)
    ensures req.additionalData.None? ==> r == JObject([])
    ensures req.additionalData.Some? ==> r == req.additionalData.value
  {
    req.additionalData.GetOr(JObject([]))
  }

  /** The first of the four text fields, in column order, whose value
      cannot be bound. */
  function FirstUnbindableText(req: TrackRequest): (r: Option<string>)
    ensures r.None? <==> TextFieldsBindable(req)
    ensures r.Some? ==> r.value in ["event_type", "element_id", "element_type", "page_url"]
  {
    if req.eventType.Some? && !Bindable(req.eventType.value) then Some("event_type")
    else if req.elementId.Some? && !Bindable(req.elementId.value) then Some("element_id")
    else if req.elementType.Some? && !Bindable(req.elementType.value) then Some("element_type")
    else if req.pageUrl.Some? && !Bindable(req.pageUrl.value) then Some("page_url")
    else None
  }

  /** Every one of the four text fields can be bound. */
  predicate TextFieldsBindable(req: TrackRequest)
  {
    && (req.eventType.None? || Bindable(req.eventType.value))
    && (req.elementId.None? || Bindable(req.elementId.value))
    && (req.elementType.None? || Bindable(req.elementType.value))
    && (req.pageUrl.None? || Bindable(req.pageUrl.value))
  }

  /** The row the endpoint inserts once every check has passed: each text
      field holds the text SQLite stores for its value. */
  function NewRow(req: TrackRequest, ctx: RequestContext, realText: real -> string, eventType: string,
                  fields: seq<(string, Json)>): (e: Event)
    requires PayloadOf(req) == JObject(fields) && TextFieldsBindable(req)
    ensures ColumnsMatchPayload(e)
    ensures e.elementId == BoundText(req.elementId, realText)
    ensures e.elementType == BoundText(req.elementType, realText)
    ensures e.pageUrl == BoundText(req.pageUrl, realText)
  {
    var e := Event(
      userId := ctx.authenticatedId,
      sessionId := ctx.sessionValue.GetOr("anonymous"),
      eventType := eventType,
      elementId := BoundText(req.elementId, realText),
      elementType := BoundText(req.elementType, realText),
      pageUrl := BoundText(req.pageUrl, realText),
      timestamp := ctx.now,
      additionalData := Parsed(JObject(fields)),
      ipAddress := ClientIp(ctx.headers),
      videoId := ColumnValue(fields, "video_id"),
      videoAction := ColumnValue(fields, "video_action"),
      videoTime := TimeColumn(ColumnValue(fields, "video_time")),
      quizId := ColumnValue(fields, "quiz_id"),
      questionId := ColumnValue(fields, "question_id"),
      answerSelected := ColumnValue(fields, "answer_selected"));
    ColumnsMatchFrom(e, fields);
    e
  }

  /** A row whose family columns are read out of its dict payload matches
      that payload. */
  lemma ColumnsMatchFrom(e: Event, fields: seq<(string, Json)>)
    requires e.additionalData == Parsed(JObject(fields))
    requires e.videoId == ColumnValue(fields, "video_id") && e.videoAction == ColumnValue(fields, "video_action")
    requires e.videoTime == TimeColumn(ColumnValue(fields, "video_time")) && e.quizId == ColumnValue(fields, "quiz_id")
    requires e.questionId == ColumnValue(fields, "question_id")
    requires e.answerSelected == ColumnValue(fields, "answer_selected")
    ensures ColumnsMatchPayload(e)
  {
    forall k | k in TextFamilyKeys
      ensures FamilyColumn(e, k) == ColumnValue(fields, k)
    {
      assert k == TextFamilyKeys[0] || k == TextFamilyKeys[1] || k == TextFamilyKeys[2]
          || k == TextFamilyKeys[3] || k == TextFamilyKeys[4];
    }
  }

  /** `api_track_event` on a body that has been read: the payload
      defaults to an empty dict and is stored whole (an empty dict is
      stored, not dropped); the family columns are read out of it. The
      `video_time` value is converted by `float` before anything is bound,
      so its failure comes first; then every column value is bound in
      column order, and the first that cannot be bound fails the request;
      the user is the logged-in user or nobody;
      the session falls back to `'anonymous'`; the event type is not
      checked beyond the column being non-null. A text field sent as a
      number or a boolean is stored as its text (`realText` renders a
      float the way SQLite does). */
  function ApiTrackEvent(req: TrackRequest, ctx: RequestContext, realText: real -> string): (r: Result<Event, IngestError>)
    ensures r == Failure(PayloadNotObject) <==> req.additionalData.Some? && !req.additionalData.value.JObject?
    ensures r != Failure(BodyNotObject)
    ensures PayloadOf(req).JObject? && !ColumnsBindable(PayloadOf(req).fields, ["video_time"]) ==>
      r == Failure(UnbindableColumn("video_time"))
    ensures r.Failure? && r.error.UnbindableColumn? ==>
      PayloadOf(req).JObject? && !(TextFieldsBindable(req) && ColumnsBindable(PayloadOf(req).fields, FamilyKeys))
    ensures r == Failure(NullEventType) <==>
      && PayloadOf(req).JObject? && TextFieldsBindable(req)
      && ColumnsBindable(PayloadOf(req).fields, FamilyKeys)
      && (req.eventType.None? || req.eventType.value.JNull?)
    ensures r.Success? <==>
      && PayloadOf(req).JObject?
      && TextFieldsBindable(req)
      && ColumnsBindable(PayloadOf(req).fields, FamilyKeys)
      && req.eventType.Some? && !req.eventType.value.JNull?
    ensures r.Success? ==>
      && r.value.additionalData == Parsed(PayloadOf(req))
      && ColumnsMatchPayload(r.value)
      && Some(r.value.eventType) == BoundText(req.eventType, realText)
      && r.value.elementId == BoundText(req.elementId, realText)
      && r.value.elementType == BoundText(req.elementType, realText)
      && r.value.pageUrl == BoundText(req.pageUrl, realText)
      && r.value.userId == ctx.authenticatedId
      && r.value.sessionId == ctx.sessionValue.GetOr("anonymous")
      && r.value.ipAddress == ClientIp(ctx.headers)
      && r.value.timestamp == ctx.now
  {
    var payload := PayloadOf(req);
    if !payload.JObject? then Failure(PayloadNotObject)
    else if FirstUnbindable(payload.fields, ["video_time"]).Some? then Failure(UnbindableColumn("video_time"))
    else
      var badText := FirstUnbindableText(req);
      var badColumn := FirstUnbindable(payload.fields, FamilyKeys);
      if badText.Some? then Failure(UnbindableColumn(badText.value))
      else if badColumn.Some? then Failure(UnbindableColumn(badColumn.value))
      else
        var eventType := BoundText(req.eventType, realText);
        if eventType.None? then Failure(NullEventType)
        else Success(NewRow(req, ctx, realText, eventType.value, payload.fields))
  }

  /** `api_track_event` as the route runs it: the body is read, then
      stored. */
  function ApiTrackBody(body: Json, ctx: RequestContext, realText: real -> string): (r: Result<Event, IngestError>)
    ensures !body.JObject? ==> r == Failure(BodyNotObject)
    ensures body.JObject? ==> r == ApiTrackEvent(ReadBody(body).value, ctx, realText)
  {
    match ReadBody(body)
    case Failure(err) => Failure(err)
    case Success(req) => ApiTrackEvent(req, ctx, realText)
  }

  /** A text field sent as a number or a boolean is stored as text: the
      integer 5 as `5`, `true` as `1`. */
  lemma NumbersStoredAsText(req: TrackRequest, ctx: RequestContext, realText: real -> string)
    requires req.additionalData.None? && req.eventType == Some(JStr("click"))
    requires req.elementId == Some(JInt(5)) && req.elementType == Some(JBool(true)) && req.pageUrl.None?
    ensures ApiTrackEvent(req, ctx, realText).Success?
    ensures ApiTrackEvent(req, ctx, realText).value.elementId == Some("5")
    ensures ApiTrackEvent(req, ctx, realText).value.elementType == Some("1")
  {
    assert PayloadOf(req) == JObject([]);
    assert forall k :: ColumnValue([], k).None?;
    assert NatStr(5) == "5";
  }

  /** A list sent as a text field fails the request, naming its column,
      even when the event type is missing. */
  lemma ListFieldRefused(req: TrackRequest, ctx: RequestContext, realText: real -> string)
    requires req.additionalData.None? && req.eventType.None?
    requires req.elementId == Some(JArray([]))
    ensures ApiTrackEvent(req, ctx, realText) == Failure(UnbindableColumn("element_id"))
  {
  }

  /** Text without a digit sent as `video_time` fails the request when
      `float` rejects it, before any text field is bound: even a list in
      `element_id` is not the reported failure. */
  lemma TimeWordRefused(req: TrackRequest, ctx: RequestContext, realText: real -> string, w: string)
    requires req.additionalData == Some(JObject([("video_time", JStr(w))]))
    requires forall i :: 0 <= i < |w| ==> !IsDigit(w[i])
    ensures ApiTrackEvent(req, ctx, realText) == Failure(UnbindableColumn("video_time"))
  {
    assert ColumnValue([("video_time", JStr(w))], "video_time") == Some(JStr(w));
    assert FloatOf(JStr(w)).None?;
  }

  /** A `video_time` that `float` converts is stored as what it converts to. */
  lemma TimeStored(req: TrackRequest, ctx: RequestContext, realText: real -> string, v: Json, x: real)
    requires FloatOf(v) == Some(x)
    requires req.additionalData == Some(JObject([("video_time", v)]))
    requires req.eventType == Some(JStr("video_action"))
    requires req.elementId.None? && req.elementType.None? && req.pageUrl.None?
    ensures ApiTrackEvent(req, ctx, realText).Success?
    ensures ApiTrackEvent(req, ctx, realText).value.videoTime == Some(x)
  {
    var fields := [("video_time", v)];
    assert v != JNull;
    assert ColumnValue(fields, "video_time") == Some(v);
    assert forall k :: k != "video_time" ==> ColumnValue(fields, k).None?;
    assert ColumnsBindable(fields, FamilyKeys);
    assert PayloadOf(req) == JObject(fields);
  }

  /** Decimal text sent as `video_time` is stored as the number it spells,
      once `float` has stripped the white space around it. */
  lemma TimeTextStored(req: TrackRequest, ctx: RequestContext, realText: real -> string, pre: string, n: nat, post: string)
    requires forall i :: 0 <= i < |pre| ==> PyIsSpace(pre[i])
    requires forall i :: 0 <= i < |post| ==> PyIsSpace(post[i])
    requires req.additionalData == Some(JObject([("video_time", JStr(pre + NatStr(n) + post))]))
    requires req.eventType == Some(JStr("video_action"))
    requires req.elementId.None? && req.elementType.None? && req.pageUrl.None?
    ensures ApiTrackEvent(req, ctx, realText).Success?
    ensures ApiTrackEvent(req, ctx, realText).value.videoTime == Some(n as real)
  {
    StripAround(pre, NatStr(n), post);
    DecimalOfNat(n);
    TimeStored(req, ctx, realText, JStr(pre + NatStr(n) + post), n as real);
  }

  /** A text family value the driver cannot bind fails the request,
      naming its column. */
  lemma TextColumnRefused(req: TrackRequest, ctx: RequestContext, realText: real -> string, key: string, v: Json)
    requires key in TextFamilyKeys && !Bindable(v)
    requires req.additionalData == Some(JObject([(key, v)]))
    requires req.eventType == Some(JStr("video_action"))
    requires req.elementId.None? && req.elementType.None? && req.pageUrl.None?
    ensures ApiTrackEvent(req, ctx, realText) == Failure(UnbindableColumn(key))
  {
    var fields := [(key, v)];
    assert v != JNull;
    assert ColumnValue(fields, key) == Some(v);
    assert forall k :: k != key ==> ColumnValue(fields, k).None?;
    assert FirstUnbindable(fields, ["video_time"]).None?;
    assert FirstUnbindableText(req).None?;
  }

  /** An integer too wide for 64 bits is stored as a float in the
      `video_time` column, while the same integer in a text family column
      fails the request. */
  lemma WideIntegerColumns(req: TrackRequest, other: TrackRequest, ctx: RequestContext, realText: real -> string, n: int)
    requires 0x8000_0000_0000_0000 <= n < FloatIntLimit
    requires req.eventType == Some(JStr("video_action"))
    requires req.elementId.None? && req.elementType.None? && req.pageUrl.None?
    requires req.additionalData == Some(JObject([("video_time", JInt(n))]))
    requires other == req.(additionalData := Some(JObject([("video_id", JInt(n))])))
    ensures ApiTrackEvent(req, ctx, realText).Success?
    ensures ApiTrackEvent(req, ctx, realText).value.videoTime == Some(n as real)
    ensures ApiTrackEvent(other, ctx, realText) == Failure(UnbindableColumn("video_id"))
  {
    TimeStored(req, ctx, realText, JInt(n), n as real);
    TextColumnRefused(other, ctx, realText, "video_id", JInt(n));
  }

  // ---------------------------------------------------------------------
  // The server-side helper
  // ---------------------------------------------------------------------

  /** The arguments of one `track_event(...)` call. */
  datatype TrackCall = TrackCall(
    eventType: string,
    elementId: string,
    elementType: string,
    userId: Option<nat>,
    additionalData: Option<Json>)

  /** `track_event`: a truthy explicit user id (not 0) wins over the
      logged-in user; an empty or missing payload is stored as no payload;
      the page is the current request URL; the family columns are never
      filled, whatever the payload holds. */
  function TrackEvent(call: TrackCall, ctx: RequestContext): (e: Event)
    ensures e.userId == (if call.userId.Some? && call.userId.value != 0 then call.userId else ctx.authenticatedId)
    ensures PayloadPresent(e.additionalData) <==> call.additionalData.Some? && Truthy(call.additionalData.value)
    ensures PayloadPresent(e.additionalData) ==> e.additionalData == Parsed(call.additionalData.value)
    ensures e.videoTime.None? && forall k :: k in TextFamilyKeys ==> FamilyColumn(e, k).None?
    ensures e.pageUrl == Some(ctx.url) && e.eventType == call.eventType
    ensures e.elementId == Some(call.elementId) && e.elementType == Some(call.elementType)
    ensures e.sessionId == ctx.sessionValue.GetOr("anonymous") && e.ipAddress == ClientIp(ctx.headers)
  {
    Event(
      userId := if call.userId.Some? && call.userId.value != 0 then call.userId else ctx.authenticatedId,
      sessionId := ctx.sessionValue.GetOr("anonymous"),
      eventType := call.eventType,
      elementId := Some(call.elementId),
      elementType := Some(call.elementType),
      pageUrl := Some(ctx.url),
      timestamp := ctx.now,
      additionalData := if call.additionalData.Some? && Truthy(call.additionalData.value)
                        then Parsed(call.additionalData.value) else Absent,
      ipAddress := ClientIp(ctx.headers),
      videoId := None, videoAction := None, videoTime := None,
      quizId := None, questionId := None, answerSelected := None)
  }

  /** The two paths disagree on an empty payload: the endpoint stores `{}`
      (present, so readers see a dict), the helper stores nothing. */
  lemma EmptyPayloadPaths(req: TrackRequest, call: TrackCall, ctx: RequestContext, realText: real -> string)
    requires req.eventType.Some? && !req.eventType.value.JNull? && req.additionalData.None?
    requires TextFieldsBindable(req)
    requires call.additionalData == Some(JObject([]))
    ensures ApiTrackEvent(req, ctx, realText).Success?
    ensures PayloadPresent(ApiTrackEvent(req, ctx, realText).value.additionalData)
    ensures !PayloadPresent(TrackEvent(call, ctx).additionalData)
  {
    assert PayloadOf(req) == JObject([]);
    assert forall k :: ColumnValue([], k).None?;
    assert !Truthy(JObject([]));
  }
}
