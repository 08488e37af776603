/** The clickstream event record (one row of the `ClickstreamEvent` table),
    the user rows it is joined with, and the noise classifier every report
    applies. */
module Events {
  import opened Wrappers
  import opened JsonValues
  import opened Seqs
  import opened Text

  /** The stored `additional_data` text as a reader's `json.loads` sees it:
      no text (NULL, or the empty string), text that does not decode, or a
      decoded value. A decoded value always came from non-empty text. */
  datatype Payload = Absent | Unparseable(raw: string) | Parsed(value: Json)

  /** Python truthiness of the stored text (`if event.additional_data:`). */
  predicate PayloadPresent(p: Payload)
  {
    match p
    case Absent => false
    case Unparseable(raw) => |raw| > 0
    case Parsed(_) => true
  }

  /** One clickstream row. `timestamp` counts microseconds since
      1970-01-01 00:00:00 (the naive UTC instant the store records); five
      family columns hold the decoded payload values copied into them, and
      `videoTime` holds the real that the `Float` column converted its value to. */
  datatype Event = Event(
    userId: Option<nat>,
    sessionId: string,
    eventType: string,
    elementId: Option<string>,
    elementType: Option<string>,
    pageUrl: Option<string>,
    timestamp: nat,
    additionalData: Payload,
    ipAddress: Option<string>,
    videoId: Option<Json>,
    videoAction: Option<Json>,
    videoTime: Option<real>,
    quizId: Option<Json>,
    questionId: Option<Json>,
    answerSelected: Option<Json>)

  /** The `User` columns the reports join in. */
  datatype Account = Account(username: string, email: string)

  /** The event types the reports treat as continuous telemetry. */
  const NoiseTypes: seq<string> := ["mouse_movement", "visibility_change", "time_on_page", "scroll"]

  /** The one classifier used by the dashboard counts, the recent list, the
      spreadsheet export and the activity view. */
  predicate IsMeaningful(e: Event)
  {
    e.eventType !in NoiseTypes
  }

  /** An event is meaningful exactly when its type is none of the four
      telemetry types. */
  lemma MeaningfulIff(e: Event)
    ensures IsMeaningful(e) <==>
      && e.eventType != "mouse_movement"
      && e.eventType != "visibility_change"
      && e.eventType != "time_on_page"
      && e.eventType != "scroll"
  {
  }

  function Timestamp(e: Event): int { e.timestamp }

  /** The meaningful events, newest first (`filter(~event_type.in_(…))
      .order_by(timestamp.desc())`): the listing the dashboard, the
      activity report and the spreadsheet all start from. Events with equal
      timestamps keep store order. */
  function NewestMeaningful(store: seq<Event>): (r: seq<Event>)
    ensures |r| == CountIf(store, IsMeaningful)
    ensures multiset(r) == multiset(Filter(store, IsMeaningful))
    ensures forall i :: 0 <= i < |r| ==> r[i] in store && IsMeaningful(r[i])
    ensures forall e :: e in store && IsMeaningful(e) ==> e in r
    ensures SortedDesc(r, Timestamp)
  {
    var m := Filter(store, IsMeaningful);
    CountIsFilterLength(store, IsMeaningful);
    var r := SortDesc(m, Timestamp);
    SortDescSameElements(m, Timestamp);
    forall x | x in m
      ensures x in store && IsMeaningful(x)
    {
      var k :| 0 <= k < |m| && m[k] == x;
    }
    assert forall i :: 0 <= i < |r| ==> r[i] in m;
    r
  }

  /** The user row a SQL `LEFT OUTER JOIN user ON event.user_id = user.id`
      attaches: none for an anonymous event or a dangling id. */
  function AccountOf(e: Event, users: map<nat, Account>): (r: Option<Account>)
    ensures r.Some? <==> e.userId.Some? && e.userId.value in users
    ensures r.Some? ==> r.value == users[e.userId.value]
  {
    if e.userId.Some? && e.userId.value in users then Some(users[e.userId.value]) else None
  }

  /** The joined `username` column: present only when a user row matched. */
  function UsernameOf(e: Event, users: map<nat, Account>): Option<string>
  {
    match AccountOf(e, users)
    case Some(a) => Some(a.username)
    case None => None
  }

  /** Python truthiness of a nullable text column (`x or default`, `if x:`). */
  predicate TextPresent(x: Option<string>)
  {
    x.Some? && |x.value| > 0
  }

  /** Python `x or default` on a nullable text column. */
  function OrDefault(x: Option<string>, default: string): (r: string)
    ensures TextPresent(x) ==> r == x.value
    ensures !TextPresent(x) ==> r == default
  {
    if TextPresent(x) then x.value else default
  }

  /** Values the SQLite driver accepts as a parameter: a list or a dict is
      refused, and an integer must fit in 64 bits. */
  predicate Bindable(j: Json)
  {
    match j
    case JArray(_) => false
    case JObject(_) => false
    case JInt(i) => -0x8000_0000_0000_0000 <= i < 0x8000_0000_0000_0000
    case _ => true
  }

  /** The driver binds exactly the signed 64-bit integers, and any text,
      float, boolean or null, but no list or dict. */
  lemma BindableBounds(s: string, f: real, b: bool, items: seq<Json>, fields: seq<(string, Json)>)
    ensures Bindable(JInt(0x7FFF_FFFF_FFFF_FFFF)) && !Bindable(JInt(0x8000_0000_0000_0000))
    ensures Bindable(JInt(-0x8000_0000_0000_0000)) && !Bindable(JInt(-0x8000_0000_0000_0001))
    ensures Bindable(JStr(s)) && Bindable(JFloat(f)) && Bindable(JBool(b)) && Bindable(JNull)
    ensures !Bindable(JArray(items)) && !Bindable(JObject(fields))
  {
  }

  /** Text that reads as a decimal literal once stripped holds a digit. */
  lemma StrippedDigit(s: string)
    ensures DecimalValue(PyStrip(s)).Some? ==> HasDigit(s)
  {
    if DecimalValue(PyStrip(s)).Some? {
      TrimKeepsDigit(s, PyIsSpace);
    }
  }

  /** Integers of smaller magnitude convert to a finite double. This
      limit is 2^1024 - 2^970, halfway between the largest double and 2^1024;
      from it on, Python's `float` rounds to infinity and raises
      `OverflowError`. */
  const FloatIntLimit: nat := 0xFFFF_FFFF_FFFF_FC00_0000_0000_0000_0000_0000_0000_0000_0000_0000_0000_0000_0000_0000_0000_0000_0000_0000_0000_0000_0000_0000_0000_0000_0000_0000_0000_0000_0000_0000_0000_0000_0000_0000_0000_0000_0000_0000_0000_0000_0000_0000_0000_0000_0000_0000_0000_0000_0000_0000_0000_0000_0000_0000_0000_0000_0000_0000_0000_0000_0000

  /** SQLAlchemy's `Float` column runs every bound value through Python's
      `float` before the driver sees it, because SQLite has no decimal type.
      The result is the converted value, or `None` when `float` raises:
      for a list or a dict, an integer out of double range, or text that is
      not a decimal literal once white space is stripped. A JSON null never
      reaches it, because the column is left NULL instead. */
  function FloatOf(j: Json): (r: Option<real>)
    ensures j.JArray? || j.JObject? || j.JNull? ==> r.None?
    ensures j.JInt? ==> (r.Some? <==> -(FloatIntLimit as int) < j.i < FloatIntLimit)
    ensures j.JInt? && r.Some? ==> r.value == j.i as real
    ensures j.JFloat? ==> r == Some(j.f)
    ensures j.JBool? ==> r == Some(if j.b then 1.0 else 0.0)
    ensures j.JStr? ==> r == DecimalValue(PyStrip(j.s))
    ensures j.JStr? && r.Some? ==> HasDigit(j.s)
  {
    match j
    case JInt(i) => if -(FloatIntLimit as int) < i < FloatIntLimit then Some(i as real) else None
    case JFloat(f) => Some(f)
    case JBool(b) => Some(if b then 1.0 else 0.0)
    case JStr(s) =>
      StrippedDigit(s);
      DecimalValue(PyStrip(s))
    case _ => None
  }

  /** What a column of text affinity holds for a bound value, `None` for
      NULL (a missing key or a JSON null). SQLite keeps text as it is and
      stores a bound number as its text: an integer in decimal, a boolean
      as the integer 1 or 0, a float as `realText` renders it. */
  function BoundText(v: Option<Json>, realText: real -> string): (r: Option<string>)
    requires v.None? || Bindable(v.value)
    ensures r.None? <==> v.None? || v.value.JNull?
    ensures v.Some? && v.value.JStr? ==> r == Some(v.value.s)
    ensures v.Some? && v.value.JBool? ==> r == Some(if v.value.b then "1" else "0")
  {
    match v
    case None => None
    case Some(JNull) => None
    case Some(JStr(s)) => Some(s)
    case Some(JInt(i)) => Some(IntStr(i))
    case Some(JBool(b)) => Some(if b then "1" else "0")
    case Some(JFloat(f)) => Some(realText(f))
  }

  /** A bound integer is stored as text that reads back as the same
      integer: its decimal digits, after a minus sign when negative. */
  lemma BoundIntReadsBack(i: int, realText: real -> string)
    requires Bindable(JInt(i))
    ensures BoundText(Some(JInt(i)), realText).Some?
    ensures var t := BoundText(Some(JInt(i)), realText).value;
      if i >= 0 then IsDigits(t) && ParseNat(t) == i
      else |t| > 1 && t[0] == '-' && IsDigits(t[1..]) && ParseNat(t[1..]) == -i
  {
    if i >= 0 {
      ParseNatStr(i);
    } else {
      ParseNatStr(-i);
      assert ("-" + NatStr(-i))[1..] == NatStr(-i);
    }
  }

  /** A text column as a reader sees it: the stored text, or the empty
      text for NULL. A value the driver refuses is never stored; it is
      shown as Python's `str` would. */
  function TextColumn(v: Option<Json>, realText: real -> string, floatStr: real -> string): (r: string)
    ensures v.None? || v == Some(JNull) ==> r == ""
    ensures v.Some? && v.value.JStr? ==> r == v.value.s
    ensures (v.None? || Bindable(v.value)) && BoundText(v, realText).Some? ==> r == BoundText(v, realText).value
  {
    if v.None? || Bindable(v.value) then BoundText(v, realText).GetOr("")
    else Str(v.value, floatStr)
  }
}
