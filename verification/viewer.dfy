/** The command-line database viewer (view_data.py): the event summary, the
    recent-events listing with the menu's limit prompt, and the CSV export.
    It reads the same store as the web reports but applies no noise
    filter: every stored event counts and is listed. */
module Viewer {
  import opened Wrappers
  import opened Seqs
  import opened Text
  import opened JsonValues
  import opened Events
  import opened Timestamps

  /** All events, newest first (`ORDER BY timestamp DESC`); events with
      equal timestamps keep store order. */
  function NewestFirst(store: seq<Event>): (r: seq<Event>)
    ensures |r| == |store| && multiset(r) == multiset(store)
    ensures SortedDesc(r, Timestamp)
    ensures forall x :: x in r <==> x in store
  {
    SortDescSameElements(store, Timestamp);
    SortDesc(store, Timestamp)
  }

  /** The user shown for an event: the joined username, or `Anonymous`
      when there is no matching user row or its name is empty. */
  function DisplayUser(e: Event, users: map<nat, Account>): (r: string)
    ensures e.userId.Some? && e.userId.value in users && |users[e.userId.value].username| > 0 ==>
      r == users[e.userId.value].username
    ensures e.userId.None? || e.userId.value !in users ==> r == "Anonymous"
    ensures |r| > 0
  {
    OrDefault(UsernameOf(e, users), "Anonymous")
  }

  // ---------------------------------------------------------------------
  // Event summary
  // ---------------------------------------------------------------------

  function EventType(e: Event): string { e.eventType }

  /** `GROUP BY event_type ORDER BY count DESC`: one group per event type,
      noise included, largest count first; the counts add up to the total. */
  function TypeCounts(store: seq<Event>): (g: seq<(string, nat)>)
    ensures IsTally(g, Map(store, EventType))
    ensures SortedDesc(g, CountOf)
    ensures SumBy(g, CountNat) == |store|
  {
    var ks := Map(store, EventType);
    var t := Tally(ks);
    SortKeepsTally(t, ks);
    SumBySortDesc(t, CountOf, CountNat);
    SortDesc(t, CountOf)
  }

  /** Every stored event type has exactly one summary line, whose count is
      the number of events of that type. */
  lemma TypeCountFor(store: seq<Event>, e: Event) returns (i: nat)
    requires e in store
    ensures i < |TypeCounts(store)|
    ensures TypeCounts(store)[i].0 == e.eventType
    ensures TypeCounts(store)[i].1 == CountIf(store, x => EventType(x) == e.eventType)
    ensures forall j :: 0 <= j < |TypeCounts(store)| && j != i ==> TypeCounts(store)[j].0 != e.eventType
  {
    var ks := Map(store, EventType);
    var k :| 0 <= k < |store| && store[k] == e;
    assert ks[k] == e.eventType;
    i := TallyGroupFor(TypeCounts(store), ks, e.eventType);
    MapCount(store, EventType, e.eventType, x => EventType(x) == e.eventType);
  }

  predicate IsAnonymous(e: Event) { e.userId.None? }

  predicate IsAuthenticated(e: Event) { e.userId.Some? }

  /** `CASE WHEN user_id IS NULL … GROUP BY user_id IS NULL`: a line for
      the events with a user id and a line for those without, each shown
      only when it has events. An id with no user row still counts as
      authenticated. The two lines partition the total. */
  function UserTypeCounts(store: seq<Event>): (r: seq<(string, nat)>)
    ensures |r| <= 2
    ensures forall i :: 0 <= i < |r| ==>
      || (r[i].0 == "Authenticated" && r[i].1 == CountIf(store, IsAuthenticated))
      || (r[i].0 == "Anonymous" && r[i].1 == CountIf(store, IsAnonymous))
    ensures forall i :: 0 <= i < |r| ==> r[i].1 > 0
    ensures |r| == 2 ==> r[0].0 != r[1].0
    ensures SumBy(r, CountNat) == |store|
  {
    var auth := CountIf(store, IsAuthenticated);
    var anon := CountIf(store, IsAnonymous);
    CountIfComplement(store, IsAuthenticated, IsAnonymous);
    var x := ("Authenticated", auth);
    var y := ("Anonymous", anon);
    assert [x, y][1..] == [y] && [y][1..] == [] && [x][1..] == [];
    assert SumBy([y], CountNat) == anon;
    assert SumBy([x], CountNat) == auth;
    assert SumBy([x, y], CountNat) == auth + SumBy([y], CountNat);
    if auth > 0 && anon > 0 then [x, y]
    else if auth > 0 then [x]
    else if anon > 0 then [y]
    else []
  }

  /** The `Anonymous` line is shown exactly when some event has no user
      id, and the `Authenticated` line exactly when some event has one. */
  lemma UserTypeLines(store: seq<Event>)
    ensures (exists i :: 0 <= i < |UserTypeCounts(store)| && UserTypeCounts(store)[i].0 == "Anonymous")
        <==> exists e :: e in store && IsAnonymous(e)
    ensures (exists i :: 0 <= i < |UserTypeCounts(store)| && UserTypeCounts(store)[i].0 == "Authenticated")
        <==> exists e :: e in store && IsAuthenticated(e)
  {
    var r := UserTypeCounts(store);
    CountIfPositive(store, IsAnonymous);
    CountIfPositive(store, IsAuthenticated);
    var auth := CountIf(store, IsAuthenticated);
    var anon := CountIf(store, IsAnonymous);
    if auth > 0 {
      assert r[0] == ("Authenticated", auth);
    }
    if anon > 0 {
      assert r[|r| - 1] == ("Anonymous", anon);
    }
  }

  // ---------------------------------------------------------------------
  // Recent events
  // ---------------------------------------------------------------------

  /** Why listing recent events stops the viewer: the typed number has
      more digits than Python's `int` converts (`ValueError`), or it does
      not fit the 64-bit integer SQLite binds for `LIMIT ?`
      (`OverflowError`). Neither is caught. */
  datatype LimitError = TooManyDigits | LimitOverflow

  /** The most digits Python's `int` converts from text. */
  const MaxIntDigits: nat := 4300

  /** The limit typed at the prompt, stripped of surrounding white space:
      its value when it is all digits, else 20 (an empty answer included).
      A digit string longer than `int` accepts is an error. */
  function ParseLimit(answer: string): (r: Result<nat, LimitError>)
    ensures !IsDigits(PyStrip(answer)) ==> r == Success(20)
    ensures IsDigits(PyStrip(answer)) ==> (r == Failure(TooManyDigits) <==> |PyStrip(answer)| > MaxIntDigits)
    ensures r.Failure? ==> r.error == TooManyDigits
  {
    var t := PyStrip(answer);
    if !IsDigits(t) then Success(20)
    else if |t| > MaxIntDigits then Failure(TooManyDigits)
    else Success(ParseNat(t))
  }

  /** A number typed at the prompt, with any surrounding white space, is
      read back as itself when `int` accepts its digits. */
  lemma ParseLimitReadsNumber(pre: string, n: nat, post: string)
    requires forall i :: 0 <= i < |pre| ==> PyIsSpace(pre[i])
    requires forall i :: 0 <= i < |post| ==> PyIsSpace(post[i])
    requires |NatStr(n)| <= MaxIntDigits
    ensures ParseLimit(pre + NatStr(n) + post) == Success(n)
  {
    var d := NatStr(n);
    var s := pre + d + post;
    StripAround(pre, d, post);
    ParseNatStr(n);
  }

  /** One listed event with the user it is shown under. */
  datatype RecentItem = RecentItem(event: Event, user: string)

  /** `view_clickstream_events`: the `limit` newest events of any type,
      newest first, each with its user or `Anonymous`. */
  function RecentView(store: seq<Event>, users: map<nat, Account>, limit: nat): (r: seq<RecentItem>)
    ensures |r| == Min(limit, |store|)
    ensures forall i :: 0 <= i < |r| ==> r[i].event == NewestFirst(store)[i]
    ensures forall i :: 0 <= i < |r| ==> r[i].event in store
    ensures forall i :: 0 <= i < |r| ==> r[i].user == DisplayUser(r[i].event, users)
    ensures forall i, j :: 0 <= i < j < |r| ==> r[i].event.timestamp >= r[j].event.timestamp
  {
    var s := NewestFirst(store);
    var t := Take(s, limit);
    assert forall i :: 0 <= i < |t| ==> t[i] == s[i];
    seq(|t|, i requires 0 <= i < |t| => RecentItem(t[i], DisplayUser(t[i], users)))
  }

  /** Menu choice 4: read the limit, then list that many recent events.
      A limit at or above 2^63 cannot be bound to `LIMIT ?`. */
  function ListRecent(answer: string, store: seq<Event>, users: map<nat, Account>): (r: Result<seq<RecentItem>, LimitError>)
    ensures ParseLimit(answer).Failure? ==> r == Failure(TooManyDigits)
    ensures ParseLimit(answer).Success? ==>
      (r == Failure(LimitOverflow) <==> ParseLimit(answer).value >= 0x8000_0000_0000_0000)
    ensures r.Success? ==> r.value == RecentView(store, users, ParseLimit(answer).value)
  {
    match ParseLimit(answer)
    case Failure(err) => Failure(err)
    case Success(limit) =>
      if limit >= 0x8000_0000_0000_0000 then Failure(LimitOverflow)
      else Success(RecentView(store, users, limit))
  }

  /** An answer that is not a number lists the twenty newest events. */
  lemma NoNumberListsTwenty(answer: string, store: seq<Event>, users: map<nat, Account>)
    requires !IsDigits(PyStrip(answer))
    ensures ListRecent(answer, store, users) == Success(RecentView(store, users, 20))
    ensures |ListRecent(answer, store, users).value| == Min(20, |store|)
  {
  }

  /** A typed number of 2^63 or more that `int` converts passes the
      digit test but stops the listing. */
  lemma HugeLimitOverflows(n: nat, store: seq<Event>, users: map<nat, Account>)
    requires n >= 0x8000_0000_0000_0000 && |NatStr(n)| <= MaxIntDigits
    ensures ListRecent(NatStr(n), store, users) == Failure(LimitOverflow)
  {
    ParseLimitReadsNumber("", n, "");
    assert "" + NatStr(n) + "" == NatStr(n);
  }

  /** Nothing newer is left out: an event that is not listed means the
      list is full and the event is no newer than the last one listed. */
  lemma RecentViewNewest(store: seq<Event>, users: map<nat, Account>, limit: nat, e: Event)
    requires e in store
    requires forall i :: 0 <= i < |RecentView(store, users, limit)| ==> RecentView(store, users, limit)[i].event != e
    ensures |RecentView(store, users, limit)| == limit
    ensures limit > 0 ==> e.timestamp <= RecentView(store, users, limit)[limit - 1].event.timestamp
  {
    var s := NewestFirst(store);
    var r := RecentView(store, users, limit);
    var j :| 0 <= j < |s| && s[j] == e;
    assert j >= |r|;
  }

  // ---------------------------------------------------------------------
  // CSV export
  // ---------------------------------------------------------------------

  /** The header line as written: the fourteen column names, in the order
      of the fields of a data line, joined by commas, unquoted. */
  const CsvHeaderLine: string :=
    "Timestamp,Event Type,Element ID,Element Type,Page URL,Username,Session ID,"
    + "Video ID,Video Action,Video Time,Quiz ID,Question ID,Answer Selected,Additional Data\n"

  /** The `video_time` field: the stored float written with Python's
      `str`, and nothing for NULL or for zero, which the export tests for
      truth. */
  function VideoTimeText(v: Option<real>, floatStr: real -> string): (r: string)
    ensures v.None? ==> r == ""
    ensures v.Some? ==> r == (if v.value != 0.0 then floatStr(v.value) else "")
  {
    if v.Some? && v.value != 0.0 then floatStr(v.value) else ""
  }

  /** Digit text sent as `video_time`, with white space around it, reads
      back as the number it spells: `" 12\n"` is written as the float 12,
      `"0"` not at all. */
  lemma VideoTimeDigits(pre: string, n: nat, post: string, floatStr: real -> string)
    requires forall i :: 0 <= i < |pre| ==> PyIsSpace(pre[i])
    requires forall i :: 0 <= i < |post| ==> PyIsSpace(post[i])
    ensures VideoTimeText(FloatOf(JStr(pre + NatStr(n) + post)), floatStr) == (if n != 0 then floatStr(n as real) else "")
  {
    var d := NatStr(n);
    StripAround(pre, d, post);
    DecimalOfNat(n);
  }

  /** The `additional_data` field: the stored text as it is, empty when
      there is none. `dumps` is the text a decoded payload was stored as. */
  function PayloadText(p: Payload, dumps: Json -> string): (r: string)
    ensures !PayloadPresent(p) ==> r == ""
    ensures p.Unparseable? ==> r == p.raw
  {
    match p
    case Absent => ""
    case Unparseable(raw) => raw
    case Parsed(j) => dumps(j)
  }

  /** The rendering parameters of the export, which are library behaviour:
      JSON text, Python's float text and SQLite's float text. */
  datatype Render = Render(dumps: Json -> string, floatStr: real -> string, realText: real -> string)

  /** The fourteen field texts of one event, in header order. */
  function CsvFields(e: Event, users: map<nat, Account>, render: Render): (r: seq<string>)
    ensures |r| == 14
  {
    FieldList(StoredText(e.timestamp), e.eventType, OrDefault(e.elementId, ""), OrDefault(e.elementType, ""),
              OrDefault(e.pageUrl, ""), DisplayUser(e, users), e.sessionId,
              TextColumn(e.videoId, render.realText, render.floatStr),
              TextColumn(e.videoAction, render.realText, render.floatStr),
              VideoTimeText(e.videoTime, render.floatStr),
              TextColumn(e.quizId, render.realText, render.floatStr),
              TextColumn(e.questionId, render.realText, render.floatStr),
              TextColumn(e.answerSelected, render.realText, render.floatStr),
              PayloadText(e.additionalData, render.dumps))
  }

  /** The event fields followed by the video, quiz and payload fields, each
      at its own position of the line. */
  function FieldList(timestamp: string, eventType: string, elementId: string, elementType: string,
                     pageUrl: string, user: string, sessionId: string,
                     videoId: string, videoAction: string, videoTime: string,
                     quizId: string, questionId: string, answer: string, payload: string): (r: seq<string>)
    ensures |r| == 14
    ensures r[0] == timestamp && r[1] == eventType && r[2] == elementId && r[3] == elementType
    ensures r[4] == pageUrl && r[5] == user && r[6] == sessionId
    ensures r[7] == videoId && r[8] == videoAction && r[9] == videoTime
    ensures r[10] == quizId && r[11] == questionId && r[12] == answer && r[13] == payload
  {
    [timestamp, eventType, elementId, elementType, pageUrl, user, sessionId,
     videoId, videoAction, videoTime, quizId, questionId, answer, payload]
  }

  /** The time is always written in full, and the type and session as
      they are. */
  lemma CsvFieldsAlwaysPresent(e: Event, users: map<nat, Account>, render: Render)
    ensures CsvFields(e, users, render)[0] == StoredText(e.timestamp)
    ensures CsvFields(e, users, render)[1] == e.eventType
    ensures CsvFields(e, users, render)[6] == e.sessionId
  {
    var f := CsvFields(e, users, render);
    assert f[0] == StoredText(e.timestamp);
  }

  /** A missing element or page value becomes an empty field, and a
      missing user becomes `Anonymous`. */
  lemma CsvFieldsMissingElement(e: Event, users: map<nat, Account>, render: Render)
    ensures !TextPresent(e.elementId) ==> CsvFields(e, users, render)[2] == ""
    ensures !TextPresent(e.elementType) ==> CsvFields(e, users, render)[3] == ""
    ensures !TextPresent(e.pageUrl) ==> CsvFields(e, users, render)[4] == ""
    ensures AccountOf(e, users).None? ==> CsvFields(e, users, render)[5] == "Anonymous"
  {
    var f := CsvFields(e, users, render);
    assert f[2] == OrDefault(e.elementId, "") && f[3] == OrDefault(e.elementType, "");
    assert f[4] == OrDefault(e.pageUrl, "") && f[5] == DisplayUser(e, users);
  }

  /** A missing video, quiz or payload value becomes an empty field. */
  lemma CsvFieldsMissingFamily(e: Event, users: map<nat, Account>, render: Render)
    ensures e.videoId.None? ==> CsvFields(e, users, render)[7] == ""
    ensures e.videoTime.None? ==> CsvFields(e, users, render)[9] == ""
    ensures e.quizId.None? ==> CsvFields(e, users, render)[10] == ""
    ensures !PayloadPresent(e.additionalData) ==> CsvFields(e, users, render)[13] == ""
  {
    var f := CsvFields(e, users, render);
    assert f[7] == TextColumn(e.videoId, render.realText, render.floatStr);
    assert f[9] == VideoTimeText(e.videoTime, render.floatStr);
    assert f[10] == TextColumn(e.quizId, render.realText, render.floatStr);
    assert f[13] == PayloadText(e.additionalData, render.dumps);
  }

  function Quoted(s: string): string { "\"" + s + "\"" }

  /** One written line: every field in double quotes, the quoted fields
      joined by commas, and a newline. Quotes inside a field are written
      as they are, not doubled. */
  function CsvLine(fields: seq<string>): (r: string)
    ensures |r| > 0 && r[|r| - 1] == '\n'
    ensures |fields| == 0 ==> r == "\n"
    ensures |fields| > 0 ==> r[0] == '"' && |r| >= 3 && r[|r| - 2] == '"'
  {
    var r := Join(Map(fields, Quoted), ",") + "\n";
    if |fields| > 0 then QuotedJoin(fields); r else r
  }

  /** The separator between two fields on a written line. */
  const FieldSep: string := "\",\""

  /** A written line is one opening quote, the fields joined by `","`, a
      closing quote and a newline. */
  lemma {:induction false} CsvLineShape(fields: seq<string>)
    requires |fields| > 0
    ensures CsvLine(fields) == "\"" + Join(fields, FieldSep) + "\"\n"
  {
    QuotedJoin(fields);
  }

  lemma {:induction false} QuotedJoin(fields: seq<string>)
    requires |fields| > 0
    ensures Join(Map(fields, Quoted), ",") == "\"" + Join(fields, FieldSep) + "\""
  {
    if |fields| > 1 {
      QuotedJoin(fields[1..]);
      assert Map(fields, Quoted)[1..] == Map(fields[1..], Quoted);
    }
  }

  /** Text without a double quote cannot run into the field separator. */
  lemma NoQuoteNoSep(p: string)
    requires '"' !in p
    ensures !Contains(p + FieldSep[..|FieldSep| - 1], FieldSep)
  {
    var s := p + FieldSep[..|FieldSep| - 1];
    ContainsIff(s, FieldSep);
    assert FieldSep[0] == '"';
    assert forall i :: 0 <= i && i + 3 <= |s| ==> s[i..i + 3][0] == s[i] && s[i] == p[i];
    assert forall i :: !OccursAt(s, FieldSep, i);
  }

  /** The fields can be read back from a written line, provided none of
      them holds a double quote: the text between the outer quotes splits
      on `","` into exactly the fields. */
  lemma CsvLineRoundTrip(fields: seq<string>)
    requires |fields| > 0
    requires forall i :: 0 <= i < |fields| ==> '"' !in fields[i]
    ensures var line := CsvLine(fields);
      |line| >= 3 && Split(line[1..|line| - 2], FieldSep) == fields
  {
    CsvLineShape(fields);
    var inner := Join(fields, FieldSep);
    var line := CsvLine(fields);
    assert line[1..|line| - 2] == inner;
    forall i | 0 <= i < |fields|
      ensures !Contains(fields[i] + FieldSep[..|FieldSep| - 1], FieldSep)
    {
      NoQuoteNoSep(fields[i]);
    }
    SplitJoin(fields, FieldSep);
  }

  /** Because quotes are not doubled, a line does not determine its
      fields: a field holding `","` followed by another field gives the same
      line as the split moved to the other side of the second `","`. */
  lemma CsvLineAmbiguous(pre: seq<string>, a: string, b: string, c: string, post: seq<string>)
    ensures pre + [a + FieldSep + b, c] + post != pre + [a, b + FieldSep + c] + post
    ensures CsvLine(pre + [a + FieldSep + b, c] + post) == CsvLine(pre + [a, b + FieldSep + c] + post)
  {
    var f1 := pre + [a + FieldSep + b, c] + post;
    var f2 := pre + [a, b + FieldSep + c] + post;
    assert f1[|pre|] != f2[|pre|] by {
      assert |f1[|pre|]| > |f2[|pre|]|;
    }
    var joined := pre + [a + FieldSep + b + FieldSep + c] + post;
    JoinPair(pre, a + FieldSep + b, c, post, FieldSep);
    JoinPair(pre, a, b + FieldSep + c, post, FieldSep);
    assert (a + FieldSep + b) + FieldSep + c == a + FieldSep + (b + FieldSep + c);
    CsvLineShape(f1);
    CsvLineShape(f2);
  }

  /** The line written for one event. */
  function CsvRow(e: Event, users: map<nat, Account>, render: Render): string
  {
    CsvLine(CsvFields(e, users, render))
  }

  /** `export_events_to_csv`, given the line it writes for one event
      (`CsvRow` with the user table and the renderings): the header line,
      then one line per stored event, noise included, newest first; nothing
      at all (the file is not even opened) when the store is empty. */
  function CsvExport(store: seq<Event>, line: Event -> string): (r: Option<seq<string>>)
    ensures r.None? <==> |store| == 0
    ensures r.Some? ==> |r.value| == |store| + 1 && r.value[0] == CsvHeaderLine
    ensures r.Some? ==> forall i :: 1 <= i < |r.value| ==> r.value[i] == line(NewestFirst(store)[i - 1])
  {
    if |store| == 0 then None
    else
      var body := Map(NewestFirst(store), line);
      var lines := [CsvHeaderLine] + body;
      assert forall i :: 1 <= i < |lines| ==> lines[i] == body[i - 1];
      Some(lines)
  }

  /** No event is filtered out: every stored event, telemetry noise
      included, has its line in the export. */
  lemma CsvCoversStore(store: seq<Event>, line: Event -> string, e: Event) returns (i: nat)
    requires e in store
    ensures CsvExport(store, line).Some?
    ensures 1 <= i < |CsvExport(store, line).value|
    ensures CsvExport(store, line).value[i] == line(e)
  {
    var j := IndexOf(NewestFirst(store), e);
    i := j + 1;
  }

  /** `export_events_to_csv`'s lines: the export with `CsvRow` as the line
      of an event. */
  function ExportCsv(store: seq<Event>, users: map<nat, Account>, render: Render): (r: Option<seq<string>>)
    ensures r.None? <==> |store| == 0
    ensures r.Some? ==> |r.value| == |store| + 1 && r.value[0] == CsvHeaderLine
    ensures r.Some? ==> forall i :: 1 <= i < |r.value| ==> r.value[i] == CsvRow(NewestFirst(store)[i - 1], users, render)
  {
    CsvExport(store, e => CsvRow(e, users, render))
  }

  /** Every stored event has its written line in the export. */
  lemma ExportCsvCovers(store: seq<Event>, users: map<nat, Account>, render: Render, e: Event) returns (i: nat)
    requires e in store
    ensures ExportCsv(store, users, render).Some?
    ensures 1 <= i < |ExportCsv(store, users, render).value|
    ensures ExportCsv(store, users, render).value[i] == CsvRow(e, users, render)
  {
    i := CsvCoversStore(store, e => CsvRow(e, users, render), e);
  }
}
