/** The activity report (`admin_user_activity`, app.py): each meaningful
    event, newest first, becomes a row of readable columns — the page it
    happened on, the kind of component, a display name for the event type,
    and a one-sentence description. */
module Narrative {
  import opened Wrappers
  import opened Text
  import opened JsonValues
  import opened Events
  import opened Seqs

  // ---------------------------------------------------------------------
  // Event context
  // ---------------------------------------------------------------------

  /** The page an event happened on, by the first URL rule that matches:
      a course page names its course id (the path segment after the last
      `/course/`), a lesson page its lesson id (all text after the last
      `/lesson/`), then the dashboard, the admin pages and the home page;
      other URLs are shown as they are, and a missing or empty one as
      `N/A`. */
  function EventContext(url: Option<string>): (r: string)
    ensures !TextPresent(url) ==> r == "N/A"
    ensures TextPresent(url) && Contains(url.value, "/course/") ==>
      r == "Course: " + FirstPiece(LastPiece(url.value, "/course/"), "/")
    ensures TextPresent(url) && !Contains(url.value, "/course/") && Contains(url.value, "/lesson/") ==>
      r == "Lesson: " + LastPiece(url.value, "/lesson/")
    ensures TextPresent(url) && !Contains(url.value, "/course/") && !Contains(url.value, "/lesson/") ==>
      r == (if Contains(url.value, "/dashboard") then "Dashboard"
            else if Contains(url.value, "/admin/") then "Admin Panel"
            else if url.value == "/" || Contains(url.value, "/index") then "Homepage"
            else url.value)
  {
    if !TextPresent(url) then "N/A"
    else
      var u := url.value;
      if Contains(u, "/course/") then "Course: " + FirstPiece(LastPiece(u, "/course/"), "/")
      else if Contains(u, "/lesson/") then "Lesson: " + LastPiece(u, "/lesson/")
      else if Contains(u, "/dashboard") then "Dashboard"
      else if Contains(u, "/admin/") then "Admin Panel"
      else if u == "/" || Contains(u, "/index") then "Homepage"
      else u
  }

  /** A course URL `origin/course/<id>[/…]` names course `<id>`, whatever
      else the URL contains after the id. */
  lemma CourseContext(origin: string, id: string, tail: string)
    requires !Contains(origin + "/course", "/course/")
    requires '/' !in id
    requires tail == "" || tail[0] == '/'
    requires !Contains(id + tail, "/course/")
    ensures EventContext(Some(origin + "/course/" + id + tail)) == "Course: " + id
  {
    CourseUrlParts(origin, id, tail);
  }

  /** The course id of a course URL, as the course rule reads it. */
  lemma CourseUrlParts(origin: string, id: string, tail: string)
    requires !Contains(origin + "/course", "/course/")
    requires '/' !in id
    requires tail == "" || tail[0] == '/'
    requires !Contains(id + tail, "/course/")
    ensures Contains(origin + "/course/" + id + tail, "/course/")
    ensures FirstPiece(LastPiece(origin + "/course/" + id + tail, "/course/"), "/") == id
  {
    var u := origin + "/course/" + id + tail;
    assert "/course/"[..|"/course/"| - 1] == "/course";
    assert u == origin + "/course/" + (id + tail);
    LastPieceAfter(origin, "/course/", id + tail);
    IdPiece(id, tail);
  }

  /** The id before a `/`-led tail is the first `/`-piece. */
  lemma IdPiece(id: string, tail: string)
    requires '/' !in id
    requires tail == "" || tail[0] == '/'
    ensures FirstPiece(id + tail, "/") == id
  {
    if tail == "" {
      assert id + tail == id;
    } else {
      assert (id + tail)[|id|] == '/';
    }
    FirstPieceUnique(id + tail, '/', id);
  }

  /** A lesson URL `origin/lesson/<rest>` names lesson `<rest>`, provided
      it is not also a course URL. */
  lemma LessonContext(origin: string, rest: string)
    requires !Contains(origin + "/lesson", "/lesson/")
    requires !Contains(rest, "/lesson/")
    requires !Contains(origin + "/lesson/" + rest, "/course/")
    ensures EventContext(Some(origin + "/lesson/" + rest)) == "Lesson: " + rest
  {
    var u := origin + "/lesson/" + rest;
    assert "/lesson/"[..|"/lesson/"| - 1] == "/lesson";
    LastPieceAfter(origin, "/lesson/", rest);
  }

  /** A course page as the report shows it. */
  lemma CourseExample()
    ensures EventContext(Some("/course/7")) == "Course: 7"
  {
    assert "/course/7" == "" + "/course/" + "7" + "";
    ShortNoContains("" + "/course", "/course/");
    ShortNoContains("7", "/course/");
    CourseContext("", "7", "");
  }

  /** The admin dashboard counts as the dashboard: that rule comes before
      the admin rule. */
  lemma AdminDashboardExample()
    ensures EventContext(Some("/admin" + "/dashboard")) == "Dashboard"
  {
    var u := "/admin" + "/dashboard";
    MissingCharNoContains(u, "/course/", 'c');
    MissingCharNoContains(u, "/lesson/", 'l');
    PrefixContains("/dashboard", "/dashboard");
    ContainsInConcat("/admin", "/dashboard", "", "/dashboard");
    assert u + "" == u;
  }

  // ---------------------------------------------------------------------
  // Component and event name
  // ---------------------------------------------------------------------

  /** The first value stored under `key` in a lookup table. */
  function Lookup(table: seq<(string, string)>, key: string): (r: Option<string>)
    ensures r.Some? ==> (key, r.value) in table
    ensures r.None? ==> forall i :: 0 <= i < |table| ==> table[i].0 != key
  {
    if |table| == 0 then None
    else if table[0].0 == key then Some(table[0].1)
    else
      var r := Lookup(table[1..], key);
      assert forall i :: 1 <= i < |table| ==> table[i] == table[1..][i - 1];
      r
  }

  /** Display names of the element types the report recognises. */
  const ComponentNames: seq<(string, string)> :=
    [("button", "Button"), ("link", "Navigation"), ("form", "Form"), ("quiz_question", "Quiz"), ("video", "Video")]

  /** Display names of the event types the report recognises. */
  const EventNames: seq<(string, string)> :=
    [("page_view", "Page Viewed"), ("click", "Element Clicked"), ("login", "User Login"),
     ("logout", "User Logout"), ("quiz_action", "Quiz Action"), ("video_action", "Video Action")]

  /** The kind of component: a known element type by its display name,
      any other non-empty element type as it is, otherwise `System`. */
  function Component(elementType: Option<string>): (r: string)
    ensures elementType.Some? && Lookup(ComponentNames, elementType.value).Some? ==>
      r == Lookup(ComponentNames, elementType.value).value
    ensures !(elementType.Some? && Lookup(ComponentNames, elementType.value).Some?) ==>
      r == OrDefault(elementType, "System")
  {
    if elementType.Some? && Lookup(ComponentNames, elementType.value).Some? then
      Lookup(ComponentNames, elementType.value).value
    else OrDefault(elementType, "System")
  }

  /** The component column is never empty: it is a display name, the
      element type itself, or `System`. */
  lemma ComponentNonEmpty(elementType: Option<string>)
    ensures |Component(elementType)| > 0
    ensures elementType.None? ==> Component(elementType) == "System"
  {
    if elementType.Some? && Lookup(ComponentNames, elementType.value).Some? {
      assert (elementType.value, Component(elementType)) in ComponentNames;
    }
  }

  /** The display name of an event type: from the table, or else the type
      with underscores as spaces, title-cased. */
  function EventName(eventType: string): (r: string)
    ensures Lookup(EventNames, eventType).Some? ==> r == Lookup(EventNames, eventType).value
    ensures Lookup(EventNames, eventType).None? ==>
      && |r| == |eventType|
      && forall i :: 0 <= i < |r| ==> r[i] == TitleCharAt(ReplaceChar(eventType, '_', ' '), i)
  {
    match Lookup(EventNames, eventType)
    case Some(n) => n
    case None => Title(ReplaceChar(eventType, '_', ' '))
  }

  /** An event name never shows an underscore, and outside the table each
      word starts with a capital letter followed by small letters. */
  lemma EventNameReadable(eventType: string)
    ensures '_' !in EventName(eventType)
    ensures Lookup(EventNames, eventType).None? ==>
      forall i :: 0 <= i < |EventName(eventType)| && IsLetter(EventName(eventType)[i]) ==>
        (IsUpper(EventName(eventType)[i]) <==> i == 0 || !IsLetter(EventName(eventType)[i - 1]))
  {
    var r := EventName(eventType);
    if Lookup(EventNames, eventType).Some? {
      TableNamesReadable(r);
    } else {
      var t := ReplaceChar(eventType, '_', ' ');
      forall i | 0 <= i < |r|
        ensures r[i] != '_'
        ensures IsLetter(r[i]) ==> (IsUpper(r[i]) <==> i == 0 || !IsLetter(r[i - 1]))
      {
        TitleCharShape(t, i);
        if i > 0 {
          TitleCharShape(t, i - 1);
        }
      }
    }
  }

  lemma TableNamesReadable(n: string)
    requires exists t :: (t, n) in EventNames
    ensures '_' !in n
  {
    var t :| (t, n) in EventNames;
    var k :| 0 <= k < |EventNames| && EventNames[k] == (t, n);
    assert k < 6;
  }

  /** A name from the table. */
  lemma TableNameExample()
    ensures EventName("quiz_action") == "Quiz Action"
  {
  }

  /** A name outside the table, as the fallback builds it. */
  lemma FallbackNameExample()
    ensures EventName("page_exit") == "Page Exit"
  {
    assert "page_exit"[5] != "page_view"[5];
    assert Lookup(EventNames, "page_exit").None?;
    SpacedExample();
    TitledExample();
  }

  lemma SpacedExample()
    ensures ReplaceChar("page_exit", '_', ' ') == "page exit"
  {
    assert "page_exit" == "page" + "_" + "exit";
    assert "page exit" == "page" + " " + "exit";
    SpacedWords("page", "exit");
  }

  /** Two words joined by an underscore become two words joined by a
      space. */
  lemma SpacedWords(a: string, b: string)
    requires '_' !in a && '_' !in b
    ensures ReplaceChar(a + "_" + b, '_', ' ') == a + " " + b
  {
    var s := a + "_" + b;
    var t := ReplaceChar(s, '_', ' ');
    assert forall i :: 0 <= i < |a| ==> s[i] == a[i];
    assert forall i :: 0 <= i < |b| ==> s[|a| + 1 + i] == b[i];
  }

  lemma TitledExample()
    ensures Title("page exit") == "Page Exit"
  {
    assert "page exit" == "page" + " " + "exit";
    assert "Page Exit" == [UpperChar('p')] + "age" + " " + [UpperChar('e')] + "xit";
    TitledWords("page", "exit");
  }

  /** Two lower-case words separated by a space each get a capital first
      letter. */
  lemma TitledWords(a: string, b: string)
    requires |a| > 0 && |b| > 0
    requires forall i :: 0 <= i < |a| ==> IsLower(a[i])
    requires forall i :: 0 <= i < |b| ==> IsLower(b[i])
    ensures Title(a + " " + b) == [UpperChar(a[0])] + a[1..] + " " + [UpperChar(b[0])] + b[1..]
  {
    var s := a + " " + b;
    var r := Title(s);
    var w := [UpperChar(a[0])] + a[1..] + " " + [UpperChar(b[0])] + b[1..];
    forall i | 0 <= i < |s|
      ensures r[i] == w[i]
    {
      if i < |a| {
        assert s[i] == a[i];
        if i > 0 { assert s[i - 1] == a[i - 1]; }
      } else if i > |a| {
        assert s[i] == b[i - |a| - 1];
        if i > |a| + 1 { assert s[i - 1] == b[i - |a| - 2]; }
      }
    }
  }

  // ---------------------------------------------------------------------
  // Description
  // ---------------------------------------------------------------------

  /** Who acted: the user's name in quotes, or `(Anonymous)`. */
  function Who(username: Option<string>): string
  {
    if TextPresent(username) then " '" + username.value + "'" else " (Anonymous)"
  }

  /** The clause for a quiz action. A decoded dict with a `score` reports
      the score, one with an `answer_selected` reports an answer, and one
      with neither adds nothing. Text that is missing or does not decode
      reports a generic quiz action, and so does any other decoded value
      that the membership test or the indexing rejects: a number, a
      boolean or null, or a string or list in which `score` is found (it
      cannot be indexed by a key). */
  function QuizClause(p: Payload, floatStr: real -> string): (r: string)
    ensures !PayloadPresent(p) || p.Unparseable? ==> r == " performed a quiz action"
    ensures p.Parsed? && p.value.JObject? ==>
      r == (if HasKey(p.value.fields, "score") then
              " completed a quiz with score " + Str(Get(p.value.fields, "score").value, floatStr) + "%"
            else if HasKey(p.value.fields, "answer_selected") then " answered a quiz question"
            else "")
  {
    match p
    case Absent => " performed a quiz action"
    case Unparseable(_) => " performed a quiz action"
    case Parsed(j) =>
      match j
      case JObject(f) =>
        if HasKey(f, "score") then " completed a quiz with score " + Str(Get(f, "score").value, floatStr) + "%"
        else if HasKey(f, "answer_selected") then " answered a quiz question"
        else ""
      case JStr(s) =>
        if Contains(s, "score") then " performed a quiz action"
        else if Contains(s, "answer_selected") then " answered a quiz question"
        else ""
      case JArray(items) =>
        if JStr("score") in items then " performed a quiz action"
        else if JStr("answer_selected") in items then " answered a quiz question"
        else ""
      case _ => " performed a quiz action"
  }

  /** The clause for a click: the kind of component, lower-cased, and the
      element id when there is one. */
  function ClickClause(component: string, elementId: Option<string>): string
  {
    " clicked on a " + Lower(component) + " element"
      + (if TextPresent(elementId) then " with id '" + elementId.value + "'" else "")
  }

  /** The clause for a video action: the `video_action` column's text
      when it is non-empty, otherwise a generic interaction. */
  function VideoClause(videoAction: string): (r: string)
    ensures |videoAction| > 0 ==> r == " performed video action: " + videoAction
    ensures |videoAction| == 0 ==> r == " interacted with video content"
  {
    if |videoAction| > 0 then " performed video action: " + videoAction
    else " interacted with video content"
  }

  /** The clause saying what happened, by event type. */
  function ActionClause(e: Event, component: string, context: string, floatStr: real -> string, realText: real -> string): string
  {
    if e.eventType == "page_view" then " viewed the page '" + context + "'"
    else if e.eventType == "click" then ClickClause(component, e.elementId)
    else if e.eventType == "login" then " logged into the system"
    else if e.eventType == "logout" then " logged out of the system"
    else if e.eventType == "quiz_action" then QuizClause(e.additionalData, floatStr)
    else if e.eventType == "video_action" then VideoClause(TextColumn(e.videoAction, realText, floatStr))
    else ""
  }

  /** The trailing note naming the button or link, read from a decoded
      dict payload; a button text wins over a link text. Any other payload
      adds nothing. */
  function ControlNote(p: Payload, floatStr: real -> string): (r: string)
    ensures r != "" ==> p.Parsed? && p.value.JObject?
    ensures p.Parsed? && p.value.JObject? && HasKey(p.value.fields, "button_text") ==>
      r == " (Button: '" + Str(Get(p.value.fields, "button_text").value, floatStr) + "')"
    ensures p.Parsed? && p.value.JObject? && !HasKey(p.value.fields, "button_text") && HasKey(p.value.fields, "link_text") ==>
      r == " (Link: '" + Str(Get(p.value.fields, "link_text").value, floatStr) + "')"
  {
    if p.Parsed? && p.value.JObject? then
      var f := p.value.fields;
      if HasKey(f, "button_text") then " (Button: '" + Str(Get(f, "button_text").value, floatStr) + "')"
      else if HasKey(f, "link_text") then " (Link: '" + Str(Get(f, "link_text").value, floatStr) + "')"
      else ""
    else ""
  }

  /** A dict payload with a text `button_text` names the button. */
  lemma ButtonNoted(fields: seq<(string, Json)>, text: string, floatStr: real -> string)
    requires Get(fields, "button_text") == Some(JStr(text))
    ensures ControlNote(Parsed(JObject(fields)), floatStr) == " (Button: '" + text + "')"
  {
  }

  /** A dict payload with a text `link_text` and no `button_text` names
      the link. */
  lemma LinkNoted(fields: seq<(string, Json)>, text: string, floatStr: real -> string)
    requires !HasKey(fields, "button_text") && Get(fields, "link_text") == Some(JStr(text))
    ensures ControlNote(Parsed(JObject(fields)), floatStr) == " (Link: '" + text + "')"
  {
  }

  /** The opening of every description. */
  function Opening(username: Option<string>): (r: string)
    ensures TextPresent(username) ==> r == "The user '" + username.value + "'"
    ensures !TextPresent(username) ==> r == "The user (Anonymous)"
  {
    "The user" + Who(username)
  }

  /** The one-sentence description: who, what, and which control. */
  function Description(e: Event, username: Option<string>, floatStr: real -> string, realText: real -> string): (r: string)
    ensures Opening(username) <= r
  {
    Opening(username) + ActionClause(e, Component(e.elementType), EventContext(e.pageUrl), floatStr, realText)
      + ControlNote(e.additionalData, floatStr)
  }

  /** A page view names the page, by its event context. */
  lemma PageViewDescribed(e: Event, username: Option<string>, floatStr: real -> string, realText: real -> string)
    requires e.eventType == "page_view"
    ensures Description(e, username, floatStr, realText)
      == Opening(username) + " viewed the page '" + EventContext(e.pageUrl) + "'" + ControlNote(e.additionalData, floatStr)
  {
  }

  /** A click names the kind of component, lower-cased, and the element
      id when there is one. */
  lemma ClickDescribed(e: Event, username: Option<string>, floatStr: real -> string, realText: real -> string)
    requires e.eventType == "click"
    ensures Description(e, username, floatStr, realText)
      == Opening(username) + ClickClause(Component(e.elementType), e.elementId) + ControlNote(e.additionalData, floatStr)
  {
    assert "click" != "page_view";
  }

  /** Logging in and out are described as such. */
  lemma SessionDescribed(e: Event, username: Option<string>, floatStr: real -> string, realText: real -> string)
    requires e.eventType == "login" || e.eventType == "logout"
    ensures Description(e, username, floatStr, realText)
      == Opening(username) + (if e.eventType == "login" then " logged into the system" else " logged out of the system")
         + ControlNote(e.additionalData, floatStr)
  {
    assert "login" != "page_view" && "login" != "click";
    assert "logout" != "page_view" && "logout" != "click" && "logout" != "login";
  }

  /** A quiz action is described by its quiz clause. */
  lemma QuizDescribed(e: Event, username: Option<string>, floatStr: real -> string, realText: real -> string)
    requires e.eventType == "quiz_action"
    ensures Description(e, username, floatStr, realText)
      == Opening(username) + QuizClause(e.additionalData, floatStr) + ControlNote(e.additionalData, floatStr)
  {
    assert "quiz_action"[0] != "page_view"[0] && "quiz_action"[0] != "click"[0];
    assert "quiz_action"[0] != "login"[0] && "quiz_action"[0] != "logout"[0];
  }

  /** A video action is described by its video clause. */
  lemma VideoDescribed(e: Event, username: Option<string>, floatStr: real -> string, realText: real -> string)
    requires e.eventType == "video_action"
    ensures Description(e, username, floatStr, realText)
      == Opening(username) + VideoClause(TextColumn(e.videoAction, realText, floatStr)) + ControlNote(e.additionalData, floatStr)
  {
    assert "video_action"[0] != "page_view"[0] && "video_action"[0] != "click"[0];
    assert "video_action"[0] != "login"[0] && "video_action"[0] != "logout"[0] && "video_action"[0] != "quiz_action"[0];
  }

  /** A video action whose column holds a number is still described by
      the column's text: SQLite stores the number 0 as the text `0`, which
      is not empty. */
  lemma VideoActionZero(e: Event, username: Option<string>, floatStr: real -> string, realText: real -> string)
    requires e.eventType == "video_action" && e.videoAction == Some(JInt(0))
    ensures Description(e, username, floatStr, realText)
      == Opening(username) + " performed video action: 0" + ControlNote(e.additionalData, floatStr)
  {
    VideoDescribed(e, username, floatStr, realText);
    ZeroStoredAsText(realText, floatStr);
    assert VideoClause("0") == " performed video action: 0";
  }

  /** The number 0 in a text column is stored as the text `0`. */
  lemma ZeroStoredAsText(realText: real -> string, floatStr: real -> string)
    ensures TextColumn(Some(JInt(0)), realText, floatStr) == "0"
  {
    assert NatStr(0) == "0";
  }

  /** Any other event type gets no action clause: the sentence is just who
      acted and the control note. */
  lemma OtherDescribed(e: Event, username: Option<string>, floatStr: real -> string, realText: real -> string)
    requires e.eventType !in ["page_view", "click", "login", "logout", "quiz_action", "video_action"]
    ensures Description(e, username, floatStr, realText) == Opening(username) + ControlNote(e.additionalData, floatStr)
  {
  }

  /** A quiz action whose payload is missing or unreadable is still
      described, as a generic quiz action with no control note. */
  lemma UnreadableQuizDescribed(e: Event, username: Option<string>, floatStr: real -> string, realText: real -> string)
    requires e.eventType == "quiz_action"
    requires !PayloadPresent(e.additionalData) || e.additionalData.Unparseable?
    ensures Description(e, username, floatStr, realText) == Opening(username) + " performed a quiz action"
  {
  }

  // ---------------------------------------------------------------------
  // Report rows
  // ---------------------------------------------------------------------

  /** One row of the activity report. */
  datatype ActivityRow = ActivityRow(
    timestamp: nat,
    eventContext: string,
    component: string,
    eventName: string,
    description: string,
    origin: string,
    ipAddress: string,
    username: string,
    email: string)

  /** The report row for one event joined with its user. */
  function RowOf(e: Event, users: map<nat, Account>, floatStr: real -> string, realText: real -> string): (r: ActivityRow)
    ensures r.origin == "web"
    ensures r.timestamp == e.timestamp
    ensures r.username == (if AccountOf(e, users).Some? && |AccountOf(e, users).value.username| > 0
                           then AccountOf(e, users).value.username else "Anonymous")
    ensures r.eventContext == EventContext(e.pageUrl) && r.component == Component(e.elementType)
    ensures r.eventName == EventName(e.eventType)
    ensures r.description == Description(e, UsernameOf(e, users), floatStr, realText)
    ensures r.ipAddress == (if TextPresent(e.ipAddress) then e.ipAddress.value else "N/A")
    ensures r.email == (if AccountOf(e, users).Some? && |AccountOf(e, users).value.email| > 0
                        then AccountOf(e, users).value.email else "N/A")
  {
    var account := AccountOf(e, users);
    var username := UsernameOf(e, users);
    var email := if account.Some? then Some(account.value.email) else None;
    ActivityRow(
      timestamp := e.timestamp,
      eventContext := EventContext(e.pageUrl),
      component := Component(e.elementType),
      eventName := EventName(e.eventType),
      description := Description(e, username, floatStr, realText),
      origin := "web",
      ipAddress := OrDefault(e.ipAddress, "N/A"),
      username := OrDefault(username, "Anonymous"),
      email := OrDefault(email, "N/A"))
  }

  function RowTime(r: ActivityRow): int { r.timestamp }

  /** The rows of a sequence of events, in the same order. */
  function Rows(s: seq<Event>, users: map<nat, Account>, floatStr: real -> string, realText: real -> string): (r: seq<ActivityRow>)
    ensures |r| == |s|
    ensures forall i :: 0 <= i < |s| ==> r[i] == RowOf(s[i], users, floatStr, realText)
  {
    seq(|s|, i requires 0 <= i < |s| => RowOf(s[i], users, floatStr, realText))
  }

  /** The activity report: one row per meaningful event, newest first. */
  function UserActivity(store: seq<Event>, users: map<nat, Account>, floatStr: real -> string, realText: real -> string): (r: seq<ActivityRow>)
    ensures |r| == CountIf(store, IsMeaningful)
    ensures forall i :: 0 <= i < |r| ==> r[i].origin == "web"
    ensures forall i :: 0 <= i < |r| ==> exists e :: e in store && IsMeaningful(e) && r[i] == RowOf(e, users, floatStr, realText)
    ensures SortedDesc(r, RowTime)
  {
    var s := NewestMeaningful(store);
    var r := Rows(s, users, floatStr, realText);
    forall i | 0 <= i < |r|
      ensures exists e :: e in store && IsMeaningful(e) && r[i] == RowOf(e, users, floatStr, realText)
    {
      assert s[i] in store;
    }
    RowsKeepOrder(s, users, floatStr, realText);
    r
  }

  /** Every meaningful event of the store has its row in the report. */
  lemma UserActivityCovers(store: seq<Event>, users: map<nat, Account>, floatStr: real -> string,
                           realText: real -> string, e: Event) returns (i: nat)
    requires e in store && IsMeaningful(e)
    ensures i < |UserActivity(store, users, floatStr, realText)|
    ensures UserActivity(store, users, floatStr, realText)[i] == RowOf(e, users, floatStr, realText)
  {
    var s := NewestMeaningful(store);
    assert e in s;
    assert UserActivity(store, users, floatStr, realText) == Rows(s, users, floatStr, realText);
    i := RowsCover(s, users, floatStr, realText, e);
  }

  /** An event of a sequence has its row among the sequence's rows. */
  lemma RowsCover(s: seq<Event>, users: map<nat, Account>, floatStr: real -> string,
                  realText: real -> string, e: Event) returns (i: nat)
    requires e in s
    ensures i < |Rows(s, users, floatStr, realText)|
    ensures Rows(s, users, floatStr, realText)[i] == RowOf(e, users, floatStr, realText)
  {
    var j :| 0 <= j < |s| && s[j] == e;
    i := j;
  }

  /** Rows of events sorted newest first are sorted newest first. */
  lemma RowsKeepOrder(s: seq<Event>, users: map<nat, Account>, floatStr: real -> string, realText: real -> string)
    requires SortedDesc(s, Timestamp)
    ensures SortedDesc(Rows(s, users, floatStr, realText), RowTime)
  {
    var r := Rows(s, users, floatStr, realText);
    forall i, j | 0 <= i < j < |r|
      ensures RowTime(r[i]) >= RowTime(r[j])
    {
      assert RowTime(r[i]) == Timestamp(s[i]);
      assert RowTime(r[j]) == Timestamp(s[j]);
    }
  }
}
