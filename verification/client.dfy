/** The browser side of the pipeline (`static/js/clickstream.js`): the
    decision rules that turn page activity into `trackEvent` calls — the
    click classifiers, the mouse-movement throttle, the key-combination
    text, the time-on-page predicate — and the queue a failed call is
    stored in. The DOM, the clock and the network are inputs. */
module Client {
  import opened Wrappers
  import opened Text
  import opened JsonValues
  import opened Events
  import opened Ingestion

  /** The arguments of one `trackEvent(eventType, elementId, elementType,
      additionalData)` call. */
  datatype ClientEvent = ClientEvent(eventType: string, elementId: string, elementType: string, data: Json)

  /** JavaScript `a || b` on two strings: the empty string is falsy. */
  function Either(a: string, b: string): (r: string)
    ensures |a| > 0 ==> r == a
    ensures |a| == 0 ==> r == b
  {
    if |a| > 0 then a else b
  }

  // ---------------------------------------------------------------------
  // Click classifiers
  // ---------------------------------------------------------------------

  /** The contexts a link click can report. */
  const LinkContexts: seq<string> :=
    ["course_navigation", "lesson_navigation", "dashboard_navigation", "admin_navigation", "auth_navigation", "unknown"]

  /** A link's context, by the first rule its URL matches: course, lesson,
      dashboard, admin, then login or register. */
  function LinkContext(href: string): (r: string)
    ensures r in LinkContexts
    ensures Contains(href, "/course/") ==> r == "course_navigation"
    ensures !Contains(href, "/course/") && Contains(href, "/lesson/") ==> r == "lesson_navigation"
    ensures !Contains(href, "/course/") && !Contains(href, "/lesson/") && Contains(href, "/dashboard") ==>
      r == "dashboard_navigation"
    ensures (&& !Contains(href, "/course/") && !Contains(href, "/lesson/") && !Contains(href, "/dashboard")
             && Contains(href, "/admin/")) ==> r == "admin_navigation"
    ensures (&& !Contains(href, "/course/") && !Contains(href, "/lesson/") && !Contains(href, "/dashboard")
             && !Contains(href, "/admin/") && (Contains(href, "/login") || Contains(href, "/register"))) ==>
      r == "auth_navigation"
    ensures r == "unknown" <==>
      && !Contains(href, "/course/") && !Contains(href, "/lesson/") && !Contains(href, "/dashboard")
      && !Contains(href, "/admin/") && !Contains(href, "/login") && !Contains(href, "/register")
  {
    if Contains(href, "/course/") then "course_navigation"
    else if Contains(href, "/lesson/") then "lesson_navigation"
    else if Contains(href, "/dashboard") then "dashboard_navigation"
    else if Contains(href, "/admin/") then "admin_navigation"
    else if Contains(href, "/login") then "auth_navigation"
    else if Contains(href, "/register") then "auth_navigation"
    else "unknown"
  }

  /** Rule order decides overlaps: a course link inside the admin pages is
      course navigation, not admin navigation. */
  lemma AdminCourseLink(origin: string, id: string)
    ensures LinkContext(origin + "/admin" + "/course/" + id) == "course_navigation"
  {
    PrefixContains("/course/" + id, "/course/");
    ContainsInConcat(origin + "/admin", "/course/" + id, "", "/course/");
    assert origin + "/admin" + ("/course/" + id) + "" == origin + "/admin" + "/course/" + id;
  }

  /** A button's context: the first of the five `btn-*` classes it has. */
  function ButtonContext(classes: seq<string>): (r: string)
    ensures r == "primary_action" <==> "btn-primary" in classes
    ensures "btn-primary" !in classes && "btn-secondary" in classes ==> r == "secondary_action"
    ensures "btn-primary" !in classes && "btn-secondary" !in classes && "btn-success" in classes ==>
      r == "success_action"
    ensures (&& "btn-primary" !in classes && "btn-secondary" !in classes && "btn-success" !in classes
             && "btn-danger" in classes) ==> r == "danger_action"
    ensures (&& "btn-primary" !in classes && "btn-secondary" !in classes && "btn-success" !in classes
             && "btn-danger" !in classes && "btn-large" in classes) ==> r == "large_action"
    ensures r == "unknown" <==>
      && "btn-primary" !in classes && "btn-secondary" !in classes && "btn-success" !in classes
      && "btn-danger" !in classes && "btn-large" !in classes
  {
    if "btn-primary" in classes then "primary_action"
    else if "btn-secondary" in classes then "secondary_action"
    else if "btn-success" in classes then "success_action"
    else if "btn-danger" in classes then "danger_action"
    else if "btn-large" in classes then "large_action"
    else "unknown"
  }

  /** Text holding `a + b` holds `b`. */
  lemma {:induction false} ContainsTail(s: string, a: string, b: string)
    requires Contains(s, a + b)
    ensures Contains(s, b)
    decreases |s|
  {
    if a + b <= s {
      assert (a + b)[|a|..] == b;
      assert s[|a|..][..|b|] == b;
      PrefixContains(s[|a|..], b);
      ContainsInConcat(s[..|a|], s[|a|..], "", b);
      assert s[..|a|] + s[|a|..] + "" == s;
    } else {
      ContainsTail(s[1..], a, b);
      ContainsInConcat([s[0]], s[1..], "", b);
      assert [s[0]] + s[1..] + "" == s;
    }
  }

  /** A submit button's form context: login, then register, then admin
      login, checked against the form's action URL; no form, `unknown`. Any
      action naming `/admin/login` also names `/login`, so the admin-login
      context is never reported. */
  function FormContext(action: Option<string>): (r: string)
    ensures action.None? ==> r == "unknown"
    ensures action.Some? && Contains(action.value, "/login") ==> r == "login_form"
    ensures action.Some? && !Contains(action.value, "/login") && Contains(action.value, "/register") ==>
      r == "register_form"
    ensures action.Some? && !Contains(action.value, "/login") && !Contains(action.value, "/register") ==>
      r == "unknown"
    ensures r != "admin_login_form"
  {
    if action.Some? && Contains(action.value, "/login") then "login_form"
    else if action.Some? && Contains(action.value, "/register") then "register_form"
    else if action.Some? && Contains(action.value, "/admin/login") then
      assert "/admin" + "/login" == "/admin/login";
      ContainsTail(action.value, "/admin", "/login");
      assert false;
      "admin_login_form"
    else "unknown"
  }

  /** The admin login form reports itself as a login form. */
  lemma AdminLoginIsLogin(pre: string, post: string)
    ensures FormContext(Some(pre + "/admin/login" + post)) == "login_form"
  {
    PrefixContains("/login", "/login");
    ContainsInConcat(pre + "/admin", "/login", post, "/login");
    assert pre + "/admin" + "/login" + post == pre + "/admin/login" + post;
  }

  // ---------------------------------------------------------------------
  // One click
  // ---------------------------------------------------------------------

  /** The form a submit input belongs to: its id and its action URL. */
  datatype Form = Form(id: string, action: string)

  /** The clicked element, as far as the classifiers look at it. `inQuiz`
      and `inNav` say whether it sits inside a `.quiz-question` and inside
      a `.nav-menu` or `.nav-links` block; `questionText` is what the
      question lookup returns for it. */
  datatype Target = Target(
    tagName: string,
    classes: seq<string>,  // `classList`
    className: string,     // the `class` attribute as written
    text: string,          // `textContent`
    href: string,
    inputType: string,
    form: Option<Form>,
    value: string,
    name: string,
    inQuiz: bool,
    inNav: bool,
    questionText: string)

  predicate IsButton(t: Target) { t.tagName == "BUTTON" || "btn" in t.classes }
  predicate IsLink(t: Target) { t.tagName == "A" }
  predicate IsSubmit(t: Target) { t.tagName == "INPUT" && t.inputType == "submit" }
  predicate IsChoice(t: Target) { t.inputType == "radio" || t.inputType == "checkbox" }

  function ButtonClick(t: Target, loc: Json): (r: ClientEvent)
    ensures r.eventType == "click" && r.elementType == "button"
    ensures r.elementId == Either(JsTrim(t.text), t.className)
    ensures r.data.JObject?
  {
    ClientEvent("click", Either(JsTrim(t.text), t.className), "button",
      JObject([("button_text", JStr(JsTrim(t.text))), ("button_class", JStr(t.className)),
               ("button_type", JStr("general_button")), ("button_context", JStr(ButtonContext(t.classes))),
               ("click_location", loc)]))
  }

  /** A button click reports the trimmed button text and the button's
      context. */
  lemma ButtonPayload(t: Target, loc: Json)
    ensures Get(ButtonClick(t, loc).data.fields, "button_text") == Some(JStr(JsTrim(t.text)))
    ensures Get(ButtonClick(t, loc).data.fields, "button_context") == Some(JStr(ButtonContext(t.classes)))
  {
    var fields := ButtonClick(t, loc).data.fields;
    assert Keys(fields) == ["button_text", "button_class", "button_type", "button_context", "click_location"];
    GetFirst(fields, 0, "button_text");
    GetFirst(fields, 3, "button_context");
  }

  function LinkClick(t: Target, loc: Json): (r: ClientEvent)
    ensures r.eventType == "click" && r.elementType == "link"
    ensures r.elementId == t.href
    ensures r.data.JObject?
  {
    ClientEvent("click", t.href, "link",
      JObject([("link_text", JStr(JsTrim(t.text))), ("link_href", JStr(t.href)),
               ("link_type", JStr("general_link")), ("link_context", JStr(LinkContext(t.href))),
               ("click_location", loc)]))
  }

  /** A link click reports the trimmed link text and the link's context,
      and no button text. */
  lemma LinkPayload(t: Target, loc: Json)
    ensures !HasKey(LinkClick(t, loc).data.fields, "button_text")
    ensures Get(LinkClick(t, loc).data.fields, "link_text") == Some(JStr(JsTrim(t.text)))
    ensures Get(LinkClick(t, loc).data.fields, "link_context") == Some(JStr(LinkContext(t.href)))
  {
    var fields := LinkClick(t, loc).data.fields;
    assert Keys(fields) == ["link_text", "link_href", "link_type", "link_context", "click_location"];
    MissingKey(fields, "button_text");
    GetFirst(fields, 0, "link_text");
    GetFirst(fields, 3, "link_context");
  }

  function FormClick(t: Target, loc: Json): (r: ClientEvent)
    ensures r.eventType == "click" && r.elementType == "form"
    ensures r.elementId == "form_submit"
    ensures r.data.JObject?
  {
    ClientEvent("click", "form_submit", "form",
      JObject([("form_id", JStr(if t.form.Some? then t.form.value.id else "unknown")),
               ("input_type", JStr(t.inputType)), ("form_type", JStr("general_form")),
               ("form_context", JStr(FormContext(if t.form.Some? then Some(t.form.value.action) else None))),
               ("click_location", loc)]))
  }

  /** A submit click reports the form's context, and neither a button nor
      a link text. */
  lemma FormPayload(t: Target, loc: Json)
    ensures !HasKey(FormClick(t, loc).data.fields, "button_text") && !HasKey(FormClick(t, loc).data.fields, "link_text")
    ensures Get(FormClick(t, loc).data.fields, "form_context")
      == Some(JStr(FormContext(if t.form.Some? then Some(t.form.value.action) else None)))
  {
    var fields := FormClick(t, loc).data.fields;
    assert Keys(fields) == ["form_id", "input_type", "form_type", "form_context", "click_location"];
    MissingKey(fields, "button_text");
    MissingKey(fields, "link_text");
    GetFirst(fields, 3, "form_context");
  }

  function QuizClick(t: Target, loc: Json): (r: ClientEvent)
    ensures r.eventType == "click" && r.elementType == "quiz_input"
    ensures r.elementId == Either(t.value, t.name)
    ensures r.data.JObject?
  {
    ClientEvent("click", Either(t.value, t.name), "quiz_input",
      JObject([("input_type", JStr(t.inputType)), ("input_name", JStr(t.name)), ("input_value", JStr(t.value)),
               ("quiz_context", JStr(if t.inQuiz then "quiz_answer_selection" else "general_quiz")),
               ("question_text", JStr(t.questionText)), ("click_location", loc)]))
  }

  /** A quiz-input click reports the chosen value, and neither a button
      nor a link text. */
  lemma QuizPayload(t: Target, loc: Json)
    ensures !HasKey(QuizClick(t, loc).data.fields, "button_text") && !HasKey(QuizClick(t, loc).data.fields, "link_text")
    ensures Get(QuizClick(t, loc).data.fields, "input_value") == Some(JStr(t.value))
  {
    var fields := QuizClick(t, loc).data.fields;
    assert Keys(fields) == ["input_type", "input_name", "input_value", "quiz_context", "question_text", "click_location"];
    MissingKey(fields, "button_text");
    MissingKey(fields, "link_text");
    GetFirst(fields, 2, "input_value");
  }

  function NavClick(t: Target, loc: Json): (r: ClientEvent)
    ensures r.eventType == "click" && r.elementType == "navigation_menu"
    ensures r.elementId == Either(JsTrim(t.text), t.className)
    ensures r.data.JObject?
  {
    ClientEvent("click", Either(JsTrim(t.text), t.className), "navigation_menu",
      JObject([("menu_item", JStr(JsTrim(t.text))), ("menu_class", JStr(t.className)), ("click_location", loc)]))
  }

  /** A menu click reports the trimmed item text, and neither a button
      nor a link text. */
  lemma NavPayload(t: Target, loc: Json)
    ensures !HasKey(NavClick(t, loc).data.fields, "button_text") && !HasKey(NavClick(t, loc).data.fields, "link_text")
    ensures Get(NavClick(t, loc).data.fields, "menu_item") == Some(JStr(JsTrim(t.text)))
  {
    var fields := NavClick(t, loc).data.fields;
    assert Keys(fields) == ["menu_item", "menu_class", "click_location"];
    MissingKey(fields, "button_text");
    MissingKey(fields, "link_text");
    GetFirst(fields, 0, "menu_item");
  }

  function When(c: bool, e: ClientEvent): (r: seq<ClientEvent>)
    ensures c ==> r == [e]
    ensures !c ==> r == []
    ensures ElementTypes(r) == (if c then [e.elementType] else [])
  {
    if c then [e] else []
  }

  /** The events one click produces, in the order the listener tests
      them. The tests are independent, so one click can produce several
      events; `loc` is the click location the geometry helper computes. */
  function ClickEvents(t: Target, loc: Json): (r: seq<ClientEvent>)
    ensures |r| <= 5
    ensures forall e :: e in r ==> e.eventType == "click"
    ensures |r| == 0 <==> !IsButton(t) && !IsLink(t) && !IsSubmit(t) && !IsChoice(t) && !t.inNav
    ensures ElementTypes(r)
      == (if IsButton(t) then ["button"] else []) + (if IsLink(t) then ["link"] else [])
         + (if IsSubmit(t) then ["form"] else []) + (if IsChoice(t) then ["quiz_input"] else [])
         + (if t.inNav then ["navigation_menu"] else [])
  {
    Collect(IsButton(t), ButtonClick(t, loc), IsLink(t), LinkClick(t, loc), IsSubmit(t), FormClick(t, loc),
            IsChoice(t), QuizClick(t, loc), t.inNav, NavClick(t, loc))
  }

  /** The events of five independent tests, in test order: each event is
      kept when its test holds. */
  function Collect(cb: bool, b: ClientEvent, cl: bool, l: ClientEvent, cf: bool, f: ClientEvent,
                   cq: bool, q: ClientEvent, cn: bool, n: ClientEvent): (r: seq<ClientEvent>)
    ensures |r| <= 5
    ensures forall e :: e in r ==> e == b || e == l || e == f || e == q || e == n
    ensures |r| == 0 <==> !cb && !cl && !cf && !cq && !cn
    ensures ElementTypes(r)
      == (if cb then [b.elementType] else []) + (if cl then [l.elementType] else [])
         + (if cf then [f.elementType] else []) + (if cq then [q.elementType] else [])
         + (if cn then [n.elementType] else [])
  {
    var r := When(cb, b) + When(cl, l) + When(cf, f) + When(cq, q) + When(cn, n);
    ElementTypesOfFive(When(cb, b), When(cl, l), When(cf, f), When(cq, q), When(cn, n));
    r
  }

  /** Listing the element types commutes with concatenating the lists. */
  lemma ElementTypesOfFive(b: seq<ClientEvent>, l: seq<ClientEvent>, f: seq<ClientEvent>, q: seq<ClientEvent>, n: seq<ClientEvent>)
    ensures ElementTypes(b + l + f + q + n)
      == ElementTypes(b) + ElementTypes(l) + ElementTypes(f) + ElementTypes(q) + ElementTypes(n)
  {
  }

  /** The element types of a list of events. */
  function ElementTypes(es: seq<ClientEvent>): (r: seq<string>)
    ensures |r| == |es|
    ensures forall i :: 0 <= i < |es| ==> r[i] == es[i].elementType
  {
    seq(|es|, i requires 0 <= i < |es| => es[i].elementType)
  }

  /** A `.btn` link in the navigation menu is reported three times: as a
      button, as a link and as a menu item. */
  lemma NavButtonLinkThreeEvents(t: Target, loc: Json)
    requires t.tagName == "A" && "btn" in t.classes && t.inNav
    requires t.inputType == ""
    ensures ElementTypes(ClickEvents(t, loc)) == ["button", "link", "navigation_menu"]
  {
    assert !IsSubmit(t) && !IsChoice(t);
    assert ["button"] + ["link"] + [] + [] + ["navigation_menu"] == ["button", "link", "navigation_menu"];
  }

  // ---------------------------------------------------------------------
  // Mouse movement throttle
  // ---------------------------------------------------------------------

  /** One `mousemove`: the clock reading and the mouse position. */
  datatype Move = Move(time: int, x: int, y: int)

  /** The listener's state: the time and position of the last reported
      movement. */
  datatype MouseState = MouseState(lastTime: int, lastX: int, lastY: int)

  const MouseStart: MouseState := MouseState(0, 0, 0)

  /** Milliseconds that must pass between two reports. */
  const ThrottleDelay: int := 5000

  /** Pixels the mouse must travel along one axis. */
  const MinDistance: int := 100

  function Abs(n: int): nat { if n < 0 then -n else n }

  /** A movement is reported when more than the delay has passed since the
      last report and the mouse moved more than the distance along
      either axis since then. */
  predicate Reports(st: MouseState, m: Move)
  {
    m.time - st.lastTime > ThrottleDelay && (Abs(m.x - st.lastX) > MinDistance || Abs(m.y - st.lastY) > MinDistance)
  }

  /** The state after one movement: a report remembers its time and
      position; anything else leaves the state alone. */
  function MouseStep(st: MouseState, m: Move): (next: MouseState)
    ensures Reports(st, m) ==> next.lastTime == m.time && next.lastX == m.x && next.lastY == m.y
    ensures !Reports(st, m) ==> next == st
  {
    if Reports(st, m) then MouseState(m.time, m.x, m.y) else st
  }

  /** The event sent for a reported movement: the new position, how far it
      lies from the last reported one along each axis, and the page. */
  function MouseEvent(st: MouseState, m: Move, url: string): (r: ClientEvent)
    ensures r.eventType == "mouse_movement" && r.elementId == "mouse_move" && r.elementType == "mouse"
    ensures r.data.JObject?
  {
    ClientEvent("mouse_movement", "mouse_move", "mouse",
      JObject([("mouse_x", JInt(m.x)), ("mouse_y", JInt(m.y)),
               ("delta_x", JInt(Abs(m.x - st.lastX))), ("delta_y", JInt(Abs(m.y - st.lastY))),
               ("page_url", JStr(url))]))
  }

  /** The payload of a movement event names the position, the distances
      and the page, in that order; for a reported movement one of the
      distances is more than the minimum. */
  lemma MousePayload(st: MouseState, m: Move, url: string)
    ensures var f := MouseEvent(st, m, url).data.fields;
      && Keys(f) == ["mouse_x", "mouse_y", "delta_x", "delta_y", "page_url"]
      && Get(f, "mouse_x") == Some(JInt(m.x)) && Get(f, "mouse_y") == Some(JInt(m.y))
      && Get(f, "delta_x") == Some(JInt(Abs(m.x - st.lastX)))
      && Get(f, "delta_y") == Some(JInt(Abs(m.y - st.lastY)))
      && Get(f, "page_url") == Some(JStr(url))
      && (Reports(st, m) ==> Get(f, "delta_x").value.i > MinDistance || Get(f, "delta_y").value.i > MinDistance)
  {
    var dx, dy := Abs(m.x - st.lastX), Abs(m.y - st.lastY);
    var f := [("mouse_x", JInt(m.x)), ("mouse_y", JInt(m.y)), ("delta_x", JInt(dx)), ("delta_y", JInt(dy)),
              ("page_url", JStr(url))];
    assert MouseEvent(st, m, url).data.fields == f;
    assert Keys(f) == ["mouse_x", "mouse_y", "delta_x", "delta_y", "page_url"];
    MouseGets(f);
  }

  /** Each of the five distinct movement keys reads its own value. */
  lemma MouseGets(f: seq<(string, Json)>)
    requires |f| == 5 && Keys(f) == ["mouse_x", "mouse_y", "delta_x", "delta_y", "page_url"]
    ensures Get(f, "mouse_x") == Some(f[0].1) && Get(f, "mouse_y") == Some(f[1].1)
    ensures Get(f, "delta_x") == Some(f[2].1) && Get(f, "delta_y") == Some(f[3].1)
    ensures Get(f, "page_url") == Some(f[4].1)
  {
    GetFirst(f, 0, "mouse_x");
    GetFirst(f, 1, "mouse_y");
    GetFirst(f, 2, "delta_x");
    GetFirst(f, 3, "delta_y");
    GetFirst(f, 4, "page_url");
  }

  /** The movements reported out of a sequence of movements, in order. */
  function Throttle(st: MouseState, moves: seq<Move>): (reported: seq<Move>)
    ensures |reported| <= |moves|
    decreases |moves|
  {
    if |moves| == 0 then []
    else if Reports(st, moves[0]) then [moves[0]] + Throttle(MouseStep(st, moves[0]), moves[1..])
    else Throttle(st, moves[1..])
  }

  /** The listener's state after a sequence of movements: the start state
      while nothing has been reported, else the time and position of the
      last report. */
  function After(st: MouseState, moves: seq<Move>): (r: MouseState)
    ensures var rep := Throttle(st, moves);
      if |rep| == 0 then r == st
      else r == MouseState(rep[|rep| - 1].time, rep[|rep| - 1].x, rep[|rep| - 1].y)
    decreases |moves|
  {
    if |moves| == 0 then st
    else
      var next := MouseStep(st, moves[0]);
      var r := After(next, moves[1..]);
      assert Reports(st, moves[0]) ==> Throttle(st, moves) == [moves[0]] + Throttle(next, moves[1..]);
      r
  }

  /** The throttle misses nothing: one more movement is reported exactly
      when the listener, in the state the earlier movements left it in,
      reports it, and the state moves on by that one step. */
  lemma {:induction false} ThrottleSnoc(st: MouseState, moves: seq<Move>, m: Move)
    ensures Throttle(st, moves + [m]) == Throttle(st, moves) + (if Reports(After(st, moves), m) then [m] else [])
    ensures After(st, moves + [m]) == MouseStep(After(st, moves), m)
    decreases |moves|
  {
    if |moves| == 0 {
      assert moves + [m] == [m] && [m][1..] == [];
    } else {
      var h := moves[0];
      assert (moves + [m])[0] == h && (moves + [m])[1..] == moves[1..] + [m];
      ThrottleSnoc(MouseStep(st, h), moves[1..], m);
    }
  }

  /** Reports are spread out in time: every reported movement comes more
      than the delay after the previous one (the first after the start
      state), whatever the clock does in between. */
  lemma {:induction false} ThrottleSpacing(st: MouseState, moves: seq<Move>)
    ensures var r := Throttle(st, moves);
      && (|r| > 0 ==> Reports(st, r[0]))
      && (forall i :: 0 < i < |r| ==> r[i].time - r[i - 1].time > ThrottleDelay)
    decreases |moves|
  {
    if |moves| > 0 {
      var m := moves[0];
      var r := Throttle(st, moves);
      if Reports(st, m) {
        ThrottleSpacing(MouseStep(st, m), moves[1..]);
        var rest := Throttle(MouseStep(st, m), moves[1..]);
        assert r == [m] + rest;
        assert forall i :: 0 < i < |r| ==> r[i] == rest[i - 1];
      } else {
        ThrottleSpacing(st, moves[1..]);
        assert r == Throttle(st, moves[1..]);
      }
    }
  }

  /** Reports are spread out in space: every reported position is more
      than the distance away from the previous one along some axis. */
  lemma {:induction false} ThrottleDistance(st: MouseState, moves: seq<Move>)
    ensures var r := Throttle(st, moves);
      forall i :: 0 < i < |r| ==> Abs(r[i].x - r[i - 1].x) > MinDistance || Abs(r[i].y - r[i - 1].y) > MinDistance
    decreases |moves|
  {
    if |moves| > 0 {
      var m := moves[0];
      var r := Throttle(st, moves);
      if Reports(st, m) {
        var next := MouseStep(st, m);
        ThrottleDistance(next, moves[1..]);
        ThrottleSpacing(next, moves[1..]);
        var rest := Throttle(next, moves[1..]);
        assert r == [m] + rest;
        assert forall i :: 0 < i < |r| ==> r[i] == rest[i - 1];
      } else {
        ThrottleDistance(st, moves[1..]);
        assert r == Throttle(st, moves[1..]);
      }
    }
  }

  /** Every report is one of the movements. */
  lemma {:induction false} ThrottleReportsMoves(st: MouseState, moves: seq<Move>)
    ensures forall m :: m in Throttle(st, moves) ==> m in moves
    decreases |moves|
  {
    if |moves| > 0 {
      var m := moves[0];
      assert moves == [m] + moves[1..];
      if Reports(st, m) {
        ThrottleReportsMoves(MouseStep(st, m), moves[1..]);
      } else {
        ThrottleReportsMoves(st, moves[1..]);
      }
    }
  }

  // ---------------------------------------------------------------------
  // Key combinations
  // ---------------------------------------------------------------------

  /** The text of a key combination: `Ctrl+` when Control is held, then
      `Cmd+` when Meta is held, then the key upper-cased; nothing unless
      Control or Meta is held. */
  function KeyCombo(ctrl: bool, meta: bool, key: string): (r: Option<string>)
    ensures r.Some? <==> ctrl || meta
  {
    if ctrl || meta then
      Some((if ctrl then "Ctrl+" else "") + (if meta then "Cmd+" else "") + Upper(key))
    else None
  }

  /** The event sent for a key press with Control or Meta held. */
  function KeyEvent(ctrl: bool, meta: bool, shift: bool, alt: bool, key: string): (r: Option<ClientEvent>)
    ensures r.Some? <==> ctrl || meta
    ensures r.Some? ==> r.value.eventType == "keyboard" && r.value.elementId == KeyCombo(ctrl, meta, key).value
  {
    match KeyCombo(ctrl, meta, key)
    case None => None
    case Some(combo) =>
      Some(ClientEvent("keyboard", combo, "keyboard",
        JObject([("key", JStr(key)), ("ctrl_key", JBool(ctrl)), ("meta_key", JBool(meta)),
                 ("shift_key", JBool(shift)), ("alt_key", JBool(alt))])))
  }

  /** Reads a combination back: which modifiers it names, and the key. */
  function DecodeCombo(combo: string): (bool, bool, string)
  {
    var ctrl := "Ctrl+" <= combo;
    var rest := if ctrl then combo[5..] else combo;
    var meta := "Cmd+" <= rest;
    (ctrl, meta, if meta then rest[4..] else rest)
  }

  /** An upper-cased key has no lower-case letter. */
  lemma UpperHasNoLower(s: string)
    ensures forall i :: 0 <= i < |Upper(s)| ==> !IsLower(Upper(s)[i])
  {
  }

  /** Text without lower-case letters starts with neither modifier. */
  lemma NoModifierPrefix(k: string)
    requires forall i :: 0 <= i < |k| ==> !IsLower(k[i])
    ensures !("Ctrl+" <= k) && !("Cmd+" <= k)
  {
    if |k| >= 2 {
      assert !IsLower(k[1]);
      assert "Ctrl+"[1] == 't' && "Cmd+"[1] == 'm';
    }
  }

  /** The combination text determines the modifiers and the upper-cased
      key: upper-casing leaves no lower-case letter, so the key cannot be
      mistaken for a `Ctrl+` or `Cmd+` prefix. */
  lemma ComboRoundTrip(ctrl: bool, meta: bool, key: string)
    requires ctrl || meta
    ensures DecodeCombo(KeyCombo(ctrl, meta, key).value) == (ctrl, meta, Upper(key))
  {
    var k := Upper(key);
    UpperHasNoLower(key);
    NoModifierPrefix(k);
    assert KeyCombo(ctrl, meta, key).value == (if ctrl then "Ctrl+" else "") + (if meta then "Cmd+" else "") + k;
    DecodeModifiers(ctrl, meta, k);
  }

  lemma DecodeModifiers(ctrl: bool, meta: bool, k: string)
    requires !("Ctrl+" <= k) && !("Cmd+" <= k)
    ensures DecodeCombo((if ctrl then "Ctrl+" else "") + (if meta then "Cmd+" else "") + k) == (ctrl, meta, k)
  {
    var m := (if meta then "Cmd+" else "") + k;
    if meta {
      assert "Cmd+" <= m && m[4..] == k;
      assert m[1] == 'm';
    } else {
      assert m == k;
    }
    assert DecodeCombo(m) == (false, meta, k);
    var c := (if ctrl then "Ctrl+" else "") + m;
    assert (if ctrl then "Ctrl+" else "") + (if meta then "Cmd+" else "") + k == c;
    if ctrl {
      assert "Ctrl+" <= c && c[5..] == m;
    } else {
      assert c == m;
    }
  }

  // ---------------------------------------------------------------------
  // Time on page
  // ---------------------------------------------------------------------

  /** `Math.round(ms / 1000)`: the nearest whole second, halves rounded
      up. */
  function RoundSeconds(ms: int): (s: int)
    ensures s * 1000 - 500 <= ms < s * 1000 + 500
  {
    (ms + 500) / 1000
  }

  /** The once-a-second check: the elapsed time, in whole seconds, is
      reported when it is a positive multiple of sixty. */
  function TimeTick(elapsedMs: int, url: string): (r: Option<ClientEvent>)
    ensures r.Some? <==> RoundSeconds(elapsedMs) > 0 && RoundSeconds(elapsedMs) % 60 == 0
    ensures r.Some? ==> r.value.eventType == "time_on_page" && r.value.elementType == "time"
  {
    var s := RoundSeconds(elapsedMs);
    if s % 60 == 0 && s > 0 then
      Some(ClientEvent("time_on_page", "time_" + IntStr(s) + "s", "time",
        JObject([("time_spent_seconds", JInt(s)), ("page_url", JStr(url))])))
    else None
  }

  /** On the `k`-th tick of the one-second timer (with no drift) a report
      is made exactly when `k` is a positive multiple of sixty. */
  lemma TickOnTheMinute(k: nat, url: string)
    ensures TimeTick(1000 * k, url).Some? <==> k > 0 && k % 60 == 0
  {
    assert RoundSeconds(1000 * k) == k;
  }

  /** The element id of a report names the elapsed seconds, which can be
      read back from it. */
  lemma TimeIdSeconds(elapsedMs: int, url: string)
    requires TimeTick(elapsedMs, url).Some?
    ensures var id := TimeTick(elapsedMs, url).value.elementId;
      && |id| > 6 && id[..5] == "time_" && id[|id| - 1] == 's'
      && ParseNat(id[5..|id| - 1]) == RoundSeconds(elapsedMs)
  {
    var s := RoundSeconds(elapsedMs);
    var id := "time_" + NatStr(s) + "s";
    assert TimeTick(elapsedMs, url).value.elementId == id;
    assert id[5..|id| - 1] == NatStr(s);
    ParseNatStr(s);
  }

  // ---------------------------------------------------------------------
  // Failed events
  // ---------------------------------------------------------------------

  /** The body `trackEvent` posts: the call's arguments and the page URL. */
  function EventData(ev: ClientEvent, url: string): seq<(string, Json)>
  {
    [("event_type", JStr(ev.eventType)), ("element_id", JStr(ev.elementId)), ("element_type", JStr(ev.elementType)),
     ("page_url", JStr(url)), ("additional_data", ev.data)]
  }

  /** The body `trackEvent` posts is read back as the call's request. */
  lemma BodyReadsAsCall(ev: ClientEvent, url: string)
    ensures ReadBody(JObject(EventData(ev, url))) == Success(RequestOf(ev, url))
  {
    ReadsPosted(ev.eventType, ev.elementId, ev.elementType, url, ev.data);
  }

  /** A later key that a dict spread does not already hold lands after the
      spread keys and does not disturb them. */
  lemma {:induction false} GetAfter(fields: seq<(string, Json)>, key: string, v: Json, k: string)
    requires !HasKey(fields, key)
    ensures Get(fields + [(key, v)], k) == (if k == key then Some(v) else Get(fields, k))
  {
    if |fields| > 0 {
      assert (fields + [(key, v)])[1..] == fields[1..] + [(key, v)];
      GetAfter(fields[1..], key, v, k);
    }
  }

  /** A queued entry: the posted body with the failure time added after
      its keys, which the body's own keys are unaffected by. */
  function Stamped(ev: ClientEvent, url: string, now: int): (j: Json)
    ensures j.JObject?
    ensures Get(j.fields, "timestamp") == Some(JInt(now))
    ensures forall k :: k != "timestamp" ==> Get(j.fields, k) == Get(EventData(ev, url), k)
  {
    var body := EventData(ev, url);
    assert Keys(body) == ["event_type", "element_id", "element_type", "page_url", "additional_data"];
    MissingKey(body, "timestamp");
    AppendedKey(body, "timestamp", JInt(now));
    JObject(body + [("timestamp", JInt(now))])
  }

  /** A key appended to a dict that lacks it is found, and every other key
      reads as before. */
  lemma AppendedKey(fields: seq<(string, Json)>, key: string, v: Json)
    requires !HasKey(fields, key)
    ensures Get(fields + [(key, v)], key) == Some(v)
    ensures forall k :: k != key ==> Get(fields + [(key, v)], k) == Get(fields, k)
  {
    forall k {
      GetAfter(fields, key, v, k);
    }
  }

  /** `storeFailedEvent`: the queued events gain one entry at the end, the
      stamped body; the earlier entries stay as they were. */
  function StoreFailedEvent(queue: seq<Json>, ev: ClientEvent, url: string, now: int): (r: seq<Json>)
    ensures |r| == |queue| + 1 && r[..|queue|] == queue
    ensures r[|queue|] == Stamped(ev, url, now)
  {
    var r := queue + [Stamped(ev, url, now)];
    assert r[..|queue|] == queue;
    r
  }

  // ---------------------------------------------------------------------
  // What the server makes of client events
  // ---------------------------------------------------------------------

  /** The request the endpoint reads for a call: every text field sent
      as a JSON string. */
  function RequestOf(ev: ClientEvent, url: string): TrackRequest
  {
    TrackRequest(Some(JStr(ev.eventType)), Some(JStr(ev.elementId)), Some(JStr(ev.elementType)), Some(JStr(url)),
                 Some(ev.data))
  }

  /** A call whose payload names none of the six column keys is stored,
      under its own event type and with its own element id and type. */
  lemma Stored(ev: ClientEvent, url: string, ctx: RequestContext, realText: real -> string)
    requires ev.data.JObject?
    requires forall k :: k in FamilyKeys ==> !HasKey(ev.data.fields, k)
    ensures ApiTrackBody(JObject(EventData(ev, url)), ctx, realText) == ApiTrackEvent(RequestOf(ev, url), ctx, realText)
    ensures ApiTrackEvent(RequestOf(ev, url), ctx, realText).Success?
    ensures ApiTrackEvent(RequestOf(ev, url), ctx, realText).value.eventType == ev.eventType
    ensures ApiTrackEvent(RequestOf(ev, url), ctx, realText).value.elementId == Some(ev.elementId)
    ensures ApiTrackEvent(RequestOf(ev, url), ctx, realText).value.elementType == Some(ev.elementType)
  {
    var req := RequestOf(ev, url);
    BodyReadsAsCall(ev, url);
    assert forall k :: k in FamilyKeys ==> ColumnValue(ev.data.fields, k).None?;
    assert ColumnsBindable(ev.data.fields, FamilyKeys);
    assert PayloadOf(req) == ev.data && TextFieldsBindable(req);
  }

  /** A payload whose keys are none of the six column keys fills no
      column. */
  lemma NoFamilyKeys(fields: seq<(string, Json)>)
    requires forall k :: k in FamilyKeys ==> k !in Keys(fields)
    ensures forall k :: k in FamilyKeys ==> !HasKey(fields, k)
  {
    forall k | k in FamilyKeys
      ensures !HasKey(fields, k)
    {
      MissingKey(fields, k);
    }
  }

  /** Throttled mouse movements are stored, but every report discards
      them as telemetry noise. */
  lemma MouseIsNoise(st: MouseState, m: Move, url: string, ctx: RequestContext, realText: real -> string)
    ensures var r := ApiTrackBody(JObject(EventData(MouseEvent(st, m, url), url)), ctx, realText);
      r.Success? && !IsMeaningful(r.value)
  {
    var ev := MouseEvent(st, m, url);
    assert forall k :: k in FamilyKeys ==> !HasKey(ev.data.fields, k);
    Stored(ev, url, ctx, realText);
  }

  /** So are the time-on-page ticks. */
  lemma TickIsNoise(elapsedMs: int, url: string, ctx: RequestContext, realText: real -> string)
    requires TimeTick(elapsedMs, url).Some?
    ensures var r := ApiTrackBody(JObject(EventData(TimeTick(elapsedMs, url).value, url)), ctx, realText);
      r.Success? && !IsMeaningful(r.value)
  {
    var ev := TimeTick(elapsedMs, url).value;
    assert forall k :: k in FamilyKeys ==> !HasKey(ev.data.fields, k);
    Stored(ev, url, ctx, realText);
  }

  /** Key combinations are kept by every report. */
  lemma KeyboardIsMeaningful(ctrl: bool, meta: bool, shift: bool, alt: bool, key: string, url: string, ctx: RequestContext, realText: real -> string)
    requires ctrl || meta
    ensures var r := ApiTrackBody(JObject(EventData(KeyEvent(ctrl, meta, shift, alt, key).value, url)), ctx, realText);
      r.Success? && IsMeaningful(r.value)
  {
    var ev := KeyEvent(ctrl, meta, shift, alt, key).value;
    KeyPayload(ctrl, meta, shift, alt, key);
    assert ev.eventType == "keyboard" && ev.eventType !in NoiseTypes;
    StoredMeaningful(ev, url, ctx, realText);
  }

  /** A call of a meaningful type whose payload names none of the six
      column keys is stored, and every report keeps it. */
  lemma StoredMeaningful(ev: ClientEvent, url: string, ctx: RequestContext, realText: real -> string)
    requires ev.data.JObject? && ev.eventType !in NoiseTypes
    requires forall k :: k in FamilyKeys ==> !HasKey(ev.data.fields, k)
    ensures var r := ApiTrackBody(JObject(EventData(ev, url)), ctx, realText);
      r.Success? && IsMeaningful(r.value)
  {
    Stored(ev, url, ctx, realText);
  }

  /** A key-combination payload names the key and the four modifier
      flags, and none of the six column keys. */
  lemma KeyPayload(ctrl: bool, meta: bool, shift: bool, alt: bool, key: string)
    requires ctrl || meta
    ensures KeyEvent(ctrl, meta, shift, alt, key).value.data.JObject?
    ensures Keys(KeyEvent(ctrl, meta, shift, alt, key).value.data.fields) == ["key", "ctrl_key", "meta_key", "shift_key", "alt_key"]
    ensures forall k :: k in FamilyKeys ==> !HasKey(KeyEvent(ctrl, meta, shift, alt, key).value.data.fields, k)
  {
    KeyFields(ctrl, meta, shift, alt, key);
    NoFamilyKeys(KeyEvent(ctrl, meta, shift, alt, key).value.data.fields);
  }

  lemma KeyFields(ctrl: bool, meta: bool, shift: bool, alt: bool, key: string)
    requires ctrl || meta
    ensures KeyEvent(ctrl, meta, shift, alt, key).value.data.JObject?
    ensures Keys(KeyEvent(ctrl, meta, shift, alt, key).value.data.fields) == ["key", "ctrl_key", "meta_key", "shift_key", "alt_key"]
  {
  }
}
