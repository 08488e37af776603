/** Properties that span the pipeline: what the reports make of the events
    the quiz submission records, and how the two ingestion paths' handling
    of an empty payload shows up in the spreadsheet. */
module Pipeline {
  import opened Wrappers
  import opened JsonValues
  import opened Events
  import opened Ingestion
  import Quiz
  import Narrative
  import Excel
  import Text
  import Client

  /** A per-question call of the quiz submission is described in the
      activity report as an answered question: its payload has an
      `answer_selected` key and no `score` key. */
  lemma QuestionCallNarrated(lessonId: Json, q: Quiz.Question, answer: Option<Json>, ctx: RequestContext, floatStr: real -> string)
    ensures Narrative.QuizClause(TrackEvent(Quiz.QuestionCall(lessonId, q, answer), ctx).additionalData, floatStr)
      == " answered a quiz question"
  {
    var call := Quiz.QuestionCall(lessonId, q, answer);
    var fields := call.additionalData.value.fields;
    assert Truthy(call.additionalData.value);
    assert !HasKey(fields, "score");
    assert fields[2].0 == "answer_selected";
  }

  /** The completion call is described with the score it carries. */
  lemma CompletionCallNarrated(lessonId: Json, score: real, total: nat, ctx: RequestContext, floatStr: real -> string)
    ensures Narrative.QuizClause(TrackEvent(Quiz.CompletionCall(lessonId, score, total, floatStr), ctx).additionalData, floatStr)
      == " completed a quiz with score " + floatStr(score) + "%"
  {
    var call := Quiz.CompletionCall(lessonId, score, total, floatStr);
    var fields := call.additionalData.value.fields;
    assert Truthy(call.additionalData.value);
    assert fields[0] == ("score", JFloat(score));
  }

  /** A request without a payload reaches the spreadsheet with an empty
      Description (the stored `{}` is a dict with no items), while a
      server-side call with an empty payload falls back to its element
      id. */
  lemma EmptyPayloadDescriptions(req: TrackRequest, call: TrackCall, ctx: RequestContext,
                                 floatStr: real -> string, realText: real -> string)
    requires req.eventType.Some? && !req.eventType.value.JNull? && req.additionalData.None?
    requires TextFieldsBindable(req)
    requires call.additionalData == Some(JObject([]))
    ensures ApiTrackEvent(req, ctx, realText).Success?
    ensures Excel.Description(ApiTrackEvent(req, ctx, realText).value, floatStr) == ""
    ensures Excel.Description(TrackEvent(call, ctx), floatStr)
      == (if |call.elementId| > 0 then "Element: " + call.elementId else "N/A")
  {
    EmptyPayloadPaths(req, call, ctx, realText);
    Excel.EmptyDictDescription(ApiTrackEvent(req, ctx, realText).value, floatStr);
  }

  /** A button click sent by the browser is stored and described as a
      click on a button element, with the id the browser chose (the
      button text, else its class attribute) and the button text as the
      control note. */
  lemma ButtonClickDescribed(t: Client.Target, loc: Json, url: string, ctx: RequestContext,
                             username: Option<string>, floatStr: real -> string, realText: real -> string)
    ensures var r := ApiTrackBody(JObject(Client.EventData(Client.ButtonClick(t, loc), url)), ctx, realText);
      var id := Client.Either(Text.JsTrim(t.text), t.className);
      && r.Success?
      && Narrative.Description(r.value, username, floatStr, realText)
         == Narrative.Opening(username) + Narrative.ClickClause("Button", Some(id))
            + (" (Button: '" + Text.JsTrim(t.text) + "')")
  {
    ButtonFree(t, loc);
    ButtonNote(t, loc, floatStr);
    ClickPipe(Client.ButtonClick(t, loc), url, ctx, username, floatStr, realText,
              "Button", " (Button: '" + Text.JsTrim(t.text) + "')");
  }

  /** A link click sent by the browser is described as a click on a
      navigation element whose id is the link's address, with the link
      text as the control note. */
  lemma LinkClickDescribed(t: Client.Target, loc: Json, url: string, ctx: RequestContext,
                           username: Option<string>, floatStr: real -> string, realText: real -> string)
    ensures var r := ApiTrackBody(JObject(Client.EventData(Client.LinkClick(t, loc), url)), ctx, realText);
      && r.Success?
      && Narrative.Description(r.value, username, floatStr, realText)
         == Narrative.Opening(username) + Narrative.ClickClause("Navigation", Some(t.href))
            + (" (Link: '" + Text.JsTrim(t.text) + "')")
  {
    LinkFree(t, loc);
    LinkNote(t, loc, floatStr);
    ClickPipe(Client.LinkClick(t, loc), url, ctx, username, floatStr, realText,
              "Navigation", " (Link: '" + Text.JsTrim(t.text) + "')");
  }

  /** Any click whose payload is a dict without column keys is stored and
      described by its component, its id and its note. */
  lemma ClickPipe(ev: Client.ClientEvent, url: string, ctx: RequestContext, username: Option<string>,
                  floatStr: real -> string, realText: real -> string, component: string, note: string)
    requires ev.eventType == "click" && ev.data.JObject?
    requires forall k :: k in FamilyKeys ==> !HasKey(ev.data.fields, k)
    requires Narrative.Component(Some(ev.elementType)) == component
    requires Narrative.ControlNote(Parsed(ev.data), floatStr) == note
    ensures var r := ApiTrackBody(JObject(Client.EventData(ev, url)), ctx, realText);
      && r.Success?
      && Narrative.Description(r.value, username, floatStr, realText)
         == Narrative.Opening(username) + Narrative.ClickClause(component, Some(ev.elementId)) + note
  {
    var e := ClickStored(ev, url, ctx, realText);
    Narrative.ClickDescribed(e, username, floatStr, realText);
  }

  /** The stored row of a click the browser posts. */
  lemma ClickStored(ev: Client.ClientEvent, url: string, ctx: RequestContext, realText: real -> string) returns (e: Event)
    requires ev.data.JObject?
    requires forall k :: k in FamilyKeys ==> !HasKey(ev.data.fields, k)
    ensures ApiTrackBody(JObject(Client.EventData(ev, url)), ctx, realText) == Success(e)
    ensures e.eventType == ev.eventType && e.elementType == Some(ev.elementType)
    ensures e.elementId == Some(ev.elementId)
    ensures e.additionalData == Parsed(ev.data)
  {
    Client.Stored(ev, url, ctx, realText);
    e := ApiTrackEvent(Client.RequestOf(ev, url), ctx, realText).value;
  }

  /** Neither click payload carries a key the tracking route reads as a
      column of its own. */
  lemma ButtonFree(t: Client.Target, loc: Json)
    ensures forall k :: k in FamilyKeys ==> !HasKey(Client.ButtonClick(t, loc).data.fields, k)
  {
    ButtonKeys(t, loc);
    Client.NoFamilyKeys(Client.ButtonClick(t, loc).data.fields);
  }

  lemma ButtonKeys(t: Client.Target, loc: Json)
    ensures Keys(Client.ButtonClick(t, loc).data.fields)
      == ["button_text", "button_class", "button_type", "button_context", "click_location"]
  {
  }

  lemma LinkFree(t: Client.Target, loc: Json)
    ensures forall k :: k in FamilyKeys ==> !HasKey(Client.LinkClick(t, loc).data.fields, k)
  {
    LinkKeys(t, loc);
    Client.NoFamilyKeys(Client.LinkClick(t, loc).data.fields);
  }

  lemma LinkKeys(t: Client.Target, loc: Json)
    ensures Keys(Client.LinkClick(t, loc).data.fields)
      == ["link_text", "link_href", "link_type", "link_context", "click_location"]
  {
  }

  /** The control note of a link click is its text. */
  lemma LinkNote(t: Client.Target, loc: Json, floatStr: real -> string)
    ensures Narrative.ControlNote(Parsed(Client.LinkClick(t, loc).data), floatStr)
      == " (Link: '" + Text.JsTrim(t.text) + "')"
  {
    Client.LinkPayload(t, loc);
    Narrative.LinkNoted(Client.LinkClick(t, loc).data.fields, Text.JsTrim(t.text), floatStr);
  }

  /** The control note of a button click is its text. */
  lemma ButtonNote(t: Client.Target, loc: Json, floatStr: real -> string)
    ensures Narrative.ControlNote(Parsed(Client.ButtonClick(t, loc).data), floatStr)
      == " (Button: '" + Text.JsTrim(t.text) + "')"
  {
    Client.ButtonPayload(t, loc);
    Narrative.ButtonNoted(Client.ButtonClick(t, loc).data.fields, Text.JsTrim(t.text), floatStr);
  }
}
