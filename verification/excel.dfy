/** The spreadsheet export (`export_excel`, app.py): a header row and one
    seven-cell row per meaningful event, newest first, with raw column
    values (not the activity report's display names), and a width for each
    column. */
module Excel {
  import opened Wrappers
  import opened Text
  import opened JsonValues
  import opened Events
  import opened Seqs
  import opened Timestamps

  const Headers: seq<string> := ["Time", "Event Context", "Component", "Event Name", "Description", "Origin", "IP Address"]

  /** Number of cells in each row. */
  const Columns: nat := 7

  /** One `key: value` item of a dict description. */
  function PairText(field: (string, Json), floatStr: real -> string): string
  {
    field.0 + ": " + Str(field.1, floatStr)
  }

  /** The `key: value` items of a dict, in payload order. */
  function PairTexts(fields: seq<(string, Json)>, floatStr: real -> string): (r: seq<string>)
    ensures |r| == |fields|
    ensures forall i :: 0 <= i < |fields| ==> r[i] == PairText(fields[i], floatStr)
  {
    seq(|fields|, i requires 0 <= i < |fields| => PairText(fields[i], floatStr))
  }

  /** The Description cell: a dict payload as its `key: value` items joined
      by `, `, any other decoded payload as Python prints it, text that does
      not decode as it is; without a payload, the element id, or `N/A`. */
  function Description(e: Event, floatStr: real -> string): (r: string)
    ensures PayloadPresent(e.additionalData) && e.additionalData.Parsed? && e.additionalData.value.JObject? ==>
      r == Join(PairTexts(e.additionalData.value.fields, floatStr), ", ")
    ensures PayloadPresent(e.additionalData) && e.additionalData.Parsed? && !e.additionalData.value.JObject? ==>
      r == Str(e.additionalData.value, floatStr)
    ensures PayloadPresent(e.additionalData) && e.additionalData.Unparseable? ==> r == e.additionalData.raw
    ensures !PayloadPresent(e.additionalData) ==>
      r == (if TextPresent(e.elementId) then "Element: " + e.elementId.value else "N/A")
  {
    if PayloadPresent(e.additionalData) then
      match e.additionalData
      case Parsed(JObject(fields)) => Join(PairTexts(fields, floatStr), ", ")
      case Parsed(j) => Str(j, floatStr)
      case Unparseable(raw) => raw
    else if TextPresent(e.elementId) then "Element: " + e.elementId.value
    else "N/A"
  }

  /** A dict description mentions every `key: value` item of the payload. */
  lemma DescriptionMentionsEveryPair(e: Event, floatStr: real -> string, i: nat)
    requires e.additionalData.Parsed? && e.additionalData.value.JObject?
    requires i < |e.additionalData.value.fields|
    ensures Contains(Description(e, floatStr), PairText(e.additionalData.value.fields[i], floatStr))
  {
    JoinHasPart(PairTexts(e.additionalData.value.fields, floatStr), ", ", i);
  }

  /** A decoded empty dict is described by the empty text, not by `N/A`
      and not by the element id. */
  lemma EmptyDictDescription(e: Event, floatStr: real -> string)
    requires e.additionalData == Parsed(JObject([]))
    ensures Description(e, floatStr) == ""
  {
  }

  /** The Origin cell: the joined user's name and email, or `Anonymous`. */
  function Origin(account: Option<Account>): (r: string)
    ensures account.Some? && |account.value.username| > 0 ==>
      r == "User: " + account.value.username + " (" + account.value.email + ")"
    ensures !(account.Some? && |account.value.username| > 0) ==> r == "Anonymous"
  {
    if account.Some? && |account.value.username| > 0 then
      "User: " + account.value.username + " (" + account.value.email + ")"
    else "Anonymous"
  }

  /** The seven cells for one event joined with its user. */
  function Row(e: Event, users: map<nat, Account>, floatStr: real -> string): (r: seq<string>)
    ensures |r| == Columns
    ensures r[0] == MillisText(e.timestamp)
    ensures r[1] == OrDefault(e.pageUrl, "N/A") && r[2] == OrDefault(e.elementType, "N/A")
    ensures r[3] == e.eventType
    ensures r[4] == Description(e, floatStr) && r[5] == Origin(AccountOf(e, users))
    ensures r[6] == OrDefault(e.ipAddress, "N/A")
  {
    Cells(MillisText(e.timestamp), OrDefault(e.pageUrl, "N/A"), OrDefault(e.elementType, "N/A"), e.eventType,
          Description(e, floatStr), Origin(AccountOf(e, users)), OrDefault(e.ipAddress, "N/A"))
  }

  function Cells(a: string, b: string, c: string, d: string, e: string, f: string, g: string): (r: seq<string>)
    ensures |r| == 7 && r[0] == a && r[1] == b && r[2] == c && r[3] == d && r[4] == e && r[5] == f && r[6] == g
  {
    [a, b, c, d, e, f, g]
  }

  /** Every row of the sheet has one cell per column. */
  predicate WellFormed(rows: seq<seq<string>>)
  {
    forall i :: 0 <= i < |rows| ==> |rows[i]| == Columns
  }

  /** Every event has a full row of cells. */
  ghost predicate RowsFull(row: Event -> seq<string>)
  {
    forall e :: |row(e)| == Columns
  }

  lemma RowIsFull(users: map<nat, Account>, floatStr: real -> string)
    ensures RowsFull(e => Row(e, users, floatStr))
  {
  }

  /** The sheet, given the cells written for one event (`Row` with the user
      table and the float rendering): the header row, then one row per
      meaningful event, newest first. */
  function Sheet(store: seq<Event>, row: Event -> seq<string>): (rows: seq<seq<string>>)
    requires RowsFull(row)
    ensures |rows| == 1 + CountIf(store, IsMeaningful)
    ensures rows[0] == Headers
    ensures forall i :: 1 <= i < |rows| ==> rows[i] == row(NewestMeaningful(store)[i - 1])
  {
    WithHeader(NewestMeaningful(store), row)
  }

  /** The header row followed by the rows of `events`, in order. */
  function WithHeader(events: seq<Event>, row: Event -> seq<string>): (rows: seq<seq<string>>)
    ensures |rows| == 1 + |events|
    ensures rows[0] == Headers
    ensures forall i :: 1 <= i < |rows| ==> rows[i] == row(events[i - 1])
  {
    [Headers] + seq(|events|, i requires 0 <= i < |events| => row(events[i]))
  }

  /** Every row of the sheet has one cell per column. */
  lemma SheetWellFormed(store: seq<Event>, row: Event -> seq<string>)
    requires RowsFull(row)
    ensures WellFormed(Sheet(store, row))
  {
    var rows := Sheet(store, row);
    assert |Headers| == Columns;
    forall i | 0 <= i < |rows|
      ensures |rows[i]| == Columns
    {
      if i > 0 {
        assert rows[i] == row(NewestMeaningful(store)[i - 1]);
      }
    }
  }

  /** Every meaningful event of the store has its row in the sheet. */
  lemma SheetCoversMeaningful(store: seq<Event>, row: Event -> seq<string>, e: Event) returns (i: nat)
    requires RowsFull(row)
    requires e in store && IsMeaningful(e)
    ensures 1 <= i < |Sheet(store, row)|
    ensures Sheet(store, row)[i] == row(e)
  {
    var s := NewestMeaningful(store);
    assert e in s;
    i := WithHeaderCovers(s, row, e);
  }

  /** Every listed event has its row below the header. */
  lemma WithHeaderCovers(events: seq<Event>, row: Event -> seq<string>, e: Event) returns (i: nat)
    requires e in events
    ensures 1 <= i < |WithHeader(events, row)| && WithHeader(events, row)[i] == row(e)
  {
    var j := IndexOf(events, e);
    i := j + 1;
  }

  /** Every data row of the sheet is the row of a meaningful stored event. */
  lemma SheetRowsFromStore(store: seq<Event>, row: Event -> seq<string>, i: nat)
    requires RowsFull(row)
    requires 1 <= i <= CountIf(store, IsMeaningful)
    ensures exists e :: e in store && IsMeaningful(e) && Sheet(store, row)[i] == row(e)
  {
    var e := NewestMeaningful(store)[i - 1];
    assert e in store && IsMeaningful(e);
  }

  /** `export_excel`'s rows: the sheet with `Row` as the cells of an
      event. */
  function ExportExcel(store: seq<Event>, users: map<nat, Account>, floatStr: real -> string): (rows: seq<seq<string>>)
    ensures WellFormed(rows)
    ensures |rows| == 1 + CountIf(store, IsMeaningful) && rows[0] == Headers
    ensures forall i :: 1 <= i < |rows| ==> rows[i] == Row(NewestMeaningful(store)[i - 1], users, floatStr)
  {
    var row := e => Row(e, users, floatStr);
    RowIsFull(users, floatStr);
    SheetWellFormed(store, row);
    Sheet(store, row)
  }

  /** Every meaningful event of the store has its cells in the export. */
  lemma ExportExcelCovers(store: seq<Event>, users: map<nat, Account>, floatStr: real -> string, e: Event)
    returns (i: nat)
    requires e in store && IsMeaningful(e)
    ensures 1 <= i < |ExportExcel(store, users, floatStr)|
    ensures ExportExcel(store, users, floatStr)[i] == Row(e, users, floatStr)
  {
    RowIsFull(users, floatStr);
    i := SheetCoversMeaningful(store, e => Row(e, users, floatStr), e);
  }

  // ---------------------------------------------------------------------
  // Column widths
  // ---------------------------------------------------------------------

  /** The width cap. */
  const MaxWidth: nat := 50

  /** The longest cell of column `c`. */
  function LongestCell(rows: seq<seq<string>>, c: nat): (m: nat)
    requires forall i :: 0 <= i < |rows| ==> c < |rows[i]|
    ensures forall i :: 0 <= i < |rows| ==> |rows[i][c]| <= m
    ensures |rows| > 0 ==> exists i :: 0 <= i < |rows| && |rows[i][c]| == m
    ensures |rows| == 0 ==> m == 0
  {
    if |rows| == 0 then 0
    else
      var rest := LongestCell(rows[1..], c);
      assert forall i :: 1 <= i < |rows| ==> rows[i] == rows[1..][i - 1];
      if |rows[0][c]| >= rest then |rows[0][c]| else rest
  }

  /** A column's width: two more than its longest cell, at most 50. */
  function ColumnWidth(rows: seq<seq<string>>, c: nat): (w: nat)
    requires forall i :: 0 <= i < |rows| ==> c < |rows[i]|
    ensures w <= MaxWidth
    ensures forall i :: 0 <= i < |rows| ==> Min(|rows[i][c]| + 2, MaxWidth) <= w
    ensures |rows| > 0 ==> w == MaxWidth || exists i :: 0 <= i < |rows| && w == |rows[i][c]| + 2
    ensures |rows| == 0 ==> w == 2
  {
    Min(LongestCell(rows, c) + 2, MaxWidth)
  }

  /** The widths of all seven columns of a sheet. */
  function ColumnWidths(rows: seq<seq<string>>): (ws: seq<nat>)
    requires WellFormed(rows)
    ensures |ws| == Columns
    ensures forall c :: 0 <= c < Columns ==> ws[c] == ColumnWidth(rows, c)
  {
    seq(Columns, c requires 0 <= c < Columns => ColumnWidth(rows, c))
  }

  lemma HeadersFit(c: nat)
    requires c < Columns
    ensures |Headers[c]| + 2 <= MaxWidth
  {
    assert |Headers[0]| == 4 && |Headers[1]| == 13 && |Headers[2]| == 9 && |Headers[3]| == 10;
    assert |Headers[4]| == 11 && |Headers[5]| == 6 && |Headers[6]| == 10;
  }

  /** Widths never fall below the header's: each column is at least as
      wide as its title plus two. */
  lemma WidthsFitHeaders(store: seq<Event>, row: Event -> seq<string>, c: nat)
    requires RowsFull(row)
    requires c < Columns
    ensures ColumnWidth(Sheet(store, row), c) >= |Headers[c]| + 2
  {
    var rows := Sheet(store, row);
    SheetWellFormed(store, row);
    assert rows[0][c] == Headers[c];
    HeadersFit(c);
  }
}
