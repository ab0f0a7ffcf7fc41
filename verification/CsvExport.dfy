/**
 The CSV export of audit events, and the LF-terminated reader of section 2 of
 RFC 4180 that undoes it.
 */
module CsvExport {
  import opened Prelude
  import opened Texts

  /** The exported columns of an audit event, as their texts. */
  datatype Event = Event(
    id: string,
    occurredAt: string,
    principalType: string,
    actorUserId: Option<string>,
    action: string,
    resourceType: string,
    resourceId: string,
    result: string,
    errorCode: string,
    requestId: string,
    commandId: string,
    ip: string)

  const NAMES: seq<string> := [
    "id", "occurred_at", "principal_type", "actor_user_id", "action", "resource_type",
    "resource_id", "result", "error_code", "request_id", "command_id", "ip"]

  function ActorText(e: Event): string { if e.actorUserId.Some? then e.actorUserId.value else "" }

  function Fields(e: Event): seq<string> {
    [e.id, e.occurredAt, e.principalType, ActorText(e), e.action, e.resourceType,
     e.resourceId, e.result, e.errorCode, e.requestId, e.commandId, e.ip]
  }

  /** A text that needs no quoting. */
  predicate Free(s: string) { ',' !in s && '"' !in s && '\n' !in s }

  function Escape(s: string): string {
    if ',' in s || '"' in s || '\n' in s then ['"'] + ReplaceAll(s, ['"'], ['"', '"']) + ['"'] else s
  }

  /** The texts of a row: free text escaped, identifiers, times and enumerations as they are. */
  function Cells(e: Event): seq<string> {
    [e.id, e.occurredAt, e.principalType, ActorText(e), Escape(e.action), Escape(e.resourceType),
     Escape(e.resourceId), e.result, Escape(e.errorCode), Escape(e.requestId), Escape(e.commandId), Escape(e.ip)]
  }

  /** The texts separated by commas, and a line feed. */
  function Line(cells: seq<string>): string
    requires cells != []
  {
    if |cells| == 1 then cells[0] + ['\n'] else cells[0] + ([','] + Line(cells[1..]))
  }

  function Lines(es: seq<Event>): string {
    if es == [] then "" else Line(Cells(es[0])) + Lines(es[1..])
  }

  /** A heading and a row for every event. */
  function Export(names: seq<string>, es: seq<Event>): string
    requires names != []
  {
    Line(names) + Lines(es)
  }

  method CsvResponse(names: seq<string>, events: seq<Event>) returns (csv: string)
    requires names != []
    ensures csv == Export(names, events)
  {
    csv := Line(names);
    assert events[0..] == events;
    for i := 0 to |events|
      invariant csv + Lines(events[i..]) == Export(names, events)
    {
      ghost var line := Line(Cells(events[i]));
      assert Lines(events[i..]) == line + Lines(events[i + 1..]) by { assert events[i..][1..] == events[i + 1..]; }
      assert csv + (line + Lines(events[i + 1..])) == csv + line + Lines(events[i + 1..]);
      csv := csv + Line(Cells(events[i]));
    }
    assert csv + "" == csv;
  }

  // ---------------------------------------------------------------------
  // The reader
  // ---------------------------------------------------------------------

  function Cons<T>(x: T, r: Option<(seq<T>, nat)>): Option<(seq<T>, nat)> {
    if r.Some? then Some(([x] + r.value.0, r.value.1)) else None
  }

  /** A quoted field, read after its opening quote; a doubled quote stands for one. */
  function ReadQuoted(t: string, i: nat): (r: Option<(string, nat)>)
    requires i <= |t|
    ensures r.Some? ==> i < r.value.1 <= |t|
    decreases |t| - i
  {
    if i == |t| then None
    else if t[i] != '"' then Cons(t[i], ReadQuoted(t, i + 1))
    else if i + 1 < |t| && t[i + 1] == '"' then Cons('"', ReadQuoted(t, i + 2))
    else Some(("", i + 1))
  }

  /** An unquoted field, up to a comma, a line feed or the end. */
  function ReadPlain(t: string, i: nat): (r: Option<(string, nat)>)
    requires i <= |t|
    ensures r.Some? ==> i <= r.value.1 <= |t|
    decreases |t| - i
  {
    if i == |t| || t[i] == ',' || t[i] == '\n' then Some(("", i))
    else if t[i] == '"' then None
    else Cons(t[i], ReadPlain(t, i + 1))
  }

  function ReadField(t: string, i: nat): (r: Option<(string, nat)>)
    requires i <= |t|
    ensures r.Some? ==> i <= r.value.1 <= |t|
  {
    if i < |t| && t[i] == '"' then ReadQuoted(t, i + 1) else ReadPlain(t, i)
  }

  /** Fields separated by commas and ended by a line feed. */
  function ReadRecord(t: string, i: nat): (r: Option<(seq<string>, nat)>)
    requires i <= |t|
    ensures r.Some? ==> i < r.value.1 <= |t|
    decreases |t| - i
  {
    var f := ReadField(t, i);
    if f.None? || f.value.1 == |t| then None
    else if t[f.value.1] == '\n' then Some(([f.value.0], f.value.1 + 1))
    else if t[f.value.1] == ',' then Cons(f.value.0, ReadRecord(t, f.value.1 + 1))
    else None
  }

  function ReadCsv(t: string, i: nat): Option<seq<seq<string>>>
    requires i <= |t|
    decreases |t| - i
  {
    if i == |t| then Some([])
    else
      var r := ReadRecord(t, i);
      if r.None? then None
      else
        var rest := ReadCsv(t, r.value.1);
        if rest.None? then None else Some([r.value.0] + rest.value)
  }

  // ---------------------------------------------------------------------
  // Fields
  // ---------------------------------------------------------------------

  /** A field ends where a comma or a line feed stands. */
  predicate EndsAt(t: string, j: nat) { j < |t| && (t[j] == ',' || t[j] == '\n') }

  lemma {:induction false} PlainIsRead(t: string, i: nat, s: string)
    requires Free(s) && At(t, i, s) && EndsAt(t, i + |s|)
    ensures ReadPlain(t, i) == Some((s, i + |s|))
    decreases |s|
  {
    if s != "" {
      assert s == [s[0]] + s[1..];
      AtFirst(t, i, s[0], s[1..]);
      PlainIsRead(t, i + 1, s[1..]);
    }
  }

  function Doubled(s: string): string { ReplaceAll(s, ['"'], ['"', '"']) }

  lemma DoubledFirst(c: char, s: string)
    ensures Doubled([c] + s) == (if c == '"' then ['"', '"'] else [c]) + Doubled(s)
  {
    assert ([c] + s)[1..] == s && ([c] + s)[..1] == [c];
  }

  lemma {:induction false} QuotedIsRead(t: string, i: nat, s: string)
    requires At(t, i, Doubled(s) + ['"']) && EndsAt(t, i + |Doubled(s)| + 1)
    ensures ReadQuoted(t, i) == Some((s, i + |Doubled(s)| + 1))
    decreases |s|
  {
    if s == "" {
      assert Doubled(s) + ['"'] == ['"'];
      AtChar(t, i, '"');
    } else {
      assert s == [s[0]] + s[1..];
      DoubledFirst(s[0], s[1..]);
      var rest := Doubled(s[1..]) + ['"'];
      if s[0] == '"' {
        assert Doubled(s) + ['"'] == ['"'] + (['"'] + rest);
        AtFirst(t, i, '"', ['"'] + rest);
        AtFirst(t, i + 1, '"', rest);
        QuotedIsRead(t, i + 2, s[1..]);
      } else {
        assert Doubled(s) + ['"'] == [s[0]] + rest;
        AtFirst(t, i, s[0], rest);
        QuotedIsRead(t, i + 1, s[1..]);
      }
    }
  }

  lemma FieldIsRead(t: string, i: nat, s: string)
    requires At(t, i, Escape(s)) && EndsAt(t, i + |Escape(s)|)
    ensures ReadField(t, i) == Some((s, i + |Escape(s)|))
  {
    if Free(s) {
      assert s != "" ==> t[i + 0] == s[0];
      PlainIsRead(t, i, s);
      assert ReadPlain(t, i) == Some((s, i + |s|));
    } else {
      assert Escape(s) == ['"'] + (Doubled(s) + ['"']);
      AtFirst(t, i, '"', Doubled(s) + ['"']);
      QuotedIsRead(t, i + 1, s);
      assert ReadQuoted(t, i + 1) == Some((s, i + |Escape(s)|));
    }
  }

  // ---------------------------------------------------------------------
  // Records
  // ---------------------------------------------------------------------

  /** The cells of a row are the escaped forms of its values. */
  predicate Escapes(cells: seq<string>, vs: seq<string>) {
    |cells| == |vs| > 0 && forall k :: 0 <= k < |vs| ==> cells[k] == Escape(vs[k])
  }

  lemma {:induction false} RecordIsRead(t: string, i: nat, cells: seq<string>, vs: seq<string>)
    requires Escapes(cells, vs) && At(t, i, Line(cells))
    ensures ReadRecord(t, i) == Some((vs, i + |Line(cells)|))
    decreases |vs|
  {
    hide At, Escape, ReadField;
    var s := cells[0];
    assert s == Escape(vs[0]);
    if |vs| == 1 {
      AtSplit(t, i, s, ['\n']);
      AtChar(t, i + |s|, '\n');
      FieldIsRead(t, i, vs[0]);
      assert ReadField(t, i) == Some((vs[0], i + |s|));
      assert vs == [vs[0]];
    } else {
      AtSplit(t, i, s, [','] + Line(cells[1..]));
      AtFirst(t, i + |s|, ',', Line(cells[1..]));
      FieldIsRead(t, i, vs[0]);
      assert ReadField(t, i) == Some((vs[0], i + |s|));
      RecordIsRead(t, i + |s| + 1, cells[1..], vs[1..]);
      assert ReadRecord(t, i + |s| + 1) == Some((vs[1..], i + |Line(cells)|));
      assert vs == [vs[0]] + vs[1..];
    }
  }

  // ---------------------------------------------------------------------
  // The export
  // ---------------------------------------------------------------------

  /** The columns that are written as they are need no quoting. */
  predicate PlainColumns(e: Event) {
    Free(e.id) && Free(e.occurredAt) && Free(e.principalType) && Free(ActorText(e)) && Free(e.result)
  }

  lemma FreeIsKept(s: string)
    requires Free(s)
    ensures Escape(s) == s
  {
  }

  /** The columns that are written as they are. */
  predicate AsIs(k: nat) { k < 4 || k == 7 }

  lemma CellIs(e: Event, k: nat)
    requires k < 12
    ensures Cells(e)[k] == if AsIs(k) then Fields(e)[k] else Escape(Fields(e)[k])
    ensures AsIs(k) && PlainColumns(e) ==> Free(Fields(e)[k])
  {
  }

  lemma CellsEscapeFields(e: Event)
    requires PlainColumns(e)
    ensures Escapes(Cells(e), Fields(e))
  {
    forall k | 0 <= k < 12 ensures Cells(e)[k] == Escape(Fields(e)[k]) {
      CellIs(e, k);
      if AsIs(k) {
        FreeIsKept(Fields(e)[k]);
      }
    }
  }

  function FieldsOf(es: seq<Event>): (r: seq<seq<string>>)
    ensures |r| == |es| && forall k :: 0 <= k < |es| ==> r[k] == Fields(es[k])
  {
    if es == [] then [] else [Fields(es[0])] + FieldsOf(es[1..])
  }

  lemma ReadOne(t: string, i: nat, cells: seq<string>, vs: seq<string>, j: nat, rest: seq<seq<string>>)
    requires Escapes(cells, vs) && At(t, i, Line(cells)) && j == i + |Line(cells)| && ReadCsv(t, j) == Some(rest)
    ensures ReadCsv(t, i) == Some([vs] + rest)
  {
    RecordIsRead(t, i, cells, vs);
    assert ReadRecord(t, i) == Some((vs, j));
    assert ReadCsv(t, j) == Some(rest);
  }

  lemma {:induction false} LinesAreRead(t: string, i: nat, es: seq<Event>)
    requires forall k :: 0 <= k < |es| ==> PlainColumns(es[k])
    requires At(t, i, Lines(es)) && i + |Lines(es)| == |t|
    ensures ReadCsv(t, i) == Some(FieldsOf(es))
    decreases |es|
  {
    if es != [] {
      var line := Line(Cells(es[0]));
      AtSplit(t, i, line, Lines(es[1..]));
      LinesAreRead(t, i + |line|, es[1..]);
      CellsEscapeFields(es[0]);
      assert ReadCsv(t, i + |line|) == Some(FieldsOf(es[1..]));
      ReadOne(t, i, Cells(es[0]), Fields(es[0]), i + |line|, FieldsOf(es[1..]));
    }
  }

  lemma ExportParts(names: seq<string>, es: seq<Event>)
    requires names != []
    ensures var t, n := Export(names, es), |Line(names)|;
            At(t, 0, Line(names)) && At(t, n, Lines(es)) && n + |Lines(es)| == |t|
  {
    assert At(Export(names, es), 0, Line(names) + Lines(es));
    AtSplit(Export(names, es), 0, Line(names), Lines(es));
  }

  /**
   Reading the export gives back the header and every event's twelve fields,
   whatever text the escaped columns hold.
   */
  lemma ExportReadsBack(names: seq<string>, es: seq<Event>)
    requires names != [] && forall k :: 0 <= k < |names| ==> Free(names[k])
    requires forall k :: 0 <= k < |es| ==> PlainColumns(es[k])
    ensures ReadCsv(Export(names, es), 0) == Some([names] + FieldsOf(es))
  {
    var t := Export(names, es);
    ExportParts(names, es);
    LinesAreRead(t, |Line(names)|, es);
    assert ReadCsv(t, |Line(names)|) == Some(FieldsOf(es));
    ReadOne(t, 0, names, names, |Line(names)|, FieldsOf(es));
  }

  lemma NamesAreFree(k: nat)
    requires k < |NAMES|
    ensures Free(NAMES[k])
  {
    var name := NAMES[k];
    forall j | 0 <= j < |name| ensures name[j] != ',' && name[j] != '"' && name[j] != '\n' {
    }
  }

  /** With the heading of the export itself. */
  lemma AuditCsvReadsBack(es: seq<Event>)
    requires forall k :: 0 <= k < |es| ==> PlainColumns(es[k])
    ensures ReadCsv(Export(NAMES, es), 0) == Some([NAMES] + FieldsOf(es))
  {
    forall k | 0 <= k < |NAMES| ensures Free(NAMES[k]) { NamesAreFree(k); }
    ExportReadsBack(NAMES, es);
  }

  /** In row `r` of the rows read, every column with the heading holds the value, and there is one. */
  predicate Column(rows: seq<seq<string>>, r: nat, heading: string, v: string)
    requires r < |rows|
  {
    && |rows[r]| == |rows[0]|
    && (exists c :: 0 <= c < |rows[0]| && rows[0][c] == heading)
    && (forall c :: 0 <= c < |rows[0]| && rows[0][c] == heading ==> rows[r][c] == v)
  }

  lemma ColumnIs(rows: seq<seq<string>>, r: nat, c: nat)
    requires r < |rows| && |rows[r]| == |rows[0]| && c < |rows[0]| && Distinct(rows[0])
    ensures Column(rows, r, rows[0][c], rows[r][c])
  {
  }

  lemma NamesAreDistinct()
    ensures Distinct(NAMES)
  {
  }

  /** A row of an event's fields under the heading: each field stands under its own. */
  predicate InColumns(rows: seq<seq<string>>, r: nat, e: Event)
    requires r < |rows|
  {
    && Column(rows, r, "id", e.id)
    && Column(rows, r, "occurred_at", e.occurredAt)
    && Column(rows, r, "principal_type", e.principalType)
    && Column(rows, r, "actor_user_id", if e.actorUserId.Some? then e.actorUserId.value else "")
    && Column(rows, r, "action", e.action)
    && Column(rows, r, "resource_type", e.resourceType)
    && Column(rows, r, "resource_id", e.resourceId)
    && Column(rows, r, "result", e.result)
    && Column(rows, r, "error_code", e.errorCode)
    && Column(rows, r, "request_id", e.requestId)
    && Column(rows, r, "command_id", e.commandId)
    && Column(rows, r, "ip", e.ip)
  }

  lemma RowIsInColumns(rows: seq<seq<string>>, r: nat, e: Event)
    requires r < |rows| && rows[0] == NAMES && rows[r] == Fields(e)
    ensures InColumns(rows, r, e)
  {
    hide Column;
    NamesAreDistinct();
    forall c | 0 <= c < 12 ensures Column(rows, r, NAMES[c], Fields(e)[c]) {
      ColumnIs(rows, r, c);
    }
    assert Column(rows, r, NAMES[0], Fields(e)[0]) && Column(rows, r, NAMES[1], Fields(e)[1]);
    assert Column(rows, r, NAMES[2], Fields(e)[2]) && Column(rows, r, NAMES[3], Fields(e)[3]);
    assert Column(rows, r, NAMES[4], Fields(e)[4]) && Column(rows, r, NAMES[5], Fields(e)[5]);
    assert Column(rows, r, NAMES[6], Fields(e)[6]) && Column(rows, r, NAMES[7], Fields(e)[7]);
    assert Column(rows, r, NAMES[8], Fields(e)[8]) && Column(rows, r, NAMES[9], Fields(e)[9]);
    assert Column(rows, r, NAMES[10], Fields(e)[10]) && Column(rows, r, NAMES[11], Fields(e)[11]);
  }

  lemma RowsAreInColumns(names: seq<string>, es: seq<Event>)
    requires names == NAMES
    ensures |FieldsOf(es)| == |es|
    ensures forall k :: 0 <= k < |es| ==> InColumns([names] + FieldsOf(es), k + 1, es[k])
  {
    hide *;
    var rows := [names] + FieldsOf(es);
    forall k | 0 <= k < |es| ensures InColumns(rows, k + 1, es[k]) {
      assert rows[k + 1] == FieldsOf(es)[k];
      RowIsInColumns(rows, k + 1, es[k]);
    }
  }

  /** Read back, the export has a heading and a row for each event, with every field under its own heading. */
  lemma FieldsAreUnderTheirHeadings(es: seq<Event>)
    requires forall k :: 0 <= k < |es| ==> PlainColumns(es[k])
    ensures var rows := ReadCsv(Export(NAMES, es), 0);
            && rows.Some? && |rows.value| == |es| + 1
            && forall k :: 0 <= k < |es| ==> InColumns(rows.value, k + 1, es[k])
  {
    hide *;
    AuditCsvReadsBack(es);
    RowsAreInColumns(NAMES, es);
  }

  // ---------------------------------------------------------------------
  // When it does not read back
  // ---------------------------------------------------------------------

  lemma {:induction false} PlainReadsFree(t: string, i: nat)
    requires i <= |t| && ReadPlain(t, i).Some?
    ensures var (v, j) := ReadPlain(t, i).value; Free(v) && j == i + |v|
    decreases |t| - i
  {
    if i < |t| && t[i] != ',' && t[i] != '\n' {
      PlainReadsFree(t, i + 1);
    }
  }

  /** What a quoted field was read from: the value with its quotes doubled, and a quote. */
  lemma {:induction false} QuotedText(t: string, i: nat)
    requires i <= |t| && ReadQuoted(t, i).Some?
    ensures At(t, i, Doubled(ReadQuoted(t, i).value.0) + ['"'])
    decreases |t| - i
  {
    if t[i] != '"' {
      QuotedText(t, i + 1);
      var v := ReadQuoted(t, i + 1).value.0;
      assert ReadQuoted(t, i).value.0 == [t[i]] + v;
      DoubledFirst(t[i], v);
      assert [t[i]] + Doubled(v) + ['"'] == [t[i]] + (Doubled(v) + ['"']);
      AtFirst(t, i, t[i], Doubled(v) + ['"']);
    } else if i + 1 < |t| && t[i + 1] == '"' {
      QuotedText(t, i + 2);
      var v := ReadQuoted(t, i + 2).value.0;
      assert ReadQuoted(t, i).value.0 == ['"'] + v;
      DoubledFirst('"', v);
      assert ['"', '"'] + Doubled(v) + ['"'] == ['"'] + (['"'] + (Doubled(v) + ['"']));
      AtFirst(t, i, '"', ['"'] + (Doubled(v) + ['"']));
      AtFirst(t, i + 1, '"', Doubled(v) + ['"']);
    } else {
      assert Doubled("") + ['"'] == ['"'];
      AtChar(t, i, '"');
    }
  }

  /** A text of `n` quotes and more: doubling leaves at least as many in front. */
  lemma {:induction false} QuotesInFront(s: string, n: nat)
    requires n <= |s| && forall k :: 0 <= k < n ==> s[k] == '"'
    ensures |Doubled(s)| >= 2 * n && forall k :: 0 <= k < 2 * n ==> Doubled(s)[k] == '"'
    decreases n
  {
    if n > 0 {
      assert s == [s[0]] + s[1..];
      DoubledFirst(s[0], s[1..]);
      QuotesInFront(s[1..], n - 1);
      assert Doubled(s) == ['"', '"'] + Doubled(s[1..]);
    }
  }

  /** A text that starts with quotes, read by a quoted field: its first quotes were in the text. */
  lemma QuotedFront(t: string, i: nat, s: string, n: nat)
    requires At(t, i + 1, Doubled(s) + ['"']) && 0 < n <= |s| && forall k :: 0 <= k < n ==> s[k] == '"'
    ensures i + n < |t| && t[i + n] == '"'
  {
    QuotesInFront(s, n);
    assert (Doubled(s) + ['"'])[n - 1] == '"';
    assert t[i + 1 + (n - 1)] == '"';
  }

  /** A text that starts with a quote is not what the reader makes of it. */
  lemma QuoteMisread(t: string, i: nat, s: string, n: nat)
    requires At(t, i, s) && EndsAt(t, i + |s|)
    requires 0 < n <= |s| && (forall k :: 0 <= k < n ==> s[k] == '"') && (n < |s| ==> s[n] != '"')
    ensures ReadQuoted(t, i + 1).None? || ReadQuoted(t, i + 1).value.0 != s
  {
    assert n < |s| ==> t[i + n] == s[n];
    if ReadQuoted(t, i + 1).Some? && ReadQuoted(t, i + 1).value.0 == s {
      QuotedText(t, i + 1);
      QuotedFront(t, i, s, n);
      assert false;
    }
  }

  function QuoteCount(s: string): (n: nat)
    ensures n <= |s| && (forall k :: 0 <= k < n ==> s[k] == '"') && (n < |s| ==> s[n] != '"')
  {
    if s == "" || s[0] != '"' then 0 else 1 + QuoteCount(s[1..])
  }

  /** A text written as it is and read as itself needs no quoting. */
  lemma ReadAsItself(t: string, i: nat, s: string)
    requires At(t, i, s) && EndsAt(t, i + |s|)
    requires ReadField(t, i).Some? && ReadField(t, i).value.0 == s
    ensures Free(s)
  {
    assert s != "" ==> t[i + 0] == s[0];
    if s != "" && s[0] == '"' {
      QuoteMisread(t, i, s, QuoteCount(s));
    } else {
      PlainReadsFree(t, i);
    }
  }

  /** Each cell is its value, escaped or as it is. */
  predicate Written(cells: seq<string>, vs: seq<string>) {
    |cells| == |vs| > 0 && forall k :: 0 <= k < |vs| ==> cells[k] == Escape(vs[k]) || cells[k] == vs[k]
  }

  lemma FieldMeans(t: string, i: nat, cell: string, v: string)
    requires (cell == Escape(v) || cell == v) && At(t, i, cell) && EndsAt(t, i + |cell|)
    requires ReadField(t, i).Some? && ReadField(t, i).value.0 == v
    ensures cell == Escape(v) && ReadField(t, i).value.1 == i + |cell|
  {
    if cell != Escape(v) {
      ReadAsItself(t, i, v);
      FreeIsKept(v);
      assert false;
    }
    FieldIsRead(t, i, v);
  }

  /** A row that reads back as its values was escaped throughout. */
  lemma {:induction false} RecordMeans(t: string, i: nat, cells: seq<string>, vs: seq<string>)
    requires Written(cells, vs) && At(t, i, Line(cells))
    requires i <= |t| && ReadRecord(t, i).Some? && ReadRecord(t, i).value.0 == vs
    ensures Escapes(cells, vs)
    decreases |vs|
  {
    hide At, Escape, ReadField;
    var f := ReadField(t, i);
    assert f.value.0 == vs[0];
    if |vs| == 1 {
      AtSplit(t, i, cells[0], ['\n']);
      AtChar(t, i + |cells[0]|, '\n');
      FieldMeans(t, i, cells[0], vs[0]);
    } else {
      var next := i + |cells[0]| + 1;
      AtSplit(t, i, cells[0], [','] + Line(cells[1..]));
      AtFirst(t, i + |cells[0]|, ',', Line(cells[1..]));
      FieldMeans(t, i, cells[0], vs[0]);
      assert ReadRecord(t, i) == Cons(vs[0], ReadRecord(t, next));
      assert vs[1..] == ReadRecord(t, next).value.0;
      RecordMeans(t, next, cells[1..], vs[1..]);
      forall k | 0 <= k < |vs| ensures cells[k] == Escape(vs[k]) {
        assert k > 0 ==> cells[1..][k - 1] == cells[k] && vs[1..][k - 1] == vs[k];
      }
    }
  }

  lemma {:induction false} DoubledIsLonger(s: string)
    ensures |Doubled(s)| >= |s|
    decreases |s|
  {
    if s != "" {
      DoubledIsLonger(s[1..]);
      assert s == [s[0]] + s[1..];
      DoubledFirst(s[0], s[1..]);
    }
  }

  lemma EscapedIsFree(s: string)
    requires Escape(s) == s
    ensures Free(s)
  {
    DoubledIsLonger(s);
  }

  lemma EscapedMeansPlain(e: Event)
    requires Escapes(Cells(e), Fields(e))
    ensures PlainColumns(e)
  {
    forall k: nat | k < 12 && AsIs(k) ensures Free(Fields(e)[k]) {
      CellIs(e, k);
      assert Cells(e)[k] == Escape(Fields(e)[k]);
      EscapedIsFree(Fields(e)[k]);
    }
    assert Free(Fields(e)[0]) && Free(Fields(e)[1]) && Free(Fields(e)[2]) && Free(Fields(e)[3]) && Free(Fields(e)[7]);
  }

  lemma CellsAreWritten(e: Event)
    ensures Written(Cells(e), Fields(e))
  {
    forall k: nat | k < 12 ensures Cells(e)[k] == Escape(Fields(e)[k]) || Cells(e)[k] == Fields(e)[k] {
      CellIs(e, k);
    }
  }

  /** The first row of a text: escaped throughout if it reads back, and the rest is read after it. */
  lemma FirstMeans(t: string, i: nat, cells: seq<string>, vs: seq<string>, j: nat, rest: seq<seq<string>>)
    requires Written(cells, vs) && At(t, i, Line(cells)) && j == i + |Line(cells)|
    requires i <= |t| && ReadCsv(t, i) == Some([vs] + rest)
    ensures Escapes(cells, vs) && ReadCsv(t, j) == Some(rest)
  {
    assert ([vs] + rest)[0] == vs && ([vs] + rest)[1..] == rest;
    RecordMeans(t, i, cells, vs);
    RecordIsRead(t, i, cells, vs);
    assert ReadRecord(t, i) == Some((vs, j));
    var below := ReadCsv(t, j);
    assert ReadCsv(t, i) == Some([vs] + below.value);
    assert ([vs] + below.value)[1..] == below.value;
  }

  lemma {:induction false} LinesMean(t: string, i: nat, es: seq<Event>)
    requires At(t, i, Lines(es)) && i + |Lines(es)| == |t| && ReadCsv(t, i) == Some(FieldsOf(es))
    ensures forall k :: 0 <= k < |es| ==> PlainColumns(es[k])
    decreases |es|
  {
    hide At, ReadCsv, Line;
    if es != [] {
      var cells, vs := Cells(es[0]), Fields(es[0]);
      var j := i + |Line(cells)|;
      AtSplit(t, i, Line(cells), Lines(es[1..]));
      CellsAreWritten(es[0]);
      FirstMeans(t, i, cells, vs, j, FieldsOf(es[1..]));
      EscapedMeansPlain(es[0]);
      LinesMean(t, j, es[1..]);
      assert forall k :: 0 < k < |es| ==> es[k] == es[1..][k - 1];
    }
  }

  lemma ReadBackMeansPlain(t: string, n: nat, names: seq<string>, es: seq<Event>)
    requires names != [] && n == |Line(names)| && n + |Lines(es)| == |t|
    requires At(t, 0, Line(names)) && At(t, n, Lines(es)) && ReadCsv(t, 0) == Some([names] + FieldsOf(es))
    ensures forall k :: 0 <= k < |es| ==> PlainColumns(es[k])
  {
    FirstMeans(t, 0, names, names, n, FieldsOf(es));
    LinesMean(t, n, es);
  }

  /**
   The export reads back exactly when the five columns that are written as they are
   hold no comma, no quote and no line feed, in any event.
   */
  lemma ExportReadsBackIff(names: seq<string>, es: seq<Event>)
    requires names != [] && forall k :: 0 <= k < |names| ==> Free(names[k])
    ensures ReadCsv(Export(names, es), 0) == Some([names] + FieldsOf(es))
       <==> forall k :: 0 <= k < |es| ==> PlainColumns(es[k])
  {
    if forall k :: 0 <= k < |es| ==> PlainColumns(es[k]) {
      ExportReadsBack(names, es);
    } else if ReadCsv(Export(names, es), 0) == Some([names] + FieldsOf(es)) {
      ExportParts(names, es);
      ReadBackMeansPlain(Export(names, es), |Line(names)|, names, es);
    }
  }

  /** A comma in a result: the export is misread, wherever the event stands in it. */
  lemma CommaInResultMisreads(es: seq<Event>, k: nat)
    requires k < |es| && ',' in es[k].result
    ensures ReadCsv(Export(NAMES, es), 0) != Some([NAMES] + FieldsOf(es))
  {
    forall j | 0 <= j < |NAMES| ensures Free(NAMES[j]) { NamesAreFree(j); }
    ExportReadsBackIff(NAMES, es);
    assert !PlainColumns(es[k]);
  }
}
