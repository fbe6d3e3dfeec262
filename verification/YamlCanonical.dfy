/**
 One way to write each value - two spaces a level, mappings opened by their dash, strings in single
 quotes - and what follows from reading it back. And what is refused, or read as something else.
 */
module YamlCanonical {
  import opened Outcomes
  import opened PyText
  import opened YamlScan
  import opened YamlParser
  import opened YamlLeaves
  import opened YamlSurface
  import opened YamlRoundTrip

  /* ---------- one entry ---------- */

  /** A text is written plainly after its key, and reads as itself. */
  lemma PlainEntryReads(flow: FlowParser, s: string)
    requires IsPlainText(s) && s !in {"|", "|-", "|+", ">", ">-", ">+"}
    ensures ParseYamlSubset(flow, "k: " + s) == Ok(Map([Entry("k", Str(s))]))
  {
    hide IsNumberShaped, NoHash, ParseYamlSubset;
    var f := Field("k", "k", " ", Leaf(s, Str(s)));
    var doc := Fields([f], 0);
    PlainHeadIs("k");
    assert IsField(flow, f);
    OneField(flow, f, 0);
    OneRowReads(flow, doc, "k: " + s);
    ValueIs(doc);
  }

  /** A short key of letters and signs is a plain one. */
  lemma PlainHeadIs(head: string)
    requires 0 < |head| <= 2 && forall k | 0 <= k < |head| :: 'a' <= head[k] <= '{'
    ensures IsPlainHead(head)
  {
  }

  /** A mapping of one scalar field: one row, one entry. */
  lemma OneField(flow: FlowParser, f: Field, n: nat)
    requires IsField(flow, f) && f.doc.Leaf?
    ensures AreFields(flow, [f]) && FieldsRows([f], n) == [Row(n, FieldLine(f), EndsClosed(f.doc))]
    ensures PutAll([], EntriesOf([f])) == [Entry(f.key, f.doc.value)]
  {
    hide IsField, FieldLine, EndsClosed;
    assert [f][1..] == [];
    FieldsUnfold([f], n);
    FieldsUnfold([], n);
    FieldUnfolds(f, n);
    assert FieldRows(f, n) + [] == FieldRows(f, n);
    var e := Entry(f.key, f.doc.value);
    assert EntriesOf([f]) == [e] && [e][1..] == [];
    PutAllNext([], [e]);
    PutAllNext([e], []);
  }

  /** A document of one row at the margin, written as the whole text. */
  lemma OneRowReads(flow: FlowParser, doc: Doc, text: string)
    requires IsDocument(flow, doc) && |DocRows(doc)| == 1 && DocRows(doc)[0].indent == 0
    requires text == DocRows(doc)[0].content && text != "" && NoBreaks(text)
    ensures ParseYamlSubset(flow, text) == Ok(ValueOf(doc))
  {
    hide IsDocument, DocRows, ValueOf, ParseYamlSubset;
    var rows := DocRows(doc);
    assert Spaces(0) + rows[0].content + "" == text;
    assert IsTrailer("", rows[0].closed);
    assert [text][1..] == [] && rows[1..] == [];
    assert IsWritten([text], rows);
    assert [""][1..] == [];
    assert Broken([], []) == "";
    assert Broken([text], [""]) == text + "" + "" == text;
    DocumentReads(flow, doc, [text], [""]);
  }

  /* ---------- the canonical document of a value ---------- */

  /** The values that have one: decimals with a point, no empty collections, no line breaks in strings. */
  predicate Renderable(v: Value) {
    match v
    case Null => true
    case Bool(_) => true
    case Int(n) => |Digits(if n < 0 then -n else n)| <= INT_MAX_STR_DIGITS
    case Float(t) => IsDecimal(t)
    case Str(s) => NoBreaks(s)
    case List(items) => items != [] && forall item | item in items :: Renderable(item)
    case Map(entries) => entries != [] && RenderableEntries(entries)
  }

  predicate RenderableEntries(entries: seq<Entry>) {
    DistinctKeys(entries) && forall e | e in entries :: IsPlainHead(e.key) && Renderable(e.value)
  }

  function ScalarText(v: Value): string {
    match v
    case Bool(b) => if b then "true" else "false"
    case Int(n) => IntText(n)
    case Float(text) => text
    case Str(s) => "'" + Doubled(s) + "'"
    case _ => "null"
  }

  function Canonical(v: Value, step: nat): Doc
    decreases v, 1
  {
    match v
    case List(items) => Items(CanonicalItems(items), step)
    case Map(entries) => Fields(CanonicalFields(entries), step)
    case _ => Leaf(ScalarText(v), v)
  }

  function CanonicalItems(items: seq<Value>): seq<Item>
    decreases items, 0
  {
    if items == [] then [] else [Item(Canonical(items[0], 2), 0, true)] + CanonicalItems(items[1..])
  }

  function CanonicalFields(entries: seq<Entry>): seq<Field>
    decreases entries, 0
  {
    if entries == [] then []
    else [Field(entries[0].key, entries[0].key, " ", Canonical(entries[0].value, 2))] + CanonicalFields(entries[1..])
  }

  function RowTexts(rows: seq<Row>): (texts: seq<string>)
    ensures |texts| == |rows|
    ensures forall k | 0 <= k < |rows| :: texts[k] == Spaces(rows[k].indent) + rows[k].content
  {
    if rows == [] then [] else [Spaces(rows[0].indent) + rows[0].content] + RowTexts(rows[1..])
  }

  /** The canonical text of a mapping or a list, each line ended by a line feed. */
  function RenderText(v: Value): string {
    JoinLines(RowTexts(DocRows(Canonical(v, 0))))
  }

  lemma ScalarWrites(flow: FlowParser, v: Value)
    requires Renderable(v) && !v.List? && !v.Map?
    ensures FitsKey(flow, ScalarText(v), v) && FitsDash(flow, ScalarText(v), v)
  {
    hide Doubled, IsDecimal, IsPlainText, Digits;
    var t := ScalarText(v);
    match v
    case Null =>
    case Bool(_) =>
    case Int(n) =>
      IntHasNoColon(n);
      IntShape(n);
    case Float(text) =>
      DecimalShape(text);
      DecimalHasNoColon(text);
    case Str(s) =>
      assert t[0] == '\'';
      assert IsSingle(t, s);
  }

  lemma IntHasNoColon(n: int)
    ensures NoColon(IntText(n)) && NoQuotes(IntText(n))
  {
    var t := IntText(n);
    IntShape(n);
    assert forall k | 0 <= k < |t| :: IsDigit(t[k]) || t[k] == '-';
  }

  lemma DecimalHasNoColon(t: string)
    requires IsDecimal(t)
    ensures NoColon(t)
  {
    var k :| 0 < k < |t| - 1 && t[k] == '.' && AllDigits(t[..k]) && AllDigits(t[k + 1..]);
    forall j | 0 <= j < |t| ensures t[j] != ':' {
      assert j < k ==> t[j] == t[..k][j];
      assert j > k ==> t[j] == t[k + 1..][j - k - 1];
    }
  }

  lemma {:induction false} CanonicalIs(flow: FlowParser, v: Value, step: nat)
    requires Renderable(v)
    ensures ValueOf(Canonical(v, step)) == v
    ensures !v.List? && !v.Map? ==> Canonical(v, step) == Leaf(ScalarText(v), v)
    ensures v.List? || v.Map? ==> IsDocument(flow, Canonical(v, step))
    decreases v, 1
  {
    hide AreItems, AreFields, Writes, ScalarText, DistinctKeys, IsPlainHead;
    match v
    case List(items) => CanonicalItemsAre(flow, items);
    case Map(entries) =>
      CanonicalFieldsAre(flow, entries);
      assert [] + entries == entries;
      PutAllDistinct([], entries);
    case _ =>
  }

  lemma {:induction false} CanonicalItemsAre(flow: FlowParser, items: seq<Value>)
    requires forall item | item in items :: Renderable(item)
    ensures ValuesOf(CanonicalItems(items)) == items && AreItems(flow, CanonicalItems(items))
    ensures |CanonicalItems(items)| == |items|
    decreases items, 0
  {
    hide Renderable, FitsDash, Canonical, ScalarText, ValueOf, AreFields;
    if items != [] {
      CanonicalIs(flow, items[0], 2);
      CanonicalItemsAre(flow, items[1..]);
      CanonicalKind(items[0], 2);
      if !items[0].List? && !items[0].Map? {
        ScalarWrites(flow, items[0]);
      }
      var item := Item(Canonical(items[0], 2), 0, true);
      ItemFits(flow, item);
      assert CanonicalItems(items) == [item] + CanonicalItems(items[1..]);
      FirstValue(item, CanonicalItems(items[1..]));
      assert items == [items[0]] + items[1..];
    }
  }

  lemma FirstValue(item: Item, rest: seq<Item>)
    ensures ValuesOf([item] + rest) == [ValueOf(item.doc)] + ValuesOf(rest)
  {
    assert ([item] + rest)[1..] == rest;
  }

  lemma CanonicalKind(v: Value, step: nat)
    ensures v.List? ==> Canonical(v, step).Items? && Canonical(v, step).step == step
    ensures v.Map? ==> Canonical(v, step).Fields? && Canonical(v, step).step == step
    ensures !v.List? && !v.Map? ==> Canonical(v, step) == Leaf(ScalarText(v), v)
  {
  }

  lemma ItemFits(flow: FlowParser, item: Item)
    requires item.doc.Leaf? ==> FitsDash(flow, item.doc.text, item.doc.value)
    requires !item.doc.Leaf? ==> IsDocument(flow, item.doc) && item.doc.step > 0
    ensures IsListed(flow, item)
  {
    hide FitsDash;
  }

  lemma {:induction false} CanonicalFieldsAre(flow: FlowParser, entries: seq<Entry>)
    requires forall e | e in entries :: IsPlainHead(e.key) && Renderable(e.value)
    ensures EntriesOf(CanonicalFields(entries)) == entries && AreFields(flow, CanonicalFields(entries))
    ensures |CanonicalFields(entries)| == |entries|
    decreases entries, 0
  {
    hide Renderable, FitsKey, Canonical, ScalarText, ValueOf, AreItems, IsPlainHead;
    if entries != [] {
      var e := entries[0];
      CanonicalIs(flow, e.value, 2);
      CanonicalFieldsAre(flow, entries[1..]);
      CanonicalKind(e.value, 2);
      if !e.value.List? && !e.value.Map? {
        ScalarWrites(flow, e.value);
      }
      var f := Field(e.key, e.key, " ", Canonical(e.value, 2));
      FieldFits(flow, f);
      assert CanonicalFields(entries) == [f] + CanonicalFields(entries[1..]);
      FirstEntry(f, CanonicalFields(entries[1..]));
      assert entries == [e] + entries[1..];
    }
  }

  lemma FirstEntry(f: Field, rest: seq<Field>)
    ensures EntriesOf([f] + rest) == [Entry(f.key, ValueOf(f.doc))] + EntriesOf(rest)
  {
    assert ([f] + rest)[1..] == rest;
  }

  lemma FieldFits(flow: FlowParser, f: Field)
    requires IsPlainHead(f.head) && f.key == f.head && f.gap == " "
    requires f.doc.Leaf? ==> FitsKey(flow, f.doc.text, f.doc.value)
    requires !f.doc.Leaf? ==> IsDocument(flow, f.doc) && f.doc.step > 0
    ensures IsField(flow, f)
  {
    hide FitsKey, IsPlainHead;
  }

  lemma {:induction false} PutAllDistinct(out: seq<Entry>, entries: seq<Entry>)
    requires DistinctKeys(out + entries)
    ensures PutAll(out, entries) == out + entries
    decreases |entries|
  {
    if entries == [] {
      assert out + entries == out;
    } else {
      var e := entries[0];
      forall k | 0 <= k < |out| ensures out[k].key != e.key {
        assert (out + entries)[k] == out[k] && (out + entries)[|out|] == e;
      }
      PutIs(out, e.key, e.value);
      assert out + [e] + entries[1..] == out + entries;
      PutAllDistinct(out + [e], entries[1..]);
    }
  }

  lemma {:induction false} TextsAreWritten(rows: seq<Row>)
    ensures IsWritten(RowTexts(rows), rows)
  {
    hide IsAside;
    if rows != [] {
      TextsAreWritten(rows[1..]);
      var texts := RowTexts(rows);
      assert texts[1..] == RowTexts(rows[1..]);
      assert texts[0] == Spaces(rows[0].indent) + rows[0].content + "";
      assert IsTrailer("", rows[0].closed);
    }
  }

  lemma {:induction false} JoinedIsBroken(texts: seq<string>)
    requires forall k | 0 <= k < |texts| :: NoBreaks(texts[k])
    ensures var ends := seq(|texts|, k => "\n"); AreEnds(texts, ends) && Broken(texts, ends) == JoinLines(texts)
  {
    hide NoBreaks;
    var ends := seq(|texts|, k => "\n");
    if texts != [] {
      JoinedIsBroken(texts[1..]);
      assert ends[1..] == seq(|texts[1..]|, k => "\n");
      assert texts[0] + ends[0] + Broken(texts[1..], ends[1..]) == texts[0] + "\n" + JoinLines(texts[1..]);
    }
  }

  lemma GoodTexts(rows: seq<Row>, n: nat)
    requires GoodRows(rows, n)
    ensures forall k | 0 <= k < |rows| :: NoBreaks(RowTexts(rows)[k])
  {
    hide IsScanned, RowTexts;
    forall k | 0 <= k < |rows| ensures NoBreaks(RowTexts(rows)[k]) {
      assert Survives(rows[k]);
      assert RowTexts(rows)[k] == Spaces(rows[k].indent) + rows[k].content;
    }
  }

  /**
   The round trip: the canonical text of a mapping or a list reads back as it, for every parser of
   flow values.
   */
  lemma RoundTrip(flow: FlowParser, v: Value)
    requires Renderable(v) && (v.List? || v.Map?)
    ensures ParseYamlSubset(flow, RenderText(v)) == Ok(v)
  {
    hide ParseYamlSubset, ValueOf, GoodRows, AreItems, AreFields, IsWritten, JoinLines, RowTexts, ItemsRows, FieldsRows;
    hide Renderable, CanonicalItems, CanonicalFields, Broken;
    var doc := Canonical(v, 0);
    var rows := DocRows(doc);
    CanonicalIs(flow, v, 0);
    if v.List? {
      ItemsAreGood(flow, doc.items, 0);
    } else {
      FieldsAreGood(flow, doc.fields, 0);
    }
    GoodTexts(rows, 0);
    TextsAreWritten(rows);
    JoinedIsBroken(RowTexts(rows));
    DocumentReads(flow, doc, RowTexts(rows), seq(|RowTexts(rows)|, k => "\n"));
  }

  /** Hence a text determines its value: no two values share a canonical text. */
  lemma RenderingIsInjective(flow: FlowParser, v: Value, w: Value)
    requires Renderable(v) && (v.List? || v.Map?) && Renderable(w) && (w.List? || w.Map?)
    requires RenderText(v) == RenderText(w)
    ensures v == w
  {
    RoundTrip(flow, v);
    RoundTrip(flow, w);
  }

  /* ---------- flow values after a dash ---------- */

  /**
   A flow value after a dash. The code looks for a key first, and takes a ':' inside braces for one:
   the bracketed text is read as a flow value exactly when no ':' in it separates, outside quotation
   marks. Otherwise the item is a mapping whose first key begins with the bracket, or refused.
   */
  lemma BracketAfterDashIff(flow: FlowParser, lines: seq<Line>, i: nat, text: string)
    requires IsBracketed(text) && i < |lines| && lines[i].content == "- " + text
    ensures
      var r := ParseItem(flow, lines, i, lines[i].indent);
      && (KeyColon(text, 0, None).None? ==>
            r == match flow(text) { case Ok(v) => Ok(Parsed(v, i + 1)) case Err(e) => Err(e) })
      && (KeyColon(text, 0, None).Some? ==> r.Err? || r.value.value.Map?)
  {
    hide KeyColon, ParseMapping;
    DashedText(0, text);
    assert "- " + Spaces(0) + text == "- " + text;
    StripKeepsTrimmed(text);
  }

  /** What begins with another letter than i or n is no number. */
  lemma NumbersOpenWith(s: string)
    requires IsNumberShaped(s)
    ensures s != "" && (IsDigit(s[0]) || s[0] in {'+', '-', '.', 'i', 'I', 'n', 'N'})
  {
    hide IsRun, LowerAscii;
    if IsIntShaped(s) {
      var sign, run :| IsSignedRun(s, sign, run);
      RunOpens(run);
    } else {
      var sign, m, e :| IsSignedFloat(s, sign, m, e);
      if LowerAscii(m) in {"inf", "infinity", "nan"} {
        NameOpens(m);
        assert sign == "" ==> s[0] == m[0];
      } else if IsRun(m) {
        RunOpens(m);
        assert sign == "" ==> s[0] == m[0];
      } else {
        var before, after :| IsPointed(m, before, after);
        if before != "" {
          RunOpens(before);
        }
        assert sign == "" ==> s[0] == m[0];
      }
    }
  }

  lemma NameOpens(m: string)
    requires LowerAscii(m) in {"inf", "infinity", "nan"}
    ensures m != "" && m[0] in {'i', 'I', 'n', 'N'}
  {
    assert m != "" && LowerAscii(m)[0] in {'i', 'n'};
  }

  lemma RunOpens(run: string)
    requires IsRun(run)
    ensures run != "" && IsDigit(run[0])
  {
    var groups :| AreGroups(run, groups);
    assert run[0] == groups[0][0];
  }

  /** A list of one flow mapping is read as a list of a mapping with another key and value. */
  lemma FlowItemIsTakenApart(flow: FlowParser)
    ensures ParseYamlSubset(flow, "- {a: b}") == Ok(List([Map([Entry("{a", Str("b}"))])]))
  {
    hide ParseYamlSubset, IsField, IsDocument, IsListed, FieldLine, ItemsRows, FieldsRows;
    var f := Field("{a", "{a", " ", Leaf("b}", Str("b}")));
    var item := Item(Fields([f], 2), 0, true);
    TakenApartIs(flow, f);
    OneField(flow, f, 2);
    OneItem(flow, f, item);
    assert "- " + Spaces(0) + "{a: b}" == "- {a: b}";
    OneRowReads(flow, Items([item], 0), "- {a: b}");
    ValueIs(Items([item], 0));
    ValueIs(item.doc);
  }

  lemma TakenApartIs(flow: FlowParser, f: Field)
    requires f == Field("{a", "{a", " ", Leaf("b}", Str("b}")))
    ensures IsField(flow, f) && FieldLine(f) == "{a: b}"
  {
    hide IsNumberShaped;
    PlainHeadIs("{a");
    if IsNumberShaped("b}") {
      NumbersOpenWith("b}");
    }
    assert IsPlainText("b}");
  }

  /** A list of one mapping that opens in place. */
  lemma OneItem(flow: FlowParser, f: Field, item: Item)
    requires IsField(flow, f) && f.doc.Leaf? && item == Item(Fields([f], 2), 0, true)
    requires AreFields(flow, [f]) && FieldsRows([f], 2) == [Row(2, FieldLine(f), EndsClosed(f.doc))]
    ensures IsDocument(flow, Items([item], 0)) && ValuesOf([item]) == [ValueOf(item.doc)]
    ensures DocRows(Items([item], 0)) == [Row(0, "- " + Spaces(0) + FieldLine(f), EndsClosed(f.doc))]
  {
    hide IsField, FieldLine, EndsClosed, FieldsRows, ValueOf;
    assert [item][1..] == [];
    assert IsListed(flow, item);
    ItemsUnfold([item], 0);
    ItemsUnfold([], 0);
    assert [Row(2, FieldLine(f), EndsClosed(f.doc))][1..] == [];
    assert ItemRows(item, 0) == [Row(0, "- " + Spaces(0) + FieldLine(f), EndsClosed(f.doc))];
    assert ItemRows(item, 0) + [] == ItemRows(item, 0);
  }

  /* ---------- what is refused ---------- */

  /** A tab stands in the line's indentation. */
  predicate HasTabLead(raw: string) {
    exists i | 0 <= i < |raw| :: raw[i] == '\t' && AllSpace(raw[..i])
  }

  lemma LineIsRefusedIff(raw: string, lineno: nat)
    ensures if HasTabLead(raw) then PrepLine(raw, lineno) == Err(TabIndentation(lineno)) else PrepLine(raw, lineno).Ok?
  {
    hide CommentStart, IsSpace;
    var before := LStripped(raw);
    LStripEnds(raw);
    assert raw[..|raw| - |LStrip(raw)|] == before;
    assert forall k | 0 <= k < |before| :: raw[k] == before[k];
    if '\t' in before {
      var i :| 0 <= i < |before| && before[i] == '\t';
      assert AllSpace(raw[..i]);
      assert HasTabLead(raw);
    }
    if HasTabLead(raw) {
      var i :| 0 <= i < |raw| && raw[i] == '\t' && AllSpace(raw[..i]);
      TabIsSpace();
      assert forall k | 0 <= k <= i :: IsSpace(raw[k]) by {
        assert forall k | 0 <= k < i :: raw[..i][k] == raw[k];
      }
      assert |before| < |raw| ==> raw[|before|] == LStrip(raw)[0];
      assert i < |before| && before[i] == '\t';
    }
  }

  lemma TabIsSpace()
    ensures IsSpace('\t')
  {
  }

  lemma {:induction false} LinesAreRefusedIff(raws: seq<string>, k: nat, prepared: seq<Line>)
    requires k <= |raws|
    ensures
      var r := PrepFrom(raws, k, prepared);
      && (r.Err? <==> exists j | k <= j < |raws| :: HasTabLead(raws[j]))
      && (r.Err? ==> exists j | k <= j < |raws| ::
            HasTabLead(raws[j]) && r.error == TabIndentation(j + 1)
            && forall m | k <= m < j :: !HasTabLead(raws[m]))
    decreases |raws| - k
  {
    hide PrepLine, HasTabLead;
    if k < |raws| {
      LineIsRefusedIff(raws[k], k + 1);
      var line := PrepLine(raws[k], k + 1);
      if line.Ok? {
        LinesAreRefusedIff(raws, k + 1, if line.value.Some? then prepared + [line.value.value] else prepared);
      } else {
        assert HasTabLead(raws[k]);
      }
    }
  }

  /** Line preparation refuses a text exactly for a tab in the indentation of a line, and names the first. */
  lemma TabsAreRefused(text: string)
    ensures
      var raws, r := SplitLines(text), PrepLines(text);
      && (r.Err? <==> exists j | 0 <= j < |raws| :: HasTabLead(raws[j]))
      && (r.Err? ==> exists j | 0 <= j < |raws| ::
            HasTabLead(raws[j]) && r.error == TabIndentation(j + 1)
            && forall m | 0 <= m < j :: !HasTabLead(raws[m]))
  {
    hide PrepFrom, HasTabLead, SplitLines;
    var raws := SplitLines(text);
    LinesAreRefusedIff(raws, 0, []);
    assert PrepLines(text) == PrepFrom(raws, 0, []);
    if j :| 0 <= j < |raws| && HasTabLead(raws[j]) {
      assert PrepLines(text).Err?;
    }
  }
}
