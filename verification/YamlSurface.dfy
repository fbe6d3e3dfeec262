/**
 Documents as they can be written: how each value is laid out on lines - keys plain or quoted,
 scalars in every style, block scalars, lists flush with their key or below it, mappings opened in
 place by a dash, any indentation that goes deeper - and what each row is to the line scanners.
 */
module YamlSurface {
  import opened Outcomes
  import opened PyText
  import opened YamlScan
  import opened YamlParser
  import opened YamlDoubleQuotes
  import opened YamlLeaves

  /** A line before it has a number. `closed`: no quotation mark is left open, so that a note can follow. */
  datatype Row = Row(indent: nat, content: string, closed: bool)

  datatype Chomp = Clip | Keep | Drop

  /** A value as it is written. `step` is how much deeper than its key or dash it stands. */
  datatype Doc =
    | Leaf(text: string, value: Value)
    | Nothing
    | Block(folded: bool, chomp: Chomp, body: seq<Row>)
    | Items(items: seq<Item>, step: nat)
    | Fields(fields: seq<Field>, step: nat)

  /** A list item, `gap` more blanks after its dash; a mapping may open in place. */
  datatype Item = Item(doc: Doc, gap: nat, inPlace: bool)

  /** A key as written and as read, the blanks after its colon, and its value. */
  datatype Field = Field(head: string, key: string, gap: string, doc: Doc)

  /* ---------- what it means ---------- */

  function IndicatorText(folded: bool, chomp: Chomp): string {
    (if folded then ">" else "|") + match chomp { case Clip => "" case Keep => "+" case Drop => "-" }
  }

  function Texts(body: seq<Row>): seq<string> {
    if body == [] then [] else [body[0].content] + Texts(body[1..])
  }

  /** The lines of a block scalar, joined by line feeds or, folded, by blanks; a line feed at the end unless dropped. */
  function BlockText(folded: bool, chomp: Chomp, body: seq<Row>): string {
    Join(if folded then " " else "\n", Texts(body)) + if chomp.Drop? then "" else "\n"
  }

  /** Assigning one entry after another, as to a dict. */
  function PutAll(out: seq<Entry>, entries: seq<Entry>): seq<Entry>
    decreases |entries|
  {
    if entries == [] then out else PutAll(Put(out, entries[0].key, entries[0].value), entries[1..])
  }

  function ValueOf(doc: Doc): Value
    decreases doc, 1
  {
    match doc
    case Leaf(_, value) => value
    case Nothing => Null
    case Block(folded, chomp, body) => Str(BlockText(folded, chomp, body))
    case Items(items, _) => List(ValuesOf(items))
    case Fields(fields, _) => Map(PutAll([], EntriesOf(fields)))
  }

  function ValuesOf(items: seq<Item>): seq<Value>
    decreases items, 0
  {
    if items == [] then [] else [ItemValue(items[0])] + ValuesOf(items[1..])
  }

  function ItemValue(item: Item): Value
    decreases item, 2
  {
    ValueOf(item.doc)
  }

  function EntriesOf(fields: seq<Field>): seq<Entry>
    decreases fields, 0
  {
    if fields == [] then [] else [Entry(fields[0].key, ValueOf(fields[0].doc))] + EntriesOf(fields[1..])
  }

  /* ---------- how it is laid out ---------- */

  function FieldLine(f: Field): string {
    f.head + ":" + match f.doc {
      case Leaf(text, _) => f.gap + text
      case Block(folded, chomp, _) => f.gap + IndicatorText(folded, chomp)
      case _ => ""
    }
  }

  /** What is left of the line after its key. */
  function FieldRest(f: Field): string {
    match f.doc
    case Leaf(text, _) => text
    case Block(folded, chomp, _) => IndicatorText(folded, chomp)
    case _ => ""
  }

  predicate EndsClosed(doc: Doc) {
    doc.Leaf? ==> IsQuoted(doc.text) || NoQuotes(doc.text)
  }

  function Shifted(body: seq<Row>, n: nat): (rows: seq<Row>)
    ensures |rows| == |body|
    ensures forall k | 0 <= k < |body| :: rows[k] == body[k].(indent := n + body[k].indent)
  {
    if body == [] then [] else [body[0].(indent := n + body[0].indent)] + Shifted(body[1..], n)
  }

  function FieldRows(f: Field, n: nat): (rows: seq<Row>)
    ensures rows != [] && rows[0] == Row(n, FieldLine(f), EndsClosed(f.doc))
  {
    [Row(n, FieldLine(f), EndsClosed(f.doc))] +
    match f.doc
    case Block(_, _, body) => Shifted(body, n)
    case Items(items, step) => ItemsRows(items, n + step)
    case Fields(fields, step) => FieldsRows(fields, n + step)
    case _ => []
  }

  function FieldsRows(fields: seq<Field>, n: nat): (rows: seq<Row>)
    ensures fields != [] ==> rows != [] && rows[0] == Row(n, FieldLine(fields[0]), EndsClosed(fields[0].doc))
  {
    if fields == [] then [] else FieldRows(fields[0], n) + FieldsRows(fields[1..], n)
  }

  function ItemRows(item: Item, n: nat): (rows: seq<Row>)
    ensures rows != [] && rows[0].indent == n && IsItem(rows[0].content)
  {
    match item.doc
    case Leaf(text, _) => [Row(n, "- " + Spaces(item.gap) + text, EndsClosed(item.doc))]
    case Items(items, step) => [Row(n, "-", true)] + ItemsRows(items, n + step)
    case Fields(fields, step) =>
      if !item.inPlace || fields == [] then [Row(n, "-", true)] + FieldsRows(fields, n + step)
      else
        var rows := FieldsRows(fields, n + 2);
        [Row(n, "- " + Spaces(item.gap) + rows[0].content, rows[0].closed)] + rows[1..]
    case _ => [Row(n, "-", true)]
  }

  function ItemsRows(items: seq<Item>, n: nat): (rows: seq<Row>)
    ensures items != [] ==> rows != [] && rows[0].indent == n && IsItem(rows[0].content)
  {
    if items == [] then [] else ItemRows(items[0], n) + ItemsRows(items[1..], n)
  }

  /** The rows of a whole document. */
  function DocRows(doc: Doc): seq<Row> {
    match doc
    case Items(items, step) => ItemsRows(items, step)
    case Fields(fields, step) => FieldsRows(fields, step)
    case _ => []
  }

  /* ---------- what may be written ---------- */

  /** A key as it is, without quotation marks: nothing in it ends it, opens a comment or makes it an item. */
  predicate IsPlainHead(head: string) {
    && head != "" && Trimmed(head) && NoBreaks(head) && NoQuotes(head) && NoHash(head) && !("- " <= head)
    && forall k | 0 <= k < |head| && head[k] == ':' :: !(k + 1 < |head| && IsBlank(head[k + 1]))
  }

  /** A key between quotation marks that it does not hold. */
  predicate IsQuotedHead(head: string, key: string, quote: char) {
    && IsQuote(quote) && head == [quote] + key + [quote] && NoBreaks(key) && quote !in key
    && (quote == '"' ==> '\\' !in key)
  }

  predicate IsHead(head: string, key: string) {
    (IsPlainHead(head) && key == head) || IsQuotedHead(head, key, '\'') || IsQuotedHead(head, key, '"')
  }

  predicate AllBlank(s: string) {
    forall k | 0 <= k < |s| :: IsBlank(s[k])
  }

  /** A line of a block scalar: any trimmed text in which no comment opens. */
  predicate IsProse(row: Row) {
    && row.content != "" && Trimmed(row.content) && NoBreaks(row.content) && NoHash(row.content)
    && (row.closed ==> NoQuotes(row.content))
  }

  ghost predicate IsField(flow: FlowParser, f: Field) {
    && IsHead(f.head, f.key) && f.gap != "" && AllBlank(f.gap)
    && match f.doc
       case Leaf(text, value) => FitsKey(flow, text, value)
       case Nothing => true
       case Block(_, _, body) => forall row | row in body :: row.indent > 0 && IsProse(row)
       case Items(items, step) => items != [] && AreItems(flow, items)
       case Fields(fields, step) => step > 0 && fields != [] && AreFields(flow, fields)
  }

  ghost predicate AreFields(flow: FlowParser, fields: seq<Field>) {
    forall f | f in fields :: IsField(flow, f)
  }

  ghost predicate IsListed(flow: FlowParser, item: Item) {
    match item.doc
    case Leaf(text, value) => FitsDash(flow, text, value)
    case Nothing => true
    case Block(_, _, _) => false
    case Items(items, step) => step > 0 && items != [] && AreItems(flow, items)
    case Fields(fields, step) => step > 0 && fields != [] && AreFields(flow, fields)
  }

  ghost predicate AreItems(flow: FlowParser, items: seq<Item>) {
    forall item | item in items :: IsListed(flow, item)
  }

  /** A document: a list or a mapping, at any indentation. */
  ghost predicate IsDocument(flow: FlowParser, doc: Doc) {
    match doc
    case Items(items, _) => items != [] && AreItems(flow, items)
    case Fields(fields, _) => fields != [] && AreFields(flow, fields)
    case _ => false
  }

  /* ---------- dicts ---------- */

  /** The value assigned to a key last. */
  function LastOf(entries: seq<Entry>, key: string): Option<Value> {
    if entries == [] then None
    else
      var last := entries[|entries| - 1];
      if last.key == key then Some(last.value) else LastOf(entries[..|entries| - 1], key)
  }

  /** Where a key stands in a dict. */
  function PlaceOf(entries: seq<Entry>, key: string): nat {
    if entries == [] || entries[0].key == key then 0 else 1 + PlaceOf(entries[1..], key)
  }

  lemma {:induction false} PutIs(entries: seq<Entry>, key: string, value: Value)
    ensures var r, p := Put(entries, key, value), PlaceOf(entries, key);
      && p <= |entries| && (forall k | 0 <= k < p :: entries[k].key != key)
      && (p < |entries| ==> entries[p].key == key && r == entries[p := Entry(key, value)])
      && (p == |entries| ==> r == entries + [Entry(key, value)])
  {
    if entries != [] && entries[0].key != key {
      var rest := entries[1..];
      PutIs(rest, key, value);
      assert entries == [entries[0]] + rest;
    }
  }

  lemma PutKeeps(entries: seq<Entry>, key: string, value: Value)
    requires DistinctKeys(entries)
    ensures var r, p := Put(entries, key, value), PlaceOf(entries, key);
      && DistinctKeys(r) && |entries| <= |r| && p < |r| && r[p] == Entry(key, value)
      && (forall k | 0 <= k < |r| && k != p :: k < |entries| && r[k] == entries[k])
      && (forall k | 0 <= k < |entries| :: r[k].key == entries[k].key)
  {
    hide Put, PlaceOf;
    PutIs(entries, key, value);
  }

  /**
   What a mapping with repeated keys reads as: every key once, where it came first, with the value
   that came last.
   */
  lemma {:induction false} LastValueCounts(entries: seq<Entry>)
    ensures var dict := PutAll([], entries);
      && DistinctKeys(dict)
      && (forall e | e in dict :: LastOf(entries, e.key) == Some(e.value))
      && (forall e | e in entries :: exists k | 0 <= k < |dict| :: dict[k].key == e.key)
    decreases |entries|
  {
    if entries != [] {
      var front, last := entries[..|entries| - 1], entries[|entries| - 1];
      LastValueCounts(front);
      assert entries == front + [last];
      PutAllAppend([], front, last);
      var dict, next := PutAll([], front), PutAll([], entries);
      PutKeeps(dict, last.key, last.value);
      var p := PlaceOf(dict, last.key);
      forall e | e in next ensures LastOf(entries, e.key) == Some(e.value) {
        var k :| 0 <= k < |next| && next[k] == e;
        if k != p {
          assert next[k] == dict[k] && dict[k] in dict;
          assert next[k].key != next[p].key;
        }
      }
      forall e | e in entries ensures exists k | 0 <= k < |next| :: next[k].key == e.key {
        if e in front {
          var k :| 0 <= k < |dict| && dict[k].key == e.key;
          assert next[k].key == e.key;
        } else {
          assert next[p].key == e.key;
        }
      }
    }
  }

  lemma {:induction false} PutAllAppend(out: seq<Entry>, front: seq<Entry>, last: Entry)
    ensures PutAll(out, front + [last]) == Put(PutAll(out, front), last.key, last.value)
    decreases |front|
  {
    if front == [] {
      assert front + [last] == [last] && [last][1..] == [];
    } else {
      assert (front + [last])[1..] == front[1..] + [last];
      PutAllAppend(Put(out, front[0].key, front[0].value), front[1..], last);
    }
  }

  /** Keys stay in the order in which they came first. */
  lemma {:induction false} FirstPlaceCounts(out: seq<Entry>, entries: seq<Entry>, k: nat)
    requires DistinctKeys(out) && k < |out|
    ensures k < |PutAll(out, entries)| && PutAll(out, entries)[k].key == out[k].key
    decreases |entries|
  {
    if entries != [] {
      PutKeeps(out, entries[0].key, entries[0].value);
      FirstPlaceCounts(Put(out, entries[0].key, entries[0].value), entries[1..], k);
    }
  }

  /* ---------- one line ---------- */

  /** A key is split off its line, and what follows the colon is the rest. */
  lemma HeadSplits(head: string, key: string, after: string)
    requires IsHead(head, key) && (after == "" || IsBlank(after[0]))
    ensures SplitKey(head + ":" + after) == Some(KeyRest(key, Strip(after)))
    ensures head != "" && Trimmed(head) && NoBreaks(head)
  {
    hide KeyColon, IsPlainHead, IsQuotedHead, Strip, Trimmed, NoBreaks;
    var line, n := head + ":" + after, |head|;
    assert line[..n] == head && line[n] == ':' && line[n + 1..] == after;
    assert n + 1 < |line| ==> line[n + 1] == after[0];
    ColonHere(line, n);
    if IsPlainHead(head) && key == head {
      PlainHeadSplits(head, after);
    } else {
      QuotedHeadSplits(head, key, if IsQuotedHead(head, key, '"') then '"' else '\'', after);
    }
    StripKeepsTrimmed(head);
  }

  lemma PlainHeadSplits(head: string, after: string)
    requires IsPlainHead(head) && (after == "" || IsBlank(after[0]))
    ensures KeyColon(head + ":" + after, 0, None) == KeyColon(head + ":" + after, |head|, None)
    ensures Unquote(head) == head && head != "" && Trimmed(head) && NoBreaks(head)
  {
    var line, n := head + ":" + after, |head|;
    assert forall k | 0 <= k < n :: line[k] == head[k];
    assert line[n] == ':';
    ColonSkipsPlain(line, 0, n);
  }

  lemma QuotedHeadSplits(head: string, key: string, quote: char, after: string)
    requires IsQuotedHead(head, key, quote)
    ensures KeyColon(head + ":" + after, 0, None) == KeyColon(head + ":" + after, |head|, None)
    ensures Unquote(head) == key && head != "" && Trimmed(head) && NoBreaks(head)
  {
    hide KeyColon;
    var line := head + ":" + after;
    QuotedHeadIs(head, key, quote);
    assert forall k | 0 <= k < |head| :: line[k] == head[k];
    OpensQuote(line, 0, quote);
    ColonSkipsBare(line, 1, |key|, quote);
  }

  lemma QuotedHeadIs(head: string, key: string, quote: char)
    requires IsQuotedHead(head, key, quote)
    ensures |head| == |key| + 2 && head[0] == quote == head[|key| + 1] && IsQuote(quote) && head[1..|head| - 1] == key
    ensures forall k | 1 <= k < |key| + 1 :: head[k] != quote && (quote == '"' ==> head[k] != '\\')
    ensures Trimmed(head) && NoBreaks(head) && Unquote(head) == key
  {
    assert forall k | 1 <= k < |key| + 1 :: head[k] == key[k - 1];
    assert head[1..|head| - 1] == key;
  }

  lemma ColonHere(content: string, i: nat)
    requires i < |content| && content[i] == ':' && (i + 1 == |content| || IsBlank(content[i + 1]))
    ensures KeyColon(content, i, None) == Some(i)
  {
  }

  /** No comment opens in a key. */
  lemma HeadIsPassed(line: string, i: nat, head: string, key: string)
    requires IsHead(head, key) && At(line, i, head)
    ensures CommentStart(line, i, None) == CommentStart(line, i + |head|, None)
    ensures head != "" && head[0] != '#'
  {
    hide CommentStart, IsQuotedHead;
    if IsPlainHead(head) && key == head {
      CommentSkipsText(line, i, head);
    } else {
      hide IsPlainHead;
      var quote := if IsQuotedHead(head, key, '"') then '"' else '\'';
      QuotedHeadIs(head, key, quote);
      assert forall k | 0 <= k < |head| :: line[i + k] == line[i..i + |head|][k] == head[k];
      OpensQuote(line, i, quote);
      CommentSkipsBare(line, i + 1, |key|, quote);
    }
  }

  lemma BlanksStrip(gap: string, text: string)
    requires AllBlank(gap) && Trimmed(text) && text != ""
    ensures Strip(gap + text) == text
  {
    BlanksLStrip(gap, text);
    StripKeepsTrimmed(text);
  }

  lemma {:induction false} BlanksLStrip(gap: string, text: string)
    requires AllBlank(gap) && text != "" && !IsSpace(text[0])
    ensures LStrip(gap + text) == text
  {
    if gap == "" {
      assert gap + text == text;
    } else {
      assert (gap + text)[1..] == gap[1..] + text;
      BlanksLStrip(gap[1..], text);
    }
  }

  lemma {:induction false} BlanksRStrip(text: string, gap: string)
    requires AllBlank(gap) && text != "" && !IsSpace(text[|text| - 1])
    ensures RStrip(text + gap) == text
    decreases |gap|
  {
    if gap == "" {
      assert text + gap == text;
    } else {
      assert (text + gap)[..|text + gap| - 1] == text + gap[..|gap| - 1];
      BlanksRStrip(text, gap[..|gap| - 1]);
    }
  }

  lemma IndicatorIs(folded: bool, chomp: Chomp)
    ensures IsBlockIndicator(IndicatorText(folded, chomp))
    ensures var t := IndicatorText(folded, chomp);
      && t != "" && t[0] in {'|', '>'} && Trimmed(t) && NoBreaks(t) && NoHash(t) && NoQuotes(t)
      && (t[0] == '|' <==> !folded) && (t[|t| - 1] == '-' <==> chomp.Drop?)
  {
    var t := IndicatorText(folded, chomp);
    assert t == if folded then (if chomp.Clip? then ">" else if chomp.Keep? then ">+" else ">-")
                else (if chomp.Clip? then "|" else if chomp.Keep? then "|+" else "|-");
  }

  /** The line of a field splits at its own colon into its key and the rest. */
  lemma FieldSplits(flow: FlowParser, f: Field)
    requires IsField(flow, f)
    ensures SplitKey(FieldLine(f)) == Some(KeyRest(f.key, FieldRest(f)))
    ensures Trimmed(FieldRest(f)) && NoBreaks(FieldRest(f))
  {
    hide SplitKey, IsHead, FitsKey, AllBlank, IndicatorText, AreItems, AreFields;
    var after := match f.doc {
      case Leaf(text, _) => f.gap + text
      case Block(folded, chomp, _) => f.gap + IndicatorText(folded, chomp)
      case _ => ""
    };
    RestIsText(flow, f);
    assert after != "" ==> after == f.gap + FieldRest(f);
    BlankFirst(f.gap);
    HeadSplits(f.head, f.key, after);
    if after != "" {
      BlanksStrip(f.gap, FieldRest(f));
    } else {
      StripKeepsTrimmed("");
    }
  }

  lemma BlankFirst(gap: string)
    requires gap != "" && AllBlank(gap)
    ensures IsBlank(gap[0])
  {
  }

  lemma RestIsText(flow: FlowParser, f: Field)
    requires IsField(flow, f)
    ensures Trimmed(FieldRest(f)) && NoBreaks(FieldRest(f))
    ensures f.doc.Leaf? || f.doc.Block? <==> FieldRest(f) != ""
    ensures FieldRest(f) != "" ==> FieldRest(f)[0] != '#'
  {
    hide IndicatorText, IsHead, Writes;
    match f.doc
    case Leaf(text, value) => LeafShape(flow, text, value);
    case Block(folded, chomp, _) => IndicatorIs(folded, chomp);
    case _ =>
  }

  /** It is no list item, and it is a trimmed line. */
  lemma FieldIsNoItem(flow: FlowParser, f: Field)
    requires IsField(flow, f)
    ensures !IsItem(FieldLine(f)) && FieldLine(f) != "" && Trimmed(FieldLine(f)) && NoBreaks(FieldLine(f))
  {
    hide IndicatorText, SplitKey, FitsKey, AreItems, AreFields;
    var line := FieldLine(f);
    RestIsText(flow, f);
    HeadSplits(f.head, f.key, "");
    HeadIsNoDash(f.head, f.key, line);
    BlanksBreakNothing(f.gap);
    assert line[0] == f.head[0];
    assert line[|line| - 1] == if FieldRest(f) == "" then ':' else FieldRest(f)[|FieldRest(f)| - 1];
  }

  lemma BlanksBreakNothing(gap: string)
    requires AllBlank(gap)
    ensures NoBreaks(gap) && NoQuotes(gap)
  {
  }

  lemma HeadIsNoDash(head: string, key: string, line: string)
    requires IsHead(head, key) && head + ":" <= line
    ensures !IsItem(line)
  {
    assert line[0] == head[0] && line[|head|] == ':';
    if |head| > 1 {
      assert line[1] == head[1];
      assert head[..2] == [head[0], head[1]];
    }
  }

  /* ---------- rows survive preparation ---------- */

  /** What may follow a row on its line: blanks, and after a closed row a note. */
  ghost predicate IsTrailer(trailer: string, closed: bool) {
    AllBlank(trailer) || (closed && exists gap, note :: IsNoteAfter(trailer, gap, note))
  }

  predicate IsNoteAfter(trailer: string, gap: string, note: string) {
    trailer == gap + "#" + note && gap != "" && AllBlank(gap) && NoBreaks(note)
  }

  /** The comment scanner reads the row to its end: it stops at a note, or nowhere. */
  ghost predicate IsScanned(content: string, closed: bool) {
    && (forall n: nat, gap | AllBlank(gap) ::
          var line := Spaces(n) + content + gap; CommentStart(line, 0, None) == |line|)
    && (closed ==> forall n: nat, gap, note | gap != "" && AllBlank(gap) ::
          CommentStart(Spaces(n) + content + gap + "#" + note, 0, None) == n + |content| + |gap|)
  }

  /** A row that line preparation hands on at its indentation, whatever follows it. */
  ghost predicate Survives(row: Row) {
    row.content != "" && Trimmed(row.content) && NoBreaks(row.content) && IsScanned(row.content, row.closed)
  }

  lemma {:induction false} LeadingSpacesOf(n: nat, s: string)
    requires s != "" && s[0] != ' '
    ensures LeadingSpaces(Spaces(n) + s) == n
  {
    if n == 0 {
      assert Spaces(n) + s == s;
    } else {
      assert (Spaces(n) + s)[1..] == Spaces(n - 1) + s;
      LeadingSpacesOf(n - 1, s);
    }
  }

  lemma RowIsPrepared(row: Row, trailer: string, lineno: nat)
    requires Survives(row) && IsTrailer(trailer, row.closed)
    ensures PrepLine(Spaces(row.indent) + row.content + trailer, lineno)
         == Ok(Some(Line(row.indent, row.content, lineno)))
  {
    hide CommentStart, IsScanned, AllBlank;
    var n, content := row.indent, row.content;
    var raw, bare := Spaces(n) + content + trailer, Spaces(n) + content;
    var gap := trailer;
    if !AllBlank(trailer) {
      var g, note :| IsNoteAfter(trailer, g, note);
      gap := g;
      NoteStarts(row, g, note);
      assert raw == Spaces(n) + content + g + "#" + note;
      assert raw[..n + |content| + |g|] == bare + g;
    } else {
      BlanksScan(row, gap);
      assert raw[..|raw|] == bare + gap;
    }
    assert bare[|bare| - 1] == content[|content| - 1];
    BlanksRStrip(bare, gap);
    assert StripComment(raw) == bare;
    LeadIs(n, content, trailer, raw);
    LStripSpaces(n, content);
    StripKeepsTrimmed(content);
    LeadingSpacesOf(n, content);
  }

  lemma NoteStarts(row: Row, gap: string, note: string)
    requires IsScanned(row.content, row.closed) && row.closed && gap != "" && AllBlank(gap)
    ensures CommentStart(Spaces(row.indent) + row.content + gap + "#" + note, 0, None)
         == row.indent + |row.content| + |gap|
  {
    hide CommentStart, AllBlank;
  }

  lemma BlanksScan(row: Row, gap: string)
    requires IsScanned(row.content, row.closed) && AllBlank(gap)
    ensures var line := Spaces(row.indent) + row.content + gap; CommentStart(line, 0, None) == |line|
  {
    hide CommentStart, AllBlank;
  }

  /** There is no tab in the indentation of a row. */
  lemma LeadIs(n: nat, content: string, trailer: string, raw: string)
    requires content != "" && !IsSpace(content[0]) && raw == Spaces(n) + content + trailer
    ensures |LStrip(raw)| <= |raw| && raw[..|raw| - |LStrip(raw)|] == Spaces(n)
  {
    LStripSpaces(n, content + trailer);
    assert raw == Spaces(n) + (content + trailer);
    assert raw[..n] == Spaces(n);
  }

  /** Anything in which no '#' opens a comment is scanned to its end. */
  lemma OpenIsScanned(content: string)
    requires content != "" && NoHash(content)
    ensures IsScanned(content, false)
  {
    hide CommentStart;
    forall n: nat, gap | AllBlank(gap)
      ensures var line := Spaces(n) + content + gap; CommentStart(line, 0, None) == |line|
    {
      var line := Spaces(n) + content + gap;
      forall k | 0 <= k < |line| ensures !HashOpens(line, k) {
        if n <= k < n + |content| {
          assert line[k] == content[k - n];
          assert k > n ==> line[k - 1] == content[k - 1 - n];
        } else if k >= n + |content| {
          assert line[k] == gap[k - n - |content|];
        }
      }
      NoHashNoComment(line, 0, None);
    }
  }

  /** Where a note stands, and where there is none. */
  lemma NoteOpens(line: string, i: nat, gap: string, note: string)
    requires i <= |line| && AllBlank(gap)
    ensures line[i..] == gap ==> CommentStart(line, i, None) == |line|
    ensures gap != "" && line[i..] == gap + "#" + note ==> CommentStart(line, i, None) == i + |gap|
  {
    if line[i..] == gap {
      assert forall k | i <= k < |line| :: line[k] == line[i..][k - i];
      CommentSkipsPlain(line, i, |line|);
    }
    if gap != "" && line[i..] == gap + "#" + note {
      var j := i + |gap|;
      assert forall k | i <= k < j :: line[k] == line[i..][k - i] == gap[k - i];
      assert line[j] == line[i..][|gap|] == '#';
      CommentSkipsPlain(line, i, j);
    }
  }

  /** The comment scanner passes over the text at the start of a line or after a space. */
  ghost predicate IsPassed(content: string) {
    forall line, i: nat | At(line, i, content) && (i == 0 || line[i - 1] == ' ') ::
      CommentStart(line, i, None) == CommentStart(line, i + |content|, None)
  }

  lemma PassedHere(content: string, n: nat, after: string)
    requires IsPassed(content)
    ensures
      var line := Spaces(n) + content + after;
      CommentStart(line, 0, None) == CommentStart(line, n + |content|, None)
  {
    hide CommentStart;
    var line := Spaces(n) + content + after;
    assert Spaces(n) <= line;
    SpacesArePassed(line, n);
    assert line[n..n + |content|] == content;
    assert At(line, n, content);
  }

  /** Such a text is a scanned row. */
  lemma PassedIsScanned(content: string)
    requires IsPassed(content)
    ensures IsScanned(content, true)
  {
    hide CommentStart, IsPassed, AllBlank;
    forall n: nat, gap | AllBlank(gap)
      ensures var line := Spaces(n) + content + gap; CommentStart(line, 0, None) == |line|
    {
      var line := Spaces(n) + content + gap;
      PassedHere(content, n, gap);
      assert line[n + |content|..] == gap;
      NoteOpens(line, n + |content|, gap, "");
    }
    forall n: nat, gap, note | gap != "" && AllBlank(gap)
      ensures CommentStart(Spaces(n) + content + gap + "#" + note, 0, None) == n + |content| + |gap|
    {
      var line := Spaces(n) + content + (gap + "#" + note);
      assert line == Spaces(n) + content + gap + "#" + note;
      PassedHere(content, n, gap + "#" + note);
      assert line[n + |content|..] == gap + "#" + note;
      NoteOpens(line, n + |content|, gap, note);
    }
  }

  lemma SpacesArePassed(line: string, n: nat)
    requires Spaces(n) <= line
    ensures CommentStart(line, 0, None) == CommentStart(line, n, None)
    ensures n == 0 || line[n - 1] == ' '
  {
    assert forall k | 0 <= k < n :: line[k] == Spaces(n)[k];
    CommentSkipsPlain(line, 0, n);
  }

  lemma AtParts(line: string, i: nat, a: string, b: string)
    requires At(line, i, a + b)
    ensures At(line, i, a) && At(line, i + |a|, b)
  {
    var s := line[i..i + |a| + |b|];
    assert s[..|a|] == a && s[|a|..] == b;
    assert line[i..i + |a|] == s[..|a|] && line[i + |a|..i + |a| + |b|] == s[|a|..];
  }

  lemma PassedBoth(a: string, b: string)
    requires IsPassed(a)
    requires forall line, i: nat | At(line, i, b) :: CommentStart(line, i, None) == CommentStart(line, i + |b|, None)
    ensures IsPassed(a + b)
  {
    hide CommentStart;
    forall line, i: nat | At(line, i, a + b) && (i == 0 || line[i - 1] == ' ')
      ensures CommentStart(line, i, None) == CommentStart(line, i + |a + b|, None)
    {
      hide At;
      AtParts(line, i, a, b);
      assert CommentStart(line, i, None) == CommentStart(line, i + |a|, None);
      assert i + |a + b| == (i + |a|) + |b|;
    }
  }

  lemma TextIsPassed(text: string)
    requires NoQuotes(text) && NoHash(text)
    ensures IsPassed(text)
    ensures forall line, i: nat | At(line, i, text) ::
              CommentStart(line, i, None) == CommentStart(line, i + |text|, None)
  {
    hide CommentStart, At;
    forall line, i: nat | At(line, i, text)
      ensures CommentStart(line, i, None) == CommentStart(line, i + |text|, None)
    {
      CommentSkipsText(line, i, text);
    }
  }

  /** A dash and blanks, a key, a colon and blanks: what stands before the rest of a row. */
  lemma LeadIsPassed(dash: string, head: string, key: string, gap: string)
    requires NoQuotes(dash) && NoHash(dash) && IsHead(head, key) && AllBlank(gap)
    ensures IsPassed(dash + head + ":" + gap)
  {
    hide CommentStart, IsHead, IsPassed, At;
    TextIsPassed(dash);
    forall line, i: nat | At(line, i, head)
      ensures CommentStart(line, i, None) == CommentStart(line, i + |head|, None)
    {
      HeadIsPassed(line, i, head, key);
    }
    PassedBoth(dash, head);
    ColonIsText(gap);
    TextIsPassed(":" + gap);
    PassedBoth(dash + head, ":" + gap);
    assert dash + head + ":" + gap == (dash + head) + (":" + gap);
  }

  lemma ColonIsText(gap: string)
    requires AllBlank(gap)
    ensures NoQuotes(":" + gap) && NoHash(":" + gap)
  {
  }

  /** What a row ends with, a scalar or nothing. */
  ghost predicate IsRest(rest: string) {
    rest == "" || (rest[0] != '#' && (IsEnclosed(rest) || NoHash(rest)))
  }

  lemma RowIsScanned(lead: string, rest: string, closed: bool)
    requires IsPassed(lead) && IsRest(rest) && lead + rest != ""
    requires closed ==> rest == "" || IsEnclosed(rest) || NoQuotes(rest)
    requires !closed ==> rest == "" || NoHash(rest)
    ensures IsScanned(lead + rest, closed)
  {
    hide CommentStart, IsEnclosed, IsPassed, At;
    if closed {
      forall line, i: nat | At(line, i, rest)
        ensures CommentStart(line, i, None) == CommentStart(line, i + |rest|, None)
      {
        if rest != "" && IsEnclosed(rest) {
          CommentSkipsQuoted(line, i, rest);
        } else {
          CommentSkipsText(line, i, rest);
        }
      }
      PassedBoth(lead, rest);
      PassedIsScanned(lead + rest);
    } else {
      forall n: nat, gap | AllBlank(gap)
        ensures var line := Spaces(n) + (lead + rest) + gap; CommentStart(line, 0, None) == |line|
      {
        OpenRowScans(lead, rest, n, gap);
      }
    }
  }

  lemma OpenRowScans(lead: string, rest: string, n: nat, gap: string)
    requires IsPassed(lead) && (rest == "" || (NoHash(rest) && rest[0] != '#')) && AllBlank(gap)
    ensures var line := Spaces(n) + (lead + rest) + gap; CommentStart(line, 0, None) == |line|
  {
    hide CommentStart, IsPassed;
    var line, i := Spaces(n) + (lead + rest) + gap, n + |lead|;
    PassedHere(lead, n, rest + gap);
    assert line == Spaces(n) + lead + (rest + gap);
    forall k | i <= k < |line| ensures !HashOpens(line, k) {
      assert line[k] == (rest + gap)[k - i];
      assert k > i ==> line[k - 1] == (rest + gap)[k - i - 1];
    }
    NoHashNoComment(line, i, None);
  }

  /* ---------- the rows of a document ---------- */

  predicate IsDash(dash: string) {
    dash == "" || exists gap: nat | gap < |dash| :: dash == "- " + Spaces(gap)
  }

  lemma DashIsText(dash: string)
    requires IsDash(dash)
    ensures NoQuotes(dash) && NoHash(dash) && NoBreaks(dash)
    ensures dash != "" ==> dash[0] == '-' && "- " <= dash && AllBlank(dash[1..])
  {
    if dash != "" {
      var gap: nat :| gap < |dash| && dash == "- " + Spaces(gap);
      assert forall k | 0 <= k < gap :: Spaces(gap)[k] == ' ' == dash[k + 2];
    }
  }

  /** The row of a field survives, after a dash or without one. */
  lemma FieldSurvives(flow: FlowParser, f: Field, dash: string, n: nat)
    requires IsField(flow, f) && IsDash(dash)
    ensures Survives(Row(n, dash + FieldLine(f), EndsClosed(f.doc)))
  {
    hide IsScanned, IsPassed, IsHead, FitsKey, AreItems, AreFields, IndicatorText, IsEnclosed, IsDash, Trimmed;
    var rest := FieldRest(f);
    var gap := if rest == "" then "" else f.gap;
    var lead := dash + f.head + ":" + gap;
    RestIsText(flow, f);
    FieldIsNoItem(flow, f);
    DashIsText(dash);
    LeadIsPassed(dash, f.head, f.key, gap);
    assert dash + FieldLine(f) == lead + rest;
    RestCloses(flow, f);
    RowIsScanned(lead, rest, EndsClosed(f.doc));
    DashTrims(dash, FieldLine(f));
  }

  lemma DashTrims(dash: string, line: string)
    requires IsDash(dash) && line != "" && Trimmed(line) && NoBreaks(line)
    ensures Trimmed(dash + line) && NoBreaks(dash + line)
  {
    DashIsText(dash);
  }

  lemma RestCloses(flow: FlowParser, f: Field)
    requires IsField(flow, f)
    ensures IsRest(FieldRest(f))
    ensures EndsClosed(f.doc) ==> FieldRest(f) == "" || IsEnclosed(FieldRest(f)) || NoQuotes(FieldRest(f))
    ensures !EndsClosed(f.doc) ==> FieldRest(f) == "" || NoHash(FieldRest(f))
  {
    hide IsHead, Writes, AreItems, AreFields, IsEnclosed, IndicatorText;
    RestIsText(flow, f);
    match f.doc
    case Leaf(text, value) => LeafShape(flow, text, value);
    case Block(folded, chomp, _) => IndicatorIs(folded, chomp);
    case _ =>
  }

  /** The row of a scalar item survives. */
  lemma LeafSurvives(flow: FlowParser, text: string, value: Value, gap: nat, n: nat)
    requires FitsDash(flow, text, value)
    ensures Survives(Row(n, "- " + Spaces(gap) + text, EndsClosed(Leaf(text, value))))
  {
    hide IsScanned, IsPassed, Writes, IsEnclosed, IsDash, Trimmed, NoBreaks, NoHash;
    var dash := "- " + Spaces(gap);
    LeafShape(flow, text, value);
    ADash(gap);
    DashIsText(dash);
    TextIsPassed(dash);
    RowIsScanned(dash, text, EndsClosed(Leaf(text, value)));
    DashTrims(dash, text);
  }

  lemma ADash(gap: nat)
    ensures IsDash("- " + Spaces(gap))
  {
    var dash := "- " + Spaces(gap);
    assert gap < |dash|;
  }

  lemma BareDashSurvives(n: nat)
    ensures Survives(Row(n, "-", true))
  {
    hide IsScanned, IsPassed;
    TextIsPassed("-");
    PassedIsScanned("-");
  }

  lemma ProseSurvives(row: Row)
    requires IsProse(row)
    ensures Survives(row)
  {
    hide IsScanned, IsPassed;
    if row.closed {
      TextIsPassed(row.content);
      PassedIsScanned(row.content);
    } else {
      OpenIsScanned(row.content);
    }
  }

  /** Rows that survive preparation and are no shallower than the block they belong to. */
  ghost predicate GoodRows(rows: seq<Row>, n: nat) {
    forall k | 0 <= k < |rows| :: rows[k].indent >= n && Survives(rows[k])
  }

  lemma {:induction false} FieldsAreGood(flow: FlowParser, fields: seq<Field>, n: nat)
    requires AreFields(flow, fields)
    ensures GoodRows(FieldsRows(fields, n), n)
    decreases fields, 0
  {
    hide Survives, IsField;
    if fields != [] {
      FieldIsGood(flow, fields[0], n);
      FieldsAreGood(flow, fields[1..], n);
    }
  }

  lemma {:induction false} FieldIsGood(flow: FlowParser, f: Field, n: nat)
    requires IsField(flow, f)
    ensures GoodRows(FieldRows(f, n), n)
    decreases f, 1
  {
    hide Survives, FieldLine, IsHead, FitsKey, AreItems, AreFields;
    FieldSurvives(flow, f, "", n);
    assert "" + FieldLine(f) == FieldLine(f);
    match f.doc
    case Block(_, _, body) => BodyIsGood(body, n);
    case Items(items, step) => ItemsAreGood(flow, items, n + step);
    case Fields(fields, step) => FieldsAreGood(flow, fields, n + step);
    case _ =>
  }

  lemma BodyIsGood(body: seq<Row>, n: nat)
    requires forall row | row in body :: IsProse(row)
    ensures GoodRows(Shifted(body, n), n)
  {
    hide Survives, IsProse;
    forall k | 0 <= k < |body| ensures Survives(Shifted(body, n)[k]) {
      assert body[k] in body;
      ProseShifts(body[k], n);
      ProseSurvives(body[k].(indent := n + body[k].indent));
    }
  }

  lemma ProseShifts(row: Row, n: nat)
    requires IsProse(row)
    ensures IsProse(row.(indent := n + row.indent))
  {
  }

  lemma {:induction false} ItemsAreGood(flow: FlowParser, items: seq<Item>, n: nat)
    requires AreItems(flow, items)
    ensures GoodRows(ItemsRows(items, n), n)
    decreases items, 0
  {
    hide Survives, IsListed;
    if items != [] {
      ItemIsGood(flow, items[0], n);
      ItemsAreGood(flow, items[1..], n);
    }
  }

  lemma {:induction false} ItemIsGood(flow: FlowParser, item: Item, n: nat)
    requires IsListed(flow, item)
    ensures GoodRows(ItemRows(item, n), n)
    decreases item, 1
  {
    hide Survives, FitsDash, AreItems, AreFields, FieldLine;
    BareDashSurvives(n);
    match item.doc
    case Leaf(text, value) => LeafSurvives(flow, text, value, item.gap, n);
    case Items(items, step) => ItemsAreGood(flow, items, n + step);
    case Fields(fields, step) =>
      if item.inPlace {
        FieldsAreGood(flow, fields, n + 2);
        ADash(item.gap);
        FirstField(flow, fields);
        FieldSurvives(flow, fields[0], "- " + Spaces(item.gap), n);
      } else {
        FieldsAreGood(flow, fields, n + step);
      }
    case _ =>
  }

  lemma FirstField(flow: FlowParser, fields: seq<Field>)
    requires AreFields(flow, fields) && fields != []
    ensures IsField(flow, fields[0])
  {
    hide IsField;
  }
}
