/**
 Parsing a document, however it is written, returns the value it stands for.
 */
module YamlRoundTrip {
  import opened Outcomes
  import opened PyText
  import opened YamlScan
  import opened YamlParser
  import opened YamlLeaves
  import opened YamlSurface

  /** Lines i.. of the document carry these rows. */
  ghost predicate Shows(lines: seq<Line>, i: nat, rows: seq<Row>) {
    && i + |rows| <= |lines|
    && forall k | i <= k < i + |rows| ::
         lines[k].indent == rows[k - i].indent && lines[k].content == rows[k - i].content
  }

  lemma ShowsSplit(lines: seq<Line>, i: nat, a: seq<Row>, b: seq<Row>)
    requires Shows(lines, i, a + b)
    ensures Shows(lines, i, a) && Shows(lines, i + |a|, b)
    ensures i + |a| + |b| <= |lines|
  {
    var rows := a + b;
    var mid := i + |a|;
    forall k | mid <= k < mid + |b|
      ensures lines[k].indent == b[k - mid].indent && lines[k].content == b[k - mid].content
    {
      assert rows[k - i] == b[k - mid];
    }
  }

  lemma ShowsFits(lines: seq<Line>, i: nat, rows: seq<Row>)
    requires Shows(lines, i, rows)
    ensures i + |rows| <= |lines|
  {
  }

  lemma ShowsFirst(lines: seq<Line>, i: nat, rows: seq<Row>)
    requires rows != [] && Shows(lines, i, rows)
    ensures lines[i].indent == rows[0].indent && lines[i].content == rows[0].content
    ensures Shows(lines, i + 1, rows[1..]) && i + |rows| <= |lines|
  {
    ShowsSplit(lines, i, rows[..1], rows[1..]);
    assert rows == rows[..1] + rows[1..];
  }

  /** Line i is the end of the document or at most this deep. */
  ghost predicate EndsAbove(lines: seq<Line>, i: nat, indent: nat) {
    i == |lines| || (i < |lines| && lines[i].indent <= indent)
  }

  /** And if it is as deep, it is no list item. */
  ghost predicate Closes(lines: seq<Line>, i: nat, indent: nat) {
    EndsAbove(lines, i, indent) && (i < |lines| && lines[i].indent == indent ==> !IsItem(lines[i].content))
  }

  lemma ClosesMeans(lines: seq<Line>, i: nat, indent: nat)
    ensures EndsAbove(lines, i, indent) <==> i == |lines| || (i < |lines| && lines[i].indent <= indent)
    ensures Closes(lines, i, indent)
       <==> i == |lines| || (i < |lines| && (lines[i].indent < indent
                                             || (lines[i].indent == indent && !IsItem(lines[i].content))))
  {
  }

  /* ---------- unfolding ---------- */

  lemma FieldsUnfold(fields: seq<Field>, n: nat)
    ensures FieldsRows([], n) == [] && EntriesOf([]) == []
    ensures fields != [] ==>
      && FieldsRows(fields, n) == FieldRows(fields[0], n) + FieldsRows(fields[1..], n)
      && EntriesOf(fields) == [Entry(fields[0].key, ValueOf(fields[0].doc))] + EntriesOf(fields[1..])
  {
  }

  lemma ItemsUnfold(items: seq<Item>, n: nat)
    ensures ItemsRows([], n) == [] && ValuesOf([]) == []
    ensures items != [] ==>
      && ItemsRows(items, n) == ItemRows(items[0], n) + ItemsRows(items[1..], n)
      && ValuesOf(items) == [ValueOf(items[0].doc)] + ValuesOf(items[1..])
  {
  }

  lemma FieldUnfolds(f: Field, n: nat)
    ensures FieldRows(f, n) != [] && FieldRows(f, n)[0].indent == n && FieldRows(f, n)[0].content == FieldLine(f)
    ensures f.doc.Block? ==> FieldRows(f, n)[1..] == Shifted(f.doc.body, n)
    ensures f.doc.Items? ==> FieldRows(f, n)[1..] == ItemsRows(f.doc.items, n + f.doc.step)
    ensures f.doc.Fields? ==> FieldRows(f, n)[1..] == FieldsRows(f.doc.fields, n + f.doc.step)
    ensures f.doc.Leaf? || f.doc.Nothing? ==> |FieldRows(f, n)| == 1
  {
  }

  lemma ItemUnfolds(item: Item, n: nat)
    ensures ItemRows(item, n) != [] && ItemRows(item, n)[0].indent == n && IsItem(ItemRows(item, n)[0].content)
    ensures item.doc.Items? ==>
      ItemRows(item, n)[0].content == "-" && ItemRows(item, n)[1..] == ItemsRows(item.doc.items, n + item.doc.step)
    ensures item.doc.Fields? && !item.inPlace ==>
      ItemRows(item, n)[0].content == "-" && ItemRows(item, n)[1..] == FieldsRows(item.doc.fields, n + item.doc.step)
    ensures item.doc.Fields? && item.inPlace && item.doc.fields != [] ==>
      var rows := FieldsRows(item.doc.fields, n + 2);
      && rows != [] && ItemRows(item, n)[0].content == "- " + Spaces(item.gap) + rows[0].content
      && ItemRows(item, n)[1..] == rows[1..]
    ensures item.doc.Leaf? ==>
      |ItemRows(item, n)| == 1 && ItemRows(item, n)[0].content == "- " + Spaces(item.gap) + item.doc.text
    ensures item.doc.Nothing? ==> |ItemRows(item, n)| == 1 && ItemRows(item, n)[0].content == "-"
  {
  }

  lemma FieldParts(flow: FlowParser, f: Field)
    requires IsField(flow, f)
    ensures f.doc.Items? ==> f.doc.items != [] && AreItems(flow, f.doc.items)
    ensures f.doc.Fields? ==> f.doc.step > 0 && f.doc.fields != [] && AreFields(flow, f.doc.fields)
    ensures f.doc.Leaf? ==> FitsKey(flow, f.doc.text, f.doc.value)
    ensures f.doc.Block? ==> forall row | row in f.doc.body :: row.indent > 0
    ensures f.doc.Leaf? || f.doc.Block? ==> FieldRest(f) != ""
    ensures f.doc.Items? || f.doc.Fields? || f.doc.Nothing? ==> FieldRest(f) == ""
    ensures f.doc.Leaf? ==> FieldRest(f) == f.doc.text
    ensures f.doc.Block? ==> FieldRest(f) == IndicatorText(f.doc.folded, f.doc.chomp)
  {
    hide FitsKey, IsHead, IsProse;
    RestIsText(flow, f);
  }

  lemma ItemParts(flow: FlowParser, item: Item)
    requires IsListed(flow, item)
    ensures item.doc.Items? ==> item.doc.step > 0 && item.doc.items != [] && AreItems(flow, item.doc.items)
    ensures item.doc.Fields? ==> item.doc.step > 0 && item.doc.fields != [] && AreFields(flow, item.doc.fields)
    ensures item.doc.Leaf? ==> FitsDash(flow, item.doc.text, item.doc.value)
    ensures !item.doc.Block?
  {
    hide FitsDash;
  }

  lemma FirstOfFields(flow: FlowParser, fields: seq<Field>)
    requires AreFields(flow, fields) && fields != []
    ensures IsField(flow, fields[0]) && AreFields(flow, fields[1..])
  {
    hide IsField;
  }

  lemma FirstOfItems(flow: FlowParser, items: seq<Item>)
    requires AreItems(flow, items) && items != []
    ensures IsListed(flow, items[0]) && AreItems(flow, items[1..])
  {
    hide IsListed;
  }

  lemma PutAllNext(out: seq<Entry>, entries: seq<Entry>)
    ensures PutAll(out, []) == out
    ensures entries != [] ==> PutAll(out, entries) == PutAll(Put(out, entries[0].key, entries[0].value), entries[1..])
  {
  }

  lemma ValueIs(doc: Doc)
    ensures doc.Leaf? ==> ValueOf(doc) == doc.value
    ensures doc.Nothing? ==> ValueOf(doc) == Null
    ensures doc.Block? ==> ValueOf(doc) == Str(BlockText(doc.folded, doc.chomp, doc.body))
    ensures doc.Items? ==> ValueOf(doc) == List(ValuesOf(doc.items))
    ensures doc.Fields? ==> ValueOf(doc) == Map(PutAll([], EntriesOf(doc.fields)))
  {
  }

  /* ---------- one step of each loop ---------- */

  lemma MappingStep(flow: FlowParser, lines: seq<Line>, i: nat, indent: nat, out: seq<Entry>,
                    split: KeyRest, block: Parsed<Value>)
    requires i < |lines| && lines[i].indent == indent && !IsItem(lines[i].content)
    requires SplitKey(lines[i].content) == Some(split)
    requires ParseEntryValue(flow, lines, i + 1, indent, split.rest) == Ok(block)
    ensures i < block.next <= |lines|
    ensures ParseMapping(flow, lines, i, indent, out)
         == ParseMapping(flow, lines, block.next, indent, Put(out, split.key, block.value))
  {
  }

  lemma MappingStops(flow: FlowParser, lines: seq<Line>, i: nat, indent: nat, out: seq<Entry>)
    requires i == |lines| || (i < |lines| && lines[i].indent < indent)
    ensures ParseMapping(flow, lines, i, indent, out) == Ok(Parsed(Map(out), i))
  {
  }

  lemma ListStep(flow: FlowParser, lines: seq<Line>, i: nat, indent: nat, out: seq<Value>, item: Parsed<Value>)
    requires i < |lines| && lines[i].indent == indent && IsItem(lines[i].content)
    requires ParseItem(flow, lines, i, indent) == Ok(item)
    ensures i < item.next <= |lines|
    ensures ParseList(flow, lines, i, indent, out) == ParseList(flow, lines, item.next, indent, out + [item.value])
  {
  }

  lemma ListStops(flow: FlowParser, lines: seq<Line>, i: nat, indent: nat, out: seq<Value>)
    requires Closes(lines, i, indent)
    ensures ParseList(flow, lines, i, indent, out) == Ok(Parsed(List(out), i))
  {
  }

  lemma BlockIs(flow: FlowParser, lines: seq<Line>, i: nat)
    requires i < |lines|
    ensures ParseBlock(flow, lines, i, lines[i].indent)
         == if IsItem(lines[i].content) then ParseList(flow, lines, i, lines[i].indent, [])
            else ParseMapping(flow, lines, i, lines[i].indent, [])
  {
  }

  lemma EntryOpensBlock(flow: FlowParser, lines: seq<Line>, i: nat, indent: nat)
    requires i < |lines| && lines[i].indent > indent
    ensures ParseEntryValue(flow, lines, i, indent, "") == ParseBlock(flow, lines, i, lines[i].indent)
  {
  }

  lemma EntryOpensList(flow: FlowParser, lines: seq<Line>, i: nat, indent: nat)
    requires i < |lines| && lines[i].indent == indent && IsItem(lines[i].content)
    ensures ParseEntryValue(flow, lines, i, indent, "") == ParseList(flow, lines, i, indent, [])
  {
  }

  lemma EntryIsNull(flow: FlowParser, lines: seq<Line>, i: nat, indent: nat)
    requires Closes(lines, i, indent)
    ensures ParseEntryValue(flow, lines, i, indent, "") == Ok(Parsed(Null, i))
  {
  }

  lemma EntryIsInline(flow: FlowParser, lines: seq<Line>, i: nat, indent: nat, text: string, value: Value)
    requires i <= |lines| && FitsKey(flow, text, value)
    ensures ParseEntryValue(flow, lines, i, indent, text) == Ok(Parsed(value, i))
  {
    hide Writes;
    LeafShape(flow, text, value);
    LeafReads(flow, text, value);
  }

  lemma ItemOpensBlock(flow: FlowParser, lines: seq<Line>, i: nat, indent: nat)
    requires i + 1 < |lines| && lines[i].indent == indent && lines[i].content == "-" && lines[i + 1].indent > indent
    ensures ParseItem(flow, lines, i, indent) == ParseBlock(flow, lines, i + 1, lines[i + 1].indent)
  {
  }

  lemma ItemIsNull(flow: FlowParser, lines: seq<Line>, i: nat, indent: nat)
    requires i < |lines| && lines[i].indent == indent && lines[i].content == "-" && EndsAbove(lines, i + 1, indent)
    ensures ParseItem(flow, lines, i, indent) == Ok(Parsed(Null, i + 1))
  {
  }

  /** The text of an item, the blanks after its dash dropped. */
  lemma DashedText(gap: nat, text: string)
    requires text != "" && Trimmed(text)
    ensures var content := "- " + Spaces(gap) + text; IsItem(content) && ItemText(content) == text
  {
    var content := "- " + Spaces(gap) + text;
    assert content[..2] == "- " && content[2..] == Spaces(gap) + text;
    assert content != "-";
    BlanksStrip(Spaces(gap), text);
  }

  lemma ItemIsInline(flow: FlowParser, lines: seq<Line>, i: nat, indent: nat, gap: nat, text: string, value: Value)
    requires FitsDash(flow, text, value)
    requires i < |lines| && lines[i].indent == indent && lines[i].content == "- " + Spaces(gap) + text
    ensures ParseItem(flow, lines, i, indent) == Ok(Parsed(value, i + 1))
  {
    hide Writes, SplitKey, IsItem, ItemText, ParseInline;
    LeafShape(flow, text, value);
    DashedText(gap, text);
    DashHasNoKey(flow, text, value);
    LeafReads(flow, text, value);
  }

  lemma ItemIsMapping(flow: FlowParser, lines: seq<Line>, i: nat, indent: nat, v: Value)
    requires i < |lines| && lines[i].indent == indent && IsItem(lines[i].content)
    requires ItemText(lines[i].content) != "" && SplitKey(ItemText(lines[i].content)).Some?
    requires var sub := ItemLines(lines, i, indent);
             ParseMapping(flow, sub, 0, indent + 2, []) == Ok(Parsed(v, |sub|))
    ensures ParseItem(flow, lines, i, indent) == Ok(Parsed(v, i + |ItemLines(lines, i, indent)|))
  {
  }

  /* ---------- block scalars ---------- */

  lemma {:induction false} DeeperEndIs(lines: seq<Line>, i: nat, j: nat, indent: nat)
    requires i <= j <= |lines| && EndsAbove(lines, j, indent)
    requires forall k | i <= k < j :: lines[k].indent > indent
    ensures DeeperEnd(lines, i, indent) == j
    decreases j - i
  {
    if i < j {
      DeeperEndIs(lines, i + 1, j, indent);
    }
  }

  lemma {:induction false} ContentsAre(lines: seq<Line>, body: seq<Row>)
    requires |lines| == |body| && forall k | 0 <= k < |body| :: lines[k].content == body[k].content
    ensures Contents(lines) == Texts(body)
  {
    if body != [] {
      assert forall k | 0 <= k < |body[1..]| :: body[1..][k] == body[k + 1] && lines[1..][k] == lines[k + 1];
      ContentsAre(lines[1..], body[1..]);
    }
  }

  lemma BodyStands(lines: seq<Line>, i: nat, n: nat, body: seq<Row>)
    requires Shows(lines, i, Shifted(body, n)) && forall row | row in body :: row.indent > 0
    ensures i + |body| <= |lines|
    ensures forall k | 0 <= k < |body| :: lines[i + k].indent > n && lines[i + k].content == body[k].content
    ensures forall k | i <= k < i + |body| :: lines[k].indent > n
  {
    var rows := Shifted(body, n);
    forall k | i <= k < i + |body| ensures lines[k].indent == rows[k - i].indent > n {
      assert body[k - i].indent > 0;
    }
  }

  /** The deeper rows below a block indicator are the text of the scalar. */
  lemma BlockReads(flow: FlowParser, lines: seq<Line>, i: nat, n: nat, folded: bool, chomp: Chomp, body: seq<Row>)
    requires Shows(lines, i, Shifted(body, n)) && EndsAbove(lines, i + |body|, n)
    requires forall row | row in body :: row.indent > 0
    ensures ParseEntryValue(flow, lines, i, n, IndicatorText(folded, chomp))
         == Ok(Parsed(Str(BlockText(folded, chomp, body)), i + |body|))
  {
    hide IndicatorText, Join, Contents, Texts;
    var end := i + |body|;
    IndicatorIs(folded, chomp);
    BodyStands(lines, i, n, body);
    DeeperEndIs(lines, i, end, n);
    var part := lines[i..end];
    assert forall k | 0 <= k < |body| :: part[k] == lines[i + k];
    ContentsAre(part, body);
  }

  /* ---------- what stands below a key or a dash ---------- */

  /** The rows below a key, given where they start and that they end there. */
  lemma BelowKey(flow: FlowParser, lines: seq<Line>, i: nat, n: nat, f: Field)
    requires IsField(flow, f) && Shows(lines, i, FieldRows(f, n)) && Closes(lines, i + |FieldRows(f, n)|, n)
    ensures i < |lines| && lines[i].indent == n && lines[i].content == FieldLine(f)
    ensures Shows(lines, i + 1, FieldRows(f, n)[1..]) && i + |FieldRows(f, n)| <= |lines|
    ensures f.doc.Items? ==>
      && lines[i + 1..] != [] && lines[i + 1].indent == n + f.doc.step && IsItem(lines[i + 1].content)
      && ParseEntryValue(flow, lines, i + 1, n, "") == ParseList(flow, lines, i + 1, n + f.doc.step, [])
      && Closes(lines, i + |FieldRows(f, n)|, n + f.doc.step)
    ensures f.doc.Fields? ==>
      && ParseEntryValue(flow, lines, i + 1, n, "") == ParseMapping(flow, lines, i + 1, n + f.doc.step, [])
      && var end := i + |FieldRows(f, n)|; end == |lines| || lines[end].indent < n + f.doc.step
  {
    hide *;
    FieldParts(flow, f);
    FieldUnfolds(f, n);
    ShowsFirst(lines, i, FieldRows(f, n));
    ClosesMeans(lines, i + |FieldRows(f, n)|, n);
    if f.doc.Items? {
      var m := n + f.doc.step;
      ClosesMeans(lines, i + |FieldRows(f, n)|, m);
      ItemsUnfold(f.doc.items, m);
      ItemUnfolds(f.doc.items[0], m);
      ShowsFirst(lines, i + 1, ItemsRows(f.doc.items, m));
      BlockIs(flow, lines, i + 1);
      if f.doc.step > 0 {
        EntryOpensBlock(flow, lines, i + 1, n);
      } else {
        EntryOpensList(flow, lines, i + 1, n);
      }
    } else if f.doc.Fields? {
      var m := n + f.doc.step;
      FieldsUnfold(f.doc.fields, m);
      FieldUnfolds(f.doc.fields[0], m);
      FirstOfFields(flow, f.doc.fields);
      FieldIsNoItem(flow, f.doc.fields[0]);
      ShowsFirst(lines, i + 1, FieldsRows(f.doc.fields, m));
      BlockIs(flow, lines, i + 1);
      EntryOpensBlock(flow, lines, i + 1, n);
    }
  }

  /** The rows below a bare dash. */
  lemma BelowDash(flow: FlowParser, lines: seq<Line>, i: nat, n: nat, item: Item)
    requires IsListed(flow, item) && (item.doc.Items? || (item.doc.Fields? && !item.inPlace))
    requires Shows(lines, i, ItemRows(item, n)) && EndsAbove(lines, i + |ItemRows(item, n)|, n)
    ensures i + |ItemRows(item, n)| <= |lines| && Shows(lines, i + 1, ItemRows(item, n)[1..])
    ensures i < |lines| && lines[i].indent == n && IsItem(lines[i].content)
    ensures item.doc.Items? ==>
      && ParseItem(flow, lines, i, n) == ParseList(flow, lines, i + 1, n + item.doc.step, [])
      && Closes(lines, i + |ItemRows(item, n)|, n + item.doc.step)
    ensures item.doc.Fields? ==>
      && ParseItem(flow, lines, i, n) == ParseMapping(flow, lines, i + 1, n + item.doc.step, [])
      && var end := i + |ItemRows(item, n)|; end == |lines| || lines[end].indent < n + item.doc.step
  {
    hide *;
    var m := n + item.doc.step;
    ItemParts(flow, item);
    ItemUnfolds(item, n);
    ShowsFirst(lines, i, ItemRows(item, n));
    ClosesMeans(lines, i + |ItemRows(item, n)|, n);
    ClosesMeans(lines, i + |ItemRows(item, n)|, m);
    if item.doc.Items? {
      ItemsUnfold(item.doc.items, m);
      ItemUnfolds(item.doc.items[0], m);
      ShowsFirst(lines, i + 1, ItemsRows(item.doc.items, m));
    } else {
      FieldsUnfold(item.doc.fields, m);
      FieldUnfolds(item.doc.fields[0], m);
      FirstOfFields(flow, item.doc.fields);
      FieldIsNoItem(flow, item.doc.fields[0]);
      ShowsFirst(lines, i + 1, FieldsRows(item.doc.fields, m));
    }
    ItemOpensBlock(flow, lines, i, n);
    BlockIs(flow, lines, i + 1);
  }

  /* ---------- the block layer reads the rows ---------- */

  lemma {:induction false} FieldsParse(flow: FlowParser, lines: seq<Line>, i: nat, n: nat,
                                       fields: seq<Field>, out: seq<Entry>)
    requires AreFields(flow, fields) && Shows(lines, i, FieldsRows(fields, n))
    requires i + |FieldsRows(fields, n)| == |lines| || lines[i + |FieldsRows(fields, n)|].indent < n
    ensures ParseMapping(flow, lines, i, n, out)
         == Ok(Parsed(Map(PutAll(out, EntriesOf(fields))), i + |FieldsRows(fields, n)|))
    decreases fields, 0
  {
    hide *;
    FieldsUnfold(fields, n);
    ShowsFits(lines, i, FieldsRows(fields, n));
    PutAllNext(out, EntriesOf(fields));
    if fields == [] {
      MappingStops(flow, lines, i, n, out);
    } else {
      var f, rest := fields[0], fields[1..];
      var mid, end := i + |FieldRows(f, n)|, i + |FieldsRows(fields, n)|;
      FirstOfFields(flow, fields);
      assert end == mid + |FieldsRows(rest, n)|;
      ShowsSplit(lines, i, FieldRows(f, n), FieldsRows(rest, n));
      FieldsUnfold(rest, n);
      if rest != [] {
        FirstOfFields(flow, rest);
        FieldUnfolds(rest[0], n);
        FieldIsNoItem(flow, rest[0]);
        ShowsFirst(lines, mid, FieldsRows(rest, n));
      }
      ClosesMeans(lines, mid, n);
      FieldParse(flow, lines, i, n, f);
      FieldIsNoItem(flow, f);
      FieldSplits(flow, f);
      var value := ValueOf(f.doc);
      MappingStep(flow, lines, i, n, out, KeyRest(f.key, FieldRest(f)), Parsed(value, mid));
      assert EntriesOf(fields)[0] == Entry(f.key, value) && EntriesOf(fields)[1..] == EntriesOf(rest);
      FieldsParse(flow, lines, mid, n, rest, Put(out, f.key, value));
    }
  }

  lemma {:induction false} FieldParse(flow: FlowParser, lines: seq<Line>, i: nat, n: nat, f: Field)
    requires IsField(flow, f) && Shows(lines, i, FieldRows(f, n)) && Closes(lines, i + |FieldRows(f, n)|, n)
    ensures i < |lines| && lines[i].indent == n && lines[i].content == FieldLine(f)
    ensures ParseEntryValue(flow, lines, i + 1, n, FieldRest(f)) == Ok(Parsed(ValueOf(f.doc), i + |FieldRows(f, n)|))
    decreases f, 1
  {
    hide *;
    FieldParts(flow, f);
    FieldUnfolds(f, n);
    ValueIs(f.doc);
    BelowKey(flow, lines, i, n, f);
    ClosesMeans(lines, i + |FieldRows(f, n)|, n);
    match f.doc
    case Leaf(text, value) => EntryIsInline(flow, lines, i + 1, n, text, value);
    case Nothing => EntryIsNull(flow, lines, i + 1, n);
    case Block(folded, chomp, body) => BlockReads(flow, lines, i + 1, n, folded, chomp, body);
    case Items(items, step) =>
      ItemsParse(flow, lines, i + 1, n + step, items, []);
      assert [] + ValuesOf(items) == ValuesOf(items);
    case Fields(fields, step) =>
      FieldsParse(flow, lines, i + 1, n + step, fields, []);
  }

  lemma {:induction false} ItemsParse(flow: FlowParser, lines: seq<Line>, i: nat, n: nat,
                                      items: seq<Item>, out: seq<Value>)
    requires AreItems(flow, items) && Shows(lines, i, ItemsRows(items, n))
    requires Closes(lines, i + |ItemsRows(items, n)|, n)
    ensures ParseList(flow, lines, i, n, out)
         == Ok(Parsed(List(out + ValuesOf(items)), i + |ItemsRows(items, n)|))
    decreases items, 0
  {
    hide *;
    ItemsUnfold(items, n);
    ShowsFits(lines, i, ItemsRows(items, n));
    if items == [] {
      assert out + ValuesOf(items) == out;
      ListStops(flow, lines, i, n, out);
    } else {
      var item, rest := items[0], items[1..];
      var mid, end := i + |ItemRows(item, n)|, i + |ItemsRows(items, n)|;
      FirstOfItems(flow, items);
      assert end == mid + |ItemsRows(rest, n)|;
      ShowsSplit(lines, i, ItemRows(item, n), ItemsRows(rest, n));
      ItemsUnfold(rest, n);
      if rest != [] {
        ItemUnfolds(rest[0], n);
        ShowsFirst(lines, mid, ItemsRows(rest, n));
      }
      ClosesMeans(lines, mid, n);
      ItemParse(flow, lines, i, n, item);
      var value := ValueOf(item.doc);
      ListStep(flow, lines, i, n, out, Parsed(value, mid));
      assert (out + [value]) + ValuesOf(rest) == out + ValuesOf(items);
      ItemsParse(flow, lines, mid, n, rest, out + [value]);
    }
  }

  lemma {:induction false} ItemParse(flow: FlowParser, lines: seq<Line>, i: nat, n: nat, item: Item)
    requires IsListed(flow, item) && Shows(lines, i, ItemRows(item, n)) && EndsAbove(lines, i + |ItemRows(item, n)|, n)
    ensures i < |lines| && lines[i].indent == n && IsItem(lines[i].content)
    ensures ParseItem(flow, lines, i, n) == Ok(Parsed(ValueOf(item.doc), i + |ItemRows(item, n)|))
    decreases item, 1
  {
    hide *;
    ItemParts(flow, item);
    ItemUnfolds(item, n);
    ValueIs(item.doc);
    ShowsFirst(lines, i, ItemRows(item, n));
    match item.doc
    case Leaf(text, value) => ItemIsInline(flow, lines, i, n, item.gap, text, value);
    case Nothing => ItemIsNull(flow, lines, i, n);
    case Items(items, step) =>
      BelowDash(flow, lines, i, n, item);
      ItemsParse(flow, lines, i + 1, n + step, items, []);
      assert [] + ValuesOf(items) == ValuesOf(items);
    case Fields(fields, step) =>
      if item.inPlace {
        ItemOpensMapping(flow, lines, i, n, item);
        var sub := ItemLines(lines, i, n);
        FieldsParse(flow, sub, 0, n + 2, fields, []);
        ItemIsMapping(flow, lines, i, n, ValueOf(item.doc));
      } else {
        BelowDash(flow, lines, i, n, item);
        FieldsParse(flow, lines, i + 1, n + step, fields, []);
      }
    case Block(_, _, _) =>
  }

  /** Re-slicing a "- key: value" item recovers exactly the rows of its mapping, two levels deep. */
  lemma ItemOpensMapping(flow: FlowParser, lines: seq<Line>, i: nat, n: nat, item: Item)
    requires IsListed(flow, item) && item.doc.Fields? && item.inPlace
    requires Shows(lines, i, ItemRows(item, n)) && EndsAbove(lines, i + |ItemRows(item, n)|, n)
    ensures i < |lines| && lines[i].indent == n && IsItem(lines[i].content) && ItemText(lines[i].content) != ""
    ensures SplitKey(ItemText(lines[i].content)).Some?
    ensures |ItemLines(lines, i, n)| == |FieldsRows(item.doc.fields, n + 2)| == |ItemRows(item, n)|
    ensures Shows(ItemLines(lines, i, n), 0, FieldsRows(item.doc.fields, n + 2))
  {
    hide *;
    var fields := item.doc.fields;
    ItemParts(flow, item);
    FirstOfFields(flow, fields);
    var rows, inner := ItemRows(item, n), FieldsRows(fields, n + 2);
    ItemUnfolds(item, n);
    FieldsUnfold(fields, n + 2);
    FieldUnfolds(fields[0], n + 2);
    ShowsFirst(lines, i, rows);
    FieldIsNoItem(flow, fields[0]);
    FieldSplits(flow, fields[0]);
    DashedText(item.gap, FieldLine(fields[0]));
    FieldsAreGood(flow, fields, n + 2);
    RowsAreDeeper(lines, i + 1, inner, n);
    DeeperEndIs(lines, i + 1, i + |rows|, n);
    ResliceShows(lines, i, n, inner);
  }

  lemma RowsAreDeeper(lines: seq<Line>, i: nat, rows: seq<Row>, n: nat)
    requires rows != [] && GoodRows(rows, n + 2) && Shows(lines, i, rows[1..])
    ensures forall k | i <= k < i + |rows| - 1 :: lines[k].indent > n
  {
    hide Survives;
    assert forall k | 0 <= k < |rows| - 1 :: rows[1..][k] == rows[k + 1];
  }

  lemma ResliceShows(lines: seq<Line>, i: nat, n: nat, inner: seq<Row>)
    requires inner != [] && inner[0].indent == n + 2
    requires i < |lines| && IsItem(lines[i].content) && ItemText(lines[i].content) == inner[0].content
    requires Shows(lines, i + 1, inner[1..]) && DeeperEnd(lines, i + 1, n) == i + |inner|
    ensures Shows(ItemLines(lines, i, n), 0, inner) && |ItemLines(lines, i, n)| == |inner|
  {
    hide IsItem, ItemText, DeeperEnd;
    var sub := ItemLines(lines, i, n);
    forall k | 0 <= k < |inner|
      ensures sub[k].indent == inner[k].indent && sub[k].content == inner[k].content
    {
      if k > 0 {
        var at := i + k;
        assert sub[k] == lines[at];
        assert inner[1..][at - (i + 1)] == inner[k];
      }
    }
  }

  /* ---------- from the text ---------- */

  /** A blank line, or one that holds only a comment. */
  ghost predicate IsAside(raw: string) {
    NoBreaks(raw) && ((AllSpace(raw) && '\t' !in raw) || exists n: nat, note :: raw == Spaces(n) + "#" + note)
  }

  /** The lines of a text: the rows in order, each with what follows it, and blank lines and comments anywhere. */
  ghost predicate IsWritten(raws: seq<string>, rows: seq<Row>)
    decreases |raws|
  {
    if raws == [] then rows == []
    else
      || (IsAside(raws[0]) && IsWritten(raws[1..], rows))
      || (rows != [] && IsWritten(raws[1..], rows[1..])
          && exists trailer :: IsTrailer(trailer, rows[0].closed)
                               && raws[0] == Spaces(rows[0].indent) + rows[0].content + trailer)
  }

  lemma AsideIsDropped(raw: string, lineno: nat)
    requires IsAside(raw)
    ensures PrepLine(raw, lineno) == Ok(None)
  {
    hide CommentStart;
    if AllSpace(raw) && '\t' !in raw {
      var cut := CommentStart(raw, 0, None);
      SpaceStrips(raw);
      SpaceStrips(raw[..cut]);
      assert AllSpace(RStrip(raw[..cut]));
      SpaceStrips(RStrip(raw[..cut]));
    } else {
      var n: nat, note :| raw == Spaces(n) + "#" + note;
      assert raw[n] == '#' && (n > 0 ==> raw[n - 1] == ' ');
      SpacesArePassed(raw, n);
      NoteHere(raw, n);
      LStripSpaces(n, "#" + note);
      assert raw == Spaces(n) + ("#" + note);
      assert raw[..n] == Spaces(n);
      SpaceStrips(raw[..n]);
      assert AllSpace(RStrip(raw[..n]));
      SpaceStrips(RStrip(raw[..n]));
    }
  }

  lemma NoteHere(line: string, n: nat)
    requires n < |line| && line[n] == '#' && (n > 0 ==> IsBlank(line[n - 1]))
    ensures CommentStart(line, n, None) == n
  {
  }

  lemma {:induction false} SpaceStrips(s: string)
    requires AllSpace(s)
    ensures LStrip(s) == "" && RStrip(s) == "" && Strip(s) == ""
    decreases |s|
  {
    if s != "" {
      SpaceStrips(s[1..]);
      SpaceStrips(s[..|s| - 1]);
    }
  }

  /** Preparation drops the asides and keeps the rows. */
  lemma {:induction false} WrittenIsPrepared(raws: seq<string>, k: nat, rows: seq<Row>, prepared: seq<Line>)
    returns (lines: seq<Line>)
    requires k <= |raws| && IsWritten(raws[k..], rows) && GoodRows(rows, 0)
    ensures PrepFrom(raws, k, prepared) == Ok(prepared + lines)
    ensures |lines| == |rows| && Shows(lines, 0, rows)
    decreases |raws| - k
  {
    hide PrepLine, Survives, IsTrailer, IsAside;
    if k == |raws| {
      lines := [];
      assert prepared + [] == prepared;
    } else {
      assert raws[k..][0] == raws[k] && raws[k..][1..] == raws[k + 1..];
      if IsAside(raws[k]) && IsWritten(raws[k + 1..], rows) {
        AsideIsDropped(raws[k], k + 1);
        lines := WrittenIsPrepared(raws, k + 1, rows, prepared);
      } else {
        var trailer :| IsTrailer(trailer, rows[0].closed)
                       && raws[k] == Spaces(rows[0].indent) + rows[0].content + trailer;
        RowIsPrepared(rows[0], trailer, k + 1);
        var line := Line(rows[0].indent, rows[0].content, k + 1);
        var rest := WrittenIsPrepared(raws, k + 1, rows[1..], prepared + [line]);
        lines := [line] + rest;
        assert prepared + [line] + rest == prepared + lines;
        assert forall j | 0 < j < |rows| :: rows[j] == rows[1..][j - 1] && lines[j] == rest[j - 1];
      }
    }
  }

  /** Line ends as str.splitlines knows them. */
  predicate IsLineEnd(end: string) {
    end == "\r\n" || (|end| == 1 && IsLineBreak(end[0]))
  }

  function Broken(raws: seq<string>, ends: seq<string>): string
    requires |raws| == |ends|
  {
    if raws == [] then "" else raws[0] + ends[0] + Broken(raws[1..], ends[1..])
  }

  /**
   Every line ends in some way, the last perhaps only with the text if it is not empty; and no line
   feed that belongs to the next line follows a carriage return.
   */
  predicate AreEnds(raws: seq<string>, ends: seq<string>) {
    && |raws| == |ends|
    && (forall k | 0 <= k < |raws| :: NoBreaks(raws[k]))
    && (forall k | 0 <= k < |ends| :: IsLineEnd(ends[k]) || (k == |ends| - 1 && ends[k] == "" && raws[k] != ""))
    && (forall k | 0 <= k < |ends| - 1 && ends[k] == "\r" && raws[k + 1] == "" :: ends[k + 1] != "\n")
  }

  lemma {:induction false} BreakAtEnd(s: string, t: string)
    requires NoBreaks(s) && (t == "" || IsLineBreak(t[0]))
    ensures BreakAt(s + t) == |s|
  {
    if s == "" {
      assert s + t == t;
    } else {
      assert (s + t)[1..] == s[1..] + t;
      BreakAtEnd(s[1..], t);
    }
  }

  /** Splitting a text at its line ends gives its lines. */
  lemma {:induction false} SplitBroken(raws: seq<string>, ends: seq<string>)
    requires AreEnds(raws, ends)
    ensures SplitLines(Broken(raws, ends)) == raws
    decreases |raws|
  {
    hide IsLineBreak, BreakAt;
    if raws != [] {
      var rest := Broken(raws[1..], ends[1..]);
      var text, after := Broken(raws, ends), ends[0] + rest;
      assert text == raws[0] + after;
      EndsNext(raws, ends);
      if ends[0] == "" {
        assert rest == "" && after == "";
        BreakAtEnd(raws[0], after);
        assert text == raws[0];
        assert raws == [raws[0]];
      } else {
        EndOpens(ends[0], rest);
        BreakAtEnd(raws[0], after);
        SplitBroken(raws[1..], ends[1..]);
        var n := |raws[0]|;
        assert text[..n] == raws[0] && text[n] == ends[0][0];
        if ends[0] == "\r\n" {
          assert text[n + 1] == '\n' && text[n + 2..] == rest;
        } else {
          if ends[0] == "\r" {
            RestOpens(raws, ends);
          }
          assert text[n + 1..] == rest;
          assert n + 1 < |text| ==> text[n + 1] == rest[0];
        }
        assert raws == [raws[0]] + raws[1..];
      }
    }
  }

  lemma EndOpens(end: string, rest: string)
    requires IsLineEnd(end)
    ensures (end + rest)[0] == end[0] && IsLineBreak(end[0])
    ensures end == "\r\n" || (|end| == 1 && (end[0] == '\r' <==> end == "\r"))
  {
  }

  lemma EndsNext(raws: seq<string>, ends: seq<string>)
    requires AreEnds(raws, ends) && raws != []
    ensures AreEnds(raws[1..], ends[1..]) && NoBreaks(raws[0])
    ensures ends[0] == "" ==> raws[0] != "" && raws[1..] == [] && ends[1..] == []
    ensures ends[0] != "" ==> IsLineEnd(ends[0])
  {
    hide NoBreaks;
  }

  /** After a carriage return the next line does not open with a line feed. */
  lemma RestOpens(raws: seq<string>, ends: seq<string>)
    requires AreEnds(raws, ends) && raws != [] && ends[0] == "\r"
    ensures var rest := Broken(raws[1..], ends[1..]); rest == "" || rest[0] != '\n'
  {
    if |raws| > 1 {
      var rest := Broken(raws[1..], ends[1..]);
      assert raws[1..][0] == raws[1] && ends[1..][0] == ends[1];
      if raws[1] != "" {
        assert rest[0] == raws[1][0];
      } else {
        assert rest[0] == ends[1][0];
      }
    }
  }

  lemma BrokenIsPrepared(raws: seq<string>, ends: seq<string>, rows: seq<Row>) returns (lines: seq<Line>)
    requires AreEnds(raws, ends) && IsWritten(raws, rows) && GoodRows(rows, 0)
    ensures PrepLines(Broken(raws, ends)) == Ok(lines) && |lines| == |rows| && Shows(lines, 0, rows)
  {
    hide PrepFrom, IsWritten, GoodRows, SplitLines;
    SplitBroken(raws, ends);
    assert raws[0..] == raws;
    lines := WrittenIsPrepared(raws, 0, rows, []);
    assert [] + lines == lines;
  }

  lemma GoodAtAll(rows: seq<Row>, n: nat)
    requires GoodRows(rows, n)
    ensures GoodRows(rows, 0)
  {
    hide Survives;
  }

  /**
   Reading back: whatever list or mapping is written - with keys plain or quoted, scalars in any
   style, block scalars, notes, blank lines, any indentation, any line ends - parsing the text
   gives the value it stands for, for every parser of flow values.
   */
  lemma DocumentReads(flow: FlowParser, doc: Doc, raws: seq<string>, ends: seq<string>)
    requires IsDocument(flow, doc) && IsWritten(raws, DocRows(doc)) && AreEnds(raws, ends)
    ensures ParseYamlSubset(flow, Broken(raws, ends)) == Ok(ValueOf(doc))
  {
    hide PrepLines, Broken, IsWritten, GoodRows, ParseMapping, ParseList, ItemsRows, FieldsRows, ValueOf;
    hide AreItems, AreFields, Survives, ItemRows, FieldRows, FieldLine;
    var rows := DocRows(doc);
    ValueIs(doc);
    if doc.Items? {
      ItemsAreGood(flow, doc.items, doc.step);
      GoodAtAll(rows, doc.step);
      ItemsUnfold(doc.items, doc.step);
      ItemUnfolds(doc.items[0], doc.step);
    } else {
      FieldsAreGood(flow, doc.fields, doc.step);
      GoodAtAll(rows, doc.step);
      FieldsUnfold(doc.fields, doc.step);
      FieldUnfolds(doc.fields[0], doc.step);
      FirstOfFields(flow, doc.fields);
      FieldIsNoItem(flow, doc.fields[0]);
    }
    var lines := BrokenIsPrepared(raws, ends, rows);
    ShowsFirst(lines, 0, rows);
    BlockIs(flow, lines, 0);
    if doc.Items? {
      ItemsParse(flow, lines, 0, doc.step, doc.items, []);
      assert [] + ValuesOf(doc.items) == ValuesOf(doc.items);
    } else {
      FieldsParse(flow, lines, 0, doc.step, doc.fields, []);
    }
  }

  /** A text of blank lines and comments reads as nothing. */
  lemma AsidesReadAsNull(flow: FlowParser, raws: seq<string>, ends: seq<string>)
    requires AreEnds(raws, ends) && IsWritten(raws, [])
    ensures ParseYamlSubset(flow, Broken(raws, ends)) == Ok(Null)
  {
    hide PrepLines, Broken;
    var lines := BrokenIsPrepared(raws, ends, []);
  }
}
