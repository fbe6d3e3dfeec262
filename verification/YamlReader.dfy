/**
 The block parser as the index-advancing loops of the program, each proved to compute the
 recursive reading of YamlParser.
 */
module YamlReader {
  import opened Outcomes
  import opened PyText
  import opened YamlScan
  import opened YamlParser

  method ReadBlock(flow: FlowParser, lines: seq<Line>, i: nat, minIndent: nat) returns (r: BlockResult)
    requires i <= |lines|
    ensures r == ParseBlock(flow, lines, i, minIndent)
    decreases |lines| - i, 3
  {
    hide ParseList, ParseMapping;
    if i >= |lines| || lines[i].indent < minIndent {
      return Ok(Parsed(Null, i));
    }
    var content := lines[i].content;
    if content == "-" || "- " <= content {
      r := ReadList(flow, lines, i, lines[i].indent);
    } else {
      r := ReadMapping(flow, lines, i, lines[i].indent);
    }
  }

  method ReadMapping(flow: FlowParser, lines: seq<Line>, start: nat, indent: nat) returns (r: BlockResult)
    requires start <= |lines|
    ensures r == ParseMapping(flow, lines, start, indent, [])
    decreases |lines| - start, 0
  {
    hide ParseEntryValue, ParseBlock, ParseList, SplitKey, Put;
    var out: seq<Entry> := [];
    var i := start;
    while i < |lines| && lines[i].indent == indent
      invariant start <= i <= |lines|
      invariant ParseMapping(flow, lines, start, indent, []) == ParseMapping(flow, lines, i, indent, out)
      decreases |lines| - i
    {
      var content := lines[i].content;
      if content == "-" || "- " <= content {
        break;
      }
      var split := ScanKey(content);
      if split.None? {
        return Err(ExpectedKey(lines[i].lineno));
      }
      var KeyRest(key, rest) := split.value;
      var entry :- ReadEntryValue(flow, lines, i + 1, indent, rest);
      out, i := Put(out, key, entry.value), entry.next;
    }
    if i < |lines| && lines[i].indent > indent {
      return Err(UnexpectedIndentation(lines[i].lineno));
    }
    return Ok(Parsed(Map(out), i));
  }

  /** The value of one key, read from the lines below it when the key's own line has none. */
  method ReadEntryValue(flow: FlowParser, lines: seq<Line>, i: nat, indent: nat, rest: string)
    returns (r: BlockResult)
    requires i <= |lines|
    ensures r == ParseEntryValue(flow, lines, i, indent, rest)
    decreases |lines| - i, 4
  {
    hide ParseBlock, ParseList, ParseMapping, DeeperEnd;
    if rest == "" {
      if i < |lines| && lines[i].indent > indent {
        r := ReadBlock(flow, lines, i, lines[i].indent);
      } else if i < |lines| && lines[i].indent == indent && IsItem(lines[i].content) {
        r := ReadList(flow, lines, i, indent);
      } else {
        r := Ok(Parsed(Null, i));
      }
    } else if IsBlockIndicator(rest) {
      var text, next := ReadBlockScalar(lines, i, indent, rest);
      r := Ok(Parsed(Str(text), next));
    } else {
      var value :- ParseInline(flow, rest);
      r := Ok(Parsed(value, i));
    }
  }

  method ReadList(flow: FlowParser, lines: seq<Line>, start: nat, indent: nat) returns (r: BlockResult)
    requires start <= |lines|
    ensures r == ParseList(flow, lines, start, indent, [])
    decreases |lines| - start, 2
  {
    hide ParseItem, ParseBlock, ParseMapping;
    var out: seq<Value> := [];
    var i := start;
    while i < |lines| && lines[i].indent == indent && IsItem(lines[i].content)
      invariant start <= i <= |lines|
      invariant ParseList(flow, lines, start, indent, []) == ParseList(flow, lines, i, indent, out)
      decreases |lines| - i
    {
      var item :- ReadItem(flow, lines, i, indent);
      out, i := out + [item.value], item.next;
    }
    return Ok(Parsed(List(out), i));
  }

  method ReadItem(flow: FlowParser, lines: seq<Line>, i: nat, indent: nat) returns (r: BlockResult)
    requires i < |lines| && lines[i].indent == indent && IsItem(lines[i].content)
    ensures r == ParseItem(flow, lines, i, indent)
    decreases |lines| - i, 1
  {
    hide ParseBlock, ParseMapping, ParseList, SplitKey, ItemLines, ItemText;
    var item := ItemText(lines[i].content);
    if item == "" {
      if i + 1 < |lines| && lines[i + 1].indent > indent {
        r := ReadBlock(flow, lines, i + 1, lines[i + 1].indent);
      } else {
        r := Ok(Parsed(Null, i + 1));
      }
      return;
    }
    var split := ScanKey(item);
    if split.Some? {
      var sub := CollectItemLines(lines, i, indent);
      var mapping :- ReadMapping(flow, sub, 0, indent + 2);
      if mapping.next != |sub| {
        return Err(UnparsedListItem(sub[mapping.next].lineno));
      }
      r := Ok(Parsed(mapping.value, i + |sub|));
    } else {
      var value :- ParseInline(flow, item);
      r := Ok(Parsed(value, i + 1));
    }
  }

  /** The item's own text re-indented as the first line of a mapping, then the deeper lines. */
  method CollectItemLines(lines: seq<Line>, i: nat, indent: nat) returns (sub: seq<Line>)
    requires i < |lines| && IsItem(lines[i].content)
    ensures sub == ItemLines(lines, i, indent)
  {
    sub := [Line(indent + 2, ItemText(lines[i].content), lines[i].lineno)];
    var j := i + 1;
    while j < |lines| && lines[j].indent > indent
      invariant i < j <= |lines|
      invariant DeeperEnd(lines, i + 1, indent) == DeeperEnd(lines, j, indent)
      invariant sub == [Line(indent + 2, ItemText(lines[i].content), lines[i].lineno)] + lines[i + 1..j]
    {
      sub := sub + [lines[j]];
      j := j + 1;
    }
  }

  lemma ContentsAppend(lines: seq<Line>, line: Line)
    ensures Contents(lines + [line]) == Contents(lines) + [line.content]
  {
    if lines == [] {
      assert lines + [line] == [line];
    } else {
      assert (lines + [line])[1..] == lines[1..] + [line];
    }
  }

  lemma NoContents(lines: seq<Line>, start: nat)
    requires start <= |lines|
    ensures Contents(lines[start..start]) == []
  {
  }

  /** The contents of one more line of a slice. */
  lemma ContentsNext(lines: seq<Line>, start: nat, i: nat)
    requires start <= i < |lines|
    ensures Contents(lines[start..i + 1]) == Contents(lines[start..i]) + [lines[i].content]
  {
    hide Contents;
    ContentsAppend(lines[start..i], lines[i]);
    SliceNext(lines, start, i);
  }

  lemma SliceNext<T>(s: seq<T>, from: nat, upto: nat)
    requires from <= upto < |s|
    ensures s[from..upto + 1] == s[from..upto] + [s[upto]]
  {
    assert |s[from..upto + 1]| == |s[from..upto] + [s[upto]]|;
    assert forall k | 0 <= k < upto + 1 - from :: s[from..upto + 1][k] == (s[from..upto] + [s[upto]])[k];
  }

  method ReadBlockScalar(lines: seq<Line>, start: nat, keyIndent: nat, indicator: string)
    returns (text: string, next: nat)
    requires start <= |lines| && IsBlockIndicator(indicator)
    ensures next == DeeperEnd(lines, start, keyIndent)
    ensures text == BlockScalarText(lines[start..next], indicator)
  {
    hide Contents, Join;
    NoContents(lines, start);
    var body: seq<string> := [];
    var i := start;
    while i < |lines| && lines[i].indent > keyIndent
      invariant start <= i <= |lines|
      invariant DeeperEnd(lines, start, keyIndent) == DeeperEnd(lines, i, keyIndent)
      invariant body == Contents(lines[start..i])
    {
      ContentsNext(lines, start, i);
      body := body + [lines[i].content];
      i := i + 1;
    }
    if indicator[0] == '|' {
      text := Join("\n", body);
    } else {
      text := Join(" ", body);
    }
    if indicator[|indicator| - 1] != '-' {
      text := text + "\n";
    }
    next := i;
  }

  method ReadYamlSubset(flow: FlowParser, text: string) returns (r: Result<Value, YamlError>)
    ensures r == ParseYamlSubset(flow, text)
  {
    var lines :- PrepareLines(text);
    if lines == [] {
      return Ok(Null);
    }
    var block :- ReadBlock(flow, lines, 0, lines[0].indent);
    if block.next != |lines| {
      return Err(Unparsed(lines[block.next].lineno));
    }
    return Ok(block.value);
  }
}
