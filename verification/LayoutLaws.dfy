/**
 What a merge adds to a dashboard, node by node, and what of it stays.
 */
module LayoutLaws {
  import opened Outcomes
  import opened Layout
  import opened LayoutRuns
  import Superset

  /** The chart's node as asked for: its chart under its uuid, in its size, at the end of the question's row. */
  predicate IsChartOf(node: Node, m: Merge) {
    && node.kind == "CHART" && node.chartId == Some(m.chart) && node.children == None
    && node.parents == ["ROOT_ID", "GRID_ID", RowId(m.hash), ColumnId(m.hash)]
    && node.meta.Some?
    && var meta := node.meta.value;
       && meta.chartId == Some(m.chart) && meta.uuid == Some(m.uuid)
       && meta.width == Some(m.width) && meta.height == Some(m.height)
  }

  /** The column holds the chart alone, in its width; the row holds the column alone. */
  predicate AreAround(row: Node, column: Node, m: Merge) {
    && row.kind == "ROW" && row.children == Some([ColumnId(m.hash)]) && row.parents == ["ROOT_ID", "GRID_ID"]
    && row.meta.Some? && row.meta.value.background == Some("BACKGROUND_TRANSPARENT")
    && column.kind == "COLUMN" && column.children == Some([ChartNodeId(m.chart)])
    && column.parents == ["ROOT_ID", "GRID_ID", RowId(m.hash)]
    && column.meta.Some? && column.meta.value.background == Some("BACKGROUND_TRANSPARENT")
    && column.meta.value.width == Some(m.width)
  }

  /** The ids that a merge hangs under the grid, in order: the header's first, where each is missing. */
  function Appended(l: Nodes, m: Merge): seq<string> {
    (if HEADER_ROW in l then [] else [HEADER_ROW]) + (if RowId(m.hash) in l then [] else [RowId(m.hash)])
  }

  /**
   A question merged for the first time: its chart in the size and under the uuid asked for, in a
   column of that width, in a row of its own at the end of the grid, after the header.
   */
  lemma NewRowIs(l: Nodes, text: string, m: Merge)
    requires IsLayout(l) && IsMerge(m) && RowId(m.hash) !in l
    ensures {RowId(m.hash), ColumnId(m.hash), ChartNodeId(m.chart), GRID} <= Merged(l, text, m).Keys
    ensures
      var r := Merged(l, text, m);
      && IsChartOf(r[ChartNodeId(m.chart)], m) && AreAround(r[RowId(m.hash)], r[ColumnId(m.hash)], m)
      && Kids(r[GRID]) == (if GRID in l then Kids(l[GRID]) else []) + Appended(l, m)
  {
    hide IsTree, WithRoot, WithHeader, WithRow, RowId, ColumnId, ChartNodeId;
    IdsDiffer(m);
    MergedKeys(l, text, m);
    var a, h := WithRoot(l), WithHeader(WithRoot(l), text);
    RowNodesAre(h, m);
    RootGrid(l);
    HeaderGrid(a, text);
  }

  lemma RowNodesAre(l: Nodes, m: Merge)
    requires GRID in l && RowId(m.hash) !in l && IsMerge(m)
    ensures {RowId(m.hash), ColumnId(m.hash), ChartNodeId(m.chart), GRID} <= WithRow(l, m).Keys
    ensures
      var r := WithRow(l, m);
      && IsChartOf(r[ChartNodeId(m.chart)], m) && AreAround(r[RowId(m.hash)], r[ColumnId(m.hash)], m)
      && Kids(r[GRID]) == Kids(l[GRID]) + [RowId(m.hash)]
  {
    hide RowId, ColumnId, ChartNodeId;
    IdsDiffer(m);
  }

  lemma RootGrid(l: Nodes)
    ensures GRID in WithRoot(l) && Kids(WithRoot(l)[GRID]) == if GRID in l then Kids(l[GRID]) else []
    ensures HEADER_ROW in WithRoot(l) <==> HEADER_ROW in l
    ensures forall hash | |hash| == Superset.HASH_LENGTH :: RowId(hash) in WithRoot(l) <==> RowId(hash) in l
  {
    forall hash | |hash| == Superset.HASH_LENGTH ensures RowId(hash) in WithRoot(l) <==> RowId(hash) in l {
      IdsDiffer(Merge(hash, 0, "", 1, 1));
    }
  }

  lemma HeaderGrid(l: Nodes, text: string)
    requires GRID in l
    ensures GRID in WithHeader(l, text)
    ensures Kids(WithHeader(l, text)[GRID]) == Kids(l[GRID]) + if HEADER_ROW in l then [] else [HEADER_ROW]
  {
    assert GRID != HEADER_ROW && GRID != HEADER_MARKDOWN;
    assert Kids(l[GRID]) + [] == Kids(l[GRID]);
  }

  /** A skeleton that was missing: a root with the grid under it, and the header with its text. */
  lemma SkeletonIs(text: string, m: Merge)
    requires IsMerge(m)
    ensures
      var r, header, note := Merged(map[], text, m), "ROW-GENBI-ASK-SAVE-HEADER", "MARKDOWN-GENBI-ASK-SAVE";
      && {"ROOT_ID", "GRID_ID", header, note} <= r.Keys
      && r["ROOT_ID"] == Node("ROOT", [], Some(["GRID_ID"]), None, None, None)
      && r["GRID_ID"] == Node("GRID", ["ROOT_ID"], Some([header, "ROW-GENBI-" + m.hash]), None, None, None)
      && r[header] == Node("ROW", ["ROOT_ID", "GRID_ID"], Some([note]), None, None,
                           Some(NO_META.(background := Some("BACKGROUND_TRANSPARENT"))))
      && r[note] == Node("MARKDOWN", ["ROOT_ID", "GRID_ID", header], None, Some(text), None,
                         Some(Meta(Some("BACKGROUND_WHITE"), Some(16), Some(3), Some(text), Some(text), None, None)))
  {
    assert RowId(m.hash) == "ROW-GENBI-" + m.hash;
    hide RowId, ColumnId, ChartNodeId;
    IdsDiffer(m);
    assert ROOT[0] == 'R' && GRID[0] == 'G' && HEADER_ROW[1] == 'O' && HEADER_MARKDOWN[0] == 'M';
    assert ROOT[3] == 'T' && HEADER_ROW[3] == '-';
    assert [] + [HEADER_ROW] == [HEADER_ROW] && [HEADER_ROW] + [RowId(m.hash)] == [HEADER_ROW, RowId(m.hash)];
  }

  /** A header that is there: what a user wrote stays, what is missing is filled in with the text. */
  lemma HeaderIsHealed(l: Nodes, text: string, m: Merge)
    requires IsLayout(l) && IsMerge(m) && HEADER_ROW in l && HEADER_MARKDOWN in l
    requires RowId(m.hash) in l || ChartNodeId(m.chart) !in l
    ensures HEADER_MARKDOWN in Merged(l, text, m)
    ensures
      var was, now := l[HEADER_MARKDOWN], Merged(l, text, m)[HEADER_MARKDOWN];
      var meta := if was.meta.Some? then was.meta.value else NO_META;
      && now.kind == was.kind && now.parents == was.parents && now.children == was.children
      && now.chartId == was.chartId && now.data == Some(was.data.UnwrapOr(text))
      && now.meta == Some(meta.(code := Some(meta.code.UnwrapOr(text)), text := Some(meta.text.UnwrapOr(text))))
  {
    hide IsTree, WithRoot, WithRow, RowId, ColumnId, ChartNodeId, NoStray;
    IdsDiffer(m);
    var a, h := WithRoot(l), WithHeader(WithRoot(l), text);
    RootKeepsHeader(l);
    RowKeepsHeader(h, m);
  }

  lemma RootKeepsHeader(l: Nodes)
    requires HEADER_ROW in l && HEADER_MARKDOWN in l
    ensures HEADER_ROW in WithRoot(l) && HEADER_MARKDOWN in WithRoot(l)
    ensures WithRoot(l)[HEADER_MARKDOWN] == l[HEADER_MARKDOWN]
  {
    assert HEADER_MARKDOWN[0] == 'M' && ROOT[0] == 'R' && GRID[0] == 'G';
  }

  lemma RowKeepsHeader(l: Nodes, m: Merge)
    requires GRID in l && HEADER_MARKDOWN in l && IsMerge(m)
    ensures HEADER_MARKDOWN in WithRow(l, m) && WithRow(l, m)[HEADER_MARKDOWN] == l[HEADER_MARKDOWN]
  {
    hide RowId, ColumnId, ChartNodeId;
    IdsDiffer(m);
    assert HEADER_MARKDOWN[0] == 'M' && GRID[0] == 'G';
  }

  /** After any further merges the chart of a question's first merge stands as it was asked for. */
  lemma {:induction false} ChartStays(l: Nodes, text: string, ms: seq<Merge>, i: nat)
    requires IsLayout(l) && AreFresh(l, ms) && i < |ms|
    requires RowId(ms[i].hash) !in l && forall k | 0 <= k < i :: ms[k].hash != ms[i].hash
    ensures
      var r, m := Run(l, text, ms), ms[i];
      && ChartNodeId(m.chart) in r && IsChartOf(r[ChartNodeId(m.chart)], m)
    decreases |ms|
  {
    hide IsLayout, Merged, Extends, IsChartOf, RowId, ChartNodeId;
    var next := Merged(l, text, ms[0]);
    MergedKeepsLayout(l, text, ms[0]);
    AreFreshNext(l, text, ms);
    if i == 0 {
      FirstChartStays(l, text, ms[0], ms[1..]);
    } else {
      RowsApart(l, text, ms[0], ms[i].hash);
      ChartStays(next, text, ms[1..], i - 1);
    }
  }

  lemma FirstChartStays(l: Nodes, text: string, m: Merge, rest: seq<Merge>)
    requires IsLayout(l) && IsMerge(m) && RowId(m.hash) !in l
    requires IsLayout(Merged(l, text, m)) && AreFresh(Merged(l, text, m), rest)
    ensures
      var r := Run(Merged(l, text, m), text, rest);
      && ChartNodeId(m.chart) in r && IsChartOf(r[ChartNodeId(m.chart)], m)
  {
    hide IsLayout, Merged, Extends, IsChartOf, RowId;
    NewRowIs(l, text, m);
    RunKeepsLayout(Merged(l, text, m), text, rest);
    IdsDiffer(m);
    NodeStays(Merged(l, text, m), Run(Merged(l, text, m), text, rest), ChartNodeId(m.chart));
  }

  lemma NodeStays(l: Nodes, r: Nodes, id: string)
    requires Extends(l, r) && id in l && id != GRID && id != HEADER_MARKDOWN
    ensures id in r && r[id] == l[id]
  {
  }
}
