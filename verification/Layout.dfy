/**
 Merging promoted answers into a dashboard layout that is edited in place: a map from node ids to
 nodes that list their children and their path of parents.
 */
module Layout {
  import opened Outcomes
  import PyText
  import Superset

  datatype Meta = Meta(
    background: Option<string>, width: Option<int>, height: Option<int>, code: Option<string>, text: Option<string>,
    chartId: Option<int>, uuid: Option<string>)

  /** One node. An absent list of parents is the empty one. */
  datatype Node = Node(
    kind: string, parents: seq<string>, children: Option<seq<string>>, data: Option<string>,
    chartId: Option<int>, meta: Option<Meta>)

  type Nodes = map<string, Node>

  const ROOT := "ROOT_ID"
  const GRID := "GRID_ID"
  const HEADER_ROW := "ROW-GENBI-ASK-SAVE-HEADER"
  const HEADER_MARKDOWN := "MARKDOWN-GENBI-ASK-SAVE"
  const TRANSPARENT := "BACKGROUND_TRANSPARENT"
  const WHITE := "BACKGROUND_WHITE"
  const NO_META := Meta(None, None, None, None, None, None, None)

  /** A promoted question: its hash, its chart and the size asked for. */
  datatype Merge = Merge(hash: string, chart: int, uuid: string, width: int, height: int)

  function RowId(hash: string): string {
    "ROW-GENBI-" + hash
  }

  function ColumnId(hash: string): string {
    "COLUMN-GENBI-" + hash
  }

  function ChartNodeId(chart: int): string {
    "CHART-" + PyText.IntText(chart)
  }

  function Kids(node: Node): seq<string> {
    if node.children.Some? then node.children.value else []
  }

  /* ---------- what the three edits leave behind ---------- */

  function RootNode(): Node {
    Node("ROOT", [], Some([GRID]), None, None, None)
  }

  function GridNode(): Node {
    Node("GRID", [ROOT], Some([]), None, None, None)
  }

  function RowNode(children: seq<string>): Node {
    Node("ROW", [ROOT, GRID], Some(children), None, None, Some(NO_META.(background := Some(TRANSPARENT))))
  }

  function MarkdownNode(text: string): Node {
    Node("MARKDOWN", [ROOT, GRID, HEADER_ROW], None, Some(text), None,
         Some(Meta(Some(WHITE), Some(16), Some(3), Some(text), Some(text), None, None)))
  }

  function ColumnNode(m: Merge, children: seq<string>): Node {
    Node("COLUMN", [ROOT, GRID, RowId(m.hash)], Some(children), None, None,
         Some(NO_META.(background := Some(TRANSPARENT), width := Some(m.width))))
  }

  function ChartNode(m: Merge): Node {
    Node("CHART", [ROOT, GRID, RowId(m.hash), ColumnId(m.hash)], None, None, Some(m.chart),
         Some(Meta(None, Some(m.width), Some(m.height), None, None, Some(m.chart), Some(m.uuid))))
  }

  function WithRoot(l: Nodes): (r: Nodes)
    ensures ROOT in r && GRID in r && r[GRID].children.Some?
  {
    var a := if ROOT in l then l else l[ROOT := RootNode()];
    var b := if GRID in a then a else a[GRID := GridNode()];
    b[GRID := b[GRID].(children := Some(Kids(b[GRID])))]
  }

  function OrElse<T>(o: Option<T>, value: T): Option<T> {
    if o.Some? then o else Some(value)
  }

  /** The markdown node with its content keys filled in where they are missing. */
  function Healed(node: Node, text: string): Node {
    var meta := if node.meta.Some? then node.meta.value else NO_META;
    node.(data := OrElse(node.data, text),
          meta := Some(meta.(code := OrElse(meta.code, text), text := OrElse(meta.text, text))))
  }

  function WithGridChild(l: Nodes, id: string): Nodes
    requires GRID in l
  {
    l[GRID := l[GRID].(children := Some(Kids(l[GRID]) + [id]))]
  }

  function WithHeader(l: Nodes, text: string): (r: Nodes)
    requires GRID in l
    ensures l.Keys <= r.Keys
  {
    if HEADER_ROW in l then
      if HEADER_MARKDOWN in l then l[HEADER_MARKDOWN := Healed(l[HEADER_MARKDOWN], text)] else l
    else WithGridChild(l, HEADER_ROW)[HEADER_ROW := RowNode([HEADER_MARKDOWN])][HEADER_MARKDOWN := MarkdownNode(text)]
  }

  function WithRow(l: Nodes, m: Merge): (r: Nodes)
    requires GRID in l
    ensures l.Keys <= r.Keys
  {
    if RowId(m.hash) in l then l
    else
      WithGridChild(l, RowId(m.hash))
        [RowId(m.hash) := RowNode([ColumnId(m.hash)])]
        [ColumnId(m.hash) := ColumnNode(m, [ChartNodeId(m.chart)])]
        [ChartNodeId(m.chart) := ChartNode(m)]
  }

  /** What promoting a question does to the layout. */
  function Merged(l: Nodes, text: string, m: Merge): Nodes {
    WithRow(WithHeader(WithRoot(l), text), m)
  }

  /* ---------- the edits, in place ---------- */

  class Dashboard {
    /** The header text. */
    const text: string
    /** The layout version, kept beside the nodes under a key of its own. */
    var version: Option<string>
    var nodes: Nodes

    constructor (text: string)
      ensures this.text == text && version == None && nodes == map[]
    {
      this.text, version, nodes := text, None, map[];
    }

    method EnsureRoot()
      modifies this
      ensures nodes == WithRoot(old(nodes)) && version == OrElse(old(version), "v2")
    {
      if version.None? {
        version := Some("v2");
      }
      if ROOT !in nodes {
        nodes := nodes[ROOT := RootNode()];
      }
      if GRID !in nodes {
        nodes := nodes[GRID := GridNode()];
      }
      if nodes[GRID].children.None? {
        nodes := nodes[GRID := nodes[GRID].(children := Some([]))];
      }
      assert nodes == nodes[GRID := nodes[GRID].(children := Some(Kids(nodes[GRID])))];
    }

    method AppendToGrid(id: string)
      requires GRID in nodes
      modifies this`nodes
      ensures nodes == WithGridChild(old(nodes), id)
    {
      nodes := nodes[GRID := nodes[GRID].(children := Some(Kids(nodes[GRID]) + [id]))];
    }

    method EnsureAskSaveHeader()
      requires GRID in nodes
      modifies this`nodes
      ensures nodes == WithHeader(old(nodes), text)
    {
      if HEADER_ROW in nodes {
        if HEADER_MARKDOWN in nodes {
          var node := nodes[HEADER_MARKDOWN];
          var meta := if node.meta.None? then NO_META else node.meta.value;
          if node.data.None? {
            node := node.(data := Some(text));
          }
          if meta.code.None? {
            meta := meta.(code := Some(text));
          }
          if meta.text.None? {
            meta := meta.(text := Some(text));
          }
          nodes := nodes[HEADER_MARKDOWN := node.(meta := Some(meta))];
        }
        return;
      }
      ghost var before := nodes;
      nodes := nodes[HEADER_ROW := RowNode([HEADER_MARKDOWN])];
      AppendToGrid(HEADER_ROW);
      nodes := nodes[HEADER_MARKDOWN := MarkdownNode(text)];
      assert nodes == WithHeader(before, text);
    }

    method AppendChartRow(m: Merge)
      requires |m.hash| == Superset.HASH_LENGTH
      modifies this
      ensures nodes == if RowId(m.hash) in old(nodes) then old(nodes) else Merged(old(nodes), text, m)
      ensures version == if RowId(m.hash) in old(nodes) then old(version) else OrElse(old(version), "v2")
    {
      hide WithRoot, WithHeader, RowId, ColumnId, ChartNodeId, Kids, RowNode, ColumnNode, ChartNode;
      if RowId(m.hash) in nodes {
        return;
      }
      EnsureRoot();
      EnsureAskSaveHeader();
      IdsDiffer(m);
      SkeletonKeys(old(nodes), text);
      AddRow(m);
    }

    /** The row, its place in the grid, its column and its chart. */
    method AddRow(m: Merge)
      requires |m.hash| == Superset.HASH_LENGTH && GRID in nodes && RowId(m.hash) !in nodes
      modifies this`nodes
      ensures nodes == WithRow(old(nodes), m)
    {
      hide RowId, ColumnId, ChartNodeId, Kids, RowNode, ColumnNode, ChartNode;
      IdsDiffer(m);
      ghost var before := nodes;
      nodes := nodes[RowId(m.hash) := RowNode([ColumnId(m.hash)])];
      AppendToGrid(RowId(m.hash));
      nodes := nodes[ColumnId(m.hash) := ColumnNode(m, [ChartNodeId(m.chart)])];
      nodes := nodes[ChartNodeId(m.chart) := ChartNode(m)];
      assert nodes == WithRow(before, m);
    }

    /** The layout steps of one promotion, in its order. */
    method MergeChart(m: Merge)
      requires |m.hash| == Superset.HASH_LENGTH
      modifies this
      ensures nodes == Merged(old(nodes), text, m) && version == OrElse(old(version), "v2")
    {
      EnsureRoot();
      EnsureAskSaveHeader();
      SkeletonIsStable(old(nodes), text);
      IdsDiffer(m);
      AppendChartRow(m);
    }
  }

  lemma SkeletonKeys(l: Nodes, text: string)
    ensures WithHeader(WithRoot(l), text).Keys <= l.Keys + {ROOT, GRID, HEADER_ROW, HEADER_MARKDOWN}
  {
  }

  lemma IdsDiffer(m: Merge)
    requires |m.hash| == Superset.HASH_LENGTH
    ensures |RowId(m.hash)| == 22 && |HEADER_ROW| == 25 && RowId(m.hash) !in {ROOT, GRID, HEADER_ROW, HEADER_MARKDOWN}
    ensures ColumnId(m.hash) !in {ROOT, GRID, HEADER_ROW, HEADER_MARKDOWN, RowId(m.hash)}
    ensures ChartNodeId(m.chart) !in {ROOT, GRID, HEADER_ROW, HEADER_MARKDOWN, RowId(m.hash), ColumnId(m.hash)}
  {
    assert RowId(m.hash)[0] == 'R' && RowId(m.hash)[1] == 'O' && RowId(m.hash)[2] == 'W';
    assert ColumnId(m.hash)[0] == 'C' && ColumnId(m.hash)[1] == 'O';
    assert ChartNodeId(m.chart)[0] == 'C' && ChartNodeId(m.chart)[1] == 'H';
    assert ROOT[2] == 'O' && GRID[0] == 'G' && HEADER_MARKDOWN[0] == 'M' && HEADER_ROW[0] == 'R';
  }

  /** The skeleton and the header, once in place, stay as they are. */
  lemma SkeletonIsStable(l: Nodes, text: string)
    ensures var s := WithHeader(WithRoot(l), text);
      GRID in s && WithHeader(WithRoot(s), text) == s
  {
    var s := WithHeader(WithRoot(l), text);
    assert ROOT in s && GRID in s && HEADER_ROW in s && s[GRID].children.Some?;
    assert WithRoot(s) == s;
  }

  /* ---------- well-formed layouts ---------- */

  predicate Distinct(s: seq<string>) {
    forall i, j | 0 <= i < j < |s| :: s[i] != s[j]
  }

  /** Children exist and know their path. */
  ghost predicate KidsKnow(l: Nodes) {
    forall id, c | id in l && c in Kids(l[id]) :: c in l && l[c].parents == l[id].parents + [id]
  }

  predicate KidsDistinct(l: Nodes) {
    forall id | id in l :: Distinct(Kids(l[id]))
  }

  function LastParent(node: Node): string
    requires node.parents != []
  {
    node.parents[|node.parents| - 1]
  }

  /** A node with a path hangs at its end. */
  predicate PathsHold(l: Nodes) {
    forall id {:trigger LastParent(l[id])} | id in l && l[id].parents != [] :: Hangs(l, id, LastParent(l[id]))
  }

  predicate Hangs(l: Nodes, id: string, p: string) {
    p in l && id in Kids(l[p])
  }

  ghost predicate Linked(l: Nodes) {
    KidsKnow(l) && KidsDistinct(l) && PathsHold(l)
  }

  /** Containers carry a background, charts a size: without them the page does not render. */
  predicate NodeRenders(node: Node) {
    && (node.kind in ["ROW", "COLUMN"] ==> node.meta.Some? && node.meta.value.background.Some?)
    && (node.kind == "CHART" ==>
          && node.meta.Some? && node.meta.value.width.Some? && node.meta.value.height.Some?
          && node.meta.value.width.value > 0 && node.meta.value.height.value > 0)
  }

  predicate Renders(l: Nodes) {
    forall id | id in l :: NodeRenders(l[id])
  }

  /** Root and grid come together, the grid under the root. */
  predicate HasSkeleton(l: Nodes) {
    && (ROOT in l <==> GRID in l)
    && (GRID in l ==> l[GRID].parents == [ROOT] && GRID in Kids(l[ROOT]) && l[ROOT].parents == [])
  }

  ghost predicate IsTree(l: Nodes) {
    Linked(l) && Renders(l) && HasSkeleton(l)
  }

  /** No stray part of a row this module owns. */
  ghost predicate NoStray(l: Nodes) {
    && (HEADER_ROW !in l ==> HEADER_MARKDOWN !in l)
    && (forall hash | |hash| == Superset.HASH_LENGTH && RowId(hash) !in l :: ColumnId(hash) !in l)
  }

  ghost predicate IsLayout(l: Nodes) {
    IsTree(l) && NoStray(l)
  }

  /** Hang a childless node under `p`. */
  function Hung(l: Nodes, p: string, id: string, node: Node): Nodes
    requires p in l
  {
    l[p := l[p].(children := Some(Kids(l[p]) + [id]))][id := node]
  }

  lemma HungAt(l: Nodes, p: string, id: string, node: Node, i: string)
    requires p in l && id !in l && i in Hung(l, p, id, node)
    ensures i == id ==> Hung(l, p, id, node)[i] == node
    ensures i == p ==> Kids(Hung(l, p, id, node)[i]) == Kids(l[p]) + [id]
    ensures i != id ==> i in l && Hung(l, p, id, node)[i].parents == l[i].parents
    ensures i != id && i != p ==> Hung(l, p, id, node)[i] == l[i]
  {
  }

  lemma HungKeepsLinked(l: Nodes, p: string, id: string, node: Node)
    requires Linked(l) && p in l && id !in l
    requires Kids(node) == [] && node.parents == l[p].parents + [p]
    ensures Linked(Hung(l, p, id, node))
  {
    hide Hung, Kids, KidsKnow, KidsDistinct, PathsHold;
    HungKeepsKnow(l, p, id, node);
    HungKeepsDistinct(l, p, id, node);
    HungKeepsPaths(l, p, id, node);
  }

  lemma HungKeepsTree(l: Nodes, p: string, id: string, node: Node)
    requires IsTree(l) && p in l && id !in l && id != ROOT && id != GRID
    requires Kids(node) == [] && node.parents == l[p].parents + [p]
    requires NodeRenders(node) && NodeRenders(l[p].(children := Some(Kids(l[p]) + [id])))
    ensures IsTree(Hung(l, p, id, node))
  {
    hide Linked, NodeRenders;
    HungKeepsLinked(l, p, id, node);
  }

  lemma HungKeepsKnow(l: Nodes, p: string, id: string, node: Node)
    requires KidsKnow(l) && p in l && id !in l
    requires Kids(node) == [] && node.parents == l[p].parents + [p]
    ensures KidsKnow(Hung(l, p, id, node))
  {
    hide Hung, Kids;
    var h := Hung(l, p, id, node);
    InHung(l, p, id, node);
    forall i, c | i in h && c in Kids(h[i]) ensures c in h && h[c].parents == h[i].parents + [i] {
      HungAt(l, p, id, node, i);
      if c != id {
        assert c in Kids(l[i]);
      }
      HungAt(l, p, id, node, c);
    }
  }

  lemma HungKeepsDistinct(l: Nodes, p: string, id: string, node: Node)
    requires KidsKnow(l) && KidsDistinct(l) && p in l && id !in l && Kids(node) == []
    ensures KidsDistinct(Hung(l, p, id, node))
  {
    hide Hung, Kids, Distinct;
    var h := Hung(l, p, id, node);
    forall i | i in h ensures Distinct(Kids(h[i])) {
      HungAt(l, p, id, node, i);
      MoreDistinct(Kids(l[p]), id);
      NoneDistinct();
    }
  }

  lemma HungKeepsPaths(l: Nodes, p: string, id: string, node: Node)
    requires PathsHold(l) && p in l && id !in l
    requires Kids(node) == [] && node.parents == l[p].parents + [p]
    ensures PathsHold(Hung(l, p, id, node))
  {
    hide Hung, Kids;
    var h := Hung(l, p, id, node);
    InHung(l, p, id, node);
    HungAt(l, p, id, node, p);
    forall i | i in h && h[i].parents != [] ensures Hangs(h, i, LastParent(h[i])) {
      HungAt(l, p, id, node, i);
      if i != id {
        var q := LastParent(l[i]);
        assert Hangs(l, i, q);
        HungAt(l, p, id, node, q);
      }
    }
  }

  lemma InHung(l: Nodes, p: string, id: string, node: Node)
    requires p in l
    ensures Hung(l, p, id, node).Keys == l.Keys + {id}
  {
  }

  lemma MoreDistinct(s: seq<string>, x: string)
    ensures Distinct(s) && x !in s ==> Distinct(s + [x])
  {
  }

  lemma NoneDistinct()
    ensures Distinct([])
  {
  }
}
