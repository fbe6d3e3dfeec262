/**
 Any sequence of merges keeps a layout well formed, its rows in order and each question in one
 place - and keeps showing the chart a question was first promoted with.
 */
module LayoutRuns {
  import opened Outcomes
  import opened Layout
  import PyText
  import Superset

  predicate IsMerge(m: Merge) {
    |m.hash| == Superset.HASH_LENGTH && m.width > 0 && m.height > 0
  }

  lemma ChartNodeIdInjective(a: int, b: int)
    ensures ChartNodeId(a) == ChartNodeId(b) ==> a == b
  {
    PyText.IntTextInjective(a, b);
    assert ChartNodeId(a)[6..] == PyText.IntText(a) && ChartNodeId(b)[6..] == PyText.IntText(b);
  }

  lemma HashIdsInjective(a: string, b: string)
    ensures RowId(a) == RowId(b) <==> a == b
    ensures ColumnId(a) == ColumnId(b) <==> a == b
  {
    assert RowId(a)[10..] == a && RowId(b)[10..] == b;
    assert ColumnId(a)[13..] == a && ColumnId(b)[13..] == b;
  }

  /* ---------- one merge keeps a layout a layout ---------- */

  /** Same nodes, children and paths. */
  predicate SameTree(l: Nodes, r: Nodes) {
    && l.Keys == r.Keys
    && forall id | id in l :: Kids(l[id]) == Kids(r[id]) && l[id].parents == r[id].parents
  }

  lemma SameTreeKeepsLinked(l: Nodes, r: Nodes)
    requires SameTree(l, r) && Linked(l)
    ensures Linked(r)
  {
    hide Kids, Distinct;
    assert KidsKnow(r);
    assert KidsDistinct(r);
    assert PathsHold(r) by {
      forall id | id in r && r[id].parents != [] ensures Hangs(r, id, LastParent(r[id])) {
        assert Hangs(l, id, LastParent(l[id]));
      }
    }
  }

  lemma WithRootKeeps(l: Nodes)
    requires IsTree(l)
    ensures IsTree(WithRoot(l)) && GRID in WithRoot(l)
  {
    hide Linked;
    var r := WithRoot(l);
    if ROOT in l {
      SameTreeKeepsLinked(l, r);
    } else {
      var bare := l[ROOT := RootNode().(children := Some([]))];
      LoneNodeKeepsLinked(l, ROOT, RootNode().(children := Some([])));
      HungKeepsLinked(bare, ROOT, GRID, GridNode());
      assert [] + [GRID] == [GRID];
      assert r == Hung(bare, ROOT, GRID, GridNode());
    }
  }

  lemma LoneNodeKeepsLinked(l: Nodes, id: string, node: Node)
    requires Linked(l) && id !in l && node.parents == [] && Kids(node) == []
    ensures Linked(l[id := node])
  {
    hide Distinct, Kids, KidsKnow, KidsDistinct, PathsHold;
    LoneNodeKeepsKnow(l, id, node);
    LoneNodeKeepsPaths(l, id, node);
    assert KidsDistinct(l[id := node]) by {
      NoneDistinct();
      LoneNodeKeepsDistinct(l, id, node);
    }
  }

  lemma LoneNodeKeepsKnow(l: Nodes, id: string, node: Node)
    requires KidsKnow(l) && id !in l && Kids(node) == []
    ensures KidsKnow(l[id := node])
  {
    hide Kids;
    var r := l[id := node];
    forall p, c | p in r && c in Kids(r[p]) ensures c in r && r[c].parents == r[p].parents + [p] {
      assert p != id && c in Kids(l[p]);
    }
  }

  lemma LoneNodeKeepsDistinct(l: Nodes, id: string, node: Node)
    requires KidsDistinct(l) && Distinct(Kids(node))
    ensures KidsDistinct(l[id := node])
  {
    hide Kids, Distinct;
  }

  lemma LoneNodeKeepsPaths(l: Nodes, id: string, node: Node)
    requires PathsHold(l) && id !in l && node.parents == []
    ensures PathsHold(l[id := node])
  {
    hide Kids;
    var r := l[id := node];
    forall c | c in r && r[c].parents != [] ensures Hangs(r, c, LastParent(r[c])) {
      assert Hangs(l, c, LastParent(l[c]));
    }
  }

  lemma WithHeaderKeeps(l: Nodes, text: string)
    requires IsTree(l) && GRID in l && (HEADER_ROW !in l ==> HEADER_MARKDOWN !in l)
    ensures IsTree(WithHeader(l, text))
  {
    hide IsTree;
    if HEADER_ROW in l {
      HealedKeeps(l, text);
    } else {
      assert l[GRID].parents == [ROOT] by { GridPath(l); }
      var row := Hung(l, GRID, HEADER_ROW, RowNode([]));
      GridRenders(l, HEADER_ROW);
      HungKeepsTree(l, GRID, HEADER_ROW, RowNode([]));
      HungKeepsTree(row, HEADER_ROW, HEADER_MARKDOWN, MarkdownNode(text));
      assert [] + [HEADER_MARKDOWN] == [HEADER_MARKDOWN];
      assert WithHeader(l, text) == Hung(row, HEADER_ROW, HEADER_MARKDOWN, MarkdownNode(text));
    }
  }

  lemma GridPath(l: Nodes)
    requires IsTree(l) && GRID in l
    ensures l[GRID].parents == [ROOT]
  {
  }

  lemma GridRenders(l: Nodes, id: string)
    requires IsTree(l) && GRID in l
    ensures NodeRenders(l[GRID].(children := Some(Kids(l[GRID]) + [id])))
  {
    assert NodeRenders(l[GRID]);
  }

  lemma HealedKeeps(l: Nodes, text: string)
    requires IsTree(l) && GRID in l && HEADER_ROW in l
    ensures IsTree(WithHeader(l, text))
  {
    hide Linked;
    var r := WithHeader(l, text);
    SameTreeKeepsLinked(l, r);
    forall id | id in r ensures NodeRenders(r[id]) {
      assert NodeRenders(l[id]);
    }
  }

  lemma WithRowKeeps(l: Nodes, m: Merge)
    requires IsLayout(l) && GRID in l && IsMerge(m)
    requires RowId(m.hash) in l || ChartNodeId(m.chart) !in l
    ensures IsTree(WithRow(l, m))
  {
    hide IsTree, Hung, RowId, ColumnId, ChartNodeId;
    if RowId(m.hash) !in l {
      IdsDiffer(m);
      var row, column, chart := RowId(m.hash), ColumnId(m.hash), ChartNodeId(m.chart);
      GridPath(l);
      GridRenders(l, row);
      var l1 := Hung(l, GRID, row, RowNode([]));
      HungKeepsTree(l, GRID, row, RowNode([]));
      InHung(l, GRID, row, RowNode([]));
      HungAt(l, GRID, row, RowNode([]), row);
      var l2 := Hung(l1, row, column, ColumnNode(m, []));
      HungKeepsTree(l1, row, column, ColumnNode(m, []));
      InHung(l1, row, column, ColumnNode(m, []));
      HungAt(l1, row, column, ColumnNode(m, []), column);
      HungKeepsTree(l2, column, chart, ChartNode(m));
      RowIsHung(l, m, l1, l2);
    }
  }

  lemma RowIsHung(l: Nodes, m: Merge, l1: Nodes, l2: Nodes)
    requires GRID in l && RowId(m.hash) !in l && IsMerge(m)
    requires l1 == Hung(l, GRID, RowId(m.hash), RowNode([]))
    requires l2 == Hung(l1, RowId(m.hash), ColumnId(m.hash), ColumnNode(m, []))
    ensures ColumnId(m.hash) in l2
    ensures WithRow(l, m) == Hung(l2, ColumnId(m.hash), ChartNodeId(m.chart), ChartNode(m))
  {
    IdsDiffer(m);
    assert [] + [ColumnId(m.hash)] == [ColumnId(m.hash)] && [] + [ChartNodeId(m.chart)] == [ChartNodeId(m.chart)];
  }

  /** A merge adds no column without its row. */
  lemma NoStrayKept(l: Nodes, text: string, m: Merge)
    requires NoStray(l) && IsMerge(m)
    ensures NoStray(WithHeader(WithRoot(l), text)) && NoStray(Merged(l, text, m))
  {
    hide Merged, WithHeader, WithRoot, ChartNodeId;
    MergedKeys(l, text, m);
    var h, r := WithHeader(WithRoot(l), text), Merged(l, text, m);
    IdsDiffer(m);
    forall hash | |hash| == Superset.HASH_LENGTH
      ensures RowId(hash) !in h ==> ColumnId(hash) !in h
      ensures RowId(hash) !in r ==> ColumnId(hash) !in r
    {
      HashIdsInjective(hash, m.hash);
      IdsDiffer(m.(hash := hash));
    }
  }

  lemma MergedKeepsLayout(l: Nodes, text: string, m: Merge)
    requires IsLayout(l) && IsMerge(m)
    requires RowId(m.hash) in l || ChartNodeId(m.chart) !in l
    ensures IsLayout(Merged(l, text, m))
  {
    hide IsTree, NoStray, WithRoot, WithHeader, WithRow;
    WithRootKeeps(l);
    assert HEADER_ROW !in WithRoot(l) ==> HEADER_MARKDOWN !in WithRoot(l) by { RootAddsNoHeader(l); }
    WithHeaderKeeps(WithRoot(l), text);
    IdsDiffer(m);
    MergedKeys(l, text, m);
    NoStrayKept(l, text, m);
    WithRowKeeps(WithHeader(WithRoot(l), text), m);
  }

  /** Nothing is lost by overwriting this node: it is not there, or it hangs nowhere and has no children. */
  predicate IsFree(l: Nodes, id: string) {
    id !in l || (l[id].parents == [] && Kids(l[id]) == [])
  }

  /**
   A merge keeps the layout exactly when the question has its row or the chart's node is free. When
   the row was removed and the chart's node hangs elsewhere, the merge gives it a second place.
   */
  lemma MergedKeepsLayoutIff(l: Nodes, text: string, m: Merge)
    requires IsLayout(l) && IsMerge(m)
    ensures IsLayout(Merged(l, text, m)) <==> RowId(m.hash) in l || IsFree(l, ChartNodeId(m.chart))
  {
    hide IsTree, NoStray, Merged;
    var chart := ChartNodeId(m.chart);
    if RowId(m.hash) in l || chart !in l {
      MergedKeepsLayout(l, text, m);
    } else if IsFree(l, chart) {
      WithoutLeafIsLayout(l, m.chart);
      MergedKeepsLayout(l - {chart}, text, m);
      MergedWithoutLeaf(l, text, m);
    } else if IsLayout(Merged(l, text, m)) {
      NotBoth(l, text, m);
    }
  }

  lemma WithoutLeafIsLayout(l: Nodes, chart: int)
    requires IsLayout(l) && ChartNodeId(chart) in l && IsFree(l, ChartNodeId(chart))
    ensures IsLayout(l - {ChartNodeId(chart)})
  {
    hide Linked, NodeRenders, RowId, ColumnId, ChartNodeId;
    var id, r := ChartNodeId(chart), l - {ChartNodeId(chart)};
    var m := Merge("hash-of-some", chart, "", 1, 1);
    IdsDiffer(m);
    assert Linked(r) by { WithoutLeafIsLinked(l, id); }
    forall hash | |hash| == Superset.HASH_LENGTH && RowId(hash) !in r ensures ColumnId(hash) !in r {
      IdsDiffer(m.(hash := hash));
      assert RowId(hash) !in l;
    }
  }

  lemma WithoutLeafIsLinked(l: Nodes, id: string)
    requires Linked(l) && id in l && IsFree(l, id)
    ensures Linked(l - {id})
  {
    hide Distinct, Kids;
    var r := l - {id};
    forall p, c | p in r && c in Kids(r[p]) ensures c in r && r[c].parents == r[p].parents + [p] {
      assert c in l && l[c].parents == l[p].parents + [p];
    }
    assert KidsKnow(r);
    assert KidsDistinct(r);
    forall c | c in r && r[c].parents != [] ensures Hangs(r, c, LastParent(r[c])) {
      assert Hangs(l, c, LastParent(l[c]));
    }
  }

  lemma MergedWithoutLeaf(l: Nodes, text: string, m: Merge)
    requires IsMerge(m) && RowId(m.hash) !in l
    ensures Merged(l - {ChartNodeId(m.chart)}, text, m) == Merged(l, text, m)
  {
    hide WithRoot, WithHeader, WithRow, RowId, ColumnId, ChartNodeId;
    var id := ChartNodeId(m.chart);
    IdsDiffer(m);
    RootWithout(l, id);
    HeaderWithout(WithRoot(l), text, id);
    SkeletonKeys(l, text);
    RowWithout(WithHeader(WithRoot(l), text), m);
  }

  lemma RootWithout(l: Nodes, id: string)
    requires id !in {ROOT, GRID}
    ensures WithRoot(l - {id}) == WithRoot(l) - {id}
  {
  }

  lemma HeaderWithout(l: Nodes, text: string, id: string)
    requires id !in {ROOT, GRID, HEADER_ROW, HEADER_MARKDOWN} && GRID in l
    ensures WithHeader(l - {id}, text) == WithHeader(l, text) - {id}
  {
    hide Healed, Kids;
  }

  lemma RowWithout(l: Nodes, m: Merge)
    requires GRID in l && RowId(m.hash) !in l && GRID != ChartNodeId(m.chart)
    ensures GRID in l - {ChartNodeId(m.chart)} && WithRow(l - {ChartNodeId(m.chart)}, m) == WithRow(l, m)
  {
    hide RowId, ColumnId, ChartNodeId, Kids;
  }

  /** The node keeps its path and its children, further ones aside. */
  predicate KeepsPlace(l: Nodes, r: Nodes, id: string) {
    id in l ==> id in r && r[id].parents == l[id].parents && Kids(l[id]) <= Kids(r[id])
  }

  lemma WithRootKeepsPlace(l: Nodes, id: string)
    ensures KeepsPlace(l, WithRoot(l), id)
  {
  }

  lemma WithHeaderKeepsPlace(l: Nodes, text: string, id: string)
    requires GRID in l && (HEADER_ROW !in l ==> HEADER_MARKDOWN !in l)
    ensures KeepsPlace(l, WithHeader(l, text), id)
  {
  }

  lemma WithRowKeepsPlace(l: Nodes, m: Merge, id: string)
    requires GRID in l && ColumnId(m.hash) !in l && id != ChartNodeId(m.chart)
    ensures KeepsPlace(l, WithRow(l, m), id)
  {
    hide Kids, RowId, ColumnId, ChartNodeId;
    if RowId(m.hash) !in l && id == GRID {
      assert Kids(l[GRID]) <= Kids(l[GRID]) + [RowId(m.hash)];
      GridChildren(l, RowId(m.hash));
    }
  }

  lemma GridChildren(l: Nodes, id: string)
    requires GRID in l
    ensures Kids(WithGridChild(l, id)[GRID]) == Kids(l[GRID]) + [id]
  {
  }

  /** What a merge of a new question leaves in place. */
  lemma MergedKeepsPlace(l: Nodes, text: string, m: Merge, id: string)
    requires IsLayout(l) && IsMerge(m) && RowId(m.hash) !in l && id in l && id != ChartNodeId(m.chart)
    ensures KeepsPlace(l, Merged(l, text, m), id)
  {
    hide IsTree, WithRoot, WithHeader, WithRow, Kids, ChartNodeId;
    var a, b := WithRoot(l), WithHeader(WithRoot(l), text);
    IdsDiffer(m);
    NoStrayKept(l, text, m);
    MergedKeys(l, text, m);
    RootAddsNoHeader(l);
    WithRootKeepsPlace(l, id);
    WithHeaderKeepsPlace(a, text, id);
    WithRowKeepsPlace(b, m, id);
  }

  lemma NotBoth(l: Nodes, text: string, m: Merge)
    requires IsLayout(l) && IsMerge(m) && RowId(m.hash) !in l
    requires IsLayout(Merged(l, text, m))
    ensures IsFree(l, ChartNodeId(m.chart))
  {
    hide Merged, Distinct, Renders, HasSkeleton, NoStray, Kids, ChartNodeId, ColumnId, RowId, KidsDistinct, IsMerge;
    var chart, r := ChartNodeId(m.chart), Merged(l, text, m);
    NewChartHangs(l, text, m);
    if chart in l && l[chart].parents != [] {
      var q := LastParent(l[chart]);
      assert Hangs(l, chart, q);
      assert l[chart].parents == l[q].parents + [q];
      assert q != chart;
      MergedKeepsPlace(l, text, m, q);
      assert false;
    } else if chart in l && Kids(l[chart]) != [] {
      var c := Kids(l[chart])[0];
      assert l[c].parents == l[chart].parents + [chart];
      MergedKeepsPlace(l, text, m, c);
      HangsAtEnd(r, c);
      assert false;
    }
  }

  lemma HangsAtEnd(l: Nodes, id: string)
    requires PathsHold(l) && id in l && l[id].parents != []
    ensures Hangs(l, id, LastParent(l[id]))
  {
  }

  lemma NewChartHangs(l: Nodes, text: string, m: Merge)
    requires NoStray(l) && IsMerge(m) && RowId(m.hash) !in l
    ensures ChartNodeId(m.chart) in Merged(l, text, m)
    ensures Merged(l, text, m)[ChartNodeId(m.chart)] == ChartNode(m) && Kids(ChartNode(m)) == []
    ensures ChartNode(m).parents == [ROOT, GRID, RowId(m.hash), ColumnId(m.hash)] && ColumnId(m.hash) !in l
  {
    hide WithRoot, WithHeader, WithRow, RowId, ColumnId, ChartNodeId;
    IdsDiffer(m);
    MergedKeys(l, text, m);
    NewRowEnds(WithHeader(WithRoot(l), text), m);
    assert [ROOT, GRID, RowId(m.hash)] + [ColumnId(m.hash)] == [ROOT, GRID, RowId(m.hash), ColumnId(m.hash)];
  }

  lemma NewRowEnds(l: Nodes, m: Merge)
    requires GRID in l && RowId(m.hash) !in l
    ensures ChartNodeId(m.chart) in WithRow(l, m) && WithRow(l, m)[ChartNodeId(m.chart)] == ChartNode(m)
  {
    hide RowId, ColumnId, ChartNodeId, WithGridChild;
  }

  /** A chart moved under the grid, its question's row removed: promoting the question again breaks the layout. */
  lemma MovedChartBreaks(text: string, m: Merge)
    requires IsMerge(m)
    ensures
      var moved := ChartNode(m).(parents := [ROOT, GRID]);
      var grid := GridNode().(children := Some([ChartNodeId(m.chart)]));
      var l := map[ROOT := RootNode(), GRID := grid, ChartNodeId(m.chart) := moved];
      IsLayout(l) && !IsLayout(Merged(l, text, m))
  {
    hide Merged, RowId, ColumnId, ChartNodeId, IsTree;
    var moved := ChartNode(m).(parents := [ROOT, GRID]);
    var grid := GridNode().(children := Some([ChartNodeId(m.chart)]));
    var l := map[ROOT := RootNode(), GRID := grid, ChartNodeId(m.chart) := moved];
    IdsDiffer(m);
    assert ROOT[0] == 'R' && GRID[0] == 'G';
    forall hash | |hash| == Superset.HASH_LENGTH ensures ColumnId(hash) !in l {
      IdsDiffer(m.(hash := hash));
    }
    assert NoStray(l);
    ThreeAreATree(l, ChartNodeId(m.chart));
    MergedKeepsLayoutIff(l, text, m);
  }

  /** A root, the grid under it, and one chart under the grid. */
  lemma ThreeAreATree(l: Nodes, chart: string)
    requires l.Keys == {ROOT, GRID, chart} && |{ROOT, GRID, chart}| == 3
    requires Kids(l[ROOT]) == [GRID] && Kids(l[GRID]) == [chart] && Kids(l[chart]) == []
    requires l[ROOT].parents == [] && l[GRID].parents == [ROOT] && l[chart].parents == [ROOT, GRID]
    requires Renders(l)
    ensures IsTree(l)
  {
    hide NodeRenders, Kids;
    assert [] + [ROOT] == [ROOT] && [ROOT] + [GRID] == [ROOT, GRID];
    assert ROOT != GRID && ROOT != chart && GRID != chart;
    assert Hangs(l, chart, GRID) && Hangs(l, GRID, ROOT);
    assert KidsKnow(l) && KidsDistinct(l) && PathsHold(l);
  }

  lemma RootAddsNoHeader(l: Nodes)
    requires NoStray(l)
    ensures HEADER_ROW !in WithRoot(l) ==> HEADER_MARKDOWN !in WithRoot(l)
  {
  }

  /** The nodes a merge may add. */
  lemma MergedKeys(l: Nodes, text: string, m: Merge)
    ensures
      var h := WithHeader(WithRoot(l), text);
      && l.Keys <= h.Keys <= l.Keys + {ROOT, GRID, HEADER_ROW, HEADER_MARKDOWN}
      && {ROOT, GRID, HEADER_ROW} <= h.Keys
      && h.Keys <= Merged(l, text, m).Keys <= h.Keys + {RowId(m.hash), ColumnId(m.hash), ChartNodeId(m.chart)}
      && RowId(m.hash) in Merged(l, text, m)
  {
  }

  /* ---------- what a merge leaves alone ---------- */

  /** Appending only: earlier grid rows keep their place, other nodes are untouched. */
  predicate Extends(l: Nodes, r: Nodes) {
    && l.Keys <= r.Keys
    && (GRID in l ==> Kids(l[GRID]) <= Kids(r[GRID]))
    && (forall id | id in l && id != GRID && id != HEADER_MARKDOWN :: r[id] == l[id])
    && (HEADER_MARKDOWN in l ==> KeepsContent(l[HEADER_MARKDOWN], r[HEADER_MARKDOWN]))
  }

  /** Content a user has edited is not overwritten. */
  predicate KeepsContent(a: Node, b: Node) {
    && (a.data.Some? ==> b.data == a.data)
    && (a.meta.Some? ==> (
          && b.meta.Some?
          && (a.meta.value.code.Some? ==> b.meta.value.code == a.meta.value.code)
          && (a.meta.value.text.Some? ==> b.meta.value.text == a.meta.value.text)))
    && a.children == b.children && a.parents == b.parents
  }

  lemma MergedExtends(l: Nodes, text: string, m: Merge)
    requires IsLayout(l) && IsMerge(m) && (RowId(m.hash) in l || ChartNodeId(m.chart) !in l)
    ensures Extends(l, Merged(l, text, m))
  {
    hide IsTree, Extends, WithRoot, WithHeader, WithRow, NoStray;
    var h := WithHeader(WithRoot(l), text);
    RootExtends(l);
    RootAddsNoHeader(l);
    HeaderExtends(WithRoot(l), text);
    MergedKeys(l, text, m);
    IdsDiffer(m);
    NoStrayKept(l, text, m);
    RowExtends(h, m);
    ExtendsTransitive(l, WithRoot(l), h);
    ExtendsTransitive(l, h, Merged(l, text, m));
  }

  lemma RootExtends(l: Nodes)
    requires IsTree(l)
    ensures Extends(l, WithRoot(l))
  {
    hide Linked, Renders;
  }

  lemma HeaderExtends(l: Nodes, text: string)
    requires GRID in l && (HEADER_ROW !in l ==> HEADER_MARKDOWN !in l)
    ensures Extends(l, WithHeader(l, text))
  {
  }

  lemma RowExtends(l: Nodes, m: Merge)
    requires GRID in l && NoStray(l) && IsMerge(m) && (RowId(m.hash) in l || ChartNodeId(m.chart) !in l)
    ensures Extends(l, WithRow(l, m))
  {
    if RowId(m.hash) in l {
      ExtendsItself(l);
    } else {
      ThreeMoreExtend(l, RowId(m.hash), RowNode([ColumnId(m.hash)]), ColumnId(m.hash),
                      ColumnNode(m, [ChartNodeId(m.chart)]), ChartNodeId(m.chart), ChartNode(m));
    }
  }

  lemma ThreeMoreExtend(l: Nodes, a: string, na: Node, b: string, nb: Node, c: string, nc: Node)
    requires GRID in l && a !in l && b !in l && c !in l
    ensures Extends(l, WithGridChild(l, a)[a := na][b := nb][c := nc])
  {
  }

  lemma ExtendsTransitive(a: Nodes, b: Nodes, c: Nodes)
    requires Extends(a, b) && Extends(b, c)
    ensures Extends(a, c)
  {
    assert GRID in a ==> Kids(a[GRID]) <= Kids(b[GRID]) <= Kids(c[GRID]);
  }

  /* ---------- runs ---------- */

  function Run(l: Nodes, text: string, ms: seq<Merge>): Nodes
    decreases |ms|
  {
    if ms == [] then l else Run(Merged(l, text, ms[0]), text, ms[1..])
  }

  /** Charts that are not on the dashboard yet, one question's charts never another's. */
  ghost predicate AreFresh(l: Nodes, ms: seq<Merge>) {
    && (forall i | 0 <= i < |ms| :: IsMerge(ms[i]) && (RowId(ms[i].hash) in l || ChartNodeId(ms[i].chart) !in l))
    && forall i, j | 0 <= i < j < |ms| && ms[i].chart == ms[j].chart :: ms[i].hash == ms[j].hash
  }

  lemma AreFreshNext(l: Nodes, text: string, ms: seq<Merge>)
    requires ms != [] && AreFresh(l, ms)
    ensures AreFresh(Merged(l, text, ms[0]), ms[1..])
  {
    hide Merged;
    var m := ms[0];
    MergedKeys(l, text, m);
    forall i | 0 <= i < |ms[1..]|
      ensures IsMerge(ms[1..][i])
      ensures RowId(ms[1..][i].hash) in Merged(l, text, m) || ChartNodeId(ms[1..][i].chart) !in Merged(l, text, m)
    {
      var n := ms[i + 1];
      assert ms[1..][i] == n && IsMerge(n);
      IdsDiffer(n);
      IdsDiffer(n.(hash := m.hash));
      ChartNodeIdInjective(n.chart, m.chart);
    }
  }

  /** Any sequence of merges: still a layout, nothing moved, nothing lost. */
  lemma {:induction false} RunKeepsLayout(l: Nodes, text: string, ms: seq<Merge>)
    requires IsLayout(l) && AreFresh(l, ms)
    ensures IsLayout(Run(l, text, ms)) && Extends(l, Run(l, text, ms))
    decreases |ms|
  {
    hide IsLayout, Merged, Extends;
    if ms == [] {
      ExtendsItself(l);
    } else {
      MergedKeepsLayout(l, text, ms[0]);
      MergedExtends(l, text, ms[0]);
      AreFreshNext(l, text, ms);
      RunKeepsLayout(Merged(l, text, ms[0]), text, ms[1..]);
      ExtendsTransitive(l, Merged(l, text, ms[0]), Run(l, text, ms));
    }
  }

  lemma ExtendsItself(l: Nodes)
    ensures Extends(l, l)
  {
  }

  /** Promoting a question again changes nothing, whatever the chart. */
  lemma MergeTwice(l: Nodes, text: string, m: Merge, again: Merge)
    requires IsMerge(m) && again.hash == m.hash
    ensures Merged(Merged(l, text, m), text, again) == Merged(l, text, m)
  {
    IdsDiffer(m);
    var r := Merged(l, text, m);
    SkeletonIsStable(l, text);
    MergedKeys(l, text, m);
    assert r[GRID].children.Some?;
    assert WithRoot(r) == r;
    HeaderSettled(WithRoot(l), text, m);
  }

  lemma HeaderSettled(l: Nodes, text: string, m: Merge)
    requires GRID in l && IsMerge(m)
    ensures var r := WithRow(WithHeader(l, text), m); WithHeader(r, text) == r
  {
    IdsDiffer(m);
    var h := WithHeader(l, text);
    var r := WithRow(h, m);
    if HEADER_MARKDOWN in h {
      assert r[HEADER_MARKDOWN] == h[HEADER_MARKDOWN];
      assert Healed(h[HEADER_MARKDOWN], text) == h[HEADER_MARKDOWN];
    }
  }

  /* ---------- what is shown ---------- */

  /** The node hangs in exactly one place. */
  ghost predicate IsPlacedOnce(l: Nodes, id: string) {
    && id in l
    && (exists p :: p in l && id in Kids(l[p]))
    && (forall p, q | p in l && q in l && id in Kids(l[p]) && id in Kids(l[q]) :: p == q)
    && (forall p | p in l :: Distinct(Kids(l[p])))
  }

  lemma LinkedPlacesOnce(l: Nodes, id: string)
    requires Linked(l) && id in l && l[id].parents != []
    ensures IsPlacedOnce(l, id)
  {
    hide Distinct;
    assert Hangs(l, id, LastParent(l[id]));
    forall p, q | p in l && q in l && id in Kids(l[p]) && id in Kids(l[q]) ensures p == q {
      assert l[id].parents == l[p].parents + [p] == l[q].parents + [q];
      assert (l[p].parents + [p])[|l[id].parents| - 1] == p;
    }
  }

  /** The dashboard shows this chart in the row of this question. */
  predicate Shows(l: Nodes, hash: string, chart: int) {
    && RowId(hash) in l && ColumnId(hash) in Kids(l[RowId(hash)])
    && ColumnId(hash) in l && ChartNodeId(chart) in Kids(l[ColumnId(hash)])
    && ChartNodeId(chart) in l && l[ChartNodeId(chart)].chartId == Some(chart)
  }

  /** A merge makes its chart visible exactly when the question has no row yet or already shows it. */
  lemma MergedShowsIff(l: Nodes, text: string, m: Merge)
    requires IsLayout(l) && IsMerge(m)
    ensures Shows(Merged(l, text, m), m.hash, m.chart) <==> RowId(m.hash) !in l || Shows(l, m.hash, m.chart)
  {
    hide IsTree, NoStray, WithRoot, WithHeader, WithRow;
    IdsDiffer(m);
    MergedKeys(l, text, m);
    var h := WithHeader(WithRoot(l), text);
    if RowId(m.hash) in l {
      assert Merged(l, text, m) == h by { NoSecondRow(h, m); }
      MergedExtends(l, text, m);
    } else {
      NewRowShows(h, m);
    }
  }

  lemma NoSecondRow(l: Nodes, m: Merge)
    requires GRID in l && RowId(m.hash) in l
    ensures WithRow(l, m) == l
  {
  }

  lemma NewRowShows(l: Nodes, m: Merge)
    requires GRID in l && RowId(m.hash) !in l && IsMerge(m)
    ensures Shows(WithRow(l, m), m.hash, m.chart)
  {
    IdsDiffer(m);
  }

  /** A question shown keeps being shown with the same chart. */
  lemma ExtendsKeepsShown(l: Nodes, r: Nodes, hash: string, chart: int)
    requires Extends(l, r) && Shows(l, hash, chart) && |hash| == Superset.HASH_LENGTH
    ensures Shows(r, hash, chart)
  {
    IdsDiffer(Merge(hash, chart, "", 1, 1));
  }

  /** After any sequence of merges each question shows the chart of its first merge. */
  lemma {:induction false} RunShows(l: Nodes, text: string, ms: seq<Merge>, i: nat)
    requires IsLayout(l) && AreFresh(l, ms) && i < |ms|
    requires RowId(ms[i].hash) !in l && forall k | 0 <= k < i :: ms[k].hash != ms[i].hash
    ensures Shows(Run(l, text, ms), ms[i].hash, ms[i].chart)
    decreases |ms|
  {
    hide IsLayout, Merged, Extends, Shows;
    var next := Merged(l, text, ms[0]);
    MergedKeepsLayout(l, text, ms[0]);
    AreFreshNext(l, text, ms);
    if i == 0 {
      MergedShowsIff(l, text, ms[0]);
      RunKeepsLayout(next, text, ms[1..]);
      ExtendsKeepsShown(next, Run(l, text, ms), ms[0].hash, ms[0].chart);
    } else {
      RowsApart(l, text, ms[0], ms[i].hash);
      RunShows(next, text, ms[1..], i - 1);
    }
  }

  lemma RowsApart(l: Nodes, text: string, m: Merge, hash: string)
    requires IsMerge(m) && |hash| == Superset.HASH_LENGTH && hash != m.hash
    ensures RowId(hash) in Merged(l, text, m) <==> RowId(hash) in l
  {
    hide Merged, WithHeader, WithRoot;
    MergedKeys(l, text, m);
    HashIdsInjective(hash, m.hash);
    IdsDiffer(m.(hash := hash));
  }

  /** Where the header and this question's row are there already, they have a path. */
  predicate HasPaths(l: Nodes, hash: string) {
    && (HEADER_ROW in l ==> l[HEADER_ROW].parents != [])
    && (RowId(hash) in l ==> l[RowId(hash)].parents != [])
  }

  lemma MergedHasPaths(l: Nodes, text: string, m: Merge, hash: string)
    requires IsLayout(l) && IsMerge(m) && (RowId(m.hash) in l || ChartNodeId(m.chart) !in l)
    requires |hash| == Superset.HASH_LENGTH && HasPaths(l, hash)
    ensures HasPaths(Merged(l, text, m), hash) && HEADER_ROW in Merged(l, text, m)
  {
    hide IsTree, NoStray, WithRoot, WithHeader, WithRow;
    var r := Merged(l, text, m);
    MergedExtends(l, text, m);
    IdsDiffer(m.(hash := hash));
    MergedKeys(l, text, m);
    if HEADER_ROW !in l {
      NewHeaderHasPath(l, text, m);
    }
    if RowId(hash) !in l {
      NewRowHasPath(l, text, m, hash);
    }
  }

  lemma NewHeaderHasPath(l: Nodes, text: string, m: Merge)
    requires HEADER_ROW !in l && IsMerge(m)
    ensures HEADER_ROW in Merged(l, text, m) && Merged(l, text, m)[HEADER_ROW].parents == [ROOT, GRID]
  {
    IdsDiffer(m);
  }

  lemma NewRowHasPath(l: Nodes, text: string, m: Merge, hash: string)
    requires RowId(hash) !in l && IsMerge(m) && |hash| == Superset.HASH_LENGTH
    ensures RowId(hash) in Merged(l, text, m) ==> Merged(l, text, m)[RowId(hash)].parents == [ROOT, GRID]
  {
    hide WithRoot, WithHeader;
    MergedKeys(l, text, m);
    HashIdsInjective(hash, m.hash);
    IdsDiffer(m.(hash := hash));
    IdsDiffer(m);
  }

  lemma {:induction false} RunHasPaths(l: Nodes, text: string, ms: seq<Merge>, hash: string)
    requires IsLayout(l) && AreFresh(l, ms) && |hash| == Superset.HASH_LENGTH && HasPaths(l, hash)
    ensures HasPaths(Run(l, text, ms), hash)
    ensures ms != [] ==> HEADER_ROW in Run(l, text, ms)
    decreases |ms|
  {
    hide IsLayout, Merged, HasPaths, Extends;
    if ms != [] {
      var next := Merged(l, text, ms[0]);
      MergedKeepsLayout(l, text, ms[0]);
      AreFreshNext(l, text, ms);
      MergedHasPaths(l, text, ms[0], hash);
      RunHasPaths(next, text, ms[1..], hash);
      RunKeepsLayout(next, text, ms[1..]);
      ExtendsKeys(next, Run(l, text, ms));
    }
  }

  lemma ExtendsKeys(l: Nodes, r: Nodes)
    requires Extends(l, r)
    ensures l.Keys <= r.Keys
  {
  }

  /** After any merges the header, and the row of each question merged, hang in exactly one place. */
  lemma {:induction false} RunPlacesOnce(l: Nodes, text: string, ms: seq<Merge>, i: nat)
    requires IsLayout(l) && AreFresh(l, ms) && i < |ms| && HasPaths(l, ms[i].hash)
    ensures IsPlacedOnce(Run(l, text, ms), HEADER_ROW) && IsPlacedOnce(Run(l, text, ms), RowId(ms[i].hash))
  {
    hide Linked, NoStray, Renders, IsPlacedOnce, Merged, Run;
    var r := Run(l, text, ms);
    RunKeepsLayout(l, text, ms);
    RunHasPaths(l, text, ms, ms[i].hash);
    RunHasRow(l, text, ms, i);
    LinkedPlacesOnce(r, HEADER_ROW);
    LinkedPlacesOnce(r, RowId(ms[i].hash));
  }

  lemma {:induction false} RunHasRow(l: Nodes, text: string, ms: seq<Merge>, i: nat)
    requires IsLayout(l) && AreFresh(l, ms) && i < |ms|
    ensures RowId(ms[i].hash) in Run(l, text, ms)
    decreases |ms|
  {
    hide IsLayout, Merged, Extends;
    var next := Merged(l, text, ms[0]);
    MergedKeepsLayout(l, text, ms[0]);
    AreFreshNext(l, text, ms);
    if i == 0 {
      MergedKeys(l, text, ms[0]);
      RunKeepsLayout(next, text, ms[1..]);
      ExtendsKeys(next, Run(l, text, ms));
    } else {
      RunHasRow(next, text, ms[1..], i - 1);
    }
  }

  function Chart(hash: string, day: string, id: int): Superset.Item<()> {
    Superset.Item(id, Superset.Slug(hash, day), ())
  }

  /**
   A slug carries its date: promoting a question again on another day makes a second chart, which
   the dashboard does not show - its row is already taken.
   */
  lemma NextDayIsNotShown(text: string, hash: string, day1: string, day2: string, id1: int, id2: int)
    requires |hash| == Superset.HASH_LENGTH && day1 != day2 && id1 != id2
    ensures
      var charts1 := Superset.Ensured([], Chart(hash, day1, id1));
      var charts2 := Superset.Ensured(charts1, Chart(hash, day2, id2));
      var l := Run(map[], text, [Merge(hash, id1, "u", 6, 50), Merge(hash, id2, "u", 6, 50)]);
      && charts2 == [Chart(hash, day1, id1), Chart(hash, day2, id2)]
      && Shows(l, hash, id1) && !Shows(l, hash, id2)
  {
    var m1, m2 := Merge(hash, id1, "u", 6, 50), Merge(hash, id2, "u", 6, 50);
    NextDayMakesAChart(hash, day1, day2, id1, id2);
    IdsDiffer(m1);
    ChartNodeIdInjective(id1, id2);
    assert IsLayout(map[]);
    MergedShowsIff(map[], text, m1);
    MergedKeepsLayout(map[], text, m1);
    MergeTwice(map[], text, m1, m2);
    RunTwo(map[], text, m1, m2);
    OnlyOneShown(map[], text, m1, id2);
  }

  lemma NextDayMakesAChart(hash: string, day1: string, day2: string, id1: int, id2: int)
    requires |hash| == Superset.HASH_LENGTH && day1 != day2
    ensures
      var charts1 := Superset.Ensured([], Chart(hash, day1, id1));
      Superset.Ensured(charts1, Chart(hash, day2, id2))
        == [Chart(hash, day1, id1), Chart(hash, day2, id2)]
  {
    Superset.SlugDetermines(hash, day1, hash, day2);
    var x := Chart(hash, day1, id1);
    assert [] + [x] == [x];
    Superset.NamedNext([], x, Superset.Slug(hash, day2));
  }

  lemma RunTwo(l: Nodes, text: string, m1: Merge, m2: Merge)
    ensures Run(l, text, [m1, m2]) == Merged(Merged(l, text, m1), text, m2)
  {
    hide Merged;
    assert [m1, m2][1..] == [m2] && [m2][1..] == [];
    assert Run(Merged(l, text, m1), text, [m2]) == Run(Merged(Merged(l, text, m1), text, m2), text, []);
  }

  lemma OnlyOneShown(l: Nodes, text: string, m: Merge, other: int)
    requires RowId(m.hash) !in l && IsMerge(m) && other != m.chart
    ensures !Shows(Merged(l, text, m), m.hash, other)
  {
    IdsDiffer(m);
    IdsDiffer(m.(chart := other));
    ChartNodeIdInjective(m.chart, other);
    MergedKeys(l, text, m);
  }
}
