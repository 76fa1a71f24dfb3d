/**
 * The regional treemap chart (dm-project-front/src/components/charts/RegionalTreemap.tsx):
 * the colour of a region, the order in which `squarify` lays out the children of the node in
 * view, and the drill-down path with its breadcrumb.
 */
module TreemapChart {
  import opened Wrappers
  import opened Seqs
  import opened Treemap
  import opened HeatmapChart

  // ---------------------------------------------------------------------------------------
  // Colour
  // ---------------------------------------------------------------------------------------

  /** `Math.round`: the nearest integer, halves rounded up. */
  function Round(x: real): (n: int)
    ensures n as real - 0.5 <= x < n as real + 0.5
  {
    (x + 0.5).Floor
  }

  /** `getSeverityColor`'s palette key: the rounded severity clamped to 1..4. */
  function SeverityColorKey(severity: real): (k: int)
    ensures 1 <= k <= 4
    ensures 1 <= Round(severity) <= 4 ==> k == Round(severity)
    ensures Round(severity) < 1 ==> k == 1
    ensures Round(severity) > 4 ==> k == 4
  {
    Max(1, Min(4, Round(severity)))
  }

  /** A higher average severity never gets a milder colour. */
  lemma SeverityColorMonotone(s1: real, s2: real)
    requires s1 <= s2
    ensures SeverityColorKey(s1) <= SeverityColorKey(s2)
  {
  }

  // ---------------------------------------------------------------------------------------
  // Layout order
  // ---------------------------------------------------------------------------------------

  function NodeValue(n: TreemapNode): int { n.value }

  function TotalValue(nodes: seq<TreemapNode>): int {
    Sum(Map(nodes, NodeValue))
  }

  predicate DescendingByValue(s: seq<TreemapNode>) {
    forall i, j :: 0 <= i < j < |s| ==> s[i].value >= s[j].value
  }

  /** Places `x` after every element of at least its value. */
  function InsertByValue(x: TreemapNode, s: seq<TreemapNode>): (r: seq<TreemapNode>)
    ensures multiset(r) == multiset(s) + multiset{x}
    ensures |r| == |s| + 1
  {
    if s == [] then [x]
    else if s[0].value >= x.value then
      assert s == [s[0]] + s[1..];
      [s[0]] + InsertByValue(x, s[1..])
    else [x] + s
  }

  /** `[...nodes].sort((a, b) => b.value - a.value)`, a stable sort by value, largest first. */
  function SortByValue(s: seq<TreemapNode>): seq<TreemapNode> {
    if s == [] then [] else InsertByValue(s[|s| - 1], SortByValue(s[..|s| - 1]))
  }

  lemma {:induction false} InsertKeepsDescending(x: TreemapNode, s: seq<TreemapNode>)
    requires DescendingByValue(s)
    ensures DescendingByValue(InsertByValue(x, s))
  {
    if s != [] && s[0].value >= x.value {
      InsertKeepsDescending(x, s[1..]);
      InsertKeepsBound(x, s[1..], s[0].value);
      assert InsertByValue(x, s) == [s[0]] + InsertByValue(x, s[1..]);
    }
  }

  /** Inserting a node no larger than `bound` among nodes no larger than it keeps them so. */
  lemma {:induction false} InsertKeepsBound(x: TreemapNode, s: seq<TreemapNode>, bound: int)
    requires x.value <= bound && forall k :: 0 <= k < |s| ==> s[k].value <= bound
    ensures forall j :: 0 <= j < |InsertByValue(x, s)| ==> InsertByValue(x, s)[j].value <= bound
  {
    if s != [] && s[0].value >= x.value {
      InsertKeepsBound(x, s[1..], bound);
      assert InsertByValue(x, s) == [s[0]] + InsertByValue(x, s[1..]);
    }
  }

  /** The layout order holds every node once and is sorted by value, largest first. */
  lemma {:induction false} SortByValueMeaning(s: seq<TreemapNode>)
    ensures multiset(SortByValue(s)) == multiset(s)
    ensures DescendingByValue(SortByValue(s))
  {
    if s != [] {
      var init := s[..|s| - 1];
      var last := s[|s| - 1];
      SortByValueMeaning(init);
      assert SortByValue(s) == InsertByValue(last, SortByValue(init));
      InsertKeepsDescending(last, SortByValue(init));
      assert s == init + [last];
      assert multiset(s) == multiset(init) + multiset{last};
    }
  }

  /**
   * `squarify`'s output, rectangle geometry left out: no rectangles without nodes, for a
   * canvas narrower or lower than `minSize`, or for a total value of 0; otherwise one
   * rectangle per node, visited in value-descending order.
   */
  method Squarify(nodes: seq<TreemapNode>, width: real, height: real, minSize: real) returns (layout: seq<TreemapNode>)
    ensures nodes == [] || width < minSize || height < minSize || TotalValue(nodes) == 0 ==> layout == []
    ensures !(nodes == [] || width < minSize || height < minSize || TotalValue(nodes) == 0) ==>
      layout == SortByValue(nodes)
  {
    if |nodes| == 0 || width < minSize || height < minSize {
      return [];
    }
    var totalValue := TotalValue(nodes);
    if totalValue == 0 {
      return [];
    }
    var sortedNodes := SortByValue(nodes);
    layout := [];
    for i := 0 to |sortedNodes|
      invariant layout == sortedNodes[..i]
    {
      layout := layout + [sortedNodes[i]];
    }
  }

  // ---------------------------------------------------------------------------------------
  // Drill-down
  // ---------------------------------------------------------------------------------------

  predicate HasChildren(n: TreemapNode) {
    n.children.Some? && |n.children.value| > 0
  }

  predicate ChildOf(child: TreemapNode, parent: TreemapNode) {
    parent.children.Some? && child in parent.children.value
  }

  /** A drill path from `root`: each node has children and is a child of the one before. */
  predicate Chain(root: TreemapNode, path: seq<TreemapNode>) {
    && (forall i :: 0 <= i < |path| ==> HasChildren(path[i]))
    && (path != [] ==> ChildOf(path[0], root))
    && (forall i :: 0 < i < |path| ==> ChildOf(path[i], path[i - 1]))
  }

  /** Every prefix of a drill path is a drill path. */
  lemma ChainPrefix(root: TreemapNode, path: seq<TreemapNode>, n: nat)
    requires Chain(root, path) && n <= |path|
    ensures Chain(root, path[..n])
  {
  }

  /** Drilling into a child of the node in view, one that has children, extends the drill path. */
  lemma DrillDownKeepsChain(root: TreemapNode, path: seq<TreemapNode>, node: TreemapNode)
    requires Chain(root, path) && HasChildren(node)
    requires ChildOf(node, if path == [] then root else path[|path| - 1])
    ensures Chain(root, path + [node])
  {
  }

  /** The chart's navigation state: the drill path and the state filter in the URL. */
  class TreemapView {
    var drillPath: seq<TreemapNode>
    var stateFilter: string

    constructor(stateFilter: string)
      ensures this.drillPath == [] && this.stateFilter == stateFilter
    {
      this.drillPath := [];
      this.stateFilter := stateFilter;
    }

    /** The node in view: the root of the loaded data before any drill, else the last drilled. */
    function CurrentNode(root: Option<TreemapNode>): (n: Option<TreemapNode>)
      reads this
      ensures drillPath == [] ==> n == root
      ensures drillPath != [] ==> n == Some(drillPath[|drillPath| - 1])
    {
      if drillPath == [] then root else Some(drillPath[|drillPath| - 1])
    }

    /** "USA", then the name of each drilled node. */
    function Breadcrumb(): (crumbs: seq<string>)
      reads this
      ensures |crumbs| == |drillPath| + 1 && crumbs[0] == "USA"
      ensures forall i :: 0 <= i < |drillPath| ==> crumbs[i + 1] == drillPath[i].name
    {
      ["USA"] + Map(drillPath, (n: TreemapNode) => n.name)
    }

    /** `handleDrillDown`: a node with children is pushed; any other click changes nothing. */
    method DrillDown(node: TreemapNode)
      modifies this
      ensures HasChildren(node) ==> drillPath == old(drillPath) + [node]
      ensures !HasChildren(node) ==> drillPath == old(drillPath)
      ensures stateFilter == old(stateFilter)
    {
      if node.children.Some? && |node.children.value| > 0 {
        drillPath := drillPath + [node];
      }
    }

    /** `handleDrillUp`: drops the last drilled node; nothing to drop leaves the path empty. */
    method DrillUp()
      modifies this
      ensures old(drillPath) == [] ==> drillPath == []
      ensures old(drillPath) != [] ==> drillPath == old(drillPath)[..|old(drillPath)| - 1]
      ensures stateFilter == old(stateFilter)
    {
      if |drillPath| > 0 {
        drillPath := drillPath[..|drillPath| - 1];
      }
    }

    /** A click on crumb `index`, unless it is the last: keep the first `index` drilled nodes. */
    method ClickCrumb(index: nat)
      modifies this
      ensures index < |old(drillPath)| ==> drillPath == old(drillPath)[..index]
      ensures index < |old(drillPath)| ==> Breadcrumb() == old(Breadcrumb())[..index + 1]
      ensures index >= |old(drillPath)| ==> drillPath == old(drillPath)
      ensures stateFilter == old(stateFilter)
    {
      ghost var crumbs := Breadcrumb();
      if index < |Breadcrumb()| - 1 {
        drillPath := drillPath[..index];
        assert Breadcrumb() == crumbs[..index + 1];
      }
    }

    /** `handleStateChange`: store the selection ("" for all) and start again from the root. */
    method ChangeState(value: string)
      modifies this
      ensures stateFilter == StoredSelection(value) && drillPath == []
    {
      stateFilter := if value == "all" then "" else value;
      drillPath := [];
    }
  }
}
