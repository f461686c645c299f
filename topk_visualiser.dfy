/** The side-by-side comparison graph of two users' top-k recommendations:
    one column of recommendation nodes per user, edges between equal titles,
    and, when both users have a history, one column of history nodes per
    user linked to the recommendations whose titles contain them.  The graph
    is grown by `addNode`/`addEdge` on a fresh graph; a refused `addEdge`
    aborts the build and the previous graph stays on screen. */
module TopKVisualiser {
  import opened Wrappers
  import opened Strings
  import opened JsGraph

  /** A recommendation record: item title, item key and score. */
  datatype Rec = Rec(itemName: string, itemId: string, score: real)

  /** The four lists the graph is built from. */
  datatype Lists = Lists(recs1: seq<Rec>, recs2: seq<Rec>, hist1: seq<string>, hist2: seq<string>)

  // ---------------------------------------------------------------------
  // The requests

  /** A request of the comparison view. */
  datatype Request =
    | TopKForUser(dataset: string, model: string, k: int, user: string)
    | HistoryForUser(dataset: string, k: int, user: string)

  /** The effect's requests: none unless the dataset, both models and both
      users are all non-empty, otherwise the two top-k lists and the two
      histories. */
  method Requests(dataset: string, model1: string, model2: string, k: int, user1: string, user2: string)
    returns (rs: seq<Request>)
    ensures rs == [] <==> dataset == [] || model1 == [] || model2 == [] || user1 == [] || user2 == []
    ensures rs != [] ==>
      rs == [TopKForUser(dataset, model1, k, user1), TopKForUser(dataset, model2, k, user2),
             HistoryForUser(dataset, k, user1), HistoryForUser(dataset, k, user2)]
  {
    if dataset == [] || model1 == [] || model2 == [] || user1 == [] || user2 == [] {
      return [];
    }
    rs := [TopKForUser(dataset, model1, k, user1), TopKForUser(dataset, model2, k, user2),
           HistoryForUser(dataset, k, user1), HistoryForUser(dataset, k, user2)];
  }

  /** The value the k slider hands over: an integer from 1 to 50. */
  function SliderValue(v: int): (k: int)
    ensures 1 <= k <= 50
    ensures 1 <= v <= 50 ==> k == v
    ensures v < 1 ==> k == 1
    ensures v > 50 ==> k == 50
  {
    if v < 1 then 1 else if v > 50 then 50 else v
  }

  // ---------------------------------------------------------------------
  // Nodes

  /** The four node columns. */
  datatype Column = Recs1 | Recs2 | Hist1 | Hist2

  function Prefix(c: Column): string {
    match c
    case Recs1 => "user1-"
    case Recs2 => "user2-"
    case Hist1 => "interaction-user1-"
    case Hist2 => "interaction-user2-"
  }

  /** The id of row `i` of a column. */
  function NodeId(c: Column, i: nat): string {
    Prefix(c) + NatToString(i)
  }

  /** Node ids are all different. */
  lemma NodeIdInjective(c1: Column, i: nat, c2: Column, j: nat)
    ensures NodeId(c1, i) == NodeId(c2, j) <==> c1 == c2 && i == j
  {
    var a := NodeId(c1, i);
    var b := NodeId(c2, j);
    if c1 == c2 {
      if a == b {
        assert a[|Prefix(c1)|..] == NatToString(i);
        assert b[|Prefix(c2)|..] == NatToString(j);
        NatToStringInjective(i, j);
      }
    } else {
      var k := if (c1.Hist1? || c1.Hist2?) && (c2.Hist1? || c2.Hist2?) then 16
               else if (c1.Hist1? || c1.Hist2?) || (c2.Hist1? || c2.Hist2?) then 0
               else 4;
      assert a[k] == Prefix(c1)[k] && b[k] == Prefix(c2)[k];
    }
  }

  function Size(c: Column, d: Lists): nat {
    match c
    case Recs1 => |d.recs1|
    case Recs2 => |d.recs2|
    case Hist1 => |d.hist1|
    case Hist2 => |d.hist2|
  }

  /** The label of a recommendation node: `${itemName} (${itemId}, ${score})`,
      where `scoreText` is JavaScript's text of `parseFloat(score.toPrecision(6))`. */
  function RecLabel(rec: Rec, scoreText: real -> string): string {
    rec.itemName + " (" + rec.itemId + ", " + scoreText(rec.score) + ")"
  }

  /** The attributes of row `i` of a column, with `spacing` the row height
      and `scoreText` the text of a recommendation's rounded score. */
  function ColumnAttrs(c: Column, d: Lists, i: nat, spacing: real, scoreText: real -> string): Attrs
    requires i < Size(c, d)
  {
    var y := JNum(0.0 - (i as real) * spacing);
    match c
    case Recs1 => RecAttrs(d.recs1[i], -500.0, y, scoreText)
    case Recs2 => RecAttrs(d.recs2[i], 500.0, y, scoreText)
    case Hist1 => HistoryAttrs(d.hist1[i], -1100.0, y)
    case Hist2 => HistoryAttrs(d.hist2[i], 1100.0, y)
  }

  function RecAttrs(rec: Rec, x: real, y: JsValue, scoreText: real -> string): Attrs {
    map["label" := JStr(RecLabel(rec, scoreText)), "x" := JNum(x), "y" := y, "color" := JStr("green"),
        "size" := JNum(10.0), "type" := JStr("square"), "itemName" := JStr(rec.itemName)]
  }

  function HistoryAttrs(itemName: string, x: real, y: JsValue): Attrs {
    map["label" := JStr(itemName), "x" := JNum(x), "y" := y, "color" := JStr("blue"),
        "size" := JNum(10.0), "type" := JStr("square"), "itemName" := JStr(itemName)]
  }

  /** The first `n` rows of column `c`, keyed by node id. */
  ghost function PartialMap(c: Column, d: Lists, n: nat, spacing: real, scoreText: real -> string): map<string, Attrs>
    requires n <= Size(c, d)
  {
    if n == 0 then map[]
    else PartialMap(c, d, n - 1, spacing, scoreText)[NodeId(c, n - 1) := ColumnAttrs(c, d, n - 1, spacing, scoreText)]
  }

  /** The nodes of column `c`. */
  ghost function ColumnMap(c: Column, d: Lists, spacing: real, scoreText: real -> string): map<string, Attrs> {
    PartialMap(c, d, Size(c, d), spacing, scoreText)
  }

  /** Only ids of the first `n` rows of column `c` are keys of its map. */
  lemma {:induction false} PartialMapKey(c: Column, d: Lists, n: nat, spacing: real, scoreText: real -> string, id: string)
    requires n <= Size(c, d) && id in PartialMap(c, d, n, spacing, scoreText)
    ensures exists r: nat :: r < n && id == NodeId(c, r)
  {
    if id != NodeId(c, n - 1) {
      PartialMapKey(c, d, n - 1, spacing, scoreText, id);
    }
  }

  /** Each of the first `n` rows is present with its attributes. */
  lemma {:induction false} PartialMapAt(c: Column, d: Lists, n: nat, spacing: real, scoreText: real -> string, r: nat)
    requires r < n <= Size(c, d)
    ensures NodeId(c, r) in PartialMap(c, d, n, spacing, scoreText)
    ensures PartialMap(c, d, n, spacing, scoreText)[NodeId(c, r)] == ColumnAttrs(c, d, r, spacing, scoreText)
  {
    var id, v := NodeId(c, n - 1), ColumnAttrs(c, d, n - 1, spacing, scoreText);
    var m := PartialMap(c, d, n - 1, spacing, scoreText);
    if r < n - 1 {
      PartialMapAt(c, d, n - 1, spacing, scoreText, r);
      NodeIdInjective(c, r, c, n - 1);
    }
    MapUpdateAt(m, id, v, NodeId(c, r));
  }

  lemma MapUpdateAt<K, V>(m: map<K, V>, k: K, v: V, k': K)
    ensures k' == k ==> k' in m[k := v] && m[k := v][k'] == v
    ensures k' != k && k' in m ==> k' in m[k := v] && m[k := v][k'] == m[k']
  {
  }

  /** No id of column `c'` is a key of the map of another column, and no
      later row of `c` is a key either. */
  lemma OtherColumnAbsent(c: Column, c': Column, d: Lists, n: nat, spacing: real, scoreText: real -> string, r': nat)
    requires n <= Size(c, d) && (c != c' || n <= r')
    ensures NodeId(c', r') !in PartialMap(c, d, n, spacing, scoreText)
  {
    if NodeId(c', r') in PartialMap(c, d, n, spacing, scoreText) {
      PartialMapKey(c, d, n, spacing, scoreText, NodeId(c', r'));
      var r: nat :| r < n && NodeId(c', r') == NodeId(c, r);
      NodeIdInjective(c', r', c, r);
    }
  }

  lemma {:induction false} PartialMapSize(c: Column, d: Lists, n: nat, spacing: real, scoreText: real -> string)
    requires n <= Size(c, d)
    ensures |PartialMap(c, d, n, spacing, scoreText)| == n
  {
    if n > 0 {
      PartialMapSize(c, d, n - 1, spacing, scoreText);
      OtherColumnAbsent(c, c, d, n - 1, spacing, scoreText, n - 1);
    }
  }

  lemma UnionUpdate<V>(a: map<string, V>, b: map<string, V>, k: string, v: V)
    ensures (a + b)[k := v] == a + b[k := v]
  {
  }

  /** One `forEach` that adds the nodes of a column: each `addNode` is
      accepted because no id of the column is present yet. */
  method AddColumn(g: Graph, c: Column, d: Lists, spacing: real, scoreText: real -> string)
    requires forall r: nat :: NodeId(c, r) !in g.nodes
    modifies g
    ensures g.edges == old(g.edges)
    ensures g.nodes == old(g.nodes) + ColumnMap(c, d, spacing, scoreText)
  {
    var i := 0;
    assert g.nodes == g.nodes + map[];
    while i < Size(c, d)
      invariant i <= Size(c, d)
      invariant g.edges == old(g.edges)
      invariant g.nodes == old(g.nodes) + PartialMap(c, d, i, spacing, scoreText)
    {
      var id := NodeId(c, i);
      OtherColumnAbsent(c, c, d, i, spacing, scoreText, i);
      assert id !in old(g.nodes);
      var added := g.AddNode(id, ColumnAttrs(c, d, i, spacing, scoreText));
      UnionUpdate(old(g.nodes), PartialMap(c, d, i, spacing, scoreText), id, ColumnAttrs(c, d, i, spacing, scoreText));
      i := i + 1;
    }
  }

  /** Every row of column `c` is a node with its attributes. */
  ghost predicate HasColumn(nodes: map<string, Attrs>, c: Column, d: Lists, spacing: real, scoreText: real -> string) {
    forall i :: 0 <= i < Size(c, d) ==>
      NodeId(c, i) in nodes && nodes[NodeId(c, i)] == ColumnAttrs(c, d, i, spacing, scoreText)
  }

  /** Every node is a row of one of the columns `cols`. */
  ghost predicate OnlyColumns(nodes: map<string, Attrs>, cols: set<Column>, d: Lists) {
    forall id :: id in nodes ==> exists c, i :: c in cols && 0 <= i < Size(c, d) && id == NodeId(c, i)
  }

  // ---------------------------------------------------------------------
  // Edges

  /** The three nested loops that add edges.  `firstOnly` restricts a history
      loop to the first occurrence of each label. */
  datatype Part = Matches | LeftHistory(firstOnly: bool) | RightHistory(firstOnly: bool)

  /** The bound of the outer loop (recommendations) ... */
  function Outer(p: Part, d: Lists): nat {
    match p
    case Matches => |d.recs1|
    case LeftHistory(_) => |d.recs1|
    case RightHistory(_) => |d.recs2|
  }

  /** ... and of the inner one. */
  function Inner(p: Part, d: Lists): nat {
    match p
    case Matches => |d.recs2|
    case LeftHistory(_) => |d.hist1|
    case RightHistory(_) => |d.hist2|
  }

  /** Whether iteration `(i, j)` of a loop adds an edge. */
  predicate Links(p: Part, d: Lists, i: nat, j: nat)
    requires i < Outer(p, d) && j < Inner(p, d)
  {
    match p
    case Matches => d.recs1[i].itemName == d.recs2[j].itemName
    case LeftHistory(firstOnly) =>
      Includes(d.recs1[i].itemName, d.hist1[j]) && (firstOnly ==> IndexOf(d.hist1, d.hist1[j]) == j)
    case RightHistory(firstOnly) =>
      Includes(d.recs2[i].itemName, d.hist2[j]) && (firstOnly ==> IndexOf(d.hist2, d.hist2[j]) == j)
  }

  /** The history row a label leads to: the first index of that label. */
  function FirstIndex(hist: seq<string>, j: nat): (h: nat)
    requires j < |hist|
    ensures h <= j && hist[h] == hist[j] && IndexOf(hist, hist[j]) == h
  {
    IndexOf(hist, hist[j])
  }

  /** The source and target of the edge iteration `(i, j)` adds. */
  function LinkEnds(p: Part, d: Lists, i: nat, j: nat): (string, string)
    requires i < Outer(p, d) && j < Inner(p, d)
  {
    match p
    case Matches => (NodeId(Recs1, i), NodeId(Recs2, j))
    case LeftHistory(_) => (NodeId(Hist1, FirstIndex(d.hist1, j)), NodeId(Recs1, i))
    case RightHistory(_) => (NodeId(Recs2, i), NodeId(Hist2, FirstIndex(d.hist2, j)))
  }

  /** The edges iterations `(i, 0)` to `(i, j - 1)` add. */
  function RowUpTo(p: Part, d: Lists, i: nat, j: nat): seq<(string, string)>
    requires i < Outer(p, d) && j <= Inner(p, d)
  {
    if j == 0 then []
    else RowUpTo(p, d, i, j - 1) + (if Links(p, d, i, j - 1) then [LinkEnds(p, d, i, j - 1)] else [])
  }

  function Row(p: Part, d: Lists, i: nat): seq<(string, string)>
    requires i < Outer(p, d)
  {
    RowUpTo(p, d, i, Inner(p, d))
  }

  /** The edges the first `i` rounds of the outer loop add. */
  function GridUpTo(p: Part, d: Lists, i: nat): seq<(string, string)>
    requires i <= Outer(p, d)
  {
    if i == 0 then [] else GridUpTo(p, d, i - 1) + Row(p, d, i - 1)
  }

  /** The edges a whole nested loop adds, in order. */
  function Grid(p: Part, d: Lists): seq<(string, string)> {
    GridUpTo(p, d, Outer(p, d))
  }

  /** No ordered pair occurs twice: each one is new when it is added. */
  predicate NoDup(ps: seq<(string, string)>)
    decreases |ps|
  {
    ps == [] || (ps[|ps| - 1] !in ps[..|ps| - 1] && NoDup(ps[..|ps| - 1]))
  }

  /** `NoDup` says that the pairs at any two positions differ. */
  lemma {:induction false} NoDupIndex(ps: seq<(string, string)>)
    ensures NoDup(ps) <==> forall a, b :: 0 <= a < b < |ps| ==> ps[a] != ps[b]
    decreases |ps|
  {
    if ps != [] {
      var init, last := ps[..|ps| - 1], ps[|ps| - 1];
      NoDupIndex(init);
      if !NoDup(ps) && last in init {
        var k :| 0 <= k < |init| && init[k] == last;
        assert ps[k] == ps[|ps| - 1];
      }
    }
  }

  /** Directed edges without attributes, one per pair. */
  function AsEdges(ps: seq<(string, string)>): (es: seq<Edge>)
    ensures |es| == |ps|
    ensures forall k :: 0 <= k < |ps| ==> es[k] == Edge(ps[k].0, ps[k].1, false, map[])
  {
    seq(|ps|, k requires 0 <= k < |ps| => Edge(ps[k].0, ps[k].1, false, map[]))
  }

  lemma AsEdgesAppend(ps: seq<(string, string)>, s: string, t: string)
    ensures AsEdges(ps + [(s, t)]) == AsEdges(ps) + [Edge(s, t, false, map[])]
  {
  }

  lemma HasDirectedAsEdges(ps: seq<(string, string)>, s: string, t: string)
    ensures HasDirectedEdge(AsEdges(ps), s, t) <==> (s, t) in ps
  {
    if (s, t) in ps {
      var k :| 0 <= k < |ps| && ps[k] == (s, t);
      assert AsEdges(ps)[k] == Edge(s, t, false, map[]);
    }
  }

  lemma NoDupAppend(ps: seq<(string, string)>, x: (string, string))
    requires NoDup(ps)
    ensures NoDup(ps + [x]) <==> x !in ps
  {
    assert (ps + [x])[..|ps|] == ps;
  }

  /** Appending a pair already present makes a repeat. */
  lemma AppendDup(ps: seq<(string, string)>, x: (string, string))
    requires x in ps
    ensures !NoDup(ps + [x])
  {
    assert (ps + [x])[..|ps|] == ps;
  }

  /** A link whose pair the row already holds makes a repeat in the row. */
  lemma RowRepeat(p: Part, d: Lists, i: nat, j: nat)
    requires i < Outer(p, d) && j < Inner(p, d) && Links(p, d, i, j)
    requires LinkEnds(p, d, i, j) in RowUpTo(p, d, i, j)
    ensures !NoDup(Row(p, d, i))
  {
    var row := RowUpTo(p, d, i, j + 1);
    RowUpToStep(p, d, i, j);
    AppendDup(RowUpTo(p, d, i, j), LinkEnds(p, d, i, j));
    RowPrefix(p, d, i, j + 1, Inner(p, d));
    DupPersists(row, Row(p, d, i));
  }

  lemma RowUpToStep(p: Part, d: Lists, i: nat, j: nat)
    requires i < Outer(p, d) && j < Inner(p, d)
    ensures RowUpTo(p, d, i, j + 1) == RowUpTo(p, d, i, j) + (if Links(p, d, i, j) then [LinkEnds(p, d, i, j)] else [])
  {
  }

  lemma DupPersists(a: seq<(string, string)>, b: seq<(string, string)>)
    requires !NoDup(a) && a <= b
    ensures !NoDup(b)
  {
    NoDupIndex(a);
    NoDupIndex(b);
    var x, y :| 0 <= x < y < |a| && a[x] == a[y];
    assert b[x] == a[x] && b[y] == a[y];
  }

  lemma {:induction false} RowPrefix(p: Part, d: Lists, i: nat, j: nat, m: nat)
    requires i < Outer(p, d) && j <= m <= Inner(p, d)
    ensures RowUpTo(p, d, i, j) <= RowUpTo(p, d, i, m)
    decreases m - j
  {
    if j < m {
      RowPrefix(p, d, i, j, m - 1);
    }
  }

  lemma {:induction false} GridPrefix(p: Part, d: Lists, i: nat, n: nat)
    requires i <= n <= Outer(p, d)
    ensures GridUpTo(p, d, i) <= GridUpTo(p, d, n)
    decreases n - i
  {
    if i < n {
      GridPrefix(p, d, i, n - 1);
    }
  }

  /** Every endpoint the loop of part `p` can name is a node. */
  ghost predicate EndpointsPresent(nodes: map<string, Attrs>, p: Part, d: Lists) {
    forall i, j :: 0 <= i < Outer(p, d) && 0 <= j < Inner(p, d) ==>
      LinkEnds(p, d, i, j).0 in nodes && LinkEnds(p, d, i, j).1 in nodes
  }

  /** One round of the outer loop of a part: the inner `forEach`.  Stops at
      the first refused `addEdge`. */
  method AddRow(g: Graph, p: Part, d: Lists, i: nat, ghost before: seq<(string, string)>) returns (ok: bool)
    requires i < Outer(p, d)
    requires g.edges == AsEdges(before) && NoDup(before)
    requires EndpointsPresent(g.nodes, p, d)
    modifies g
    ensures g.nodes == old(g.nodes)
    ensures ok <==> NoDup(before + Row(p, d, i))
    ensures ok ==> g.edges == AsEdges(before + Row(p, d, i))
  {
    var j := 0;
    assert before + RowUpTo(p, d, i, 0) == before;
    while j < Inner(p, d)
      invariant 0 <= j <= Inner(p, d)
      invariant g.nodes == old(g.nodes)
      invariant g.edges == AsEdges(before + RowUpTo(p, d, i, j))
      invariant NoDup(before + RowUpTo(p, d, i, j))
    {
      var added := AddLink(g, p, d, i, j, before);
      if !added {
        RowDupPersists(p, d, i, j, before);
        return false;
      }
      j := j + 1;
    }
    return true;
  }

  /** A pair repeated by round `(i, j)` stays repeated to the end of the
      row. */
  lemma RowDupPersists(p: Part, d: Lists, i: nat, j: nat, before: seq<(string, string)>)
    requires i < Outer(p, d) && j < Inner(p, d) && !NoDup(before + RowUpTo(p, d, i, j + 1))
    ensures !NoDup(before + Row(p, d, i))
  {
    RowPrefix(p, d, i, j + 1, Inner(p, d));
    DupPersists(before + RowUpTo(p, d, i, j + 1), before + Row(p, d, i));
  }

  /** Round `(i, j)` of the inner loop: the edge it links, if any, is added
      unless the graph already has it. */
  method AddLink(g: Graph, p: Part, d: Lists, i: nat, j: nat, ghost before: seq<(string, string)>) returns (ok: bool)
    requires i < Outer(p, d) && j < Inner(p, d)
    requires g.edges == AsEdges(before + RowUpTo(p, d, i, j)) && NoDup(before + RowUpTo(p, d, i, j))
    requires EndpointsPresent(g.nodes, p, d)
    modifies g
    ensures g.nodes == old(g.nodes)
    ensures ok <==> NoDup(before + RowUpTo(p, d, i, j + 1))
    ensures ok ==> g.edges == AsEdges(before + RowUpTo(p, d, i, j + 1))
  {
    ghost var done := before + RowUpTo(p, d, i, j);
    if Links(p, d, i, j) {
      var (source, target) := LinkEnds(p, d, i, j);
      RowStepLinked(p, d, i, j, before);
      HasDirectedAsEdges(done, source, target);
      ok := g.AddEdge(source, target, map[]);
      NoDupAppend(done, (source, target));
      AsEdgesAppend(done, source, target);
    } else {
      RowStepUnlinked(p, d, i, j, before);
      ok := true;
    }
  }

  /** A round that links appends its edge. */
  lemma RowStepLinked(p: Part, d: Lists, i: nat, j: nat, before: seq<(string, string)>)
    requires i < Outer(p, d) && j < Inner(p, d) && Links(p, d, i, j)
    ensures before + RowUpTo(p, d, i, j + 1) == before + RowUpTo(p, d, i, j) + [LinkEnds(p, d, i, j)]
  {
  }

  /** A round that does not link adds nothing. */
  lemma RowStepUnlinked(p: Part, d: Lists, i: nat, j: nat, before: seq<(string, string)>)
    requires i < Outer(p, d) && j < Inner(p, d) && !Links(p, d, i, j)
    ensures before + RowUpTo(p, d, i, j + 1) == before + RowUpTo(p, d, i, j)
  {
    assert RowUpTo(p, d, i, j + 1) == RowUpTo(p, d, i, j) + [];
  }

  /** The edges after round `i` of the outer loop, from those before it. */
  lemma GridStep(p: Part, d: Lists, i: nat, prior: seq<(string, string)>, done: seq<(string, string)>) returns (next: seq<(string, string)>)
    requires i < Outer(p, d) && done == prior + GridUpTo(p, d, i)
    ensures next == done + Row(p, d, i) && next == prior + GridUpTo(p, d, i + 1)
  {
    next := done + Row(p, d, i);
  }

  /** A pair repeated by round `i` stays repeated to the end. */
  lemma GridDupPersists(p: Part, d: Lists, i: nat, prior: seq<(string, string)>, done: seq<(string, string)>)
    requires i < Outer(p, d) && done == prior + GridUpTo(p, d, i) && !NoDup(done + Row(p, d, i))
    ensures !NoDup(prior + Grid(p, d))
  {
    var next := GridStep(p, d, i, prior, done);
    GridPrefix(p, d, i + 1, Outer(p, d));
    DupPersists(next, prior + Grid(p, d));
  }

  /** One nested `forEach` that adds edges: stops at the first refused
      `addEdge`, as the exception it throws would. */
  method AddPart(g: Graph, p: Part, d: Lists, ghost prior: seq<(string, string)>) returns (ok: bool)
    requires g.edges == AsEdges(prior) && NoDup(prior)
    requires EndpointsPresent(g.nodes, p, d)
    modifies g
    ensures g.nodes == old(g.nodes)
    ensures ok <==> NoDup(prior + Grid(p, d))
    ensures ok ==> g.edges == AsEdges(prior + Grid(p, d))
  {
    var i := 0;
    ghost var done := prior;
    assert prior + GridUpTo(p, d, 0) == prior;
    while i < Outer(p, d)
      invariant 0 <= i <= Outer(p, d)
      invariant g.nodes == old(g.nodes)
      invariant done == prior + GridUpTo(p, d, i)
      invariant g.edges == AsEdges(done) && NoDup(done)
    {
      ok := AddRow(g, p, d, i, done);
      if !ok {
        GridDupPersists(p, d, i, prior, done);
        return false;
      }
      done := GridStep(p, d, i, prior, done);
      i := i + 1;
    }
    return true;
  }

  // ---------------------------------------------------------------------
  // Which pairs a part adds

  /** A pair in the first `j` iterations of round `i` comes from one of them. */
  lemma {:induction false} RowSource(p: Part, d: Lists, i: nat, j: nat, x: (string, string))
    requires i < Outer(p, d) && j <= Inner(p, d) && x in RowUpTo(p, d, i, j)
    ensures exists j' :: 0 <= j' < j && Links(p, d, i, j') && LinkEnds(p, d, i, j') == x
  {
    if x !in RowUpTo(p, d, i, j - 1) {
      assert Links(p, d, i, j - 1) && LinkEnds(p, d, i, j - 1) == x;
    } else {
      RowSource(p, d, i, j - 1, x);
    }
  }

  /** A pair in the first `n` rounds comes from one of their iterations. */
  lemma {:induction false} GridSource(p: Part, d: Lists, n: nat, x: (string, string))
    requires n <= Outer(p, d) && x in GridUpTo(p, d, n)
    ensures exists i, j :: 0 <= i < n && 0 <= j < Inner(p, d) && Links(p, d, i, j) && LinkEnds(p, d, i, j) == x
  {
    if x in GridUpTo(p, d, n - 1) {
      GridSource(p, d, n - 1, x);
    } else {
      RowSource(p, d, n - 1, Inner(p, d), x);
    }
  }

  /** Every linked iteration of round `i` before `m` adds its pair. */
  lemma {:induction false} RowContains(p: Part, d: Lists, i: nat, j: nat, m: nat)
    requires i < Outer(p, d) && j < m <= Inner(p, d) && Links(p, d, i, j)
    ensures LinkEnds(p, d, i, j) in RowUpTo(p, d, i, m)
  {
    if j < m - 1 {
      RowContains(p, d, i, j, m - 1);
    }
  }

  /** Every linked iteration adds its pair. */
  lemma {:induction false} GridContains(p: Part, d: Lists, i: nat, j: nat, n: nat)
    requires i < n <= Outer(p, d) && j < Inner(p, d) && Links(p, d, i, j)
    ensures LinkEnds(p, d, i, j) in GridUpTo(p, d, n)
  {
    if i < n - 1 {
      GridContains(p, d, i, j, n - 1);
    } else {
      RowContains(p, d, i, j, Inner(p, d));
    }
  }

  /** Different linked iterations of part `p` add different pairs. */
  ghost predicate Injective(p: Part, d: Lists) {
    forall i, j, i', j' ::
      0 <= i < Outer(p, d) && 0 <= j < Inner(p, d) && 0 <= i' < Outer(p, d) && 0 <= j' < Inner(p, d)
      && Links(p, d, i, j) && Links(p, d, i', j') && LinkEnds(p, d, i, j) == LinkEnds(p, d, i', j')
      ==> i == i' && j == j'
  }

  /** Under `Injective`, a linked iteration adds a pair not added before. */
  lemma FreshLink(p: Part, d: Lists, i: nat, j: nat)
    requires Injective(p, d) && i < Outer(p, d) && j < Inner(p, d) && Links(p, d, i, j)
    ensures LinkEnds(p, d, i, j) !in GridUpTo(p, d, i) + RowUpTo(p, d, i, j)
  {
    var x := LinkEnds(p, d, i, j);
    if x in GridUpTo(p, d, i) {
      GridSource(p, d, i, x);
    } else if x in RowUpTo(p, d, i, j) {
      RowSource(p, d, i, j, x);
    }
  }

  lemma {:induction false} RowNoDup(p: Part, d: Lists, i: nat, j: nat)
    requires Injective(p, d) && i < Outer(p, d) && j <= Inner(p, d)
    ensures NoDup(GridUpTo(p, d, i) + RowUpTo(p, d, i, j))
    decreases i, 1, j
  {
    if j == 0 {
      GridNoDup(p, d, i);
      assert GridUpTo(p, d, i) + RowUpTo(p, d, i, j) == GridUpTo(p, d, i);
    } else {
      var j' := j - 1;
      RowNoDup(p, d, i, j');
      if Links(p, d, i, j') {
        FreshLink(p, d, i, j');
      }
      RowNoDupStep(p, d, i, j');
      assert j' + 1 == j;
    }
  }

  /** One iteration keeps the pairs added so far duplicate-free when the
      pair it adds, if any, is new. */
  lemma RowNoDupStep(p: Part, d: Lists, i: nat, j: nat)
    requires i < Outer(p, d) && j < Inner(p, d)
    requires NoDup(GridUpTo(p, d, i) + RowUpTo(p, d, i, j))
    requires Links(p, d, i, j) ==> LinkEnds(p, d, i, j) !in GridUpTo(p, d, i) + RowUpTo(p, d, i, j)
    ensures NoDup(GridUpTo(p, d, i) + RowUpTo(p, d, i, j + 1))
  {
    var done := GridUpTo(p, d, i) + RowUpTo(p, d, i, j);
    if Links(p, d, i, j) {
      NoDupAppend(done, LinkEnds(p, d, i, j));
      RowStepLinked(p, d, i, j, GridUpTo(p, d, i));
    } else {
      assert done == GridUpTo(p, d, i) + RowUpTo(p, d, i, j + 1);
    }
  }

  lemma {:induction false} GridNoDup(p: Part, d: Lists, n: nat)
    requires Injective(p, d) && n <= Outer(p, d)
    ensures NoDup(GridUpTo(p, d, n))
    decreases n, 0, 0
  {
    if n > 0 {
      RowNoDup(p, d, n - 1, Inner(p, d));
    }
  }

  /** A repeated pair anywhere is a repeated pair of the whole. */
  lemma DupInside(a: seq<(string, string)>, b: seq<(string, string)>, c: seq<(string, string)>)
    requires !NoDup(b)
    ensures !NoDup(a + b + c)
  {
    NoDupIndex(b);
    NoDupIndex(a + b + c);
    var x, y :| 0 <= x < y < |b| && b[x] == b[y];
    assert (a + b + c)[|a| + x] == b[x] && (a + b + c)[|a| + y] == b[y];
  }

  /** Joining two duplicate-free sequences with no pair in common. */
  lemma NoDupConcat(a: seq<(string, string)>, b: seq<(string, string)>)
    requires NoDup(a) && NoDup(b)
    requires forall x :: x in a ==> x !in b
    ensures NoDup(a + b)
  {
    var q := a + b;
    NoDupIndex(a);
    NoDupIndex(b);
    NoDupIndex(q);
    forall x, y | 0 <= x < y < |q| ensures q[x] != q[y] {
      if x < |a| && y >= |a| {
        assert q[x] in a && q[y] == b[y - |a|];
      } else if x >= |a| {
        assert q[x] == b[x - |a|] && q[y] == b[y - |a|];
      }
    }
  }

  /** `user1-i -> user2-j` is added exactly when the two titles are equal. */
  lemma MatchEdgeIff(d: Lists, i: nat, j: nat)
    requires i < |d.recs1| && j < |d.recs2|
    ensures (NodeId(Recs1, i), NodeId(Recs2, j)) in Grid(Matches, d) <==> d.recs1[i].itemName == d.recs2[j].itemName
  {
    var x := (NodeId(Recs1, i), NodeId(Recs2, j));
    if x in Grid(Matches, d) {
      GridSource(Matches, d, Outer(Matches, d), x);
      var i', j' :| 0 <= i' < Outer(Matches, d) && 0 <= j' < Inner(Matches, d) && Links(Matches, d, i', j')
                    && LinkEnds(Matches, d, i', j') == x;
      NodeIdInjective(Recs1, i, Recs1, i');
      NodeIdInjective(Recs2, j, Recs2, j');
    }
    if d.recs1[i].itemName == d.recs2[j].itemName {
      GridContains(Matches, d, i, j, Outer(Matches, d));
    }
  }

  /** The pair of a history part between recommendation `i` and history row `h`. */
  function HistoryPair(p: Part, i: nat, h: nat): (string, string) {
    if p.RightHistory? then (NodeId(Recs2, i), NodeId(Hist2, h)) else (NodeId(Hist1, h), NodeId(Recs1, i))
  }

  /** A history part links recommendation `i` with history row `h` exactly
      when `h` is the first row with its label and the title contains that
      label; later rows with the same label are never linked. */
  lemma HistoryEdgeIff(p: Part, d: Lists, i: nat, h: nat)
    requires !p.Matches? && i < Outer(p, d) && h < Inner(p, d)
    ensures HistoryPair(p, i, h) in Grid(p, d) <==>
      Includes(RecsOf(p, d)[i].itemName, HistOf(p, d)[h]) && IndexOf(HistOf(p, d), HistOf(p, d)[h]) == h
  {
    var x, hist := HistoryPair(p, i, h), HistOf(p, d);
    var (r, c) := if p.LeftHistory? then (Recs1, Hist1) else (Recs2, Hist2);
    if x in Grid(p, d) {
      GridSource(p, d, Outer(p, d), x);
      var i', j :| 0 <= i' < Outer(p, d) && 0 <= j < Inner(p, d) && Links(p, d, i', j) && LinkEnds(p, d, i', j) == x;
      var k := FirstIndex(hist, j);
      NodeIdInjective(r, i, r, i');
      NodeIdInjective(c, h, c, k);
    }
    if Includes(RecsOf(p, d)[i].itemName, hist[h]) && IndexOf(hist, hist[h]) == h {
      assert Links(p, d, i, h) && LinkEnds(p, d, i, h) == x;
      GridContains(p, d, i, h, Outer(p, d));
    }
  }

  // ---------------------------------------------------------------------
  // When the loops add a pair twice

  /** The recommendations and the history a history part pairs up. */
  function RecsOf(p: Part, d: Lists): seq<Rec> {
    if p.RightHistory? then d.recs2 else d.recs1
  }

  function HistOf(p: Part, d: Lists): seq<string> {
    if p.RightHistory? then d.hist2 else d.hist1
  }

  /** Some history label occurs twice and is part of a recommended title. */
  ghost predicate RepeatedIncludedLabel(recs: seq<Rec>, hist: seq<string>) {
    exists i, j, j' :: 0 <= i < |recs| && 0 <= j < j' < |hist| && hist[j] == hist[j'] && Includes(recs[i].itemName, hist[j])
  }

  /** The matches loop never adds a pair twice. */
  lemma MatchesNoDup(d: Lists)
    ensures NoDup(Grid(Matches, d))
  {
    forall i, j, i', j' |
      0 <= i < Outer(Matches, d) && 0 <= j < Inner(Matches, d) && 0 <= i' < Outer(Matches, d) && 0 <= j' < Inner(Matches, d)
      && Links(Matches, d, i, j) && Links(Matches, d, i', j') && LinkEnds(Matches, d, i, j) == LinkEnds(Matches, d, i', j')
      ensures i == i' && j == j'
    {
      NodeIdInjective(Recs1, i, Recs1, i');
      NodeIdInjective(Recs2, j, Recs2, j');
    }
    GridNoDup(Matches, d, Outer(Matches, d));
  }

  /** Two iterations of a history part add the same pair exactly when they
      share the recommendation and the label. */
  lemma HistoryEndsEqual(p: Part, d: Lists, i: nat, j: nat, i': nat, j': nat)
    requires !p.Matches? && i < Outer(p, d) && j < Inner(p, d) && i' < Outer(p, d) && j' < Inner(p, d)
    ensures LinkEnds(p, d, i, j) == LinkEnds(p, d, i', j') <==> i == i' && HistOf(p, d)[j] == HistOf(p, d)[j']
  {
    var h := HistOf(p, d);
    var k, k' := FirstIndex(h, j), FirstIndex(h, j');
    var (r, c) := if p.LeftHistory? then (Recs1, Hist1) else (Recs2, Hist2);
    NodeIdInjective(r, i, r, i');
    NodeIdInjective(c, k, c, k');
    NodeIdInjective(r, i, c, k');
    NodeIdInjective(c, k, r, i');
  }

  /** Restricted to first occurrences, a history part never adds a pair twice. */
  lemma FirstOnlyNoDup(p: Part, d: Lists)
    requires !p.Matches? && p.firstOnly
    ensures NoDup(Grid(p, d))
  {
    forall i, j, i', j' |
      0 <= i < Outer(p, d) && 0 <= j < Inner(p, d) && 0 <= i' < Outer(p, d) && 0 <= j' < Inner(p, d)
      && Links(p, d, i, j) && Links(p, d, i', j') && LinkEnds(p, d, i, j) == LinkEnds(p, d, i', j')
      ensures i == i' && j == j'
    {
      HistoryEndsEqual(p, d, i, j, i', j');
    }
    GridNoDup(p, d, Outer(p, d));
  }

  /** As written, a history part adds a pair twice exactly when a label that
      some recommended title contains occurs twice in the history. */
  lemma HistoryNoDupIff(p: Part, d: Lists)
    requires !p.Matches? && !p.firstOnly
    ensures NoDup(Grid(p, d)) <==> !RepeatedIncludedLabel(RecsOf(p, d), HistOf(p, d))
  {
    if RepeatedIncludedLabel(RecsOf(p, d), HistOf(p, d)) {
      RepeatMakesDup(p, d);
    } else {
      NoRepeatNoDup(p, d);
    }
  }

  lemma RepeatMakesDup(p: Part, d: Lists)
    requires !p.Matches? && !p.firstOnly && RepeatedIncludedLabel(RecsOf(p, d), HistOf(p, d))
    ensures !NoDup(Grid(p, d))
  {
    var recs, h := RecsOf(p, d), HistOf(p, d);
    var i, j, j' :| 0 <= i < |recs| && 0 <= j < j' < |h| && h[j] == h[j'] && Includes(recs[i].itemName, h[j]);
    RowContains(p, d, i, j, j');
    HistoryEndsEqual(p, d, i, j, i, j');
    RowRepeat(p, d, i, j');
    DupInside(GridUpTo(p, d, i), Row(p, d, i), []);
    assert GridUpTo(p, d, i) + Row(p, d, i) + [] == GridUpTo(p, d, i + 1);
    GridPrefix(p, d, i + 1, Outer(p, d));
    DupPersists(GridUpTo(p, d, i + 1), Grid(p, d));
  }

  /** Without a repeated included label, an included label occurs once. */
  lemma LabelOnce(recs: seq<Rec>, h: seq<string>, i: nat, j: nat, j': nat)
    requires !RepeatedIncludedLabel(recs, h) && i < |recs| && j < |h| && j' < |h|
    requires h[j] == h[j'] && Includes(recs[i].itemName, h[j])
    ensures j == j'
  {
  }

  lemma NoRepeatNoDup(p: Part, d: Lists)
    requires !p.Matches? && !p.firstOnly && !RepeatedIncludedLabel(RecsOf(p, d), HistOf(p, d))
    ensures NoDup(Grid(p, d))
  {
    var recs, h := RecsOf(p, d), HistOf(p, d);
    forall i, j, i', j' |
      0 <= i < Outer(p, d) && 0 <= j < Inner(p, d) && 0 <= i' < Outer(p, d) && 0 <= j' < Inner(p, d)
      && Links(p, d, i, j) && Links(p, d, i', j') && LinkEnds(p, d, i, j) == LinkEnds(p, d, i', j')
      ensures i == i' && j == j'
    {
      HistoryEndsEqual(p, d, i, j, i', j');
      LabelOnce(recs, h, i, j, j');
    }
    GridNoDup(p, d, Outer(p, d));
  }

  /** A history part adds the same pairs whether or not it is restricted to
      first occurrences. */
  lemma FirstOnlySamePairs(p: Part, d: Lists, x: (string, string))
    requires p.LeftHistory? || p.RightHistory?
    ensures x in Grid(p.(firstOnly := true), d) <==> x in Grid(p.(firstOnly := false), d)
  {
    var q, q' := p.(firstOnly := true), p.(firstOnly := false);
    var h := HistOf(p, d);
    if x in Grid(q, d) {
      GridSource(q, d, Outer(q, d), x);
      var i, j :| 0 <= i < Outer(q, d) && 0 <= j < Inner(q, d) && Links(q, d, i, j) && LinkEnds(q, d, i, j) == x;
      GridContains(q', d, i, j, Outer(q', d));
    }
    if x in Grid(q', d) {
      GridSource(q', d, Outer(q', d), x);
      var i, j :| 0 <= i < Outer(q', d) && 0 <= j < Inner(q', d) && Links(q', d, i, j) && LinkEnds(q', d, i, j) == x;
      var k := FirstIndex(h, j);
      assert Links(q, d, i, k);
      HistoryEndsEqual(q, d, i, k, i, j);
      GridContains(q, d, i, k, Outer(q, d));
    }
  }

  // ---------------------------------------------------------------------
  // The whole graph

  /** The history columns are drawn only when both histories are non-empty. */
  predicate Shown(d: Lists) {
    |d.hist1| > 0 && |d.hist2| > 0
  }

  /** The pairs the handler adds, in order; `firstOnly` restricts the history
      loops to the first occurrence of each label. */
  function Pairs(d: Lists, firstOnly: bool): seq<(string, string)> {
    Grid(Matches, d)
    + (if Shown(d) then Grid(LeftHistory(firstOnly), d) + Grid(RightHistory(firstOnly), d) else [])
  }

  /** The pairs, history parts included or not. */
  lemma PairsCases(d: Lists, firstOnly: bool)
    ensures Shown(d) ==>
      Pairs(d, firstOnly) == Grid(Matches, d) + Grid(LeftHistory(firstOnly), d) + Grid(RightHistory(firstOnly), d)
    ensures !Shown(d) ==> Pairs(d, firstOnly) == Grid(Matches, d)
  {
    var m, l, r := Grid(Matches, d), Grid(LeftHistory(firstOnly), d), Grid(RightHistory(firstOnly), d);
    ConcatAssoc(m, l, r);
    ConcatEmpty(m);
  }

  lemma ConcatAssoc<T>(a: seq<T>, b: seq<T>, c: seq<T>)
    ensures a + (b + c) == a + b + c
  {
  }

  lemma ConcatEmpty<T>(a: seq<T>)
    ensures a + [] == a
  {
  }

  lemma Snoc2<T>(a: T, b: T)
    ensures [] + [a] == [a] && [a] + [b] == [a, b]
  {
  }

  lemma Snoc3<T>(a: T, b: T, c: T)
    ensures [a, b] + [c] == [a, b, c]
  {
  }

  lemma Snoc4<T>(a: T, b: T, c: T, e: T)
    ensures [a, b, c] + [e] == [a, b, c, e]
  {
  }

  /** The columns the handler draws. */
  function Columns(d: Lists): set<Column> {
    {Recs1, Recs2} + (if Shown(d) then {Hist1, Hist2} else {})
  }

  /** The number of nodes the handler draws. */
  function NodeCount(d: Lists): nat {
    |d.recs1| + |d.recs2| + (if Shown(d) then |d.hist1| + |d.hist2| else 0)
  }

  /** The column the source of every pair of a part belongs to. */
  function SourceColumn(p: Part): Column {
    match p
    case Matches => Recs1
    case LeftHistory(_) => Hist1
    case RightHistory(_) => Recs2
  }

  /** The row of the source of the pair iteration `(i, j)` adds. */
  function SourceRow(p: Part, d: Lists, i: nat, j: nat): nat
    requires i < Outer(p, d) && j < Inner(p, d)
  {
    if p.LeftHistory? then FirstIndex(d.hist1, j) else i
  }

  lemma LinkSource(p: Part, d: Lists, i: nat, j: nat)
    requires i < Outer(p, d) && j < Inner(p, d)
    ensures LinkEnds(p, d, i, j).0 == NodeId(SourceColumn(p), SourceRow(p, d, i, j))
  {
  }

  /** Parts whose edges start in different columns share no pair. */
  lemma PartsDisjoint(p: Part, q: Part, d: Lists, x: (string, string))
    requires SourceColumn(p) != SourceColumn(q) && x in Grid(p, d)
    ensures x !in Grid(q, d)
  {
    GridSource(p, d, Outer(p, d), x);
    var i, j :| 0 <= i < Outer(p, d) && 0 <= j < Inner(p, d) && Links(p, d, i, j) && LinkEnds(p, d, i, j) == x;
    LinkSource(p, d, i, j);
    if x in Grid(q, d) {
      GridSource(q, d, Outer(q, d), x);
      var i', j' :| 0 <= i' < Outer(q, d) && 0 <= j' < Inner(q, d) && Links(q, d, i', j') && LinkEnds(q, d, i', j') == x;
      LinkSource(q, d, i', j');
      NodeIdInjective(SourceColumn(p), SourceRow(p, d, i, j), SourceColumn(q), SourceRow(q, d, i', j'));
    }
  }

  /** Joining three duplicate-free parts that start in different columns. */
  lemma ThreePartsNoDup(d: Lists, firstOnly: bool)
    requires NoDup(Grid(Matches, d)) && NoDup(Grid(LeftHistory(firstOnly), d)) && NoDup(Grid(RightHistory(firstOnly), d))
    ensures NoDup(Grid(Matches, d) + Grid(LeftHistory(firstOnly), d) + Grid(RightHistory(firstOnly), d))
  {
    var m, l, r := Grid(Matches, d), Grid(LeftHistory(firstOnly), d), Grid(RightHistory(firstOnly), d);
    forall x | x in m ensures x !in l {
      PartsDisjoint(Matches, LeftHistory(firstOnly), d, x);
    }
    NoDupConcat(m, l);
    forall x | x in m + l ensures x !in r {
      if x in m {
        PartsDisjoint(Matches, RightHistory(firstOnly), d, x);
      } else {
        PartsDisjoint(LeftHistory(firstOnly), RightHistory(firstOnly), d, x);
      }
    }
    NoDupConcat(m + l, r);
  }

  /** As written, the handler adds some pair twice, and so throws before the
      graph is replaced, exactly when the histories are drawn and one of them
      repeats a label that a recommended title of the same user contains. */
  lemma AsWrittenBuildsIff(d: Lists)
    ensures NoDup(Pairs(d, false)) <==>
      !(Shown(d) && (RepeatedIncludedLabel(d.recs1, d.hist1) || RepeatedIncludedLabel(d.recs2, d.hist2)))
  {
    if Shown(d) {
      ShownNoDupIff(d);
      HistoryNoDupIff(LeftHistory(false), d);
      HistoryNoDupIff(RightHistory(false), d);
    } else {
      MatchesNoDup(d);
      PairsCases(d, false);
    }
  }

  /** With the histories drawn, the pairs repeat exactly when one of the
      history parts repeats a pair. */
  lemma ShownNoDupIff(d: Lists)
    requires Shown(d)
    ensures NoDup(Pairs(d, false)) <==> NoDup(Grid(LeftHistory(false), d)) && NoDup(Grid(RightHistory(false), d))
  {
    MatchesNoDup(d);
    var m, l, r := Grid(Matches, d), Grid(LeftHistory(false), d), Grid(RightHistory(false), d);
    PairsCases(d, false);
    if !NoDup(l) {
      DupInside(m, l, r);
    } else if !NoDup(r) {
      DupInside(m + l, r, []);
      ConcatEmpty(m + l + r);
    } else {
      ThreePartsNoDup(d, false);
    }
  }

  /** Restricted to first occurrences, the handler never adds a pair twice ... */
  lemma CorrectedAlwaysBuilds(d: Lists)
    ensures NoDup(Pairs(d, true))
  {
    MatchesNoDup(d);
    if Shown(d) {
      FirstOnlyNoDup(LeftHistory(true), d);
      FirstOnlyNoDup(RightHistory(true), d);
      ThreePartsNoDup(d, true);
      PairsCases(d, true);
    } else {
      PairsCases(d, true);
    }
  }

  /** ... and draws exactly the edges the loops as written name. */
  lemma CorrectedSamePairs(d: Lists, x: (string, string))
    ensures x in Pairs(d, true) <==> x in Pairs(d, false)
  {
    FirstOnlySamePairs(LeftHistory(true), d, x);
    FirstOnlySamePairs(RightHistory(true), d, x);
  }

  /** A user whose history repeats a recommended title: the as-written
      handler throws and keeps the old graph. */
  lemma RepeatedHistoryAborts()
    ensures !NoDup(Pairs(Lists([Rec("Heat", "7", 0.9)], [], ["Heat", "Heat"], ["Up"]), false))
  {
    var d := Lists([Rec("Heat", "7", 0.9)], [], ["Heat", "Heat"], ["Up"]);
    assert OccursAt("Heat", "Heat", 0);
    assert d.hist1[0] == d.hist1[1] && Includes(d.recs1[0].itemName, d.hist1[0]);
    AsWrittenBuildsIff(d);
  }

  // ---------------------------------------------------------------------
  // Building the graph

  /** The nodes of the columns `cols`, drawn in that order. */
  ghost function Union(cols: seq<Column>, d: Lists, spacing: real, scoreText: real -> string): map<string, Attrs>
    decreases |cols|
  {
    if cols == [] then map[]
    else Union(cols[..|cols| - 1], d, spacing, scoreText) + ColumnMap(cols[|cols| - 1], d, spacing, scoreText)
  }

  /** The order in which the handler draws the columns. */
  function DrawOrder(d: Lists): seq<Column> {
    [Recs1, Recs2] + (if Shown(d) then [Hist1, Hist2] else [])
  }

  /** The columns in drawing order, history columns included or not; no
      column comes twice. */
  lemma DrawOrderCases(d: Lists)
    ensures Shown(d) ==> DrawOrder(d) == [Recs1, Recs2, Hist1, Hist2]
    ensures !Shown(d) ==> DrawOrder(d) == [Recs1, Recs2]
    ensures forall a, b :: 0 <= a < b < |DrawOrder(d)| ==> DrawOrder(d)[a] != DrawOrder(d)[b]
  {
  }

  /** The nodes the handler draws. */
  ghost function Nodes(d: Lists, spacing: real, scoreText: real -> string): map<string, Attrs> {
    Union(DrawOrder(d), d, spacing, scoreText)
  }

  lemma UnionAppend(cols: seq<Column>, c: Column, d: Lists, spacing: real, scoreText: real -> string)
    ensures Union(cols + [c], d, spacing, scoreText) == Union(cols, d, spacing, scoreText) + ColumnMap(c, d, spacing, scoreText)
  {
    assert (cols + [c])[..|cols|] == cols;
  }

  /** The ids of a column not yet drawn are absent. */
  lemma {:induction false} UnionFresh(cols: seq<Column>, c: Column, d: Lists, spacing: real, scoreText: real -> string)
    requires c !in cols
    ensures forall r: nat :: NodeId(c, r) !in Union(cols, d, spacing, scoreText)
    decreases |cols|
  {
    if cols != [] {
      var init, last := cols[..|cols| - 1], cols[|cols| - 1];
      UnionFresh(init, c, d, spacing, scoreText);
      forall r: nat ensures NodeId(c, r) !in ColumnMap(last, d, spacing, scoreText) {
        OtherColumnAbsent(last, c, d, Size(last, d), spacing, scoreText, r);
      }
    }
  }

  /** A drawn column is present with all its rows. */
  lemma {:induction false} UnionHas(cols: seq<Column>, c: Column, d: Lists, spacing: real, scoreText: real -> string)
    requires c in cols
    ensures HasColumn(Union(cols, d, spacing, scoreText), c, d, spacing, scoreText)
    decreases |cols|
  {
    var init, last := cols[..|cols| - 1], cols[|cols| - 1];
    var u := Union(cols, d, spacing, scoreText);
    var m := ColumnMap(last, d, spacing, scoreText);
    if last == c {
      forall i | 0 <= i < Size(c, d) ensures NodeId(c, i) in u && u[NodeId(c, i)] == ColumnAttrs(c, d, i, spacing, scoreText) {
        PartialMapAt(c, d, Size(c, d), spacing, scoreText, i);
      }
    } else {
      assert cols == init + [last];
      UnionHas(init, c, d, spacing, scoreText);
      forall i | 0 <= i < Size(c, d) ensures NodeId(c, i) in u && u[NodeId(c, i)] == ColumnAttrs(c, d, i, spacing, scoreText) {
        OtherColumnAbsent(last, c, d, Size(last, d), spacing, scoreText, i);
      }
    }
  }

  /** Every drawn node is a row of a drawn column. */
  lemma {:induction false} UnionOnly(cols: seq<Column>, d: Lists, spacing: real, scoreText: real -> string)
    ensures forall id :: id in Union(cols, d, spacing, scoreText) ==>
      exists c, i :: c in cols && 0 <= i < Size(c, d) && id == NodeId(c, i)
    decreases |cols|
  {
    if cols != [] {
      var init, last := cols[..|cols| - 1], cols[|cols| - 1];
      UnionOnly(init, d, spacing, scoreText);
      forall id | id in Union(cols, d, spacing, scoreText)
        ensures exists c, i :: c in cols && 0 <= i < Size(c, d) && id == NodeId(c, i)
      {
        if id in ColumnMap(last, d, spacing, scoreText) {
          PartialMapKey(last, d, Size(last, d), spacing, scoreText, id);
        } else {
          assert Union(cols, d, spacing, scoreText) == Union(init, d, spacing, scoreText) + ColumnMap(last, d, spacing, scoreText);
          assert id in Union(init, d, spacing, scoreText);
          var c, i :| c in init && 0 <= i < Size(c, d) && id == NodeId(c, i);
          assert c in cols;
        }
      }
    }
  }

  /** The number of rows of the columns `cols`. */
  function Rows(cols: seq<Column>, d: Lists): nat
    decreases |cols|
  {
    if cols == [] then 0 else Rows(cols[..|cols| - 1], d) + Size(cols[|cols| - 1], d)
  }

  /** Each drawn row is one node. */
  lemma {:induction false} UnionSize(cols: seq<Column>, d: Lists, spacing: real, scoreText: real -> string)
    requires forall a, b :: 0 <= a < b < |cols| ==> cols[a] != cols[b]
    ensures |Union(cols, d, spacing, scoreText)| == Rows(cols, d)
    decreases |cols|
  {
    if cols != [] {
      var init, last := cols[..|cols| - 1], cols[|cols| - 1];
      var u, m := Union(init, d, spacing, scoreText), ColumnMap(last, d, spacing, scoreText);
      UnionSize(init, d, spacing, scoreText);
      PartialMapSize(last, d, Size(last, d), spacing, scoreText);
      UnionFresh(init, last, d, spacing, scoreText);
      forall id | id in m ensures id !in u {
        PartialMapKey(last, d, Size(last, d), spacing, scoreText, id);
      }
      assert u.Keys * m.Keys == {};
      assert (u + m).Keys == u.Keys + m.Keys;
    }
  }

  /** The drawn graph has every row of every drawn column ... */
  lemma NodesHaveColumns(d: Lists, spacing: real, scoreText: real -> string, c: Column)
    requires c in Columns(d)
    ensures HasColumn(Nodes(d, spacing, scoreText), c, d, spacing, scoreText)
  {
    UnionHas(DrawOrder(d), c, d, spacing, scoreText);
  }

  /** ... and nothing else ... */
  lemma NodesOnlyColumns(d: Lists, spacing: real, scoreText: real -> string)
    ensures OnlyColumns(Nodes(d, spacing, scoreText), Columns(d), d)
  {
    UnionOnly(DrawOrder(d), d, spacing, scoreText);
  }

  lemma RowsAppend(cols: seq<Column>, c: Column, d: Lists)
    ensures Rows(cols + [c], d) == Rows(cols, d) + Size(c, d)
  {
    assert (cols + [c])[..|cols|] == cols;
  }

  /** ... one node per row. */
  lemma NodesCount(d: Lists, spacing: real, scoreText: real -> string)
    ensures |Nodes(d, spacing, scoreText)| == NodeCount(d)
  {
    DrawOrderCases(d);
    UnionSize(DrawOrder(d), d, spacing, scoreText);
    DrawOrderRows(d);
  }

  lemma DrawOrderRows(d: Lists)
    ensures Rows(DrawOrder(d), d) == NodeCount(d)
  {
    DrawOrderCases(d);
    RowsAppend([], Recs1, d);
    Snoc2(Recs1, Recs2);
    RowsAppend([Recs1], Recs2, d);
    if Shown(d) {
      Snoc3(Recs1, Recs2, Hist1);
      RowsAppend([Recs1, Recs2], Hist1, d);
      Snoc4(Recs1, Recs2, Hist1, Hist2);
      RowsAppend([Recs1, Recs2, Hist1], Hist2, d);
    }
  }

  /** The columns a part joins are present, so every `addEdge` finds its
      endpoints. */
  lemma EndpointsFromColumns(nodes: map<string, Attrs>, p: Part, d: Lists, spacing: real, scoreText: real -> string)
    requires p.Matches? ==> HasColumn(nodes, Recs1, d, spacing, scoreText) && HasColumn(nodes, Recs2, d, spacing, scoreText)
    requires p.LeftHistory? ==> HasColumn(nodes, Recs1, d, spacing, scoreText) && HasColumn(nodes, Hist1, d, spacing, scoreText)
    requires p.RightHistory? ==> HasColumn(nodes, Recs2, d, spacing, scoreText) && HasColumn(nodes, Hist2, d, spacing, scoreText)
    ensures EndpointsPresent(nodes, p, d)
  {
    forall i, j | 0 <= i < Outer(p, d) && 0 <= j < Inner(p, d)
      ensures LinkEnds(p, d, i, j).0 in nodes && LinkEnds(p, d, i, j).1 in nodes
    {
      match p
      case Matches =>
        assert NodeId(Recs1, i) in nodes && NodeId(Recs2, j) in nodes;
      case LeftHistory(_) =>
        assert NodeId(Hist1, FirstIndex(d.hist1, j)) in nodes && NodeId(Recs1, i) in nodes;
      case RightHistory(_) =>
        assert NodeId(Recs2, i) in nodes && NodeId(Hist2, FirstIndex(d.hist2, j)) in nodes;
    }
  }

  /** Draws column `c` after the columns `cols`. */
  method DrawColumn(g: Graph, c: Column, d: Lists, spacing: real, scoreText: real -> string, ghost cols: seq<Column>)
    requires c !in cols && g.nodes == Union(cols, d, spacing, scoreText)
    modifies g
    ensures g.edges == old(g.edges)
    ensures g.nodes == Union(cols + [c], d, spacing, scoreText)
  {
    UnionFresh(cols, c, d, spacing, scoreText);
    AddColumn(g, c, d, spacing, scoreText);
    UnionAppend(cols, c, d, spacing, scoreText);
  }

  /** The recommendation columns and the loop over equal titles, on a fresh
      graph. */
  method AddRecommendations(g: Graph, d: Lists, spacing: real, scoreText: real -> string) returns (ok: bool)
    requires g.nodes == map[] && g.edges == []
    modifies g
    ensures g.nodes == Union([Recs1, Recs2], d, spacing, scoreText)
    ensures ok <==> NoDup(Grid(Matches, d))
    ensures ok ==> g.edges == AsEdges(Grid(Matches, d))
  {
    assert Union([], d, spacing, scoreText) == map[];
    DrawColumn(g, Recs1, d, spacing, scoreText, []);
    DrawColumn(g, Recs2, d, spacing, scoreText, [Recs1]);
    assert [] + [Recs1] + [Recs2] == [Recs1, Recs2];
    UnionHas([Recs1, Recs2], Recs1, d, spacing, scoreText);
    UnionHas([Recs1, Recs2], Recs2, d, spacing, scoreText);
    EndpointsFromColumns(g.nodes, Matches, d, spacing, scoreText);
    assert g.edges == AsEdges([]);
    ok := AddPart(g, Matches, d, []);
    assert [] + Grid(Matches, d) == Grid(Matches, d);
  }

  /** The history columns and the two loops over contained labels, after
      the recommendations. */
  method AddHistories(g: Graph, d: Lists, spacing: real, scoreText: real -> string, firstOnly: bool) returns (ok: bool)
    requires g.nodes == Union([Recs1, Recs2], d, spacing, scoreText)
    requires g.edges == AsEdges(Grid(Matches, d)) && NoDup(Grid(Matches, d))
    modifies g
    ensures g.nodes == Union([Recs1, Recs2, Hist1, Hist2], d, spacing, scoreText)
    ensures ok <==> NoDup(Grid(Matches, d) + Grid(LeftHistory(firstOnly), d) + Grid(RightHistory(firstOnly), d))
    ensures ok ==> g.edges == AsEdges(Grid(Matches, d) + Grid(LeftHistory(firstOnly), d) + Grid(RightHistory(firstOnly), d))
  {
    var m, left, right := Grid(Matches, d), LeftHistory(firstOnly), RightHistory(firstOnly);
    var all := [Recs1, Recs2, Hist1, Hist2];
    DrawColumn(g, Hist1, d, spacing, scoreText, [Recs1, Recs2]);
    DrawColumn(g, Hist2, d, spacing, scoreText, [Recs1, Recs2] + [Hist1]);
    assert [Recs1, Recs2] + [Hist1] + [Hist2] == all;
    UnionHas(all, Recs1, d, spacing, scoreText);
    UnionHas(all, Recs2, d, spacing, scoreText);
    UnionHas(all, Hist1, d, spacing, scoreText);
    UnionHas(all, Hist2, d, spacing, scoreText);
    EndpointsFromColumns(g.nodes, left, d, spacing, scoreText);
    EndpointsFromColumns(g.nodes, right, d, spacing, scoreText);
    ghost var l, r := Grid(left, d), Grid(right, d);
    ok := AddPart(g, left, d, m);
    if !ok {
      DupPersists(m + l, m + l + r);
      return;
    }
    ok := AddPart(g, right, d, m + l);
  }

  /** The body of the response handler: a fresh graph with the
      recommendation columns and their matches and, when both histories are
      non-empty, the history columns and their links.  `ok` is false when an
      `addEdge` was refused, which throws out of the handler. */
  method BuildGraph(d: Lists, spacing: real, scoreText: real -> string, firstOnly: bool) returns (g: Graph, ok: bool)
    ensures fresh(g)
    ensures ok <==> NoDup(Pairs(d, firstOnly))
    ensures ok ==> g.nodes == Nodes(d, spacing, scoreText) && g.edges == AsEdges(Pairs(d, firstOnly))
  {
    g := new Graph();
    ok := AddRecommendations(g, d, spacing, scoreText);
    var m := Grid(Matches, d);
    if !ok {
      DupPersists(m, Pairs(d, firstOnly));
      return;
    }
    if Shown(d) {
      PairsCases(d, firstOnly);
      DrawOrderCases(d);
      ok := AddHistories(g, d, spacing, scoreText, firstOnly);
    } else {
      PairsCases(d, firstOnly);
      DrawOrderCases(d);
    }
  }

  /** The comparison view: the graph on screen. */
  class TopKView {
    var graph: Graph?

    constructor ()
      ensures graph == null
    {
      graph := null;
    }

    /** The response handler: missing lists count as empty, and the graph
        is replaced only when the build did not throw. */
    method ReceiveResults(recs1: Option<seq<Rec>>, recs2: Option<seq<Rec>>, hist1: Option<seq<string>>,
                          hist2: Option<seq<string>>, spacing: real, scoreText: real -> string) returns (replaced: bool)
      modifies this
      ensures var d := Lists(recs1.GetOr([]), recs2.GetOr([]), hist1.GetOr([]), hist2.GetOr([]));
        && (replaced <==> NoDup(Pairs(d, false)))
        && (replaced ==> graph != null && fresh(graph) && graph.nodes == Nodes(d, spacing, scoreText)
                         && graph.edges == AsEdges(Pairs(d, false)))
      ensures !replaced ==> graph == old(graph)
    {
      var d := Lists(recs1.GetOr([]), recs2.GetOr([]), hist1.GetOr([]), hist2.GetOr([]));
      var g, ok := BuildGraph(d, spacing, scoreText, false);
      if ok {
        graph := g;
      }
      replaced := ok;
    }
  }
}
