/** The interaction-graph view: the filter colour map (`filtersToApply`), the
    colouring applied to a freshly loaded graph (recommended edges green,
    nodes by filter colour and type), and the Louvain community overlay with
    its colour snapshot. */
module Visualiser {
  import opened Wrappers
  import opened Strings
  import opened OrderedMaps
  import opened JsGraph
  import EventHandler
  import ColorPalette

  /** The colour a newly added filter starts with: active, but no colour. */
  const NoColor := "#00000000"

  /** `filterKey(category, query)`. */
  function FilterKey(category: string, query: string): (key: string)
    ensures Includes(key, "::")
  {
    var key := category + "::" + query;
    assert key[|category|..|category| + 2] == "::";
    assert OccursAt(key, "::", |category|);
    key
  }

  /** A key splits back into its category and query when the category has no
      `:` (feature names never do: the dataset loader cuts them at the first
      `:`) and the query has no `::`. */
  lemma FilterKeySplit(category: string, query: string)
    requires ':' !in category
    requires !Includes(query, "::")
    ensures Split(FilterKey(category, query), "::") == [category, query]
  {
    var key := FilterKey(category, query);
    assert key[|category|..|category| + 2] == "::";
    forall j | 0 <= j < |category| ensures !OccursAt(key, "::", j) {
      assert key[j] == category[j] && category[j] in category;
      assert key[j..j + 2][0] == key[j];
    }
    FindFirstIs(key, "::", |category|);
    assert key[|category| + 2..] == query;
    assert key[..|category|] == category;
  }

  /** Every colour the palette can hand over differs from the sentinel: the
      presets, the output of `hslToHex` and any typed hex that passes the
      check all have seven characters, the sentinel nine. */
  lemma PaletteColoursAreNotSentinel(r: nat, g: nat, b: nat, typed: string)
    requires r < 256 && g < 256 && b < 256
    ensures forall p :: p in ColorPalette.Presets ==> p != NoColor
    ensures ColorPalette.FormatHex(r, g, b) != NoColor
    ensures ColorPalette.MatchesHexPattern(typed) ==> typed != NoColor
  {
    ColorPalette.PresetsMatchHexPattern();
  }

  // ---------------------------------------------------------------------
  // The filter map: the updater functions passed to `setFiltersToApply`

  type Filters = Entries<string, string>

  /** JavaScript truthiness of a string that may be null. */
  predicate TruthyText(s: Option<string>) {
    s.Some? && s.value != []
  }

  /** `addFilter`: the sentinel under the new key, only if the key is new
      and both parts are non-empty. */
  function AddedFilter(filters: Filters, category: Option<string>, query: string): (r: Filters)
    ensures !(TruthyText(category) && query != []) ==> r == filters
    ensures TruthyText(category) && query != [] ==>
      var key := FilterKey(category.value, query);
      && (key in Keys(filters) ==> r == filters)
      && (key !in Keys(filters) ==> r == filters + [(key, NoColor)])
  {
    if TruthyText(category) && query != [] then
      var key := FilterKey(category.value, query);
      if Get(filters, key).None? then
        PutAbsent(filters, key, NoColor);
        Put(filters, key, NoColor)
      else filters
    else filters
  }

  /** Adding a filter twice is adding it once, and re-adding never changes a
      colour already chosen. */
  lemma AddFilterIdempotent(filters: Filters, category: Option<string>, query: string)
    ensures AddedFilter(AddedFilter(filters, category, query), category, query) == AddedFilter(filters, category, query)
    ensures forall k :: k in Keys(filters) ==> Get(AddedFilter(filters, category, query), k) == Get(filters, k)
    ensures DistinctKeys(filters) ==> DistinctKeys(AddedFilter(filters, category, query))
  {
    var r := AddedFilter(filters, category, query);
    if TruthyText(category) && query != [] {
      var key := FilterKey(category.value, query);
      if key !in Keys(filters) {
        assert Keys(r) == Keys(filters) + [key];
        assert key in Keys(r);
      }
    }
  }

  /** `removeFilter(key)`. */
  function RemovedFilter(filters: Filters, key: string): (r: Filters)
    requires DistinctKeys(filters)
    ensures Get(r, key).None?
    ensures forall k :: k != key ==> Get(r, k) == Get(filters, k)
    ensures key !in Keys(filters) ==> r == filters
    ensures DistinctKeys(r)
  {
    Remove(filters, key)
  }

  /** `handleColorSelect(color)`: the open popover's key gets `color`; with no
      open key nothing changes. */
  function ColorAssigned(filters: Filters, popoverKey: Option<string>, color: string): (r: Filters)
    ensures !TruthyText(popoverKey) ==> r == filters
    ensures TruthyText(popoverKey) ==>
      Get(r, popoverKey.value) == Some(color) && forall k :: k != popoverKey.value ==> Get(r, k) == Get(filters, k)
  {
    if TruthyText(popoverKey) then Put(filters, popoverKey.value, color) else filters
  }

  /** The URL parameters built from the filter keys: the first two parts of
      each key split at `::`. */
  function RequestParams(filters: Filters): (ps: seq<(string, string)>)
    ensures |ps| == |filters|
    ensures forall i :: 0 <= i < |filters| ==>
      var parts := Split(filters[i].0, "::");
      ps[i] == (parts[0], if |parts| >= 2 then parts[1] else "undefined")
  {
    seq(|filters|, i requires 0 <= i < |filters| =>
      var parts := Split(filters[i].0, "::");
      (parts[0], if |parts| >= 2 then parts[1] else "undefined"))
  }

  /** The model name sent to the server: a trailing `.pth` removed. */
  function ModelName(model: string): (name: string)
    ensures |model| >= 4 && model[|model| - 4..] == ".pth" ==> name + ".pth" == model
    ensures !(|model| >= 4 && model[|model| - 4..] == ".pth") ==> name == model
  {
    if |model| >= 4 && model[|model| - 4..] == ".pth" then model[..|model| - 4] else model
  }

  // ---------------------------------------------------------------------
  // Colouring a freshly loaded graph

  /** The top-k response: user key to `[title, item key]` records. */
  type TopKData = Entries<string, seq<(string, string)>>

  /** Item `t` is among the recommendations listed for user `u`. */
  ghost predicate Recommended(topK: TopKData, u: string, t: string) {
    exists k, q :: 0 <= k < |topK| && 0 <= q < |topK[k].1| && topK[k].0 == u && topK[k].1[q].1 == t
  }

  /** The source and target of each edge. */
  function Ends(edges: seq<Edge>): (ends: seq<(string, string)>)
    ensures |ends| == |edges|
    ensures forall i :: 0 <= i < |edges| ==> ends[i] == (edges[i].source, edges[i].target)
  {
    seq(|edges|, i requires 0 <= i < |edges| => (edges[i].source, edges[i].target))
  }

  /** No later edge has the same source and target as edge `i`: the edge
      `edgeMap.get(source).get(target)` ends up holding. */
  ghost predicate LastOfPair(ends: seq<(string, string)>, i: nat)
    requires i < |ends|
  {
    forall j :: i < j < |ends| ==> ends[j] != ends[i]
  }

  lemma LastOfPairUnique(ends: seq<(string, string)>, i: nat, j: nat)
    requires i < |ends| && j < |ends| && ends[i] == ends[j]
    requires LastOfPair(ends, i) && LastOfPair(ends, j)
    ensures i == j
  {
  }

  function Green(e: Edge): Edge {
    e.(attrs := e.attrs["color" := JStr("green")])
  }

  /** The edges after the top-k colouring. */
  ghost function TopKColoured(edges: seq<Edge>, topK: TopKData): (r: seq<Edge>)
    ensures |r| == |edges|
    ensures forall i :: 0 <= i < |edges| ==>
      r[i] == if LastOfPair(Ends(edges), i) && Recommended(topK, edges[i].source, edges[i].target) then Green(edges[i]) else edges[i]
  {
    seq(|edges|, i requires 0 <= i < |edges| =>
      if LastOfPair(Ends(edges), i) && Recommended(topK, edges[i].source, edges[i].target) then Green(edges[i]) else edges[i])
  }

  /** In a graph with at most one edge per ordered pair, the colouring makes
      an edge green exactly when its target is recommended to its source,
      writes no other colour and changes no other attribute. */
  lemma TopKColouredSimpleGraph(edges: seq<Edge>, topK: TopKData, i: nat)
    requires forall a, b :: 0 <= a < b < |edges| ==> !(edges[a].source == edges[b].source && edges[a].target == edges[b].target)
    requires i < |edges|
    ensures var e := TopKColoured(edges, topK)[i];
      && (Recommended(topK, edges[i].source, edges[i].target) ==> Attr(e.attrs, "color") == JStr("green"))
      && (!Recommended(topK, edges[i].source, edges[i].target) ==> e == edges[i])
      && e.source == edges[i].source && e.target == edges[i].target
      && forall k :: k in edges[i].attrs && k != "color" ==> e.attrs[k] == edges[i].attrs[k]
  {
    assert LastOfPair(Ends(edges), i);
  }

  /** The first loop of the colouring: for each ordered pair, the last edge
      with that source and target. */
  method LastEdgeIndex(edges: seq<Edge>) returns (last: map<(string, string), nat>)
    ensures forall p :: p in last ==> last[p] < |edges| && Ends(edges)[last[p]] == p && LastOfPair(Ends(edges), last[p])
    ensures forall i :: 0 <= i < |edges| ==> Ends(edges)[i] in last
  {
    var ends := Ends(edges);
    last := map[];
    var i := 0;
    while i < |edges|
      invariant 0 <= i <= |edges|
      invariant forall p :: p in last ==>
        last[p] < i && ends[last[p]] == p && forall j :: last[p] < j < i ==> ends[j] != p
      invariant forall j :: 0 <= j < i ==> ends[j] in last
    {
      last := last[(edges[i].source, edges[i].target) := i];
      i := i + 1;
    }
  }

  /** The edges of user `u` whose target is among the item keys of `recs`. */
  ghost predicate RecommendedBy(u: string, recs: seq<(string, string)>, n: nat, pair: (string, string)) {
    pair.0 == u && exists q :: 0 <= q < n && q < |recs| && recs[q].1 == pair.1
  }

  /** `start` after the edges of `u` to the first `n` items of `recs` are made green. */
  ghost function UserColoured(start: seq<Edge>, u: string, recs: seq<(string, string)>, n: nat): (r: seq<Edge>)
    ensures |r| == |start|
    ensures forall i :: 0 <= i < |start| ==>
      r[i] == (if LastOfPair(Ends(start), i) && RecommendedBy(u, recs, n, Ends(start)[i]) then Green(start[i]) else start[i])
  {
    seq(|start|, i requires 0 <= i < |start| =>
      if LastOfPair(Ends(start), i) && RecommendedBy(u, recs, n, Ends(start)[i]) then Green(start[i]) else start[i])
  }

  /** One step of the inner loop: the last edge `u -> recs[n].1`, if any, turns green. */
  lemma UserColouredStep(start: seq<Edge>, last: map<(string, string), nat>, u: string, recs: seq<(string, string)>, n: nat)
    requires n < |recs|
    requires forall p :: p in last ==> last[p] < |start| && Ends(start)[last[p]] == p && LastOfPair(Ends(start), last[p])
    requires forall i :: 0 <= i < |start| ==> Ends(start)[i] in last
    ensures var cur := UserColoured(start, u, recs, n);
      UserColoured(start, u, recs, n + 1) ==
        if (u, recs[n].1) in last then cur[last[(u, recs[n].1)] := Green(cur[last[(u, recs[n].1)]])] else cur
  {
    var pair := (u, recs[n].1);
    if pair in last {
      UserColouredFound(start, u, recs, n, last[pair]);
    } else {
      UserColouredMissing(start, u, recs, n);
    }
  }

  /** Recommending one more item adds exactly the pair of that item. */
  lemma RecommendedByStep(u: string, recs: seq<(string, string)>, n: nat, pair: (string, string))
    requires n < |recs|
    ensures RecommendedBy(u, recs, n + 1, pair) <==> RecommendedBy(u, recs, n, pair) || pair == (u, recs[n].1)
  {
  }

  /** The step when edge `idx` is the last edge `u -> recs[n].1`. */
  lemma UserColouredFound(start: seq<Edge>, u: string, recs: seq<(string, string)>, n: nat, idx: nat)
    requires n < |recs| && idx < |start|
    requires Ends(start)[idx] == (u, recs[n].1) && LastOfPair(Ends(start), idx)
    ensures var cur := UserColoured(start, u, recs, n);
      UserColoured(start, u, recs, n + 1) == cur[idx := Green(cur[idx])]
  {
    var ends := Ends(start);
    var cur := UserColoured(start, u, recs, n);
    var next := UserColoured(start, u, recs, n + 1);
    forall i | 0 <= i < |start|
      ensures next[i] == cur[idx := Green(cur[idx])][i]
    {
      RecommendedByStep(u, recs, n, ends[i]);
      if i != idx && LastOfPair(ends, i) && ends[i] == ends[idx] {
        LastOfPairUnique(ends, i, idx);
      }
      assert Green(Green(start[i])) == Green(start[i]);
    }
  }

  /** The step when no edge runs `u -> recs[n].1`. */
  lemma UserColouredMissing(start: seq<Edge>, u: string, recs: seq<(string, string)>, n: nat)
    requires n < |recs|
    requires forall i :: 0 <= i < |start| ==> Ends(start)[i] != (u, recs[n].1)
    ensures UserColoured(start, u, recs, n + 1) == UserColoured(start, u, recs, n)
  {
    var ends := Ends(start);
    var cur := UserColoured(start, u, recs, n);
    var next := UserColoured(start, u, recs, n + 1);
    forall i | 0 <= i < |start|
      ensures next[i] == cur[i]
    {
      RecommendedByStep(u, recs, n, ends[i]);
    }
  }

  /** The inner loop of the colouring, for one user's recommendations. */
  method ColourUserEdges(g: Graph, last: map<(string, string), nat>, userKey: string, recs: seq<(string, string)>)
    requires forall p :: p in last ==> last[p] < |g.edges| && Ends(g.edges)[last[p]] == p && LastOfPair(Ends(g.edges), last[p])
    requires forall i :: 0 <= i < |g.edges| ==> Ends(g.edges)[i] in last
    modifies g
    ensures g.nodes == old(g.nodes)
    ensures g.edges == UserColoured(old(g.edges), userKey, recs, |recs|)
  {
    ghost var start := g.edges;
    var r := 0;
    while r < |recs|
      invariant 0 <= r <= |recs|
      invariant g.nodes == old(g.nodes)
      invariant g.edges == UserColoured(start, userKey, recs, r)
    {
      UserColouredStep(start, last, userKey, recs, r);
      var pair := (userKey, recs[r].1);
      if pair in last {
        g.SetEdgeAttribute(last[pair], "color", JStr("green"));
      }
      r := r + 1;
    }
  }

  /** The recommended-edge colouring of `fetchGraphData`. */
  method ColourTopKEdges(g: Graph, topK: TopKData)
    modifies g
    ensures g.nodes == old(g.nodes)
    ensures g.edges == TopKColoured(old(g.edges), topK)
  {
    var last := LastEdgeIndex(g.edges);
    ghost var orig := g.edges;
    ghost var ends := Ends(orig);
    TopKColouredEnds(orig, topK[..0]);
    var e := 0;
    while e < |topK|
      invariant 0 <= e <= |topK|
      invariant g.nodes == old(g.nodes) && Ends(g.edges) == ends
      invariant g.edges == TopKColoured(orig, topK[..e])
    {
      ColourUserEdges(g, last, topK[e].0, topK[e].1);
      TopKColouredStep(orig, topK, e);
      TopKColouredEnds(orig, topK[..e + 1]);
      e := e + 1;
    }
    assert topK[..e] == topK;
  }

  /** The colouring moves no edge. */
  lemma TopKColouredEnds(edges: seq<Edge>, topK: TopKData)
    ensures Ends(TopKColoured(edges, topK)) == Ends(edges)
  {
    var r := TopKColoured(edges, topK);
    forall i | 0 <= i < |edges|
      ensures Ends(r)[i] == Ends(edges)[i]
    {
    }
  }

  /** One round of the outer loop: colouring for user `e` the edges already
      coloured for the first `e` users colours them for the first `e + 1`. */
  lemma TopKColouredStep(orig: seq<Edge>, topK: TopKData, e: nat)
    requires e < |topK|
    ensures UserColoured(TopKColoured(orig, topK[..e]), topK[e].0, topK[e].1, |topK[e].1|) ==
      TopKColoured(orig, topK[..e + 1])
  {
    var ends := Ends(orig);
    var before := TopKColoured(orig, topK[..e]);
    TopKColouredEnds(orig, topK[..e]);
    var after := UserColoured(before, topK[e].0, topK[e].1, |topK[e].1|);
    var goal := TopKColoured(orig, topK[..e + 1]);
    forall i | 0 <= i < |orig|
      ensures after[i] == goal[i]
    {
      RecommendedPrefix(topK, e, ends[i]);
      assert Green(Green(orig[i])) == Green(orig[i]);
    }
  }

  lemma RecommendedPrefix(topK: TopKData, e: nat, pair: (string, string))
    requires e < |topK|
    ensures Recommended(topK[..e + 1], pair.0, pair.1) <==>
      Recommended(topK[..e], pair.0, pair.1) || RecommendedBy(topK[e].0, topK[e].1, |topK[e].1|, pair)
  {
    var p := topK[..e + 1];
    if Recommended(p, pair.0, pair.1) {
      var k, q :| 0 <= k < |p| && 0 <= q < |p[k].1| && p[k].0 == pair.0 && p[k].1[q].1 == pair.1;
      if k < e { assert topK[..e][k] == p[k]; }
    }
    if Recommended(topK[..e], pair.0, pair.1) {
      var k, q :| 0 <= k < e && 0 <= q < |topK[..e][k].1| && topK[..e][k].0 == pair.0 && topK[..e][k].1[q].1 == pair.1;
      assert p[k] == topK[..e][k];
    }
    if RecommendedBy(topK[e].0, topK[e].1, |topK[e].1|, pair) {
      var q :| 0 <= q < |topK[e].1| && topK[e].1[q].1 == pair.1;
      assert p[e] == topK[e];
    }
  }

  /** The colour `fetchGraphData` gives a node: a circle (a user) takes the
      colour its filter maps to, unless that colour is missing or the
      sentinel, and is blue otherwise; every other node is green.
      `numberText` is JavaScript's number-to-string conversion, used when a
      filter attribute is a number. */
  function ResolvedColour(attrs: Attrs, filters: Filters, numberText: real -> string): (c: string)
    ensures Attr(attrs, "type") != JStr("circle") ==> c == "green"
    ensures Attr(attrs, "type") == JStr("circle") ==> c == "blue" || exists k :: Get(filters, k) == Some(c)
    ensures c != [] && c != NoColor
    // a circle with a filter key whose colour is usable takes exactly that colour ...
    ensures forall key, m ::
              (Attr(attrs, "type") == JStr("circle") && NodeFilterKey(attrs, numberText) == Some(key) &&
               Get(filters, key) == Some(m) && m != [] && m != NoColor) ==> c == m
    // ... and a circle that is not blue got it from its own key
    ensures Attr(attrs, "type") == JStr("circle") && c != "blue" ==>
              NodeFilterKey(attrs, numberText).Some? && Get(filters, NodeFilterKey(attrs, numberText).value) == Some(c)
  {
    if Attr(attrs, "type") == JStr("circle") then
      match NodeFilterKey(attrs, numberText)
      case Some(key) =>
        (match Get(filters, key)
         case Some(mapped) =>
           if mapped != [] && mapped != NoColor then
             assert Get(filters, key) == Some(mapped);
             mapped
           else "blue"
         case None => "blue")
      case None => "blue"
    else "green"
  }

  /** The key `feature::query` a node's filter attributes name, when both
      are truthy. */
  function NodeFilterKey(attrs: Attrs, numberText: real -> string): (key: Option<string>)
    ensures key.Some? <==> Truthy(Attr(attrs, "filter_feature")) && Truthy(Attr(attrs, "filter_query"))
  {
    var feature := Attr(attrs, "filter_feature");
    var query := Attr(attrs, "filter_query");
    if Truthy(feature) && Truthy(query) then
      Some(FilterKey(TemplateText(feature, numberText), TemplateText(query, numberText)))
    else None
  }

  /** Template-literal conversion of a value. */
  function TemplateText(v: JsValue, numberText: real -> string): string {
    match v
    case JStr(s) => s
    case JNum(n) => numberText(n)
    case JNaN => "NaN"
    case JBool(b) => if b then "true" else "false"
    case JNull => "null"
    case JUndefined => "undefined"
  }

  /** The nodes after the node colouring of `fetchGraphData`. */
  function FetchedNodes(nodes: map<string, Attrs>, filters: Filters, numberText: real -> string): map<string, Attrs> {
    map n | n in nodes :: nodes[n]["color" := JStr(ResolvedColour(nodes[n], filters, numberText))]
  }

  /** Part way through a loop over the nodes that takes the graph from
      `orig` to `target` one node at a time: the nodes still `pending` are
      as they were, the others as in `target`. */
  ghost predicate Updating(orig: map<string, Attrs>, cur: map<string, Attrs>, pending: set<string>, target: map<string, Attrs>) {
    && cur.Keys == orig.Keys && target.Keys == orig.Keys && pending <= cur.Keys
    && forall n :: n in cur ==> cur[n] == (if n in pending then orig[n] else target[n])
  }

  /** One round of such a loop; a node already as in `target` needs no
      write. */
  lemma UpdateStep(orig: map<string, Attrs>, cur: map<string, Attrs>, pending: set<string>, target: map<string, Attrs>, node: string)
    requires Updating(orig, cur, pending, target) && node in pending
    ensures node in cur && cur[node] == orig[node]
    ensures Updating(orig, cur[node := target[node]], pending - {node}, target)
    ensures target[node] == orig[node] ==> cur[node := target[node]] == cur
  {
  }

  lemma UpdateDone(orig: map<string, Attrs>, cur: map<string, Attrs>, target: map<string, Attrs>)
    requires Updating(orig, cur, {}, target)
    ensures cur == target
  {
  }

  /** The node colouring loop of `fetchGraphData`. */
  method ResolveNodeColours(g: Graph, filters: Filters, numberText: real -> string)
    modifies g
    ensures g.edges == old(g.edges)
    ensures g.nodes == FetchedNodes(old(g.nodes), filters, numberText)
  {
    ghost var target := FetchedNodes(g.nodes, filters, numberText);
    var pending := g.nodes.Keys;
    while pending != {}
      invariant g.edges == old(g.edges)
      invariant Updating(old(g.nodes), g.nodes, pending, target)
      decreases |pending|
    {
      var node :| node in pending;
      UpdateStep(old(g.nodes), g.nodes, pending, target, node);
      g.SetNodeAttribute(node, "color", JStr(ResolvedColour(g.nodes[node], filters, numberText)));
      pending := pending - {node};
    }
    UpdateDone(old(g.nodes), g.nodes, target);
  }

  // ---------------------------------------------------------------------
  // The Louvain overlay

  /** The colour snapshot: each node's `color` attribute, `undefined` for a
      node without one (the key is recorded all the same). */
  function Snapshot(nodes: map<string, Attrs>): map<string, JsValue> {
    map n | n in nodes :: Attr(nodes[n], "color")
  }

  /** The snapshot the overlay restores from after switching on, as written:
      a snapshot is taken only while the stored one is empty. */
  function LazySnapshot(saved: map<string, JsValue>, nodes: map<string, Attrs>): (r: map<string, JsValue>)
    ensures |saved| == 0 ==> r == Snapshot(nodes)
    ensures |saved| != 0 ==> r == saved
  {
    if |saved| == 0 then Snapshot(nodes) else saved
  }

  /** The loop that records the snapshot. */
  method SaveColours(g: Graph) returns (saved: map<string, JsValue>)
    ensures saved == Snapshot(g.nodes)
  {
    saved := map[];
    var pending := g.nodes.Keys;
    while pending != {}
      invariant pending <= g.nodes.Keys
      invariant saved.Keys == g.nodes.Keys - pending
      invariant forall n :: n in saved ==> saved[n] == Attr(g.nodes[n], "color")
      decreases |pending|
    {
      var node :| node in pending;
      saved := saved[node := Attr(g.nodes[node], "color")];
      pending := pending - {node};
    }
  }

  /** `Array.from(new Set(xs))`: the distinct values of `xs` in order of
      first appearance. */
  function FirstAppearances(xs: seq<int>): (ds: seq<int>)
    ensures forall x :: x in ds <==> x in xs
    ensures forall i, j :: 0 <= i < j < |ds| ==> ds[i] != ds[j]
  {
    if xs == [] then []
    else
      var pre := xs[..|xs| - 1];
      var d := FirstAppearances(pre);
      var x := xs[|xs| - 1];
      assert xs == pre + [x];
      if x in d then d else d + [x]
  }

  /** The distinct values come in the order of their first positions. */
  lemma {:induction false} FirstAppearancesOrder(xs: seq<int>)
    ensures forall i, j :: 0 <= i < j < |FirstAppearances(xs)| ==>
      IndexOf(xs, FirstAppearances(xs)[i]) < IndexOf(xs, FirstAppearances(xs)[j])
  {
    if xs != [] {
      var pre := xs[..|xs| - 1];
      var x := xs[|xs| - 1];
      var d := FirstAppearances(pre);
      FirstAppearancesOrder(pre);
      assert xs == pre + [x];
      forall v | v in pre ensures IndexOf(xs, v) == IndexOf(pre, v) {
        IndexOfPrefix(xs, |xs| - 1, v);
      }
      if x !in d {
        assert FirstAppearances(xs) == d + [x];
        assert IndexOf(xs, x) == |xs| - 1;
        var ds := d + [x];
        forall i, j | 0 <= i < j < |ds| ensures IndexOf(xs, ds[i]) < IndexOf(xs, ds[j]) {
          assert ds[i] == d[i] && d[i] in pre;
          if j < |d| {
            assert ds[j] == d[j] && d[j] in pre;
            assert IndexOf(pre, d[i]) < IndexOf(pre, d[j]);
          }
        }
      } else {
        assert FirstAppearances(xs) == d;
        forall i, j | 0 <= i < j < |d| ensures IndexOf(xs, d[i]) < IndexOf(xs, d[j]) {
          assert d[i] in pre && d[j] in pre;
          assert IndexOf(pre, d[i]) < IndexOf(pre, d[j]);
        }
      }
    }
  }

  /** The first position of `v` does not move when elements are appended. */
  lemma IndexOfPrefix(xs: seq<int>, k: nat, v: int)
    requires k <= |xs| && v in xs[..k]
    ensures IndexOf(xs, v) == IndexOf(xs[..k], v)
  {
    var b := IndexOf(xs[..k], v);
    assert xs[..k][..b] == xs[..b];
    IndexOfUnique(xs, v, b);
  }

  /** The position of community `comm` among the distinct ids. */
  function CommunityIndex(ids: seq<int>, comm: int): (i: nat)
    requires comm in ids
    ensures i < |ids| && ids[i] == comm
  {
    IndexOf(ids, comm)
  }

  /** Each distinct id with the colour of its position among `ids` and the
      number of communities. */
  function ColourTable(ids: seq<int>, colorOf: (nat, nat) -> string): map<int, string> {
    map c | c in ids :: colorOf(CommunityIndex(ids, c), |ids|)
  }

  /** The loop that fills `communityColors`: the id at position `index` gets
      `colorOf(index, |ids|)`. */
  method CommunityColours(ids: seq<int>, colorOf: (nat, nat) -> string) returns (colors: map<int, string>)
    requires forall i, j :: 0 <= i < j < |ids| ==> ids[i] != ids[j]
    ensures forall c :: c in colors <==> c in ids
    ensures forall i :: 0 <= i < |ids| ==> ids[i] in colors && colors[ids[i]] == colorOf(i, |ids|)
    ensures colors == ColourTable(ids, colorOf)
  {
    colors := map[];
    var index := 0;
    while index < |ids|
      invariant 0 <= index <= |ids|
      invariant forall c :: c in colors <==> c in ids[..index]
      invariant forall i :: 0 <= i < index ==> ids[i] in colors && colors[ids[i]] == colorOf(i, |ids|)
    {
      var comm := ids[index];
      assert ids[..index + 1] == ids[..index] + [comm];
      colors := colors[comm := colorOf(index, |ids|)];
      index := index + 1;
    }
    assert ids[..index] == ids;
    forall c | c in ids ensures colors[c] == colorOf(CommunityIndex(ids, c), |ids|) {
      var i := CommunityIndex(ids, c);
      assert colors[ids[i]] == colorOf(i, |ids|);
    }
  }

  /** The community of node `n`, if the mapping has one. */
  function CommunityOf(mapping: Entries<string, int>, n: string): Option<int> {
    Get(mapping, n)
  }

  /** The colour of community `comm` under `mapping`. */
  function CommunityColour(mapping: Entries<string, int>, comm: int, colorOf: (nat, nat) -> string): string
    requires comm in Values(mapping)
  {
    ColourTable(FirstAppearances(Values(mapping)), colorOf)[comm]
  }

  /** Node `n` with attributes `attrs` after the overlay is switched on. */
  function CommunityNode(attrs: Attrs, n: string, mapping: Entries<string, int>, colorOf: (nat, nat) -> string): (r: Attrs)
    ensures CommunityOf(mapping, n).None? ==> r == attrs
    ensures CommunityOf(mapping, n).Some? ==>
      r.Keys == attrs.Keys + {"color"} && r["color"].JStr?
      && forall k :: k in attrs && k != "color" ==> r[k] == attrs[k]
  {
    var comm := CommunityOf(mapping, n);
    if comm.None? then attrs
    else
      GetInValues(mapping, n);
      attrs["color" := JStr(CommunityColour(mapping, comm.value, colorOf))]
  }

  /** The nodes after the overlay is switched on with `mapping`. */
  function CommunityColoured(nodes: map<string, Attrs>, mapping: Entries<string, int>, colorOf: (nat, nat) -> string): map<string, Attrs> {
    map n | n in nodes :: CommunityNode(nodes[n], n, mapping, colorOf)
  }

  lemma GetInValues<K(!new), V>(m: Entries<K, V>, k: K)
    requires Get(m, k).Some?
    ensures Get(m, k).value in Values(m)
  {
    var i :| 0 <= i < |m| && m[i] == (k, Get(m, k).value);
    assert Values(m)[i] == m[i].1;
  }

  /** With a colour function that tells positions apart, two nodes of the
      mapping get the same colour exactly when they are in the same community. */
  lemma SameColourIffSameCommunity(nodes: map<string, Attrs>, mapping: Entries<string, int>, colorOf: (nat, nat) -> string, a: string, b: string)
    requires forall i: nat, j: nat, n: nat :: i < n && j < n && colorOf(i, n) == colorOf(j, n) ==> i == j
    requires a in nodes && b in nodes
    requires CommunityOf(mapping, a).Some? && CommunityOf(mapping, b).Some?
    ensures var r := CommunityColoured(nodes, mapping, colorOf);
      r[a]["color"] == r[b]["color"] <==> CommunityOf(mapping, a) == CommunityOf(mapping, b)
  {
    var ca := CommunityOf(mapping, a).value;
    var cb := CommunityOf(mapping, b).value;
    GetInValues(mapping, a);
    GetInValues(mapping, b);
    assert CommunityNode(nodes[a], a, mapping, colorOf)["color"] == JStr(CommunityColour(mapping, ca, colorOf));
    assert CommunityNode(nodes[b], b, mapping, colorOf)["color"] == JStr(CommunityColour(mapping, cb, colorOf));
    CommunityColourInjective(mapping, colorOf, ca, cb);
  }

  lemma CommunityColourInjective(mapping: Entries<string, int>, colorOf: (nat, nat) -> string, ca: int, cb: int)
    requires forall i: nat, j: nat, n: nat :: i < n && j < n && colorOf(i, n) == colorOf(j, n) ==> i == j
    requires ca in Values(mapping) && cb in Values(mapping)
    ensures CommunityColour(mapping, ca, colorOf) == CommunityColour(mapping, cb, colorOf) <==> ca == cb
  {
    var ids := FirstAppearances(Values(mapping));
    var ia := CommunityIndex(ids, ca);
    var ib := CommunityIndex(ids, cb);
    if colorOf(ia, |ids|) == colorOf(ib, |ids|) {
      assert ia == ib;
    }
  }

  /** The loop that recolours the nodes of the community mapping. */
  method ApplyCommunities(g: Graph, mapping: Entries<string, int>, colorOf: (nat, nat) -> string)
    modifies g
    ensures g.edges == old(g.edges)
    ensures g.nodes == CommunityColoured(old(g.nodes), mapping, colorOf)
  {
    var ids := FirstAppearances(Values(mapping));
    var colors := CommunityColours(ids, colorOf);
    ghost var target := CommunityColoured(g.nodes, mapping, colorOf);
    var pending := g.nodes.Keys;
    while pending != {}
      invariant g.edges == old(g.edges)
      invariant Updating(old(g.nodes), g.nodes, pending, target)
      decreases |pending|
    {
      var node :| node in pending;
      UpdateStep(old(g.nodes), g.nodes, pending, target, node);
      ColourNode(g, node, mapping, colorOf, colors);
      pending := pending - {node};
    }
    UpdateDone(old(g.nodes), g.nodes, target);
  }

  /** One round of the loop: node `n` takes its community's colour. */
  method ColourNode(g: Graph, n: string, mapping: Entries<string, int>, colorOf: (nat, nat) -> string, colors: map<int, string>)
    requires n in g.nodes
    requires colors == ColourTable(FirstAppearances(Values(mapping)), colorOf)
    modifies g
    ensures g.edges == old(g.edges)
    ensures g.nodes == old(g.nodes)[n := CommunityNode(old(g.nodes)[n], n, mapping, colorOf)]
  {
    var comm := CommunityOf(mapping, n);
    CommunityNodeIs(g.nodes[n], n, mapping, colorOf, colors);
    if comm.Some? {
      g.SetNodeAttribute(n, "color", JStr(colors[comm.value]));
    }
  }

  lemma CommunityNodeIs(attrs: Attrs, n: string, mapping: Entries<string, int>, colorOf: (nat, nat) -> string, colors: map<int, string>)
    requires colors == ColourTable(FirstAppearances(Values(mapping)), colorOf)
    ensures CommunityOf(mapping, n).None? ==> CommunityNode(attrs, n, mapping, colorOf) == attrs
    ensures CommunityOf(mapping, n).Some? ==>
      && CommunityOf(mapping, n).value in colors
      && CommunityNode(attrs, n, mapping, colorOf) == attrs["color" := JStr(colors[CommunityOf(mapping, n).value])]
  {
    if CommunityOf(mapping, n).Some? {
      GetInValues(mapping, n);
    }
  }

  /** Node `n` with attributes `attrs` after the overlay is switched off:
      a truthy snapshot entry is written back. */
  function RestoredNode(attrs: Attrs, n: string, saved: map<string, JsValue>): (r: Attrs)
    ensures !(n in saved && Truthy(saved[n])) ==> r == attrs
    ensures n in saved && Truthy(saved[n]) ==>
      r.Keys == attrs.Keys + {"color"} && r["color"] == saved[n]
      && forall k :: k in attrs && k != "color" ==> r[k] == attrs[k]
  {
    if n in saved && Truthy(saved[n]) then attrs["color" := saved[n]] else attrs
  }

  /** The nodes after the overlay is switched off. */
  function Restored(nodes: map<string, Attrs>, saved: map<string, JsValue>): map<string, Attrs> {
    map n | n in nodes :: RestoredNode(nodes[n], n, saved)
  }

  /** The loop that restores the snapshot. */
  method RestoreColours(g: Graph, saved: map<string, JsValue>)
    modifies g
    ensures g.edges == old(g.edges)
    ensures g.nodes == Restored(old(g.nodes), saved)
  {
    ghost var target := Restored(g.nodes, saved);
    var pending := g.nodes.Keys;
    while pending != {}
      invariant g.edges == old(g.edges)
      invariant Updating(old(g.nodes), g.nodes, pending, target)
      decreases |pending|
    {
      var node :| node in pending;
      UpdateStep(old(g.nodes), g.nodes, pending, target, node);
      if node in saved && Truthy(saved[node]) {
        g.SetNodeAttribute(node, "color", saved[node]);
      }
      pending := pending - {node};
    }
    UpdateDone(old(g.nodes), g.nodes, target);
  }

  /** Switching the overlay on and then off, with a snapshot of the graph on
      screen, gives back every node whose colour was truthy exactly. */
  lemma OverlayOnOffRestores(nodes: map<string, Attrs>, mapping: Entries<string, int>, colorOf: (nat, nat) -> string)
    requires forall n :: n in nodes ==> Truthy(Attr(nodes[n], "color"))
    ensures Restored(CommunityColoured(nodes, mapping, colorOf), Snapshot(nodes)) == nodes
  {
    var saved := Snapshot(nodes);
    forall n | n in nodes ensures RestoredNode(CommunityNode(nodes[n], n, mapping, colorOf), n, saved) == nodes[n] {
      NodeRoundTrip(nodes[n], n, mapping, colorOf, saved);
    }
  }

  lemma NodeRoundTrip(attrs: Attrs, n: string, mapping: Entries<string, int>, colorOf: (nat, nat) -> string, saved: map<string, JsValue>)
    requires Truthy(Attr(attrs, "color")) && n in saved && saved[n] == Attr(attrs, "color")
    ensures RestoredNode(CommunityNode(attrs, n, mapping, colorOf), n, saved) == attrs
  {
    var off := RestoredNode(CommunityNode(attrs, n, mapping, colorOf), n, saved);
    assert off.Keys == attrs.Keys;
  }

  /** Every node colour written at load time is truthy. */
  lemma FetchedColoursTruthy(nodes: map<string, Attrs>, filters: Filters, numberText: real -> string)
    ensures forall n :: n in FetchedNodes(nodes, filters, numberText) ==>
      Truthy(Attr(FetchedNodes(nodes, filters, numberText)[n], "color"))
  {
  }

  /** So on a freshly loaded graph, switching the overlay on and off again
      with a snapshot of that graph restores it exactly. */
  lemma OverlayRoundTrip(nodes: map<string, Attrs>, filters: Filters, numberText: real -> string,
                         mapping: Entries<string, int>, colorOf: (nat, nat) -> string)
    ensures var shown := FetchedNodes(nodes, filters, numberText);
      Restored(CommunityColoured(shown, mapping, colorOf), Snapshot(shown)) == shown
  {
    FetchedColoursTruthy(nodes, filters, numberText);
    OverlayOnOffRestores(FetchedNodes(nodes, filters, numberText), mapping, colorOf);
  }

  /** The lazy snapshot outlives the graph it was taken of: after the overlay
      has been used on one graph, a newly fetched graph in which node `user-1`
      is red comes back with the old graph's blue once the overlay is
      switched on and off, whatever the community colours. */
  lemma StaleSnapshotRestore(colorOf: (nat, nat) -> string)
    ensures var first := map["user-1" := map["color" := JStr("blue")]];
      var second := map["user-1" := map["color" := JStr("red")]];
      var saved := LazySnapshot(map[], first);
      var savedAgain := LazySnapshot(saved, second);
      && Restored(CommunityColoured(first, [("user-1", 0)], colorOf), saved) == first
      && Restored(CommunityColoured(second, [("user-1", 0)], colorOf), savedAgain) != second
  {
    var first := map["user-1" := map["color" := JStr("blue")]];
    var second := map["user-1" := map["color" := JStr("red")]];
    var saved := LazySnapshot(map[], first);
    assert saved == map["user-1" := JStr("blue")];
    OverlayOnOffRestores(first, [("user-1", 0)], colorOf);
    var savedAgain := LazySnapshot(saved, second);
    assert |saved| == 1;
    assert savedAgain == saved;
    var off := Restored(CommunityColoured(second, [("user-1", 0)], colorOf), savedAgain);
    assert off["user-1"] == RestoredNode(CommunityNode(second["user-1"], "user-1", [("user-1", 0)], colorOf), "user-1", saved);
    assert off["user-1"]["color"] == JStr("blue");
  }

  // ---------------------------------------------------------------------
  // The component state

  /** The state of the view that the modelled handlers read and write.  The
      category, query and model selections are the refs the dialog's inputs
      write; `reportedModel` is the last value given to `onModelChange`. */
  class View {
    var dataset: Option<string>
    var filterCategory: Option<string>
    var filterQuery: string
    var model: Option<string>
    var filters: Filters
    var popoverKey: Option<string>
    var graph: Graph?
    var louvainActive: bool
    var originalColors: map<string, JsValue>
    var highlighter: EventHandler.Highlighter?
    var reportedModel: Option<string>

    /** A JavaScript `Map` holds each key once. */
    ghost predicate Valid()
      reads this
    {
      DistinctKeys(filters)
    }

    constructor (dataset: Option<string>, highlighter: EventHandler.Highlighter?)
      ensures this.dataset == dataset && this.highlighter == highlighter
      ensures filterCategory == None && filterQuery == [] && model == None
      ensures filters == [] && popoverKey == None && graph == null
      ensures !louvainActive && originalColors == map[] && reportedModel == None
      ensures Valid()
    {
      this.dataset := dataset;
      this.highlighter := highlighter;
      filterCategory := None;
      filterQuery := [];
      model := None;
      filters := [];
      popoverKey := None;
      graph := null;
      louvainActive := false;
      originalColors := map[];
      reportedModel := None;
    }

    /** The feature list arrived: the first feature becomes the category. */
    method ReceiveFeatures(fields: seq<string>)
      modifies this
      ensures filterCategory == if |fields| > 0 then Some(fields[0]) else old(filterCategory)
      ensures filters == old(filters) && model == old(model) && graph == old(graph)
    {
      if |fields| > 0 {
        filterCategory := Some(fields[0]);
      }
    }

    /** The model list arrived: the first model becomes the selection. */
    method ReceiveModels(models: seq<string>)
      modifies this
      ensures model == if |models| > 0 then Some(models[0]) else old(model)
      ensures filters == old(filters) && filterCategory == old(filterCategory) && graph == old(graph)
    {
      if |models| > 0 {
        model := Some(models[0]);
      }
    }

    /** `addFilter`. */
    method AddFilter()
      requires Valid()
      modifies this
      ensures Valid()
      ensures filters == AddedFilter(old(filters), filterCategory, filterQuery)
      ensures filterCategory == old(filterCategory) && filterQuery == old(filterQuery)
      ensures popoverKey == old(popoverKey) && graph == old(graph) && model == old(model)
    {
      AddFilterIdempotent(filters, filterCategory, filterQuery);
      filters := AddedFilter(filters, filterCategory, filterQuery);
    }

    /** `removeFilter(key)`. */
    method RemoveFilter(key: string)
      requires Valid()
      modifies this
      ensures Valid()
      ensures filters == RemovedFilter(old(filters), key)
      ensures popoverKey == old(popoverKey) && graph == old(graph) && model == old(model)
    {
      filters := RemovedFilter(filters, key);
    }

    /** `handleColorButtonClick(key)`: opens the popover for `key`. */
    method OpenColorPopover(key: string)
      modifies this
      ensures popoverKey == Some(key)
      ensures filters == old(filters) && graph == old(graph) && model == old(model)
    {
      popoverKey := Some(key);
    }

    /** `handleColorSelect(color, close)`. */
    method HandleColorSelect(color: string, close: bool)
      requires Valid()
      modifies this
      ensures Valid()
      ensures filters == ColorAssigned(old(filters), old(popoverKey), color)
      ensures popoverKey == if close then None else old(popoverKey)
      ensures graph == old(graph) && model == old(model)
    {
      if TruthyText(popoverKey) {
        PutDistinct(filters, popoverKey.value, color);
      }
      filters := ColorAssigned(filters, popoverKey, color);
      if close {
        popoverKey := None;
      }
    }

    /** `fetchGraphData`, with the parsed graph (`null` when the request or
        the parse failed) and the top-k response (`None` when it failed) as
        inputs.  Returns the model name and the filter parameters of the
        requests, or `None` when no model is selected and nothing is sent. */
    method FetchGraphData(parsed: Graph?, topK: Option<TopKData>, numberText: real -> string)
      returns (request: Option<(string, seq<(string, string)>)>)
      modifies this, parsed
      ensures !TruthyText(old(model)) ==> request == None && unchanged(this) && (parsed != null ==> unchanged(parsed))
      ensures TruthyText(old(model)) ==>
        && request == Some((ModelName(old(model).value), RequestParams(old(filters))))
        && reportedModel == Some(ModelName(old(model).value))
        && filters == old(filters) && model == old(model) && louvainActive == old(louvainActive)
        && originalColors == old(originalColors)
      ensures TruthyText(old(model)) && parsed != null && topK.Some? ==>
        && graph == parsed
        && parsed.edges == TopKColoured(old(parsed.edges), topK.value)
        && parsed.nodes == FetchedNodes(old(parsed.nodes), filters, numberText)
      ensures TruthyText(old(model)) && !(parsed != null && topK.Some?) ==> graph == old(graph)
    {
      if !TruthyText(model) {
        return None;
      }
      var modelName := ModelName(model.value);
      request := Some((modelName, RequestParams(filters)));
      if parsed != null && topK.Some? {
        ColourTopKEdges(parsed, topK.value);
        ResolveNodeColours(parsed, filters, numberText);
        graph := parsed;
      }
      reportedModel := Some(modelName);
    }

    /** `toggleLouvainCommunities`, with the community response (`None` when
        it failed) and the colour function as inputs.  Returns whether the
        communities were requested. */
    method ToggleLouvain(mapping: Option<Entries<string, int>>, colorOf: (nat, nat) -> string) returns (requested: bool)
      modifies this, graph, highlighter
      ensures !(TruthyText(old(dataset)) && old(graph) != null) ==>
        !requested && unchanged(this) && (old(graph) != null ==> unchanged(old(graph)))
        && (old(highlighter) != null ==> unchanged(old(highlighter)))
      ensures TruthyText(old(dataset)) && old(graph) != null ==>
        && requested == !old(louvainActive)
        && louvainActive == !old(louvainActive)
        && graph == old(graph) && highlighter == old(highlighter) && filters == old(filters)
        && graph.edges == old(graph.edges)
      ensures TruthyText(old(dataset)) && old(graph) != null && !old(louvainActive) ==>
        && originalColors == LazySnapshot(old(originalColors), old(graph.nodes))
        && graph.nodes == (if mapping.Some? then CommunityColoured(old(graph.nodes), mapping.value, colorOf) else old(graph.nodes))
        && (highlighter != null && mapping.Some? ==> highlighter.settings == EventHandler.Settings(EventHandler.Identity, "#6c3cb8", 6))
        && (highlighter != null && mapping.None? ==> unchanged(highlighter))
      ensures TruthyText(old(dataset)) && old(graph) != null && old(louvainActive) ==>
        && originalColors == old(originalColors)
        && graph.nodes == Restored(old(graph.nodes), old(originalColors))
        && (highlighter != null ==> highlighter.settings == EventHandler.Settings(EventHandler.Identity, "#6c3cb8", 6))
    {
      if !TruthyText(dataset) || graph == null {
        return false;
      }
      var g := graph;
      if !louvainActive {
        requested := true;
        if |originalColors| == 0 {
          originalColors := SaveColours(g);
        }
        if mapping.Some? {
          ApplyCommunities(g, mapping.value, colorOf);
          if highlighter != null {
            highlighter.ResetSettings();
          }
        }
      } else {
        requested := false;
        RestoreColours(g, originalColors);
        if highlighter != null {
          highlighter.ResetSettings();
        }
      }
      louvainActive := !louvainActive;
    }
  }
}
