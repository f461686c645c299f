/** The part of a graphology graph the front end relies on: JavaScript
    attribute values, node and edge records, and a mutable graph object whose
    attributes are updated in place.  Graphs are "mixed" and not multi, the
    library default: `addEdge` adds a directed edge and refuses a second
    directed edge between the same ordered pair. */
module JsGraph {
  import opened Wrappers

  /** A JavaScript value as it can appear in an attribute bag. */
  datatype JsValue = JStr(str: string) | JNum(num: real) | JNaN | JBool(flag: bool) | JNull | JUndefined

  /** JavaScript truthiness. */
  predicate Truthy(v: JsValue) {
    match v
    case JStr(s) => s != []
    case JNum(n) => n != 0.0
    case JBool(b) => b
    case _ => false
  }

  type Attrs = map<string, JsValue>

  /** `attrs[key]`: `undefined` when the key is absent. */
  function Attr(attrs: Attrs, key: string): (v: JsValue)
    ensures key !in attrs ==> v == JUndefined
    ensures key in attrs ==> v == attrs[key]
  {
    if key in attrs then attrs[key] else JUndefined
  }

  /** An edge record; `undirected` edges connect both ways. */
  datatype Edge = Edge(source: string, target: string, undirected: bool, attrs: Attrs)

  /** The nodes sharing an edge of any kind with `n` (`graph.neighbors`). */
  function Neighbors(edges: seq<Edge>, n: string): (ns: set<string>)
    ensures forall m :: m in ns <==> exists i :: 0 <= i < |edges| && Touches(edges[i], n, m)
  {
    set i, m | 0 <= i < |edges| && m in {edges[i].source, edges[i].target} && Touches(edges[i], n, m) :: m
  }

  predicate Touches(e: Edge, a: string, b: string) {
    (e.source == a && e.target == b) || (e.source == b && e.target == a)
  }

  /** `e` leads from `a` to `b`: a directed edge `a -> b`, or an undirected
      edge between them. */
  predicate Leads(e: Edge, a: string, b: string) {
    (e.source == a && e.target == b) || (e.undirected && e.source == b && e.target == a)
  }

  /** The first edge satisfying `Leads(_, a, b)` with the wanted
      directedness. */
  function FirstLeading(edges: seq<Edge>, a: string, b: string, undirected: bool): (r: Option<nat>)
    ensures r.Some? ==> r.value < |edges| && Leads(edges[r.value], a, b) && edges[r.value].undirected == undirected
    ensures r.Some? ==> forall j :: 0 <= j < r.value ==> !(Leads(edges[j], a, b) && edges[j].undirected == undirected)
    ensures r.None? ==> forall j :: 0 <= j < |edges| ==> !(Leads(edges[j], a, b) && edges[j].undirected == undirected)
  {
    if edges == [] then None
    else if Leads(edges[0], a, b) && edges[0].undirected == undirected then Some(0)
    else
      match FirstLeading(edges[1..], a, b, undirected)
      case None => None
      case Some(i) => Some(i + 1)
  }

  /** `graph.edge(a, b)`: the directed edge `a -> b` if there is one,
      otherwise the undirected edge between `a` and `b`, otherwise none. */
  function EdgeFromTo(edges: seq<Edge>, a: string, b: string): (r: Option<nat>)
    ensures r.Some? ==> r.value < |edges| && Leads(edges[r.value], a, b)
    ensures r.None? <==> forall j :: 0 <= j < |edges| ==> !Leads(edges[j], a, b)
  {
    match FirstLeading(edges, a, b, false)
    case Some(i) => Some(i)
    case None => FirstLeading(edges, a, b, true)
  }

  /** A directed edge `a -> b` exists. */
  predicate HasDirectedEdge(edges: seq<Edge>, a: string, b: string) {
    exists i :: 0 <= i < |edges| && !edges[i].undirected && edges[i].source == a && edges[i].target == b
  }

  /** A graph object, mutated in place by the views that hold it. */
  class Graph {
    var nodes: map<string, Attrs>
    var edges: seq<Edge>

    /** Every edge joins two nodes of the graph. */
    ghost predicate Valid()
      reads this
    {
      forall i :: 0 <= i < |edges| ==> edges[i].source in nodes && edges[i].target in nodes
    }

    /** `new Graph()`. */
    constructor ()
      ensures nodes == map[] && edges == []
      ensures Valid()
    {
      nodes := map[];
      edges := [];
    }

    /** `addNode(id, attrs)`: refused (graphology throws) when `id` exists. */
    method AddNode(id: string, attrs: Attrs) returns (ok: bool)
      modifies this
      ensures ok <==> id !in old(nodes)
      ensures ok ==> nodes == old(nodes)[id := attrs]
      ensures !ok ==> nodes == old(nodes)
      ensures edges == old(edges)
      ensures old(Valid()) ==> Valid()
    {
      ok := id !in nodes;
      if ok {
        nodes := nodes[id := attrs];
      }
    }

    /** `addEdge(source, target)`: refused (graphology throws) when an
        endpoint is missing or the directed edge already exists. */
    method AddEdge(source: string, target: string, attrs: Attrs) returns (ok: bool)
      modifies this
      ensures ok <==> source in nodes && target in nodes && !HasDirectedEdge(old(edges), source, target)
      ensures ok ==> edges == old(edges) + [Edge(source, target, false, attrs)]
      ensures !ok ==> edges == old(edges)
      ensures nodes == old(nodes)
      ensures old(Valid()) ==> Valid()
    {
      ok := source in nodes && target in nodes;
      var i := 0;
      while ok && i < |edges|
        invariant 0 <= i <= |edges|
        invariant ok ==> forall j :: 0 <= j < i ==> !(!edges[j].undirected && edges[j].source == source && edges[j].target == target)
        invariant !ok ==> !(source in nodes && target in nodes) || HasDirectedEdge(edges, source, target)
      {
        if !edges[i].undirected && edges[i].source == source && edges[i].target == target {
          ok := false;
        }
        i := i + 1;
      }
      if ok {
        edges := edges + [Edge(source, target, false, attrs)];
      }
    }

    /** `setNodeAttribute(id, key, value)` on an existing node. */
    method SetNodeAttribute(id: string, key: string, value: JsValue)
      requires id in nodes
      modifies this
      ensures nodes == old(nodes)[id := old(nodes)[id][key := value]]
      ensures edges == old(edges)
      ensures old(Valid()) ==> Valid()
    {
      nodes := nodes[id := nodes[id][key := value]];
    }

    /** `setEdgeAttribute(edge, key, value)` on an existing edge. */
    method SetEdgeAttribute(i: nat, key: string, value: JsValue)
      requires i < |edges|
      modifies this
      ensures edges == old(edges)[i := old(edges)[i].(attrs := old(edges)[i].attrs[key := value])]
      ensures nodes == old(nodes)
      ensures old(Valid()) ==> Valid()
    {
      edges := edges[i := edges[i].(attrs := edges[i].attrs[key := value])];
    }
  }
}
