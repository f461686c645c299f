/** The selection highlighter of the graph view: a node click selects the
    node, reports its attributes and installs display reducers that enlarge
    the node, colour its neighbours and fade everything else; a stage click
    undoes the selection.  The reducers compute display copies and never
    touch the stored attributes. */
module EventHandler {
  import opened Wrappers
  import opened JsGraph

  /** Attributes not shown in the attribute panel. */
  const ExcludedKeys: set<string> := {"label", "type", "size", "x", "y", "color"}

  /** The display reducers installed in the renderer. */
  datatype Reducers =
    | Identity
    | Highlight(clicked: string, neighborColors: map<string, JsValue>)

  /** The renderer settings this component writes. */
  datatype Settings = Settings(reducers: Reducers, labelColor: string, labelRenderedSizeThreshold: int)

  /** `nodeData.size * 4` for the values a size can hold.  Sizes are GEXF
      numbers or the literal `2` the back end writes, so JavaScript's
      conversion of a numeric string (`"3" * 4` is 12) is not modelled:
      a string size reads as NaN here. */
  function TimesFour(v: JsValue): (r: JsValue)
    ensures v.JNum? ==> r == JNum(4.0 * v.num)
  {
    match v
    case JNum(n) => JNum(4.0 * n)
    case JBool(b) => JNum(if b then 4.0 else 0.0)
    case JNull => JNum(0.0)
    case _ => JNaN
  }

  /** The colours a node reducer may write. */
  const NeighbourOfGreen := "orange"
  const NeighbourOfOther := "green"
  const Faded := "#282828"

  /** The display record of node `node` with stored attributes `data`. */
  function NodeReducer(r: Reducers, node: string, data: Attrs): (out: Attrs)
    ensures r.Identity? ==> out == data
    ensures data.Keys <= out.Keys
    ensures r.Highlight? && node == r.clicked ==>
      out.Keys == data.Keys + {"size", "forceLabel"} && out["size"] == TimesFour(Attr(data, "size"))
      && out["forceLabel"] == JBool(true)
    ensures r.Highlight? && node != r.clicked && node in r.neighborColors ==>
      out.Keys == data.Keys + {"color"}
      && out["color"] == JStr(if r.neighborColors[node] == JStr("green") then NeighbourOfGreen else NeighbourOfOther)
    ensures r.Highlight? && node != r.clicked && node !in r.neighborColors ==>
      out.Keys == data.Keys + {"color", "zIndex", "label"}
      && out["color"] == JStr(Faded) && out["zIndex"] == JNum(-1.0) && out["label"] == JNull
    ensures forall k :: k in data && k !in {"size", "forceLabel", "color", "zIndex", "label"} ==> out[k] == data[k]
  {
    match r
    case Identity => data
    case Highlight(clicked, colors) =>
      if node == clicked then
        data["size" := TimesFour(Attr(data, "size"))]["forceLabel" := JBool(true)]
      else if node in colors then
        data["color" := JStr(if colors[node] == JStr("green") then NeighbourOfGreen else NeighbourOfOther)]
      else
        data["color" := JStr(Faded)]["zIndex" := JNum(-1.0)]["label" := JNull]
  }

  /** The display record of an edge: hidden unless it touches the clicked node. */
  function EdgeReducer(r: Reducers, e: Edge): (out: Attrs)
    ensures r.Identity? ==> out == e.attrs
    ensures r.Highlight? && (e.source == r.clicked || e.target == r.clicked) ==> out == e.attrs
    ensures r.Highlight? && e.source != r.clicked && e.target != r.clicked ==>
      out.Keys == e.attrs.Keys + {"hidden"} && out["hidden"] == JBool(true)
    ensures forall k :: k in e.attrs && k != "hidden" ==> out[k] == e.attrs[k]
  {
    match r
    case Identity => e.attrs
    case Highlight(clicked, _) =>
      if e.source == clicked || e.target == clicked then e.attrs else e.attrs["hidden" := JBool(true)]
  }

  /** For each neighbour of `clicked` reachable by `graph.edge(clicked, n)`,
      the `color` attribute of that edge (possibly undefined). */
  function NeighborColors(edges: seq<Edge>, clicked: string): (m: map<string, JsValue>)
    ensures forall n :: n in m <==> n in Neighbors(edges, clicked) && EdgeFromTo(edges, clicked, n).Some?
  {
    map n | n in Neighbors(edges, clicked) && EdgeFromTo(edges, clicked, n).Some? ::
      Attr(edges[EdgeFromTo(edges, clicked, n).value].attrs, "color")
  }

  /** The attribute bag shown for a clicked node: every attribute except the
      excluded display keys. */
  method FilterAttributes(data: Attrs) returns (filtered: Attrs)
    ensures forall k :: k in filtered <==> k in data && k !in ExcludedKeys
    ensures forall k :: k in filtered ==> filtered[k] == data[k]
  {
    filtered := map[];
    var pendingKeys := data.Keys;
    while pendingKeys != {}
      invariant pendingKeys <= data.Keys
      invariant forall k :: k in filtered <==> k in data && k !in pendingKeys && k !in ExcludedKeys
      invariant forall k :: k in filtered ==> filtered[k] == data[k]
      decreases |pendingKeys|
    {
      var key :| key in pendingKeys;
      if key !in ExcludedKeys {
        filtered := filtered[key := data[key]];
      }
      pendingKeys := pendingKeys - {key};
    }
  }

  /** The loop over the neighbours of `clicked` that records, for each one
      reachable by `graph.edge(clicked, neighbour)`, that edge's colour. */
  method CollectNeighborColors(edges: seq<Edge>, clicked: string) returns (colors: map<string, JsValue>)
    ensures colors == NeighborColors(edges, clicked)
  {
    var neighbors := Neighbors(edges, clicked);
    colors := map[];
    var pending := neighbors;
    while pending != {}
      invariant Collecting(edges, clicked, neighbors, pending, colors)
      decreases |pending|
    {
      var neighbor :| neighbor in pending;
      var edgeKey := EdgeFromTo(edges, clicked, neighbor);
      CollectStep(edges, clicked, neighbors, pending, colors, neighbor);
      if edgeKey.Some? {
        colors := colors[neighbor := Attr(edges[edgeKey.value].attrs, "color")];
      }
      pending := pending - {neighbor};
    }
    CollectDone(edges, clicked, colors);
  }

  /** Part way through the loop: the colours of the neighbours already
      visited. */
  ghost predicate Collecting(edges: seq<Edge>, clicked: string, neighbors: set<string>, pending: set<string>, colors: map<string, JsValue>) {
    && pending <= neighbors
    && (forall n :: n in colors <==> n in neighbors && n !in pending && EdgeFromTo(edges, clicked, n).Some?)
    && forall n :: n in colors ==> colors[n] == Attr(edges[EdgeFromTo(edges, clicked, n).value].attrs, "color")
  }

  /** One round of the loop. */
  lemma CollectStep(edges: seq<Edge>, clicked: string, neighbors: set<string>, pending: set<string>, colors: map<string, JsValue>, neighbor: string)
    requires Collecting(edges, clicked, neighbors, pending, colors) && neighbor in pending
    ensures var edgeKey := EdgeFromTo(edges, clicked, neighbor);
      Collecting(edges, clicked, neighbors, pending - {neighbor},
        if edgeKey.Some? then colors[neighbor := Attr(edges[edgeKey.value].attrs, "color")] else colors)
  {
  }

  lemma CollectDone(edges: seq<Edge>, clicked: string, colors: map<string, JsValue>)
    requires Collecting(edges, clicked, Neighbors(edges, clicked), {}, colors)
    ensures colors == NeighborColors(edges, clicked)
  {
  }

  /** The state behind the click handlers, together with the last values the
      handlers passed to the callbacks of the enclosing view. */
  class Highlighter {
    var clickedStatus: bool
    var settings: Settings
    /** Last value given to `setNodeAttributes`. */
    var nodeAttributes: Attrs
    /** Last value given to `setSelectedNode`. */
    var selectedNode: JsValue
    /** Last value given to `setInteractionHistory`. */
    var interactionHistory: JsValue

    constructor (initial: Settings)
      ensures !clickedStatus && settings == initial
      ensures nodeAttributes == map[] && selectedNode == JNull && interactionHistory == JNull
    {
      clickedStatus := false;
      settings := initial;
      nodeAttributes := map[];
      selectedNode := JNull;
      interactionHistory := JNull;
    }

    /** `resetSettings`: identity reducers and the default label style. */
    method ResetSettings()
      modifies this
      ensures settings == Settings(Identity, "#6c3cb8", 6)
      ensures clickedStatus == old(clickedStatus) && nodeAttributes == old(nodeAttributes)
      ensures selectedNode == old(selectedNode) && interactionHistory == old(interactionHistory)
    {
      settings := Settings(Identity, "#6c3cb8", 6);
    }

    /** A click on the background: undoes a selection, if there is one. */
    method ClickStage()
      modifies this
      ensures old(clickedStatus) ==>
        !clickedStatus && settings == Settings(Identity, "#6c3cb8", 6)
        && nodeAttributes == map[] && selectedNode == JNull
        && interactionHistory == old(interactionHistory)
      ensures !old(clickedStatus) ==>
        !clickedStatus && settings == old(settings) && nodeAttributes == old(nodeAttributes)
        && selectedNode == old(selectedNode) && interactionHistory == old(interactionHistory)
    {
      if clickedStatus {
        ResetSettings();
        nodeAttributes := map[];
        selectedNode := JNull;
        clickedStatus := false;
      }
    }

    /** A click on node `clicked` of `g`. */
    method ClickNode(g: Graph, clicked: string)
      requires clicked in g.nodes
      modifies this
      ensures clickedStatus
      ensures forall k :: k in nodeAttributes <==> k in g.nodes[clicked] && k !in ExcludedKeys
      ensures forall k :: k in nodeAttributes ==> nodeAttributes[k] == g.nodes[clicked][k]
      ensures selectedNode == if "user_id" in g.nodes[clicked] then g.nodes[clicked]["user_id"] else old(selectedNode)
      ensures interactionHistory ==
        if "interaction_history_str" in g.nodes[clicked] then g.nodes[clicked]["interaction_history_str"]
        else old(interactionHistory)
      ensures settings == Settings(Highlight(clicked, NeighborColors(g.edges, clicked)), "#ffffff",
                                   old(settings).labelRenderedSizeThreshold)
    {
      clickedStatus := true;
      var data := g.nodes[clicked];
      nodeAttributes := FilterAttributes(data);
      if "user_id" in data {
        selectedNode := data["user_id"];
      }
      if "interaction_history_str" in data {
        interactionHistory := data["interaction_history_str"];
      }
      var colors := CollectNeighborColors(g.edges, clicked);
      settings := settings.(reducers := Highlight(clicked, colors), labelColor := "#ffffff");
    }
  }

  /** Under the reducers a click installs, a node other than the clicked one
      is orange when the edge `graph.edge(clicked, node)` is green, green when
      that edge has any other colour, and faded when there is no such edge. */
  lemma HighlightedColour(edges: seq<Edge>, clicked: string, node: string, data: Attrs)
    requires node != clicked
    ensures var out := NodeReducer(Highlight(clicked, NeighborColors(edges, clicked)), node, data);
      var e := EdgeFromTo(edges, clicked, node);
      && (e.Some? && Attr(edges[e.value].attrs, "color") == JStr("green") ==> out["color"] == JStr("orange"))
      && (e.Some? && Attr(edges[e.value].attrs, "color") != JStr("green") ==> out["color"] == JStr("green"))
      && (e.None? ==> out["color"] == JStr("#282828") && out["label"] == JNull && out["zIndex"] == JNum(-1.0))
  {
    var e := EdgeFromTo(edges, clicked, node);
    if e.Some? {
      var i := e.value;
      assert Touches(edges[i], clicked, node);
      assert node in Neighbors(edges, clicked);
    }
  }
}
