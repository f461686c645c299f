# recviz in Dafny

recviz is a tool for exploring recommender-system datasets and models. A
Django back end reads datasets in RecBole's atomic-file format. It builds
user–item interaction graphs, optionally filtered by feature values, and
caches them as GEXF files. It finds Louvain communities, ranks the top-k
items of trained models, and compares two users' recommendations and
histories with set similarity measures. A React front end draws the graph.
It colours nodes by user-chosen filters and top-k recommendations, overlays
the communities, and highlights a clicked node's neighbourhood. A second
view builds a side-by-side comparison graph of two users' top-k lists and
histories.

This project models the deterministic core of both halves and proves what
each part promises:

| module | file | models |
|---|---|---|
| `ColorPalette` | `color_palette.dfy` | `recviz-frontend/src/ColorPalette.tsx`: hex validation, `hexToRgb`, `hexToHue`, the hex tail of `hslToHex`, the preset colours |
| `EventHandler` | `event_handler.dfy` | `recviz-frontend/src/EventHandler.tsx`: the click/stage state machine (class `Highlighter`) and the node and edge reducers |
| `JsGraph` | `js_graph.dfy` | the subset of a graphology graph the front end uses (class `Graph`), with its exceptions |
| `Visualiser` | `visualiser.dfy` | `recviz-frontend/src/Visualiser.tsx`: the filter colour map, top-k edge colouring, node colour resolution and the Louvain overlay (class `View`) |
| `TopKVisualiser` | `topk_visualiser.dfy` | `recviz-frontend/src/TopKVisualiser.tsx`: the request guard and the comparison graph builder (class `TopKView`) |
| `Dataset` | `dataset.dfy` | `recvizapi/Dataset.py`: the TSV parsers, the history counters, timestamps and validity (class `Dataset`) |
| `DatasetManager` | `dataset_manager.dfy` | `recvizapi/DatasetManager.py`: directory classification and the dataset registry (class `Manager`) |
| `InteractionGraph` | `graph.dfy` | `recvizapi/Graph.py` as specification functions: node records, filter matching, the filtered and unfiltered edge stages |
| `GraphObject` | `graph_object.dfy` | `recvizapi/Graph.py` as the imperative class `Graph`, its loops proved equal to `InteractionGraph`, the GEXF stripping and the Louvain part map |
| `GraphService` | `graph_service.dfy` | `recvizapi/GraphService.py`: `compute_graph_key` and the graph and Louvain caches (class `Service`) |
| `RecommendationService` | `recommendation_service.dfy` | `recvizapi/RecommendationService.py`: the model cache (class `Service`) and top-k shaping |
| `SimilarityService` | `similarity_service.dfy` | `recvizapi/SimilarityService.py`: overlap coefficient, Sørensen–Dice and Jaccard |
| `Views` | `views.dfy` | `recvizapi/views.py`: the history handlers, the id and slice logic of the similarity report, `get_dataset_models` |
| `Strings`, `PyValues`, `OrderedMaps`, `Sorting`, `Wrappers` | | shared models of Python and JavaScript string operations, Python values, insertion-ordered dictionaries, `sorted` and `sort(reverse=True)`, and `Option`/`Result` |

Dictionaries and JavaScript `Map`s keep insertion order, so they are
modelled as sequences of key–value pairs (`OrderedMaps.Entries`) wherever
the order is observable. Python exceptions are the `Err` side of a
`Result`, with the exception's type (`PyError`). Functions of libraries the
model cannot see are parameters: the JavaScript number-to-text conversion,
the community colour scale, the RecBole model loader and ranker, the graph
builder and the community detection.

## Model

| member | source | states |
|---|---|---|
| ColorPalette.PresetsMatchHexPattern | recviz-frontend/src/ColorPalette.tsx:8-15 | there are six preset swatches and each one passes the typed-input check `^#[0-9A-Fa-f]{6}$` |
| ColorPalette.LowerHexChar | recviz-frontend/src/ColorPalette.tsx:46-47 | the digit `toString(16)` writes for a value below 16 is a hex digit of that value |
| ColorPalette.ToHexString | recviz-frontend/src/ColorPalette.tsx:46-47 | `toString(16)` of a non-negative integer is a non-empty string of hex digits |
| ColorPalette.FixedHexValue | recviz-frontend/src/ColorPalette.tsx:46-48 | the k low digits of a value below 16^k denote that value |
| ColorPalette.ToHexStringOfPadded | recviz-frontend/src/ColorPalette.tsx:46-48 | adding 16^k before `toString(16)` writes `1` followed by exactly k digits, so `slice(1)` keeps the leading zeros |
| ColorPalette.ToUpperHexValue | recviz-frontend/src/ColorPalette.tsx:49 | `toUpperCase` keeps hex digits hex digits and keeps their value |
| ColorPalette.FormatHex | recviz-frontend/src/ColorPalette.tsx:43-49 | the colour `hslToHex` formats from rounded channels is `#` and six upper-case hex digits whose value is r·65536 + g·256 + b |
| ColorPalette.TrimStart | recviz-frontend/src/ColorPalette.tsx:56 | `parseInt` skips leading JavaScript white space: the result is a suffix of the input that starts with a non-space, and every character removed is white space |
| ColorPalette.HexPrefixLength | recviz-frontend/src/ColorPalette.tsx:56 | `parseInt` reads the longest prefix of hex digits and stops at the first other character |
| ColorPalette.ParseIntHexOfDigits | recviz-frontend/src/ColorPalette.tsx:56 | `parseInt(s, 16)` of a non-empty string of hex digits (without a `0x` prefix) is the value of those digits |
| ColorPalette.ParseIntHexBounded | recviz-frontend/src/ColorPalette.tsx:55-56 | the six characters `hexToRgb` parses give NaN or a value strictly between -16^6 and 16^6, so the bit operators see it unchanged |
| ColorPalette.Channels | recviz-frontend/src/ColorPalette.tsx:57-59 | the three shifted and masked channels lie in 0..255, NaN counting as 0 |
| ColorPalette.ChannelsOfValue | recviz-frontend/src/ColorPalette.tsx:57-59 | the channels of a 24-bit value are its three bytes, high to low |
| ColorPalette.HexToRgb | recviz-frontend/src/ColorPalette.tsx:53-61 | `hexToRgb` returns null exactly when the text without its leading `#` is not six characters long, and otherwise three channels in 0..255 |
| ColorPalette.HexToRgbOfPattern | recviz-frontend/src/ColorPalette.tsx:53-61 | any text that passes the typed-input check converts, each channel being its byte of the six-digit value |
| ColorPalette.FormatHexRoundTrip | recviz-frontend/src/ColorPalette.tsx:18-61 | the colour formatted from three channels passes the typed-input check and `hexToRgb` gives the same channels back |
| ColorPalette.HexToHue | recviz-frontend/src/ColorPalette.tsx:94-99 | `hexToHue` is 0 for text `hexToRgb` rejects, and otherwise the rounded hue of the parsed channels |
| ColorPalette.HandleHexChange | recviz-frontend/src/ColorPalette.tsx:127-135 | typed text is passed on, and the hue set to its `hexToHue`, exactly when it matches `^#[0-9A-Fa-f]{6}$`; otherwise the hue is left as it was |
| EventHandler.TimesFour | recviz-frontend/src/EventHandler.tsx:83 | a numeric size becomes four times itself |
| EventHandler.NodeReducer | recviz-frontend/src/EventHandler.tsx:79-99 | the identity reducer returns the stored attributes; the highlight reducer enlarges the clicked node fourfold and forces its label, colours a neighbour reached by an edge orange after a green edge and green otherwise, fades every other node (colour `#282828`, zIndex -1, no label), and leaves all other attributes as stored |
| EventHandler.EdgeReducer | recviz-frontend/src/EventHandler.tsx:102-108 | an edge touching the clicked node is shown as stored, any other edge is hidden, all other attributes unchanged |
| EventHandler.NeighborColors | recviz-frontend/src/EventHandler.tsx:68-76 | the colour map has exactly the neighbours of the clicked node that `graph.edge(clicked, neighbour)` reaches |
| EventHandler.FilterAttributes | recviz-frontend/src/EventHandler.tsx:51-57 | the attribute panel receives exactly the attributes outside `label, type, size, x, y, color`, with their stored values |
| EventHandler.CollectNeighborColors | recviz-frontend/src/EventHandler.tsx:68-76 | the loop over the neighbours builds the colour map: each reachable neighbour bound to the colour of its edge |
| EventHandler.CollectDone | recviz-frontend/src/EventHandler.tsx:70-76 | once every neighbour is visited, the partial map is the whole colour map |
| EventHandler.Highlighter.constructor | recviz-frontend/src/EventHandler.tsx:17-22 | the handler starts unclicked with the given settings and has passed nothing to its callbacks |
| EventHandler.Highlighter.ResetSettings | recviz-frontend/src/EventHandler.tsx:24-31 | identity reducers, label colour `#6c3cb8` and label threshold 6, nothing else changed |
| EventHandler.Highlighter.ClickStage | recviz-frontend/src/EventHandler.tsx:39-46 | a background click after a node click resets the settings, clears the attribute panel and the selection and ends the clicked state; without a prior click it changes nothing |
| EventHandler.Highlighter.ClickNode | recviz-frontend/src/EventHandler.tsx:47-111 | a node click sets the clicked state, shows the filtered attributes, selects `user_id` and shows `interaction_history_str` when present (keeping the previous values otherwise), and installs the highlight reducers with label colour `#ffffff` |
| EventHandler.HighlightedColour | recviz-frontend/src/EventHandler.tsx:70-99 | under the highlight, a node reached from the clicked node by a green edge turns orange, by another edge green, and a node with no such edge is faded and unlabelled |
| JsGraph.Attr | recviz-frontend/src/EventHandler.tsx:73 | reading an absent attribute gives `undefined`, a present one its stored value |
| JsGraph.FirstLeading | recviz-frontend/src/EventHandler.tsx:71 | the first edge leading from one node to the other with the wanted directedness, or none when no edge qualifies |
| JsGraph.EdgeFromTo | recviz-frontend/src/EventHandler.tsx:71 | `graph.edge(a, b)` finds an edge leading from `a` to `b`, and finds none exactly when no such edge exists |
| JsGraph.Graph.constructor | recviz-frontend/src/TopKVisualiser.tsx:63 | `new Graph()` has no nodes and no edges |
| JsGraph.Graph.AddNode | recviz-frontend/src/TopKVisualiser.tsx:71-95 | `addNode` adds the node exactly when its key is new (graphology throws otherwise), leaving the edges alone and keeping every edge between existing nodes |
| JsGraph.Graph.AddEdge | recviz-frontend/src/TopKVisualiser.tsx:137-153 | `addEdge` appends a directed edge exactly when both endpoints exist and that directed edge does not (graphology throws otherwise) |
| JsGraph.Graph.SetNodeAttribute | recviz-frontend/src/Visualiser.tsx:279-286 | `setNodeAttribute` changes one attribute of one node and nothing else |
| JsGraph.Graph.SetEdgeAttribute | recviz-frontend/src/Visualiser.tsx:265 | `setEdgeAttribute` changes one attribute of one edge and nothing else |
| Visualiser.FilterKey | recviz-frontend/src/Visualiser.tsx:104 | a filter key always contains the `::` separator |
| Visualiser.FilterKeySplit | recviz-frontend/src/Visualiser.tsx:104 | splitting a key on `::` gives back the category and the query, provided neither contains the separator |
| Visualiser.PaletteColoursAreNotSentinel | recviz-frontend/src/Visualiser.tsx:278 | no preset, no formatted hex colour and no typed colour that matches the hex pattern equals the "no colour yet" sentinel `#00000000` |
| Visualiser.AddedFilter | recviz-frontend/src/Visualiser.tsx:106-119 | a filter is added only when category and query are both non-empty, and only under a new key, which then holds the sentinel; otherwise the filters are unchanged |
| Visualiser.AddFilterIdempotent | recviz-frontend/src/Visualiser.tsx:106-119 | adding a filter twice is adding it once, re-adding never changes a chosen colour, and keys stay distinct |
| Visualiser.RemovedFilter | recviz-frontend/src/Visualiser.tsx:121-127 | after removal the key is absent, every other key keeps its colour, and removing an absent key changes nothing |
| Visualiser.ColorAssigned | recviz-frontend/src/Visualiser.tsx:140-149 | with a non-empty popover key, exactly that key gets the chosen colour; with none, the filters are unchanged |
| Visualiser.RequestParams | recviz-frontend/src/Visualiser.tsx:238-243 | one query parameter per filter, in order, naming the category and query parts of its key |
| Visualiser.ModelName | recviz-frontend/src/Visualiser.tsx:234-236 | a model name ending in `.pth` loses exactly that suffix; any other name is kept |
| Visualiser.TopKColoured | recviz-frontend/src/Visualiser.tsx:253-268 | an edge turns green exactly when it is the last edge of its ordered pair and its target is recommended to its source; all others are kept |
| Visualiser.LastOfPairUnique | recviz-frontend/src/Visualiser.tsx:257-258 | the edge map holds one edge per ordered pair |
| Visualiser.TopKColouredSimpleGraph | recviz-frontend/src/Visualiser.tsx:253-268 | in a graph with at most one edge per pair, an edge turns green exactly when its target is recommended to its source, and no other attribute changes |
| Visualiser.LastEdgeIndex | recviz-frontend/src/Visualiser.tsx:254-259 | the `forEachEdge` loop maps every ordered pair to the index of its last edge |
| Visualiser.UserColoured | recviz-frontend/src/Visualiser.tsx:262-267 | after the first `n` recommendations of one user, exactly the last edges from that user to those items are green |
| Visualiser.UserColouredStep | recviz-frontend/src/Visualiser.tsx:262-267 | one round of the inner loop greens the edge the map holds for the pair, if any, and nothing else |
| Visualiser.RecommendedByStep | recviz-frontend/src/Visualiser.tsx:262 | one more recommendation adds exactly its own pair |
| Visualiser.UserColouredFound | recviz-frontend/src/Visualiser.tsx:263-265 | when the pair has an edge, the round greens that edge |
| Visualiser.UserColouredMissing | recviz-frontend/src/Visualiser.tsx:263 | when the pair has no edge, the round changes nothing |
| Visualiser.ColourUserEdges | recviz-frontend/src/Visualiser.tsx:262-267 | the inner loop leaves the nodes alone and greens the user's recommended edges |
| Visualiser.ColourTopKEdges | recviz-frontend/src/Visualiser.tsx:253-268 | the whole edge-colouring pass leaves the nodes alone and produces the top-k colouring |
| Visualiser.TopKColouredEnds | recviz-frontend/src/Visualiser.tsx:265 | colouring never changes an edge's source or target |
| Visualiser.TopKColouredStep | recviz-frontend/src/Visualiser.tsx:261-268 | processing one more user of the response extends the colouring by that user's edges |
| Visualiser.RecommendedPrefix | recviz-frontend/src/Visualiser.tsx:261-262 | an item is recommended by a longer response prefix exactly when by the shorter one or by the added user |
| Visualiser.ResolvedColour | recviz-frontend/src/Visualiser.tsx:270-288 | non-circles are green; a circle takes its own filter's colour when that colour is non-empty and not the sentinel, and is blue otherwise |
| Visualiser.NodeFilterKey | recviz-frontend/src/Visualiser.tsx:273-276 | a node has a filter key exactly when both of its filter attributes are truthy |
| Visualiser.UpdateStep | recviz-frontend/src/Visualiser.tsx:270-288 | one round of a per-node loop rewrites one pending node and leaves the others as they were |
| Visualiser.UpdateDone | recviz-frontend/src/Visualiser.tsx:270-288 | when no node is pending, the loop has produced its target |
| Visualiser.ResolveNodeColours | recviz-frontend/src/Visualiser.tsx:270-288 | the node-colouring loop sets each node's colour as `ResolvedColour` says and leaves the edges alone |
| Visualiser.LazySnapshot | recviz-frontend/src/Visualiser.tsx:310-316 | a snapshot is taken only while the stored one is empty; otherwise the stored one is kept |
| Visualiser.SaveColours | recviz-frontend/src/Visualiser.tsx:311-314 | the loop records every node's colour attribute |
| Visualiser.FirstAppearances | recviz-frontend/src/Visualiser.tsx:328 | `Array.from(new Set(..))` holds each community id once, and exactly the ids that occur |
| Visualiser.FirstAppearancesOrder | recviz-frontend/src/Visualiser.tsx:328 | the distinct ids come in the order of their first occurrence |
| Visualiser.IndexOfPrefix | recviz-frontend/src/Visualiser.tsx:328 | appending values never moves the first position of a value already present |
| Visualiser.CommunityIndex | recviz-frontend/src/Visualiser.tsx:330 | the index of a community is a valid position holding that community |
| Visualiser.CommunityColours | recviz-frontend/src/Visualiser.tsx:329-333 | each community gets the colour of its position and the community count, and no other key is present |
| Visualiser.CommunityNode | recviz-frontend/src/Visualiser.tsx:335-340 | a node without a community is untouched; a node with one gets a string colour and keeps every other attribute |
| Visualiser.SameColourIffSameCommunity | recviz-frontend/src/Visualiser.tsx:328-340 | with a hue function that separates positions, two nodes get the same colour exactly when they share a community |
| Visualiser.CommunityColourInjective | recviz-frontend/src/Visualiser.tsx:328-333 | distinct communities get distinct colours under such a hue function |
| Visualiser.ApplyCommunities | recviz-frontend/src/Visualiser.tsx:328-340 | the overlay loop recolours every node by its community and leaves the edges alone |
| Visualiser.ColourNode | recviz-frontend/src/Visualiser.tsx:336-339 | one round of the loop changes only that node, as `CommunityNode` says |
| Visualiser.CommunityNodeIs | recviz-frontend/src/Visualiser.tsx:336-339 | the colour looked up in the table is the colour of the node's community |
| Visualiser.RestoredNode | recviz-frontend/src/Visualiser.tsx:347-351 | a node takes back its saved colour when that colour is truthy; otherwise it is untouched |
| Visualiser.RestoreColours | recviz-frontend/src/Visualiser.tsx:347-351 | the restore loop rewrites every node as `RestoredNode` says and leaves the edges alone |
| Visualiser.OverlayOnOffRestores | recviz-frontend/src/Visualiser.tsx:309-351 | switching the overlay on and off, with a snapshot of the graph shown, gives back every node exactly when all colours are truthy |
| Visualiser.NodeRoundTrip | recviz-frontend/src/Visualiser.tsx:336-349 | the per-node half of that round trip |
| Visualiser.FetchedColoursTruthy | recviz-frontend/src/Visualiser.tsx:270-288 | every colour written when a graph is loaded is truthy |
| Visualiser.OverlayRoundTrip | recviz-frontend/src/Visualiser.tsx:270-351 | on a freshly loaded graph the overlay on and off restores every node exactly |
| Visualiser.StaleSnapshotRestore | recviz-frontend/src/Visualiser.tsx:309-350 | the lazy snapshot outlives its graph: a second graph gets the first graph's colours back after the overlay is used |
| Visualiser.View.constructor | recviz-frontend/src/Visualiser.tsx:60-77 | the initial state: no selections, no filters, no graph, the overlay off, and no snapshot |
| Visualiser.View.ReceiveFeatures | recviz-frontend/src/Visualiser.tsx:83-89 | a non-empty feature list makes its first field the category; an empty one changes nothing |
| Visualiser.View.ReceiveModels | recviz-frontend/src/Visualiser.tsx:95-99 | a non-empty model list selects its first model; an empty one changes nothing |
| Visualiser.View.AddFilter | recviz-frontend/src/Visualiser.tsx:106-119 | the filters become `AddedFilter` of the old ones, and the keys stay distinct |
| Visualiser.View.RemoveFilter | recviz-frontend/src/Visualiser.tsx:121-127 | the filters become `RemovedFilter` of the old ones |
| Visualiser.View.OpenColorPopover | recviz-frontend/src/Visualiser.tsx:133-138 | the popover opens for the clicked key |
| Visualiser.View.HandleColorSelect | recviz-frontend/src/Visualiser.tsx:140-153 | the colour goes to the popover's key, and the popover closes when asked to |
| Visualiser.View.FetchGraphData | recviz-frontend/src/Visualiser.tsx:225-301 | without a model nothing is sent; otherwise the model name is reported and, when both responses arrived, the shown graph gets the top-k edge colours and the filter node colours |
| Visualiser.View.ToggleLouvain | recviz-frontend/src/Visualiser.tsx:303-356 | without a dataset or a graph nothing happens; otherwise the flag flips, switching on takes the lazy snapshot and applies the communities, switching off restores the snapshot, and the highlighter is reset |
| TopKVisualiser.Requests | recviz-frontend/src/TopKVisualiser.tsx:30-45 | nothing is requested unless the dataset, both models and both users are non-empty; otherwise the two top-k lists and the two histories are requested, each for its own user |
| TopKVisualiser.SliderValue | recviz-frontend/src/TopKVisualiser.tsx:167-175 | the slider hands over an integer from 1 to 50, clamping anything outside |
| TopKVisualiser.NodeIdInjective | recviz-frontend/src/TopKVisualiser.tsx:71-126 | two node ids are equal exactly when they name the same column and row |
| TopKVisualiser.AddColumn | recviz-frontend/src/TopKVisualiser.tsx:69-135 | one `forEach` over a list adds exactly that column's nodes and no edge |
| TopKVisualiser.FirstIndex | recviz-frontend/src/TopKVisualiser.tsx:141-150 | `indexOf` of a label gives its first row, never a later one |
| TopKVisualiser.AddLink | recviz-frontend/src/TopKVisualiser.tsx:99-150 | one inner round adds its edge when it links, and succeeds exactly when no pair has repeated |
| TopKVisualiser.AddRow | recviz-frontend/src/TopKVisualiser.tsx:97-152 | one outer round adds its row of edges and succeeds exactly when no pair has repeated |
| TopKVisualiser.AddPart | recviz-frontend/src/TopKVisualiser.tsx:95-153 | a nested `forEach` adds its edges in order and stops at the first repeated pair, as the exception `addEdge` throws would |
| TopKVisualiser.MatchEdgeIff | recviz-frontend/src/TopKVisualiser.tsx:95-103 | `user1-i` is linked to `user2-j` exactly when the two titles are equal |
| TopKVisualiser.HistoryEdgeIff | recviz-frontend/src/TopKVisualiser.tsx:137-153 | a recommendation is linked to a history row exactly when that row is the first with its label and the title contains the label |
| TopKVisualiser.HistoryNoDupIff | recviz-frontend/src/TopKVisualiser.tsx:137-153 | a history loop repeats a pair exactly when a label that some title contains occurs twice in the history |
| TopKVisualiser.FirstOnlySamePairs | recviz-frontend/src/TopKVisualiser.tsx:137-153 | restricting the history loops to first occurrences links the same pairs |
| TopKVisualiser.ThreePartsNoDup | recviz-frontend/src/TopKVisualiser.tsx:95-153 | the three edge loops never add a pair another one adds |
| TopKVisualiser.AsWrittenBuildsIff | recviz-frontend/src/TopKVisualiser.tsx:95-156 | the handler as written throws before `setGraph` exactly when the histories are drawn and one of them repeats a label that a title of the same user contains |
| TopKVisualiser.ShownNoDupIff | recviz-frontend/src/TopKVisualiser.tsx:105-153 | with the histories drawn, a pair repeats exactly when a history loop repeats one |
| TopKVisualiser.CorrectedAlwaysBuilds | recviz-frontend/src/TopKVisualiser.tsx:137-153 | restricted to first occurrences, the handler never adds a pair twice |
| TopKVisualiser.CorrectedSamePairs | recviz-frontend/src/TopKVisualiser.tsx:137-153 | the corrected handler draws exactly the edges the loops as written name |
| TopKVisualiser.RepeatedHistoryAborts | recviz-frontend/src/TopKVisualiser.tsx:137-144 | one recommendation "Heat" and the history `["Heat", "Heat"]` make the handler as written throw |
| TopKVisualiser.DrawOrderCases | recviz-frontend/src/TopKVisualiser.tsx:69-135 | the columns are drawn left recommendations, right recommendations, then both histories only when both are non-empty, with no column twice |
| TopKVisualiser.NodesHaveColumns | recviz-frontend/src/TopKVisualiser.tsx:69-135 | the drawn graph has every row of every drawn column |
| TopKVisualiser.NodesOnlyColumns | recviz-frontend/src/TopKVisualiser.tsx:69-135 | and no other node |
| TopKVisualiser.NodesCount | recviz-frontend/src/TopKVisualiser.tsx:69-135 | and exactly one node per row |
| TopKVisualiser.EndpointsFromColumns | recviz-frontend/src/TopKVisualiser.tsx:100-150 | every `addEdge` finds both of its endpoints |
| TopKVisualiser.DrawColumn | recviz-frontend/src/TopKVisualiser.tsx:69-135 | drawing one more column adds exactly its nodes |
| TopKVisualiser.AddRecommendations | recviz-frontend/src/TopKVisualiser.tsx:63-103 | on a fresh graph, the two recommendation columns and the equal-title edges |
| TopKVisualiser.AddHistories | recviz-frontend/src/TopKVisualiser.tsx:105-154 | the two history columns and the contained-label edges, stopping at a repeated pair |
| TopKVisualiser.BuildGraph | recviz-frontend/src/TopKVisualiser.tsx:63-154 | the handler body builds a fresh graph with exactly the drawn nodes and edges, and succeeds exactly when no pair is added twice |
| TopKVisualiser.TopKView.constructor | recviz-frontend/src/TopKVisualiser.tsx:28 | no graph is shown at first |
| TopKVisualiser.TopKView.ReceiveResults | recviz-frontend/src/TopKVisualiser.tsx:53-160 | missing lists count as empty; the graph is replaced by the built one exactly when the build did not throw, and is kept otherwise |
| InteractionGraph.NodeIdsDistinct | recvizapi/Graph.py:37-47 | node ids name their user or item uniquely, and no user node id is an item node id |
| InteractionGraph.UserNode | recvizapi/Graph.py:35-42 | a user node is the user's record plus its id `user-<id>`, label `User <id>`, shape circle, position (1, 1) and size 2, with every other field kept |
| InteractionGraph.ItemNode | recvizapi/Graph.py:45-52 | an item node is the item's record plus its id `item-<id>`, label `Item <id>`, shape square, position (1, 1) and size 2, with every other field kept |
| InteractionGraph.ParseQuery | recvizapi/Graph.py:64-70 | a query without `-` is an exact match; one with `-` is a range exactly when it splits into two integers, and is skipped otherwise |
| InteractionGraph.ParseRange | recvizapi/Graph.py:64-68 | `a-b` with two decimal numbers is the range from `a` to `b` |
| InteractionGraph.NegativeBoundSkipped | recvizapi/Graph.py:64-70 | a query with a negative lower bound splits into three parts and is skipped |
| InteractionGraph.Matches | recvizapi/Graph.py:73-96 | a record without the feature never matches; an exact query matches when the text of the value is the query; a range query matches when the integer value lies in the range, and a value `int` cannot read raises |
| InteractionGraph.MatchesUnmarked | recvizapi/Graph.py:74-90 | a filter on another feature sees a marked record as the unmarked one |
| InteractionGraph.MarkOverwrites | recvizapi/Graph.py:74-98 | a later mark replaces an earlier one |
| InteractionGraph.AddNode | recvizapi/Graph.py:77-109 | `add_node` adds the node or updates its attributes, and leaves every other node alone |
| InteractionGraph.Targets | recvizapi/Graph.py:71-99 | each query visits every user, then every item |
| InteractionGraph.FeatureClauses | recvizapi/Graph.py:63 | one parsed clause per query of a feature, in order |
| InteractionGraph.FilterClauses | recvizapi/Graph.py:62-63 | every clause of the filter dictionary, each parsed |
| InteractionGraph.MatchAllEffect | recvizapi/Graph.py:71-99 | one query marks and includes exactly the records it matches, adds every matched user as a node and every matched item only for a range query |
| InteractionGraph.LastMatchWins | recvizapi/Graph.py:58-99 | after all filters, each record carries the filter that matched it last, is included exactly when some filter matched it, and the graph has the matched users and the range-matched items as nodes |
| InteractionGraph.FilterStage | recvizapi/Graph.py:58-99 | the filter stage from fresh records: the included users and items are exactly the matched ones |
| InteractionGraph.FilteredGraph | recvizapi/Graph.py:58-114 | with filters, the edges are those of the included interactions, and the nodes are the matched users, the range-matched items and the edges' endpoints |
| InteractionGraph.FilteredGraphSucceeds | recvizapi/Graph.py:58-114 | with filters, a failing filter stage fails the build with its exception; otherwise the build succeeds iff the timestamps are present, each has a history, and every included interaction names a known user and item |
| InteractionGraph.EdgeStepAsWritten | recvizapi/Graph.py:111-114 | as written, a repeated interaction raises `TypeError` at `add_edge`; otherwise a step agrees with the corrected one |
| InteractionGraph.EdgeRunCorrected | recvizapi/Graph.py:105-134 | the corrected loop over one timestamp succeeds exactly when every included interaction names a known user and item, and adds exactly their edges and endpoints |
| InteractionGraph.EdgePassCorrected | recvizapi/Graph.py:101-134 | the corrected edge stage succeeds exactly when every timestamp has a history entry and all included interactions are known, and adds exactly their edges and endpoints |
| InteractionGraph.EdgeRunAsWritten | recvizapi/Graph.py:105-114 | as written, one timestamp's loop succeeds exactly when the corrected one does and no edge repeats, and then builds the same graph |
| InteractionGraph.EdgePassAsWritten | recvizapi/Graph.py:101-134 | the same over all timestamps |
| InteractionGraph.AddAllKeys | recvizapi/Graph.py:116-122 | the unfiltered node loop adds exactly one node per listed record |
| InteractionGraph.AddAllValues | recvizapi/Graph.py:116-122 | each listed record becomes its node's attributes, and no other node of that kind appears |
| InteractionGraph.AddAllOthers | recvizapi/Graph.py:116-122 | a node none of whose records is listed keeps its attributes |
| InteractionGraph.RunNodesKnown | recvizapi/Graph.py:126-130 | the endpoints of known interactions are user and item nodes |
| InteractionGraph.PassNodesKnown | recvizapi/Graph.py:124-130 | the same over all timestamps |
| InteractionGraph.EdgePassKeeps | recvizapi/Graph.py:124-134 | without filters the edge stage changes no node's attributes |
| InteractionGraph.UserNodesAdded | recvizapi/Graph.py:116-118 | the unfiltered user loop gives one node per user, carrying its record |
| InteractionGraph.ItemNodesAdded | recvizapi/Graph.py:120-122 | the item loop then adds one node per item and leaves the user nodes alone |
| InteractionGraph.UnfilteredGraph | recvizapi/Graph.py:115-134 | without filters, the graph is built exactly when the timestamps are given, each has a history entry and every interaction is known; it has every user and item as a node with its record, and one edge per interacting pair |
| InteractionGraph.UnfilteredEdges | recvizapi/Graph.py:124-134 | the unfiltered edge stage adds no node and keeps every node's attributes |
| InteractionGraph.AsWrittenAgrees | recvizapi/Graph.py:54-134 | whenever the code as written builds a graph, it is the corrected graph |
| InteractionGraph.UnfilteredAsWritten | recvizapi/Graph.py:115-134 | without filters, the code as written builds a graph exactly when the corrected one does and no user interacts twice with one item |
| InteractionGraph.RepeatedInteractionAborts | recvizapi/Graph.py:131-134 | one user who interacted twice with one item: the code as written raises; corrected, the graph has the one edge |
| GraphObject.Stripped | recvizapi/Graph.py:176-178 | every node loses its interaction history and keeps all its other attributes |
| GraphObject.StrippedIdempotent | recvizapi/Graph.py:176-178 | stripping twice strips nothing more |
| GraphObject.PreparedAll | recvizapi/Graph.py:34-52 | the preparation loops over every user and every item give exactly the user and item node records |
| GraphObject.PartsMeaning | recvizapi/Graph.py:167-171 | a label is in the community map exactly when it contains `user` and lies in some community, and it maps to the last community holding it |
| GraphObject.PartIn | recvizapi/Graph.py:167-171 | a label is in the community map exactly when it contains `user` and lies in some community |
| GraphObject.PartAt | recvizapi/Graph.py:167-171 | a label maps to a community that holds it, and no later community holds it |
| GraphObject.UserLabelsCounted | recvizapi/Graph.py:164-170 | every user node's label passes the `user` substring test |
| GraphObject.ItemLabelCounted | recvizapi/Graph.py:164-170 | an item whose id contains `user` passes it too |
| GraphObject.Graph.constructor | recvizapi/Graph.py:14-24 | a new graph object has no node records, no nodes, no edges, no file path and is not ready |
| GraphObject.Graph.PrepareNodes | recvizapi/Graph.py:31-52 | `prepare_nodes` adds the user node records and the item node records, and changes nothing else |
| GraphObject.Graph.PrepareUsers | recvizapi/Graph.py:34-42 | the user loop adds exactly the user node records |
| GraphObject.Graph.PrepareItems | recvizapi/Graph.py:44-52 | the item loop adds exactly the item node records |
| GraphObject.Graph.AddRecordNodes | recvizapi/Graph.py:116-122 | the unfiltered node loop adds one node per listed record |
| GraphObject.Graph.MatchQuery | recvizapi/Graph.py:71-99 | one query's loops over the users and the items compute what `MatchAll` says, stopping at the first exception |
| GraphObject.Graph.MatchUsers | recvizapi/Graph.py:71-92 | the user loop of one query |
| GraphObject.Graph.MatchItems | recvizapi/Graph.py:78-99 | the item loop of one query |
| GraphObject.Graph.ApplyFilters | recvizapi/Graph.py:58-99 | the whole filter stage computes what `ApplyClauses` says, stopping at the first exception |
| GraphObject.Graph.ApplyFeature | recvizapi/Graph.py:62-99 | the queries of one feature in turn |
| GraphObject.Graph.AddEdges | recvizapi/Graph.py:101-134 | the edge loops compute what `EdgePass` says, stopping at the first exception; with `asWritten`, a repeated user–item pair raises `TypeError` as the three-argument `add_edge` call does, and without it the edge is kept |
| GraphObject.Graph.AddRun | recvizapi/Graph.py:102-114 | the interactions of one timestamp in turn, as `EdgeRun` says, stopping at the first exception |
| GraphObject.Graph.AddInteraction | recvizapi/Graph.py:105-114 | one interaction as `EdgeStep` says: skipped unless included, `KeyError` for an unknown item or user, `TypeError` for a repeated pair when `asWritten` |
| GraphObject.Graph.AssembleGraph | recvizapi/Graph.py:54-134 | `assemble_graph` computes what `Assemble` says: the filter stage or every node, then the edges; with `asWritten` it raises `TypeError` on a repeated user–item pair, as the source does |
| GraphObject.Graph.WriteGexf | recvizapi/Graph.py:174-181 | the file path is the cache directory joined with `<key>.gexf`, the nodes lose their interaction history, and the graph is ready |
| GraphObject.Graph.LouvainParts | recvizapi/Graph.py:158-172 | the community loop computes the user-label community map |
| Dataset.Table | recvizapi/Dataset.py:39-63 | one row of fields per line, in order |
| Dataset.FieldName | recvizapi/Dataset.py:38-61 | a header field without its `:type` suffix is the part before the first colon |
| Dataset.SplitHead | recvizapi/Dataset.py:38-61 | the first piece of a split is a separator-free prefix, followed by the separator unless it is the whole string |
| Dataset.Names | recvizapi/Dataset.py:49-61 | one field name per header field, in order |
| Dataset.HeaderNames | recvizapi/Dataset.py:36-61 | a header always declares at least one field name, even an empty header |
| Dataset.ParseTsv | recvizapi/Dataset.py:35-63 | a file is read as its header's field names and the fields of every later line |
| Dataset.ParseAllSnoc | recvizapi/Dataset.py:17-28 | reading one more file adds its parse at the end |
| Dataset.Strs | recvizapi/Dataset.py:45 | each field is stored as a string value |
| Dataset.UserRowsCounted | recvizapi/Dataset.py:39-45 | user rows whose header does not overwrite the two reserved fields keep every history counter equal to its history's length, and add each row's user |
| Dataset.UserRowsKeep | recvizapi/Dataset.py:39-45 | a user, once present, is never dropped |
| Dataset.ItemRowShape | recvizapi/Dataset.py:51-56 | an item row fails exactly when it has more columns than the header; otherwise it replaces one item's record with exactly the header names present, each mapped to its last column |
| Dataset.CountInteraction | recvizapi/Dataset.py:68-70 | counting an interaction of a known user keeps the counter equal to the history length and appends the entry; an unknown user raises `KeyError` |
| Dataset.RowStamps | recvizapi/Dataset.py:64 | each row's timestamp is its last column |
| Dataset.InterRowShape | recvizapi/Dataset.py:63-71 | one interaction row adds its entry to its timestamp's group and records the timestamp |
| Dataset.InterRowsStamps | recvizapi/Dataset.py:62-71 | the rows record each timestamp once, exactly those of the rows, keep the users and leave at least one group when there was a row |
| Dataset.InterRowsHistory | recvizapi/Dataset.py:65-67 | the timestamp groups already present persist |
| Dataset.InterRowsCounted | recvizapi/Dataset.py:68-70 | interaction rows keep every history counter equal to its history's length |
| Dataset.UserFilesCounted | recvizapi/Dataset.py:17-45 | user files without the reserved names keep every counter equal to its history length, and drop no user |
| Dataset.InterFilesStamps | recvizapi/Dataset.py:27-71 | after the interaction files, the timestamps are exactly those of the last file, each once, because each file starts a fresh set |
| Dataset.InterFilesCounted | recvizapi/Dataset.py:27-74 | interaction files keep every counter equal to its history length |
| Dataset.HistoryTextsCounted | recvizapi/Dataset.py:72-74 | adding the history text changes neither the counter nor the history |
| Dataset.InterFilesHistory | recvizapi/Dataset.py:27-67 | there are timestamp groups after the files exactly when there were some before or a file has a data row |
| Dataset.AssignFields | recvizapi/Dataset.py:42-45 | the column loop stores each header name's field in turn |
| Dataset.ReadTsv | recvizapi/Dataset.py:35-40 | reading a file gives its parse |
| Dataset.ReadRows | recvizapi/Dataset.py:39-40 | `for line in f` gives each line's fields |
| Dataset.ReadFiles | recvizapi/Dataset.py:17-28 | reading each file in turn gives their parses |
| Dataset.ReadUserRows | recvizapi/Dataset.py:39-45 | the row loop of `load_user_features` |
| Dataset.ReadItemRows | recvizapi/Dataset.py:51-56 | the row loop of `load_item_features` |
| Dataset.ReadInterRows | recvizapi/Dataset.py:62-71 | the row loop of `load_inter_file` |
| Dataset.InterLine | recvizapi/Dataset.py:63-71 | the body of that loop |
| Dataset.AddHistoryTexts | recvizapi/Dataset.py:72-74 | the final pass gives each user with a history its history's text |
| Dataset.SortedKeys | recvizapi/Dataset.py:24-25 | `sorted(list(m.keys()))` lists every key once, sorted |
| Dataset.Dataset.constructor | recvizapi/Dataset.py:5-15 | the initial attributes: the one built-in user feature, no mappings, no ids, no timestamps, not valid |
| Dataset.Dataset.Features | recvizapi/Dataset.py:88-89 | the user features followed by the item features |
| Dataset.Dataset.LoadUserFeatures | recvizapi/Dataset.py:34-45 | a user file appends its field names to the user features and updates the user mapping row by row |
| Dataset.Dataset.LoadItemFeatures | recvizapi/Dataset.py:47-56 | an item file appends its field names to the item features and replaces the record of each row's item |
| Dataset.Dataset.LoadInterFile | recvizapi/Dataset.py:58-74 | an interaction file resets the timestamp set, groups its rows by timestamp and counts each known user's interactions |
| Dataset.Dataset.LoadUserFiles | recvizapi/Dataset.py:17-18 | each user file in turn |
| Dataset.Dataset.LoadItemFiles | recvizapi/Dataset.py:20-21 | each item file in turn |
| Dataset.Dataset.LoadInterFiles | recvizapi/Dataset.py:27-28 | each interaction file in turn |
| Dataset.Dataset.ListIds | recvizapi/Dataset.py:24-25 | the user and item ids are the sorted keys of the two mappings |
| Dataset.Dataset.CheckValid | recvizapi/Dataset.py:30-32 | the dataset becomes valid, with its timestamps sorted, exactly when there is a timestamp group and a timestamp set |
| Dataset.Open | recvizapi/Dataset.py:4-32 | the constructor on the files' lines: the first exception, or a fresh dataset holding what the loaders compute |
| Dataset.Build | recvizapi/Dataset.py:4-32 | the same on files already read |
| Dataset.LoadCases | recvizapi/Dataset.py:17-32 | the interaction files are read exactly when both mappings are non-empty |
| Dataset.ValidExactly | recvizapi/Dataset.py:23-32 | a dataset is valid exactly when both mappings are non-empty and some interaction file has a data row |
| Dataset.ValidDataset | recvizapi/Dataset.py:23-74 | a valid dataset's timestamps are those of the last interaction file, each once; its users are those of the user files; and without reserved header names every counter equals its history length |
| SimilarityService.Elements | recvizapi/SimilarityService.py:8-9 | `set(a)` holds exactly the elements of the list, and is empty exactly for the empty list |
| SimilarityService.OverlapCoefficient | recvizapi/SimilarityService.py:7-10 | the overlap coefficient lies between 0 and 1, and is undefined (`ZeroDivisionError`) exactly when either list is empty |
| SimilarityService.SorensenDice | recvizapi/SimilarityService.py:12-15 | the Sørensen–Dice coefficient lies between 0 and 1, and is undefined exactly when both lists are empty |
| SimilarityService.Jaccard | recvizapi/SimilarityService.py:17-20 | the Jaccard index lies between 0 and 1, and is undefined exactly when both lists are empty |
| SimilarityService.DuplicatesIgnored | recvizapi/SimilarityService.py:7-20 | the measures see only the sets: repeating or reordering elements changes none of them |
| SimilarityService.Symmetric | recvizapi/SimilarityService.py:7-20 | all three measures are symmetric |
| SimilarityService.IdenticalIsOne | recvizapi/SimilarityService.py:7-20 | a non-empty list is fully similar to itself under every measure |
| SimilarityService.DisjointIsZero | recvizapi/SimilarityService.py:7-20 | lists with nothing in common have similarity 0 whenever it is defined |
| SimilarityService.OneMeansSameSets | recvizapi/SimilarityService.py:7-20 | Dice and Jaccard are 1 only for equal sets, and the overlap coefficient only when one set contains the other |
| Sorting.SortStrings | recvizapi/GraphService.py:8-10 | `sorted` gives an ascending permutation of its input |
| Sorting.SortStringsPermutationInvariant | recvizapi/GraphService.py:8-10 | `sorted` depends only on the elements, not on their order |
| Sorting.SortStringsDistinct | recvizapi/Dataset.py:24-25 | sorting a duplicate-free list keeps it duplicate-free |
| Sorting.SortedCopy | recvizapi/Dataset.py:24-25 | `sorted(list(..))` as a loop: sorted, a permutation, and duplicate-free when its input is |
| Sorting.SortDesc | recvizapi/RecommendationService.py:41 | `sort(key=score, reverse=True)` gives a permutation in descending score order that keeps the input order among equal scores |
| GraphService.GraphKeyOf | recvizapi/GraphService.py:4-13 | without filters the key is the dataset name; with filters it starts with the name and `_` |
| GraphService.ComputeGraphKey | recvizapi/GraphService.py:4-13 | the loop over the sorted features computes the graph key |
| GraphService.KeyPartsSnoc | recvizapi/GraphService.py:8-11 | one more feature adds its part at the end |
| GraphService.KeyOrderIndependent | recvizapi/GraphService.py:8-12 | the key depends neither on the order of the features nor on the order of each feature's values |
| GraphService.KeyPartSame | recvizapi/GraphService.py:9-11 | a feature with the same values in any order has the same part |
| GraphService.KeyPartsSame | recvizapi/GraphService.py:8-11 | equal parts feature by feature give equal part lists |
| GraphService.KeyExample | recvizapi/test_graphservice.py:52-55 | `{"age": ["30", "25"]}` on `ds1` gives the key `ds1_age:25,30` |
| GraphService.ExampleParts | recvizapi/test_graphservice.py:52-55 | the parts of that example are `["age:25,30"]` |
| GraphService.KeyOfParts | recvizapi/GraphService.py:12-13 | once the parts are known, the key is the name, `_` and the parts joined with `_` |
| GraphService.StemExactly | recvizapi/GraphService.py:23-24 | a stem names exactly one `.gexf` file name |
| GraphService.GexfFilesExactly | recvizapi/GraphService.py:22-24 | a key is cached at start-up exactly when `<key>.gexf` is in the directory, and then maps to its path |
| GraphService.CachedFileAnswers | recvizapi/GraphService.py:22-29 | a GEXF file present at start-up answers `get_graph` for its dataset without filters |
| GraphService.Service.constructor | recvizapi/GraphService.py:16-24 | the cache directory is the given path and the cache holds the directory's GEXF files |
| GraphService.Service.GetGraph | recvizapi/GraphService.py:27-37 | a cached entry is answered without building; otherwise the graph is built under its key, cached and returned; an answer is what the cache then holds |
| GraphService.Service.GetLouvain | recvizapi/GraphService.py:39-47 | a cached partition is answered without detecting; otherwise it is computed under `<key>_louvain`, cached and returned |
| GraphService.Open | recvizapi/GraphService.py:16-24 | a missing cache directory raises `EnvironmentError`; otherwise a fresh service over the directory's listing |
| DatasetManager.SuffixesExclusive | recvizapi/DatasetManager.py:17-23 | no name ends in two of the three data suffixes, and `models` ends in none |
| DatasetManager.ModelFilesAppend | recvizapi/DatasetManager.py:26-28 | checkpoints over two listings are those of the first, then of the second |
| DatasetManager.ClassifyFilesStep | recvizapi/DatasetManager.py:16-22 | one entry joins at most one of the three file lists |
| DatasetManager.ClassifyFiles | recvizapi/DatasetManager.py:16-22 | the classification keeps, in listing order, exactly the entries with each suffix |
| DatasetManager.ClassifyModels | recvizapi/DatasetManager.py:23-28 | the classification records the `.pth` files of every `models` directory, and nothing else |
| DatasetManager.ModelFilesExactly | recvizapi/DatasetManager.py:26-28 | a checkpoint is recorded exactly when its name ends in `.pth`, under the `models` directory joined with that name |
| DatasetManager.Contents | recvizapi/DatasetManager.py:31-36 | the files handed to the dataset, in order |
| DatasetManager.VerdictMeaning | recvizapi/DatasetManager.py:30-38 | a directory is kept exactly when it has user and item files and a valid dataset, with its own checkpoints; it raises exactly when loading it raises |
| DatasetManager.Verdicts | recvizapi/DatasetManager.py:8-38 | one verdict per directory entry, in listing order |
| DatasetManager.RegisteredExactly | recvizapi/DatasetManager.py:37-38 | the registry holds exactly the kept names, and a kept directory not followed by another of its name keeps its checkpoints |
| DatasetManager.RegistryRaises | recvizapi/DatasetManager.py:8-38 | the loop raises exactly when some directory raises, with the first one's exception |
| DatasetManager.RegistryNext | recvizapi/DatasetManager.py:8-38 | the loop after one more turn |
| DatasetManager.RegistryStops | recvizapi/DatasetManager.py:8-38 | an exception ends the loop |
| DatasetManager.RegistryNames | recvizapi/DatasetManager.py:5-38 | the constructor raises exactly when loading some candidate directory raises; otherwise a name is registered exactly when some directory of that name is admitted, with the checkpoints of the last such directory |
| DatasetManager.Admit | recvizapi/DatasetManager.py:9-38 | one turn of the directory loop, keeping every registered dataset valid and named after its directory |
| DatasetManager.Store | recvizapi/DatasetManager.py:31-38 | an exception is passed on, and a valid dataset is stored under its directory's name with its checkpoints |
| DatasetManager.RegisteredPut | recvizapi/DatasetManager.py:37-38 | storing a valid dataset under its own name keeps the registry's invariant |
| DatasetManager.ClassifyDir | recvizapi/DatasetManager.py:16-28 | the classification loop of one directory |
| DatasetManager.ListModels | recvizapi/DatasetManager.py:26-28 | the loop over a `models` directory |
| DatasetManager.Manager.constructor | recvizapi/DatasetManager.py:7 | the registry starts empty |
| DatasetManager.Manager.Scan | recvizapi/DatasetManager.py:8-38 | the constructor's loop over the datasets directory computes the registry, stopping at the first exception |
| DatasetManager.Manager.AvailableDatasets | recvizapi/DatasetManager.py:42-43 | the registered names, each exactly when it has an entry |
| DatasetManager.Manager.GetDataset | recvizapi/DatasetManager.py:45-47 | the entry of a registered name, and `None` for any other |
| DatasetManager.Manager.AvailableModels | recvizapi/DatasetManager.py:49-53 | the checkpoints of a registered dataset, and `None` for any other |
| DatasetManager.TableGet | recvizapi/DatasetManager.py:45-53 | looking a name up in the checkpoint table is looking it up in the registry |
| DatasetManager.Open | recvizapi/DatasetManager.py:5-40 | a fresh manager whose registry is what the directory loop gives, or the exception a dataset raised |
| RecommendationService.Records | recvizapi/RecommendationService.py:32-40 | one entry per ranked `(token, score)` pair, in the model's order: the item's `movie_title` or `Unknown ID <token>`, the node `item-<token>` and the score |
| RecommendationService.Ranked | recvizapi/RecommendationService.py:33-41 | a user's list is sorted by score from the highest down, is a permutation of the entries, and keeps entries of equal score in the model's order (stable sort) |
| RecommendationService.RankedEntries | recvizapi/RecommendationService.py:31-41 | a user's list has one entry per ranked pair, and an entry is in it exactly when it is the title, node and score of one of the pairs |
| RecommendationService.TopK | recvizapi/RecommendationService.py:26-43 | the dictionary has a `user-<token>` key exactly for the ranked users, and the last row of each user gives that user's sorted list |
| RecommendationService.UserKeyInjective | recvizapi/RecommendationService.py:42 | two users with the same `user-` key have the same token |
| RecommendationService.RecommendationsExactly | recvizapi/RecommendationService.py:29-43 | for every ranking, the keys of the result are exactly the `user-` keys of the ranked users, each bound to the list of its last row |
| RecommendationService.TopKExample | recvizapi/test_recommendationservice.py:69-73 | the unit test's ranking yields `user-1` with `Test Movie` (item-1, 0.9) first and `Unknown ID 2` (item-2, 0.8) second |
| RecommendationService.ExampleRecords | recvizapi/RecommendationService.py:33-40 | the test's titles: a known item gets its `movie_title`, an unknown one `Unknown ID 2` |
| RecommendationService.SingleRow | recvizapi/RecommendationService.py:31-43 | a ranking of one user binds that user's key to its sorted list |
| RecommendationService.CheckpointRegistered | recvizapi/RecommendationService.py:14-18 | the checkpoint the service finds is the one the dataset registry lists for the dataset and model, and none when either is unknown |
| RecommendationService.Service.constructor | recvizapi/RecommendationService.py:5-7 | the service keeps the manager and starts with an empty model cache |
| RecommendationService.Service.LoadModel | recvizapi/RecommendationService.py:9-24 | a cached pair is answered from the cache; an unknown dataset or model answers None and caches nothing; otherwise the loader's error propagates uncached or its bundle is cached and returned; cached entries never change |
| RecommendationService.Service.TopKAll | recvizapi/RecommendationService.py:45-48 | once loaded, the lists rank every user of the dataset; an unknown model fails as unpacking None does (TypeError) or with the loader's error; the cache only grows |
| RecommendationService.Service.TopKUid | recvizapi/RecommendationService.py:50-53 | the same for the single user `uid` |
| RecommendationService.RankUsers | recvizapi/RecommendationService.py:26-43 | on a loaded model, the lists are those of the model's ranking, or the ranking's exception |
| Views.LastK | recvizapi/views.py:137-144 | Python's `xs[-k:]`: the last `k` elements as a suffix of the list, and the whole list when `k` is 0 or exceeds its length |
| Views.ItemIdRoundTrip | recvizapi/views.py:102-103 | the id read back from a node `item-<token>` is the token, for a token without `-` |
| Views.DashedItemId | recvizapi/views.py:102-103 | a token holding `-` comes back as its last piece only |
| Views.TitlesExactly | recvizapi/views.py:161-162 | the loop gives one title per interaction in order (the item's `movie_title` or `Unknown ID <id>`) and raises KeyError exactly when an interaction has no item id |
| Views.AppendTitles | recvizapi/views.py:161-162 | the loop computes the titles of the history, up to the first exception |
| Views.TitlesStop | recvizapi/views.py:161-162 | once an interaction raises, later interactions change nothing |
| Views.HistoryK | recvizapi/views.py:81-86 | a non-empty answer needs a known user holding a history of at least `k` interactions |
| Views.HistoryKTitles | recvizapi/views.py:81-86 | a history shorter than `k` gives no titles; otherwise the titles of its last `k` interactions (all of them for `k == 0`), or KeyError when one of those has no item id |
| Views.FullHistoryIsLastZero | recvizapi/views.py:158-162 | the whole-history handler agrees with the last-`k` handler at `k == 0` |
| Views.InteractionHistoryK | recvizapi/views.py:73-87 | `get_interaction_history_k` answers the titles for a valid registered dataset, and a non-empty answer only then |
| Views.UserInteractionHistory | recvizapi/views.py:150-163 | `get_user_interaction_history` likewise for the whole history |
| Views.GraphSimilarityCheck | recvizapi/views.py:212-219 | an empty first history is reported first, an empty second one only after a non-empty first, and both histories are compared only when both are non-empty |
| Views.DatasetModels | recvizapi/views.py:54-59 | an unknown dataset lists no models |
| Views.DatasetModelsLoadable | recvizapi/views.py:54-59 | the names listed are exactly those the recommendation service finds a checkpoint for |
| Views.ItemIds | recvizapi/views.py:115-117 | one item id per interaction, in order, and KeyError exactly when an interaction has none |
| Views.ReadHistory | recvizapi/views.py:114-117 | a user's history is read as the text of each interaction paired with its item id, both lists of the same length |
| Views.RecTitles | recvizapi/views.py:100-101 | one title per recommendation, in order |
| Views.RecIds | recvizapi/views.py:102-103 | one id per recommendation, in order: the text after the last `-` of its node |
| Views.RecIdsTokens | recvizapi/views.py:102-103 | the ids of a ranked list are, as a set, the ranked item tokens when no token holds `-` |
| Views.SimilarityReport | recvizapi/views.py:95-148 | no recommendations raise StopIteration; a report needs both users known with non-empty histories, and compares each user's last `k` history ids with its recommendation ids; otherwise the answer is empty |
| Strings.Split | recvizapi/Dataset.py:36-40 | `split(sep)` gives at least one part, no part holds the separator, and joining the parts with it gives back the text |
| Strings.SplitJoin | recvizapi/Dataset.py:36-45 | splitting on one character undoes joining on it when no part contains it |
| Strings.Strip | recvizapi/Dataset.py:36-40 | `strip()` keeps a contiguous piece of the text that neither starts nor ends in whitespace, and everything it removes before and after that piece is whitespace |
| Strings.StripNoWhitespaceEnds | recvizapi/Graph.py:67-68 | a text without whitespace at its ends is left unchanged by the `strip()` inside `int()` |
| Strings.NatToStringInjective | recvizapi/views.py:80 | different user ids have different decimal texts |
| Strings.PathJoin | recvizapi/DatasetManager.py:9-28 | `os.path.join`: an absolute second part replaces the first; otherwise the result starts with the first part and ends with the second, with one `/` between |
| PyValues.Int | recvizapi/Graph.py:67-80 | `int()` keeps an integer, parses a decimal string, raises TypeError on a list and ValueError on other text |
| PyValues.IntOfStr | recvizapi/Graph.py:73-88 | an integer attribute's text parses back to the integer |
| PyValues.ReprAll | recvizapi/Dataset.py:74 | the text of a history has one piece per interaction, each its `repr` |
| PyValues.ReprString | recvizapi/views.py:114-116 | `repr` of a string opens and closes with the quote Python chooses: `"` when the text holds `'` but no `"`, otherwise `'`; backslash, that quote, tab, newline, carriage return and the non-printable characters up to U+00FF are escaped |
| PyValues.ReadEscaped | recvizapi/views.py:114-116 | the escaped text read back up to its closing quote gives the original text and what follows it |
| PyValues.ReprStringPrefixFree | recvizapi/views.py:114-116 | no string's `repr` is a proper prefix of another's, so a `repr` followed by other text determines both |
| PyValues.ReprStringInjective | recvizapi/views.py:114-116 | distinct strings have distinct `repr`s |
| PyValues.ReprQuoteExample | recvizapi/views.py:114-116 | `repr("it's")` is `"it's"`, quoted with `"` |
| PyValues.ReprEscapeExample | recvizapi/views.py:114-116 | `repr` doubles a backslash |
| PyValues.ItemsPrefixFree | recvizapi/Dataset.py:74 | the items of a dict's text, closed by `}`, determine the dict and the text that follows |
| PyValues.ReprInteractionInjective | recvizapi/views.py:114-116 | distinct interactions have distinct dict texts, so `str(elt)` loses nothing |
| PyValues.ReprAllDistinguishes | recvizapi/views.py:114-117 | two pieces of a history's text are equal exactly when their interactions are equal |

## Left out

- Edge weights: `assemble_graph` counts repeated interactions in a `weight` attribute (recvizapi/Graph.py:110-113, 129-132). The model keeps only which user–item edges exist, because no front-end or back-end operation in the model reads the weight.
- Graph layout (`layout_graph`, recvizapi/Graph.py:138-156) and community detection: the circular, ForceAtlas2 and cuGraph layouts and the Louvain algorithm are floating-point library calls. Communities enter the model only as the list of node sets `GraphObject.LouvainParts` turns into the part map, and `GraphService` takes the graph builder and the detector as parameters `build` and `detect`.
- The GEXF serialisation itself (`nx.write_gexf`, recvizapi/Graph.py:179): `GraphObject.Graph.WriteGexf` models the path, the stripping of `interaction_history` and the `ready` flag, but not the file's contents.
- The lookup of the dataset object through the manager in `prepare_nodes` (recvizapi/Graph.py:32-33): `GraphObject.Graph.PrepareNodes` takes the user and item mappings of that dataset as parameters.
- GraphObject.Graph.PrepareNodes, GraphObject.Graph.TestUser, GraphObject.Graph.TestItem, InteractionGraph.UserNode, InteractionGraph.ItemNode: in the source, `user_nodes[uid]` and `item_nodes[iid]` are the cached dataset's own record dicts (recvizapi/Graph.py:36, 46). The marks written at lines 37-52, 74-75, 81-82, 89-90 and 97-98 (id, label, type, position, size, and the last `filter_feature`/`filter_query`) therefore stay in the dataset and reappear in later graphs built from it. The model builds fresh node records and leaves the dataset unchanged, so it does not capture this aliasing.
- `fetch`, promises and React state plumbing: the front-end handlers are modelled from the moment a response arrives, its JSON already decoded into values. Rendering, the Sigma.js container, `App`, `AttributeList`, `InfoDrawer`, `ComparisonView` and the colour picker's UI are not part of this model.
- Python floating-point division in the similarity measures is modelled as exact `real` division, and `ZeroDivisionError` as `None`.
- JavaScript's number-to-text conversion is the parameter `numberText`, because its shortest round-trip digits are not modelled. In the comparison graph, the text of `parseFloat(score.toPrecision(6))` in a recommendation's label is likewise the parameter `scoreText`; the rest of the label template is modelled by `TopKVisualiser.RecLabel`. Integer texts use `Strings.NatToString`.
- JavaScript strings are UTF-16 code-unit sequences; the model uses Dafny's `seq<char>`, so `includes` and `indexOf` behave the same only on text without surrogate pairs.
- Files are given as sequences of lines and directories as listings. Opening, reading, encodings and `os.listdir` order are left to the caller.
- RecBole's `load_data_and_model`, `full_sort_topk`, `id2token` and `token2id` (recvizapi/RecommendationService.py:19-21, 27-28, 42, 47, 52): the loader is the parameter `load` and the ranking with its token conversions is the parameter `rank`, which yields each user's token with its ranked `(item token, score)` pairs. `zip` truncating unequal lists is therefore not modelled.
- `list_cosine` and the graph-based similarity (`get_user_panther_similarity`, recvizapi/views.py:186-210) are floating-point and networkx computations; `Views.SimilarityReport` reports only the three set measures.
- The thin Django views: `index`, `get_inter_graph`, `get_louvain`, `get_available_datasets`, `get_features`, `get_item_mapping`, `get_topk_all`, `get_topk_uid` (recvizapi/views.py:23-71, 89-93). They only forward to the services modelled here, append `.pth` or wrap answers in JSON and HTTP responses.
- The environment checks at import time (recvizapi/views.py:12-16), and the construction of the module-level services (lines 18-21).
- Console output (`print`) throughout the back end.
- PyValues.ReprString, PyValues.ReprAll: Python writes a non-printable character above U+00FF (for example U+2028) as `\uNNNN` or `\UNNNNNNNN`; the model keeps such characters as they are. It does escape everything non-printable up to U+00FF. The history texts behind `Views.ReadHistory` and its `hist` metrics therefore differ from Python's only for text holding such a character, and the texts stay distinct for distinct interactions (`PyValues.ReprInteractionInjective`).
- Strings.PyInt: Python's `int()` also accepts non-ASCII decimal digits (`int("٣")` is 3); the model accepts only the ASCII digits 0-9 and raises `ValueError` otherwise.
- The cuGraph branch of `get_louvain_parts` (recvizapi/Graph.py:161-165): it relabels the nodes to integers, runs cuGraph's Louvain method and indexes its partition table, a different computation from the networkx branch. `GraphObject.Graph.LouvainParts` models only the networkx branch's loop over the communities.

## Findings

| source | as written | input that shows it | evidently intended | confidence | as-written member | corrected member |
|---|---|---|---|---|---|---|
| recviz-frontend/src/Visualiser.tsx:309-350 | the colour snapshot is taken only when it is empty and is never cleared, so after a new graph is fetched, turning the overlay off restores the colours of the earlier graph | node `user-1` coloured `blue`, overlay on and off, then re-fetched as `red` and overlay on and off again: it comes back `blue` | turning the overlay off restores the colours the graph had when it was turned on | not executed | Visualiser.StaleSnapshotRestore | Visualiser.OverlayRoundTrip |
| recviz-frontend/src/TopKVisualiser.tsx:137-153 | a history label that occurs twice adds the same edge twice (both occurrences look up the first index), and graphology's `addEdge` throws on the second, so the comparison graph is never replaced | recommendation `Heat` with history `["Heat", "Heat"]` | each contained history label linked once, to its first row, and the graph always built | not executed | TopKVisualiser.RepeatedHistoryAborts | TopKVisualiser.CorrectedAlwaysBuilds |
| recvizapi/Graph.py:110-132 | a repeated user–item interaction calls `add_edge` with the new weight as a third positional argument, which `add_edge` does not accept, so building the graph raises `TypeError` | user `1` interacting twice with item `a` at the same timestamp | the weight incremented and the edge kept | not executed | InteractionGraph.RepeatedInteractionAborts | InteractionGraph.EdgePassCorrected |
