/** The graph cache of the back end: `compute_graph_key`, which names a
    filtered graph canonically, and the `GraphService` object, which
    registers the GEXF files already in the cache directory and builds each
    graph and each Louvain partition at most once.  Building a graph (the
    `Graph` constructor of `GraphObject`) and detecting its communities are
    parameters `build` and `detect`: a function of the dataset name, the
    filters and the key. */
module GraphService {
  import opened Wrappers
  import opened Strings
  import opened Sorting
  import opened OrderedMaps
  import opened PyValues
  import InteractionGraph

  /** The filters of a request: feature to the values asked for. */
  type Filters = InteractionGraph.Filters

  // ---------------------------------------------------------------------
  // compute_graph_key

  /** One part of the key: the feature, `:`, and its values sorted and
      joined with `,`. */
  function KeyPart(filters: Filters, feature: string): string {
    feature + ":" + Join(SortStrings(Get(filters, feature).GetOr([])), ",")
  }

  /** The parts for the features in sorted order. */
  function KeyParts(filters: Filters, features: seq<string>): (parts: seq<string>)
    ensures |parts| == |features|
    ensures forall i :: 0 <= i < |features| ==> parts[i] == KeyPart(filters, features[i])
  {
    seq(|features|, i requires 0 <= i < |features| => KeyPart(filters, features[i]))
  }

  /** The key of a graph: the dataset name alone without filters, and
      otherwise the name, `_`, and the parts joined with `_`. */
  function GraphKeyOf(name: string, filters: Option<Filters>): (key: string)
    ensures filters.None? ==> key == name
    ensures filters.Some? ==> |key| > |name| && key[..|name| + 1] == name + "_"
    ensures filters == Some([]) ==> key == name + "_"
  {
    match filters
    case None => name
    case Some(f) =>
      var key := name + "_" + Join(KeyParts(f, SortStrings(Keys(f))), "_");
      assert key[..|name| + 1] == name + "_";
      key
  }

  /** `compute_graph_key`, with its loop over the sorted features. */
  method ComputeGraphKey(name: string, filters: Option<Filters>) returns (key: string)
    ensures key == GraphKeyOf(name, filters)
  {
    if filters.None? {
      return name;
    }
    var f := filters.value;
    var features := SortStrings(Keys(f));
    var parts: seq<string> := [];
    for i := 0 to |features|
      invariant parts == KeyParts(f, features[..i])
    {
      var values := Get(f, features[i]).GetOr([]);
      var part := features[i] + ":" + Join(SortStrings(values), ",");
      assert part == KeyPart(f, features[i]);
      KeyPartsSnoc(f, features[..i], features[i]);
      assert features[..i + 1] == features[..i] + [features[i]];
      parts := parts + [part];
    }
    assert features[..|features|] == features;
    key := name + "_" + Join(parts, "_");
  }

  /** One more feature adds its part at the end. */
  lemma KeyPartsSnoc(filters: Filters, features: seq<string>, feature: string)
    ensures KeyParts(filters, features + [feature]) == KeyParts(filters, features) + [KeyPart(filters, feature)]
  {
  }

  /** Two duplicate-free lists with the same elements are permutations of
      each other. */
  lemma DistinctSameElements<T>(a: seq<T>, b: seq<T>)
    requires Distinct(a) && Distinct(b)
    requires forall x :: x in a <==> x in b
    ensures multiset(a) == multiset(b)
  {
    DistinctCounts(a);
    DistinctCounts(b);
    forall x ensures multiset(a)[x] == multiset(b)[x] {
      assert x in a <==> x in multiset(a);
      assert x in b <==> x in multiset(b);
    }
  }

  /** The key depends on the filters as a dictionary of value lists and
      not on the order of the features nor of the values: two dictionaries
      with the same features, each with the same values in any order, give
      the same key. */
  lemma KeyOrderIndependent(name: string, f1: Filters, f2: Filters)
    requires DistinctKeys(f1) && DistinctKeys(f2)
    requires forall k :: k in Keys(f1) <==> k in Keys(f2)
    requires forall k :: k in Keys(f1) ==> multiset(Get(f1, k).value) == multiset(Get(f2, k).value)
    ensures GraphKeyOf(name, Some(f1)) == GraphKeyOf(name, Some(f2))
  {
    DistinctSameElements(Keys(f1), Keys(f2));
    SortStringsPermutationInvariant(Keys(f1), Keys(f2));
    var features := SortStrings(Keys(f1));
    forall i | 0 <= i < |features| ensures KeyPart(f1, features[i]) == KeyPart(f2, features[i]) {
      assert features[i] in multiset(Keys(f1));
      KeyPartSame(f1, f2, features[i]);
    }
    KeyPartsSame(f1, f2, features);
  }

  /** A feature with the same values in any order has the same part. */
  lemma KeyPartSame(f1: Filters, f2: Filters, feature: string)
    requires feature in Keys(f1) && feature in Keys(f2)
    requires multiset(Get(f1, feature).value) == multiset(Get(f2, feature).value)
    ensures KeyPart(f1, feature) == KeyPart(f2, feature)
  {
    SortStringsPermutationInvariant(Get(f1, feature).value, Get(f2, feature).value);
  }

  lemma KeyPartsSame(f1: Filters, f2: Filters, features: seq<string>)
    requires forall i :: 0 <= i < |features| ==> KeyPart(f1, features[i]) == KeyPart(f2, features[i])
    ensures KeyParts(f1, features) == KeyParts(f2, features)
  {
  }

  /** The values of a feature are sorted in the key: `{"age": ["30",
      "25"]}` on `ds1` gives `ds1_age:25,30`. */
  lemma KeyExample()
    ensures GraphKeyOf("ds1", Some([("age", ["30", "25"])])) == "ds1_age:25,30"
  {
    ExampleParts();
    KeyOfParts("ds1", [("age", ["30", "25"])], ["age:25,30"]);
    assert Join(["age:25,30"], "_") == "age:25,30";
  }

  lemma ExampleParts()
    ensures KeyParts([("age", ["30", "25"])], SortStrings(Keys([("age", ["30", "25"])]))) == ["age:25,30"]
  {
    var f: Filters := [("age", ["30", "25"])];
    assert Keys(f) == ["age"];
    assert SortStrings(["age"]) == ["age"];
    ExamplePart();
  }

  /** The key once the parts are known. */
  lemma KeyOfParts(name: string, f: Filters, parts: seq<string>)
    requires KeyParts(f, SortStrings(Keys(f))) == parts
    ensures GraphKeyOf(name, Some(f)) == name + "_" + Join(parts, "_")
  {
  }

  lemma ExamplePart()
    ensures KeyPart([("age", ["30", "25"])], "age") == "age:25,30"
  {
    assert Get([("age", ["30", "25"])], "age") == Some(["30", "25"]);
    ExampleSorted();
    ExampleJoined();
  }

  lemma ExampleJoined()
    ensures Join(["25", "30"], ",") == "25,30"
  {
    assert Join(["30"], ",") == "30";
  }

  lemma ExampleSorted()
    ensures SortStrings(["30", "25"]) == ["25", "30"]
  {
    assert SortStrings(["25"]) == ["25"];
    assert LexLe("25", "30");
  }

  // ---------------------------------------------------------------------
  // The service

  /** A cache entry: the path of a GEXF file found in the cache directory,
      a graph built by the service, or a Louvain partition. */
  datatype Cached<G> = GexfFile(path: string) | Built(graph: G) | Partition(parts: map<string, nat>)

  /** The name of a `.gexf` file without its extension. */
  function Stem(file: string): string
    requires EndsWith(file, ".gexf")
  {
    file[..|file| - 5]
  }

  /** The constructor's loop over the cache directory's listing. */
  function GexfFiles<G>(dir: string, listing: seq<string>): map<string, Cached<G>>
    decreases |listing|
  {
    if listing == [] then map[]
    else
      var f := listing[|listing| - 1];
      var before := GexfFiles(dir, listing[..|listing| - 1]);
      if EndsWith(f, ".gexf") then before[Stem(f) := GexfFile(PathJoin(dir, f))] else before
  }

  /** A stem names exactly one `.gexf` file. */
  lemma StemExactly(file: string, key: string)
    ensures EndsWith(file, ".gexf") && Stem(file) == key <==> file == key + ".gexf"
  {
    if EndsWith(file, ".gexf") {
      assert file == file[..|file| - 5] + file[|file| - 5..];
    }
    if file == key + ".gexf" {
      assert file[..|file| - 5] == key;
    }
  }

  /** Every `.gexf` file of the listing, and nothing else, is registered
      under its name without the extension, with its path in the cache
      directory. */
  lemma {:induction false} GexfFilesExactly<G>(dir: string, listing: seq<string>, key: string)
    ensures key in GexfFiles<G>(dir, listing) <==> key + ".gexf" in listing
    ensures key in GexfFiles<G>(dir, listing) ==> GexfFiles<G>(dir, listing)[key] == GexfFile(PathJoin(dir, key + ".gexf"))
    decreases |listing|
  {
    if listing != [] {
      var init := listing[..|listing| - 1];
      var f := listing[|listing| - 1];
      GexfFilesExactly<G>(dir, init, key);
      StemExactly(f, key);
      assert listing == init + [f];
      assert key + ".gexf" in listing <==> key + ".gexf" in init || key + ".gexf" == f;
    }
  }

  /** The entry `get_graph` answers from without building: the dataset
      name when there are no filters, otherwise the key. */
  function Lookup<G>(cached: map<string, Cached<G>>, name: string, filters: Option<Filters>): Option<Cached<G>> {
    if filters.None? && name in cached then Some(cached[name])
    else if GraphKeyOf(name, filters) in cached then Some(cached[GraphKeyOf(name, filters)])
    else None
  }

  /** The entry `get_louvain` answers from without detecting. */
  function LouvainLookup<G>(cached: map<string, Cached<G>>, name: string, filters: Option<Filters>): Option<Cached<G>> {
    if filters.None? && name + "_louvain" in cached then Some(cached[name + "_louvain"])
    else if GraphKeyOf(name, filters) + "_louvain" in cached then Some(cached[GraphKeyOf(name, filters) + "_louvain"])
    else None
  }

  /** A GEXF file in the cache directory at start-up answers `get_graph`
      for its dataset without filters. */
  lemma CachedFileAnswers<G>(dir: string, listing: seq<string>, name: string)
    requires name + ".gexf" in listing
    ensures Lookup(GexfFiles<G>(dir, listing), name, None) == Some(GexfFile(PathJoin(dir, name + ".gexf")))
  {
    GexfFilesExactly<G>(dir, listing, name);
  }

  class Service<G> {
    /** `self.cached`: key to entry. */
    var cached: map<string, Cached<G>>
    var cacheDir: string

    /** The constructor once the cache directory is known to exist: every
        `.gexf` file is registered. */
    constructor (cachePath: string, listing: seq<string>)
      ensures cacheDir == cachePath
      ensures cached == GexfFiles(cachePath, listing)
    {
      var c: map<string, Cached<G>> := map[];
      for i := 0 to |listing|
        invariant c == GexfFiles(cachePath, listing[..i])
      {
        assert listing[..i + 1][..i] == listing[..i];
        var file := listing[i];
        if EndsWith(file, ".gexf") {
          c := c[file[..|file| - 5] := GexfFile(PathJoin(cachePath, file))];
        }
      }
      assert listing[..|listing|] == listing;
      cached := c;
      cacheDir := cachePath;
    }

    /** `get_graph`: the cached entry when there is one; otherwise the graph
        is built, stored under its key and returned.  An exception while
        building stores nothing. */
    method GetGraph(name: string, filters: Option<Filters>, build: (string, Option<Filters>, string) -> Result<G, PyError>)
      returns (r: Result<Cached<G>, PyError>)
      modifies this`cached
      ensures Lookup(old(cached), name, filters).Some? ==>
                r == Ok(Lookup(old(cached), name, filters).value) && cached == old(cached)
      ensures Lookup(old(cached), name, filters).None? ==>
                match build(name, filters, GraphKeyOf(name, filters))
                case Err(e) => r == Err(e) && cached == old(cached)
                case Ok(g) => r == Ok(Built(g)) && cached == old(cached)[GraphKeyOf(name, filters) := Built(g)]
      ensures r.Ok? ==> Lookup(cached, name, filters) == Some(r.value)
    {
      if filters.None? && name in cached {
        return Ok(cached[name]);
      }
      var key := ComputeGraphKey(name, filters);
      if key in cached {
        return Ok(cached[key]);
      }
      match build(name, filters, key)
      case Err(e) =>
        r := Err(e);
      case Ok(g) =>
        cached := cached[key := Built(g)];
        r := Ok(Built(g));
    }

    /** `get_louvain`: the cached partition when there is one; otherwise the
        communities of a graph built without writing are stored under the
        key and `_louvain` and returned. */
    method GetLouvain(name: string, filters: Option<Filters>, detect: (string, Option<Filters>, string) -> Result<map<string, nat>, PyError>)
      returns (r: Result<Cached<G>, PyError>)
      modifies this`cached
      ensures LouvainLookup(old(cached), name, filters).Some? ==>
                r == Ok(LouvainLookup(old(cached), name, filters).value) && cached == old(cached)
      ensures LouvainLookup(old(cached), name, filters).None? ==>
                match detect(name, filters, GraphKeyOf(name, filters))
                case Err(e) => r == Err(e) && cached == old(cached)
                case Ok(p) => r == Ok(Partition(p)) && cached == old(cached)[GraphKeyOf(name, filters) + "_louvain" := Partition(p)]
      ensures r.Ok? ==> LouvainLookup(cached, name, filters) == Some(r.value)
    {
      if filters.None? && name + "_louvain" in cached {
        return Ok(cached[name + "_louvain"]);
      }
      var key := ComputeGraphKey(name, filters);
      if key + "_louvain" !in cached {
        match detect(name, filters, key)
        case Err(e) =>
          return Err(e);
        case Ok(p) =>
          cached := cached[key + "_louvain" := Partition(p)];
      }
      r := Ok(cached[key + "_louvain"]);
    }
  }

  /** `GraphService(cache_path, dataset_manager)`: a missing cache
      directory raises `EnvironmentError`; otherwise a fresh service with
      the directory's GEXF files registered. */
  method Open<G>(cachePath: string, present: bool, listing: seq<string>) returns (r: Result<Service<G>, PyError>)
    ensures !present ==> r == Err(EnvironmentError)
    ensures present ==> r.Ok? && fresh(r.value) && r.value.cacheDir == cachePath && r.value.cached == GexfFiles(cachePath, listing)
  {
    if !present {
      return Err(EnvironmentError);
    }
    var s := new Service<G>(cachePath, listing);
    return Ok(s);
  }
}
