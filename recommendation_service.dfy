/** The recommendation service of the back end: a cache of trained models
    keyed by dataset and checkpoint name, and the top-k lists it builds from
    a model's ranking, one list per user, best item first. */
module RecommendationService {
  import opened Wrappers
  import opened Sorting
  import opened OrderedMaps
  import opened PyValues
  import Dataset
  import DatasetManager

  // ---------------------------------------------------------------------
  // Top-k lists

  /** An item's title: its `movie_title`, or `Unknown ID <token>` when the
      item or the attribute is missing. */
  function Title(items: map<string, map<string, string>>, token: string): string {
    if token in items && "movie_title" in items[token] then items[token]["movie_title"]
    else "Unknown ID " + token
  }

  /** One entry of a user's list: the item's title, its graph node id and
      its score. */
  datatype Recommendation = Recommendation(title: string, node: string, score: real)

  function Score(r: Recommendation): real {
    r.score
  }

  /** The entry for one ranked `(token, score)` pair. */
  function Recommend(items: map<string, map<string, string>>, pair: (string, real)): Recommendation {
    Recommendation(Title(items, pair.0), "item-" + pair.0, pair.1)
  }

  /** The comprehension over a user's ranked pairs, in the model's order. */
  function Records(items: map<string, map<string, string>>, row: seq<(string, real)>): (recs: seq<Recommendation>)
    ensures |recs| == |row|
    ensures forall i :: 0 <= i < |row| ==> recs[i] == Recommend(items, row[i])
  {
    seq(|row|, i requires 0 <= i < |row| => Recommend(items, row[i]))
  }

  /** One user's list: the ranked pairs as entries, by score from the
      highest down, entries of equal score in the model's order. */
  function Ranked(items: map<string, map<string, string>>, row: seq<(string, real)>): (recs: seq<Recommendation>)
    ensures SortedDesc(recs, Score)
    ensures multiset(recs) == multiset(Records(items, row))
    ensures forall v :: WithScore(recs, Score, v) == WithScore(Records(items, row), Score, v)
  {
    SortDesc(Records(items, row), Score)
  }

  /** A user's list holds exactly one entry per ranked pair: the pair's
      score, the node `item-<token>` and the item's title. */
  lemma RankedEntries(items: map<string, map<string, string>>, row: seq<(string, real)>)
    ensures |Ranked(items, row)| == |row|
    ensures forall r :: r in Ranked(items, row) <==>
              exists i :: 0 <= i < |row| && r == Recommendation(Title(items, row[i].0), "item-" + row[i].0, row[i].1)
  {
    var recs, records := Ranked(items, row), Records(items, row);
    assert |recs| == |multiset(recs)| == |multiset(records)| == |records|;
    forall r ensures r in recs <==> r in records {
      assert r in recs <==> r in multiset(recs);
      assert r in records <==> r in multiset(records);
    }
  }

  /** The dictionary the loop over users builds: for each user token of the
      ranking, `user-<token>` is bound to that user's list. */
  function Recommendations(items: map<string, map<string, string>>, rows: seq<(string, seq<(string, real)>)>): Entries<string, seq<Recommendation>>
    decreases |rows|
  {
    if rows == [] then []
    else
      var last := rows[|rows| - 1];
      Put(Recommendations(items, rows[..|rows| - 1]), "user-" + last.0, Ranked(items, last.1))
  }

  /** `get_topk` once the model has ranked the users: `rows` pairs each
      user's token with its ranked `(item token, score)` pairs. */
  method TopK(items: map<string, map<string, string>>, rows: seq<(string, seq<(string, real)>)>)
      returns (recs: Entries<string, seq<Recommendation>>)
    ensures recs == Recommendations(items, rows)
    ensures forall key :: key in Keys(recs) <==> exists i :: 0 <= i < |rows| && key == "user-" + rows[i].0
    ensures forall i :: 0 <= i < |rows| && LastUser(rows, i) ==> Get(recs, "user-" + rows[i].0) == Some(Ranked(items, rows[i].1))
  {
    recs := [];
    for i := 0 to |rows|
      invariant recs == Recommendations(items, rows[..i])
    {
      assert rows[..i + 1][..i] == rows[..i];
      var pairs := Records(items, rows[i].1);
      pairs := SortDesc(pairs, Score);
      recs := Put(recs, "user-" + rows[i].0, pairs);
    }
    assert rows[..|rows|] == rows;
    RecommendationsExactly(items, rows);
  }

  /** No later row has the same user token. */
  predicate LastUser(rows: seq<(string, seq<(string, real)>)>, i: nat)
    requires i < |rows|
  {
    forall j :: i < j < |rows| ==> rows[j].0 != rows[i].0
  }

  /** Prefixing the user token keeps tokens apart. */
  lemma UserKeyInjective(a: string, b: string)
    requires "user-" + a == "user-" + b
    ensures a == b
  {
    assert a == ("user-" + a)[5..];
    assert b == ("user-" + b)[5..];
  }

  /** The dictionary has one key per user token of the ranking, and the
      last row of a token gives its list. */
  lemma {:induction false} RecommendationsExactly(items: map<string, map<string, string>>, rows: seq<(string, seq<(string, real)>)>)
    ensures forall key :: key in Keys(Recommendations(items, rows)) <==> exists i :: 0 <= i < |rows| && key == "user-" + rows[i].0
    ensures forall i :: 0 <= i < |rows| && LastUser(rows, i) ==>
              Get(Recommendations(items, rows), "user-" + rows[i].0) == Some(Ranked(items, rows[i].1))
    decreases |rows|
  {
    if rows != [] {
      var n := |rows|;
      var init := rows[..n - 1];
      RecommendationsExactly(items, init);
      forall key ensures key in Keys(Recommendations(items, rows)) <==> exists i :: 0 <= i < n && key == "user-" + rows[i].0 {
        if key in Keys(Recommendations(items, init)) {
          var i :| 0 <= i < n - 1 && key == "user-" + init[i].0;
          assert rows[i] == init[i];
        }
        if exists i :: 0 <= i < n && key == "user-" + rows[i].0 {
          var i :| 0 <= i < n && key == "user-" + rows[i].0;
          if i < n - 1 {
            assert rows[i] == init[i];
          }
        }
      }
      forall i | 0 <= i < n && LastUser(rows, i)
        ensures Get(Recommendations(items, rows), "user-" + rows[i].0) == Some(Ranked(items, rows[i].1))
      {
        if i < n - 1 {
          assert rows[i] == init[i];
          assert LastUser(init, i) by {
            forall j | i < j < n - 1 ensures init[j].0 != init[i].0 {
              assert init[j] == rows[j];
            }
          }
          if "user-" + rows[n - 1].0 == "user-" + rows[i].0 {
            UserKeyInjective(rows[n - 1].0, rows[i].0);
          }
        }
      }
    }
  }

  /** The list of the service's unit test: one user `1` ranked items `1`
      and `2`, only item `1` having a title. */
  lemma TopKExample()
    ensures Get(Recommendations(ExampleItems(), [("1", [("1", 0.9), ("2", 0.8)])]), "user-1") ==
              Some([Recommendation("Test Movie", "item-1", 0.9), Recommendation("Unknown ID 2", "item-2", 0.8)])
  {
    ExampleRanked();
    SingleRow(ExampleItems(), "1", [("1", 0.9), ("2", 0.8)]);
    assert "user-" + "1" == "user-1";
  }

  function ExampleItems(): map<string, map<string, string>> {
    map["1" := map["movie_title" := "Test Movie"]]
  }

  lemma ExampleRanked()
    ensures Ranked(ExampleItems(), [("1", 0.9), ("2", 0.8)]) ==
              [Recommendation("Test Movie", "item-1", 0.9), Recommendation("Unknown ID 2", "item-2", 0.8)]
  {
    var a, b := Recommendation("Test Movie", "item-1", 0.9), Recommendation("Unknown ID 2", "item-2", 0.8);
    ExampleRecords();
    assert [a, b][1..] == [b];
    assert SortDesc([b], Score) == [b];
  }

  lemma ExampleRecords()
    ensures Records(ExampleItems(), [("1", 0.9), ("2", 0.8)]) ==
              [Recommendation("Test Movie", "item-1", 0.9), Recommendation("Unknown ID 2", "item-2", 0.8)]
  {
    var items, row := ExampleItems(), [("1", 0.9), ("2", 0.8)];
    var r := Records(items, row);
    assert Title(items, "1") == "Test Movie";
    assert Title(items, "2") == "Unknown ID 2";
    assert "item-" + "1" == "item-1" && "item-" + "2" == "item-2";
    assert r[0] == Recommend(items, row[0]) && r[1] == Recommend(items, row[1]);
  }

  /** A ranking of one user binds just that user's key. */
  lemma SingleRow(items: map<string, map<string, string>>, token: string, row: seq<(string, real)>)
    ensures Get(Recommendations(items, [(token, row)]), "user-" + token) == Some(Ranked(items, row))
  {
    assert [(token, row)][..0] == [];
  }

  // ---------------------------------------------------------------------
  // The service

  /** The checkpoint file `load_model` would load for a dataset and model
      name: the path the dataset object lists under that name, if the
      dataset is registered and lists it. */
  function Checkpoint(manager: DatasetManager.Manager, ds: string, model: string): Option<string>
    reads manager, DatasetManager.Objects(manager.datasets)
  {
    match manager.GetDataset(ds)
    case None => None
    case Some(e) => Get(e.obj.models, model)
  }

  /** For a consistent registry, the checkpoint is the one the registry's
      table lists for the dataset. */
  lemma CheckpointRegistered(manager: DatasetManager.Manager, ds: string, model: string)
    requires manager.Valid()
    ensures Checkpoint(manager, ds, model) ==
              match Get(DatasetManager.Table(manager.datasets), ds)
              case None => None
              case Some(models) => Get(models, model)
  {
    DatasetManager.TableGet(manager.datasets, ds);
    match manager.GetDataset(ds)
    case None =>
    case Some(e) =>
      assert e.obj in DatasetManager.Objects(manager.datasets);
  }

  /** What `load_model` returns and caches: the loaded model bundle (the
      configuration, model, dataset and data splits) and the dataset object. */
  datatype ModelEntry<M> = ModelEntry(bundle: M, obj: Dataset.Dataset)

  class Service<M> {
    const manager: DatasetManager.Manager
    var cache: map<(string, string), ModelEntry<M>>

    constructor (manager: DatasetManager.Manager)
      ensures this.manager == manager && cache == map[]
    {
      this.manager := manager;
      cache := map[];
    }

    /** `load_model`: the cached entry; otherwise, when the dataset lists
        the checkpoint, the result of loading it, cached; otherwise `None`.
        `load` stands for the model loader, which may raise. */
    method LoadModel(ds: string, model: string, load: string -> Result<M, PyError>)
        returns (r: Result<Option<ModelEntry<M>>, PyError>)
      modifies this`cache
      ensures (ds, model) in old(cache) ==> r == Ok(Some(old(cache)[(ds, model)])) && cache == old(cache)
      ensures (ds, model) !in old(cache) && Checkpoint(manager, ds, model).None? ==> r == Ok(None) && cache == old(cache)
      ensures (ds, model) !in old(cache) && Checkpoint(manager, ds, model).Some? ==>
                match load(Checkpoint(manager, ds, model).value)
                case Err(e) => r == Err(e) && cache == old(cache)
                case Ok(b) =>
                  var entry := ModelEntry(b, manager.GetDataset(ds).value.obj);
                  r == Ok(Some(entry)) && cache == old(cache)[(ds, model) := entry]
      ensures r.Ok? && r.value.Some? ==> (ds, model) in cache && cache[(ds, model)] == r.value.value
      ensures forall key :: key in old(cache) ==> key in cache && cache[key] == old(cache)[key]
    {
      var key := (ds, model);
      if key in cache {
        return Ok(Some(cache[key]));
      }
      var entry := manager.GetDataset(ds);
      if entry.Some? {
        var obj := entry.value.obj;
        var models := obj.models;
        var path := Get(models, model);
        if path.Some? {
          var loaded := load(path.value);
          if loaded.Err? {
            return Err(loaded.error);
          }
          var result := ModelEntry(loaded.value, obj);
          cache := cache[key := result];
          return Ok(Some(result));
        }
      }
      return Ok(None);
    }

    /** `get_topk_all`: unpack what `load_model` returns (a `TypeError`
        when it returned `None`) and build the lists from the model's
        ranking of the dataset object's user ids. `rank` stands for the
        ranking: token conversion and the top-k search. */
    method TopKAll(ds: string, model: string, k: int, load: string -> Result<M, PyError>,
                   rank: (M, Option<seq<string>>, int) -> Result<seq<(string, seq<(string, real)>)>, PyError>)
        returns (r: Result<Entries<string, seq<Recommendation>>, PyError>)
      modifies this`cache
      ensures (ds, model) in cache ==>
                var e := cache[(ds, model)];
                r == Ranking(e, rank(e.bundle, e.obj.userIds, k))
      ensures (ds, model) !in cache ==> r == Unloaded(Checkpoint(manager, ds, model), load)
      ensures forall key :: key in old(cache) ==> key in cache && cache[key] == old(cache)[key]
    {
      var loaded := LoadModel(ds, model, load);
      if loaded.Err? {
        return Err(loaded.error);
      }
      if loaded.value.None? {
        return Err(TypeError);
      }
      var e := loaded.value.value;
      r := RankUsers(e, e.obj.userIds, k, rank);
    }

    /** `get_topk_uid`: the same for the single user id `uid`. */
    method TopKUid(ds: string, model: string, k: int, uid: string, load: string -> Result<M, PyError>,
                   rank: (M, Option<seq<string>>, int) -> Result<seq<(string, seq<(string, real)>)>, PyError>)
        returns (r: Result<Entries<string, seq<Recommendation>>, PyError>)
      modifies this`cache
      ensures (ds, model) in cache ==>
                var e := cache[(ds, model)];
                r == Ranking(e, rank(e.bundle, Some([uid]), k))
      ensures (ds, model) !in cache ==> r == Unloaded(Checkpoint(manager, ds, model), load)
      ensures forall key :: key in old(cache) ==> key in cache && cache[key] == old(cache)[key]
    {
      var loaded := LoadModel(ds, model, load);
      if loaded.Err? {
        return Err(loaded.error);
      }
      if loaded.value.None? {
        return Err(TypeError);
      }
      var e := loaded.value.value;
      r := RankUsers(e, Some([uid]), k, rank);
    }
  }

  /** The lists for a loaded model once `rank` has ranked the users, or the
      exception it raised. */
  function Ranking<M>(e: ModelEntry<M>, ranked: Result<seq<(string, seq<(string, real)>)>, PyError>): Result<Entries<string, seq<Recommendation>>, PyError>
    reads e.obj
  {
    match ranked
    case Err(err) => Err(err)
    case Ok(rows) => Ok(Recommendations(e.obj.itemMapping, rows))
  }

  /** What the top-k calls raise when no model was loaded: unpacking
      `None` when the checkpoint is not listed, and otherwise what the
      loader raised.  The `Ok([])` branch is never taken by the top-k
      calls: a load that succeeds is cached, and `Ranking` answers
      instead. */
  function Unloaded<M>(path: Option<string>, load: string -> Result<M, PyError>): Result<Entries<string, seq<Recommendation>>, PyError> {
    match path
    case None => Err(TypeError)
    case Some(p) => if load(p).Err? then Err(load(p).error) else Ok([])
  }

  /** The body of `get_topk` on a loaded model. */
  method RankUsers<M>(e: ModelEntry<M>, users: Option<seq<string>>, k: int,
                      rank: (M, Option<seq<string>>, int) -> Result<seq<(string, seq<(string, real)>)>, PyError>)
      returns (r: Result<Entries<string, seq<Recommendation>>, PyError>)
    ensures r == Ranking(e, rank(e.bundle, users, k))
  {
    var rows := rank(e.bundle, users, k);
    if rows.Err? {
      return Err(rows.error);
    }
    var recs := TopK(e.obj.itemMapping, rows.value);
    r := Ok(recs);
  }
}
