/** The request handlers of the back end that compute something of their
    own: a user's interaction history as item titles (all of it, or the last
    k entries), the model list of a dataset, the inputs of the user
    similarity report, and the order in which the graph similarity endpoint
    reports a missing history. */
module Views {
  import opened Wrappers
  import opened Strings
  import opened OrderedMaps
  import opened PyValues
  import Dataset
  import DatasetManager
  import RecommendationService
  import SimilarityService

  // ---------------------------------------------------------------------
  // Slices and ids

  /** Python `xs[-k:]` for `k >= 0`: the last `k` elements, and the whole
      list when `k` is 0 (`-0` is `0`) or exceeds the length. */
  function LastK<T>(xs: seq<T>, k: nat): (r: seq<T>)
    ensures |r| == if k == 0 || k >= |xs| then |xs| else k
    ensures xs == xs[..|xs| - |r|] + r
  {
    if k == 0 || k >= |xs| then xs else xs[|xs| - k..]
  }

  /** `str(item_id).split('-')[-1]`: the text after the last `-`. */
  function AfterLastDash(s: string): string {
    var parts := Split(s, "-");
    parts[|parts| - 1]
  }

  /** The id a recommendation's node gives back is the item token, for a
      token without `-`. */
  lemma ItemIdRoundTrip(token: string)
    requires '-' !in token
    ensures AfterLastDash("item-" + token) == token
  {
    assert Join(["item", token], "-") == "item-" + token;
    SplitJoin(["item", token], '-');
  }

  /** A token holding `-` keeps only its last piece. */
  lemma DashedItemId()
    ensures AfterLastDash("item-" + "a-b") == "b"
  {
    assert Join(["item", "a", "b"], "-") == "item-" + "a-b";
    SplitJoin(["item", "a", "b"], '-');
  }

  // ---------------------------------------------------------------------
  // Interaction histories as titles

  /** The title shown for one interaction; `elt["item_id"]` raises a
      `KeyError` when the interaction has no item id. */
  function EntryTitle(items: map<string, map<string, string>>, elt: Interaction): Result<string, PyError> {
    match Get(elt, "item_id")
    case None => Err(KeyError)
    case Some(id) => Ok(RecommendationService.Title(items, id))
  }

  /** The loop appending one title per interaction, up to the first
      exception. */
  function Titles(items: map<string, map<string, string>>, h: seq<Interaction>): Result<seq<string>, PyError>
    decreases |h|
  {
    if h == [] then Ok([])
    else
      match Titles(items, h[..|h| - 1])
      case Err(e) => Err(e)
      case Ok(ts) =>
        match EntryTitle(items, h[|h| - 1])
        case Err(e) => Err(e)
        case Ok(t) => Ok(ts + [t])
  }

  predicate HasItemIds(h: seq<Interaction>) {
    forall i :: 0 <= i < |h| ==> "item_id" in Keys(h[i])
  }

  /** The titles are one per interaction, in order, each the item's title
      or `Unknown ID <item id>`; the loop raises `KeyError` exactly when an
      interaction has no item id. */
  lemma {:induction false} TitlesExactly(items: map<string, map<string, string>>, h: seq<Interaction>)
    ensures Titles(items, h).Ok? <==> HasItemIds(h)
    ensures Titles(items, h).Err? ==> Titles(items, h).error == KeyError
    ensures Titles(items, h).Ok? ==>
              && |Titles(items, h).value| == |h|
              && forall i :: 0 <= i < |h| ==> Titles(items, h).value[i] == RecommendationService.Title(items, Get(h[i], "item_id").value)
    decreases |h|
  {
    if h != [] {
      var init := h[..|h| - 1];
      TitlesExactly(items, init);
      assert forall i :: 0 <= i < |h| - 1 ==> init[i] == h[i];
      if !HasItemIds(h) && HasItemIds(init) {
        assert "item_id" !in Keys(h[|h| - 1]);
      }
    }
  }

  /** The loop of both history handlers. */
  method AppendTitles(items: map<string, map<string, string>>, h: seq<Interaction>) returns (r: Result<seq<string>, PyError>)
    ensures r == Titles(items, h)
  {
    var result: seq<string> := [];
    for i := 0 to |h|
      invariant Titles(items, h[..i]) == Ok(result)
    {
      assert h[..i + 1][..i] == h[..i];
      var id := Get(h[i], "item_id");
      if id.None? {
        assert Titles(items, h[..i + 1]) == Err(KeyError);
        TitlesStop(items, h, i + 1);
        return Err(KeyError);
      }
      result := result + [RecommendationService.Title(items, id.value)];
    }
    assert h[..|h|] == h;
    r := Ok(result);
  }

  /** An exception ends the loop. */
  lemma {:induction false} TitlesStop(items: map<string, map<string, string>>, h: seq<Interaction>, i: nat)
    requires i <= |h|
    requires Titles(items, h[..i]).Err?
    ensures Titles(items, h) == Titles(items, h[..i])
    decreases |h| - i
  {
    if i < |h| {
      assert h[..i + 1][..i] == h[..i];
      TitlesStop(items, h, i + 1);
    } else {
      assert h[..i] == h;
    }
  }

  /** What `get_interaction_history_k` returns for the mappings of a valid
      dataset: the titles of the last `k` interactions of the user when the
      user's history has at least `k` of them, and nothing when the user,
      its history or enough of it is missing. A history held as a string or
      an integer cannot be walked for item ids. */
  function HistoryK(users: map<string, Record>, items: map<string, map<string, string>>, uid: string, k: nat): (r: Result<seq<string>, PyError>)
    ensures r.Ok? && r.value != [] ==>
              && uid in users && Dataset.History in users[uid] && users[uid][Dataset.History].PHistory?
              && k <= |users[uid][Dataset.History].entries|
  {
    if uid !in users || Dataset.History !in users[uid] then Ok([])
    else
      match users[uid][Dataset.History]
      case PHistory(h) => if |h| >= k then Titles(items, LastK(h, k)) else Ok([])
      case PStr(s) => if |s| >= k && LastK(s, k) != [] then Err(TypeError) else Ok([])
      case PInt(_) => Err(TypeError)
  }

  /** On a recorded history: too short a history gives nothing; otherwise
      the titles of the last `k` interactions (all of them for `k == 0`), or
      a `KeyError` when one of those has no item id. */
  lemma HistoryKTitles(users: map<string, Record>, items: map<string, map<string, string>>, uid: string, k: nat)
    requires uid in users && Dataset.History in users[uid] && users[uid][Dataset.History].PHistory?
    ensures var h := users[uid][Dataset.History].entries;
            var n := if k == 0 then |h| else k;
            && (|h| < k ==> HistoryK(users, items, uid, k) == Ok([]))
            && (k <= |h| && HasItemIds(h[|h| - n..]) ==>
                  && HistoryK(users, items, uid, k).Ok?
                  && |HistoryK(users, items, uid, k).value| == n
                  && forall i :: 0 <= i < n ==>
                       HistoryK(users, items, uid, k).value[i] == RecommendationService.Title(items, Get(h[|h| - n + i], "item_id").value))
            && (k <= |h| && !HasItemIds(h[|h| - n..]) ==> HistoryK(users, items, uid, k) == Err(KeyError))
  {
    var h := users[uid][Dataset.History].entries;
    var n := if k == 0 then |h| else k;
    if k <= |h| {
      assert LastK(h, k) == h[|h| - n..];
      TitlesExactly(items, h[|h| - n..]);
    }
  }

  /** What `get_user_interaction_history` returns for the mappings of a
      valid dataset: the titles of the whole history. */
  function FullHistory(users: map<string, Record>, items: map<string, map<string, string>>, uid: string): Result<seq<string>, PyError> {
    if uid !in users || Dataset.History !in users[uid] then Ok([])
    else
      match users[uid][Dataset.History]
      case PHistory(h) => Titles(items, h)
      case PStr(s) => if s != [] then Err(TypeError) else Ok([])
      case PInt(_) => Err(TypeError)
  }

  /** The whole history is the last-`k` history for `k == 0`. */
  lemma FullHistoryIsLastZero(users: map<string, Record>, items: map<string, map<string, string>>, uid: string)
    ensures FullHistory(users, items, uid) == HistoryK(users, items, uid, 0)
  {
  }

  /** The user and item mappings of a registered dataset that is valid. */
  function ValidMappings(manager: DatasetManager.Manager, ds: string): Option<(map<string, Record>, map<string, map<string, string>>)>
    reads manager, DatasetManager.Objects(manager.datasets)
  {
    match manager.GetDataset(ds)
    case None => None
    case Some(e) => if e.obj.valid then Some((e.obj.userMapping, e.obj.itemMapping)) else None
  }

  /** `get_interaction_history_k`: nothing for an unknown or invalid
      dataset; the user id is the decimal text of `uid`. */
  function HistoryKOf(manager: DatasetManager.Manager, ds: string, k: nat, uid: nat): Result<seq<string>, PyError>
    reads manager, DatasetManager.Objects(manager.datasets)
  {
    match ValidMappings(manager, ds)
    case None => Ok([])
    case Some((users, items)) => HistoryK(users, items, NatToString(uid), k)
  }

  /** `get_user_interaction_history`, likewise. */
  function FullHistoryOf(manager: DatasetManager.Manager, ds: string, uid: string): Result<seq<string>, PyError>
    reads manager, DatasetManager.Objects(manager.datasets)
  {
    match ValidMappings(manager, ds)
    case None => Ok([])
    case Some((users, items)) => FullHistory(users, items, uid)
  }

  method InteractionHistoryK(manager: DatasetManager.Manager, ds: string, k: nat, uid: nat) returns (r: Result<seq<string>, PyError>)
    ensures r == HistoryKOf(manager, ds, k, uid)
    ensures r.Ok? && r.value != [] ==> ValidMappings(manager, ds).Some?
  {
    r := Ok([]);
    var entry := manager.GetDataset(ds);
    if entry.Some? && entry.value.obj.valid {
      var users := entry.value.obj.userMapping;
      var items := entry.value.obj.itemMapping;
      var id := NatToString(uid);
      if id in users && Dataset.History in users[id] {
        match users[id][Dataset.History]
        case PHistory(h) =>
          if |h| >= k {
            r := AppendTitles(items, LastK(h, k));
          }
        case PStr(s) =>
          if |s| >= k && LastK(s, k) != [] {
            r := Err(TypeError);
          }
        case PInt(_) =>
          r := Err(TypeError);
      }
    }
  }

  method UserInteractionHistory(manager: DatasetManager.Manager, ds: string, uid: string) returns (r: Result<seq<string>, PyError>)
    ensures r == FullHistoryOf(manager, ds, uid)
    ensures r.Ok? && r.value != [] ==> ValidMappings(manager, ds).Some?
  {
    r := Ok([]);
    var entry := manager.GetDataset(ds);
    if entry.Some? && entry.value.obj.valid {
      var users := entry.value.obj.userMapping;
      var items := entry.value.obj.itemMapping;
      if uid in users && Dataset.History in users[uid] {
        match users[uid][Dataset.History]
        case PHistory(h) =>
          r := AppendTitles(items, h);
        case PStr(s) =>
          if s != [] {
            r := Err(TypeError);
          }
        case PInt(_) =>
          r := Err(TypeError);
      }
    }
  }

  /** What `get_user_interaction_graph_similarity_metrics` decides before
      comparing: a missing first history is reported first. */
  datatype GraphCheck = MissingFirst | MissingSecond | Compare(first: seq<string>, second: seq<string>)

  function GraphSimilarityCheck(h1: Result<seq<string>, PyError>, h2: Result<seq<string>, PyError>): (r: Result<GraphCheck, PyError>)
    ensures h1 == Ok([]) && h2.Ok? ==> r == Ok(MissingFirst)
    ensures r == Ok(MissingSecond) ==> h1.Ok? && h1.value != [] && h2 == Ok([])
    ensures r.Ok? && r.value.Compare? ==> h1 == Ok(r.value.first) && h2 == Ok(r.value.second) && r.value.first != [] && r.value.second != []
  {
    match h1
    case Err(e) => Err(e)
    case Ok(a) =>
      match h2
      case Err(e) => Err(e)
      case Ok(b) => if a == [] then Ok(MissingFirst) else if b == [] then Ok(MissingSecond) else Ok(Compare(a, b))
  }

  // ---------------------------------------------------------------------
  // Models of a dataset

  /** `get_dataset_models`: the checkpoint names of a registered dataset,
      and none for an unknown one. */
  function DatasetModels(manager: DatasetManager.Manager, ds: string): (names: seq<string>)
    reads manager, DatasetManager.Objects(manager.datasets)
    ensures manager.GetDataset(ds).None? ==> names == []
  {
    match manager.AvailableModels(ds)
    case None => []
    case Some(models) => Keys(models)
  }

  /** The names listed are exactly those the model loader finds a
      checkpoint for. */
  lemma DatasetModelsLoadable(manager: DatasetManager.Manager, ds: string, name: string)
    ensures name in DatasetModels(manager, ds) <==> RecommendationService.Checkpoint(manager, ds, name).Some?
  {
  }

  // ---------------------------------------------------------------------
  // The user similarity report

  /** A user's history as the report reads it: `str(elt)` of each
      interaction and its item id. */
  datatype History = History(entries: seq<string>, ids: seq<string>)

  /** The item ids of a history, up to the first interaction without one. */
  function ItemIds(h: seq<Interaction>): (r: Result<seq<string>, PyError>)
    ensures r.Ok? <==> HasItemIds(h)
    ensures r.Ok? ==> |r.value| == |h| && forall i :: 0 <= i < |h| ==> r.value[i] == Get(h[i], "item_id").value
    ensures r.Err? ==> r.error == KeyError
    decreases |h|
  {
    if h == [] then Ok([])
    else
      match Get(h[0], "item_id")
      case None => Err(KeyError)
      case Some(id) =>
        assert h == [h[0]] + h[1..];
        match ItemIds(h[1..])
        case Err(e) => Err(e)
        case Ok(ids) => Ok([id] + ids)
  }

  /** `user_mapping[uid]["interaction_history"]` read into both lists: a
      `KeyError` without a history or an item id, a `TypeError` for a value
      that is not a list of interactions. */
  function ReadHistory(rec: Record): (r: Result<History, PyError>)
    ensures r.Ok? && Dataset.History in rec && rec[Dataset.History].PHistory? ==>
              var h := rec[Dataset.History].entries;
              ItemIds(h).Ok? && r.value == History(ReprAll(h), ItemIds(h).value)
    ensures r.Ok? ==> |r.value.entries| == |r.value.ids|
  {
    if Dataset.History !in rec then Err(KeyError)
    else
      match rec[Dataset.History]
      case PHistory(h) =>
        (match ItemIds(h)
         case Err(e) => Err(e)
         case Ok(ids) => Ok(History(ReprAll(h), ids)))
      case PStr(s) => if s == [] then Ok(History([], [])) else Err(TypeError)
      case PInt(_) => Err(TypeError)
  }

  /** The three set measures of two lists. */
  datatype Scores = Scores(overlap: Option<real>, sorensen: Option<real>, jaccard: Option<real>)

  function ScoresOf(a: seq<string>, b: seq<string>): Scores {
    Scores(SimilarityService.OverlapCoefficient(a, b), SimilarityService.SorensenDice(a, b), SimilarityService.Jaccard(a, b))
  }

  /** The report: recommendations against recommendations, history against
      history, and each user's history ids (all of them, then the last `k`)
      against the ids of its recommendations. */
  datatype Metrics = Metrics(recs: Scores, hist: Scores, rh1: Scores, rh2: Scores, rg1: Scores, rg2: Scores)

  function RecTitles(preds: seq<RecommendationService.Recommendation>): (titles: seq<string>)
    ensures |titles| == |preds| && forall i :: 0 <= i < |preds| ==> titles[i] == preds[i].title
  {
    seq(|preds|, i requires 0 <= i < |preds| => preds[i].title)
  }

  function RecIds(preds: seq<RecommendationService.Recommendation>): (ids: seq<string>)
    ensures |ids| == |preds| && forall i :: 0 <= i < |preds| ==> ids[i] == AfterLastDash(preds[i].node)
  {
    seq(|preds|, i requires 0 <= i < |preds| => AfterLastDash(preds[i].node))
  }

  /** The ids of a ranked list, as the measures see them (a set), are its
      item tokens when no token holds `-`. */
  lemma RecIdsTokens(items: map<string, map<string, string>>, row: seq<(string, real)>)
    requires forall i :: 0 <= i < |row| ==> '-' !in row[i].0
    ensures |RecIds(RecommendationService.Ranked(items, row))| == |row|
    ensures forall id :: id in RecIds(RecommendationService.Ranked(items, row)) <==> exists i :: 0 <= i < |row| && row[i].0 == id
  {
    var recs := RecommendationService.Ranked(items, row);
    RecommendationService.RankedEntries(items, row);
    forall id ensures id in RecIds(recs) <==> exists i :: 0 <= i < |row| && row[i].0 == id {
      if id in RecIds(recs) {
        var j :| 0 <= j < |recs| && RecIds(recs)[j] == id;
        assert recs[j] in recs;
        var i :| 0 <= i < |row| && recs[j] == RecommendationService.Recommend(items, row[i]);
        ItemIdRoundTrip(row[i].0);
      }
      if exists i :: 0 <= i < |row| && row[i].0 == id {
        var i :| 0 <= i < |row| && row[i].0 == id;
        var r := RecommendationService.Recommend(items, row[i]);
        assert r in recs;
        var j :| 0 <= j < |recs| && recs[j] == r;
        ItemIdRoundTrip(row[i].0);
        assert RecIds(recs)[j] == id;
      }
    }
  }

  function MetricsOf(preds1: seq<RecommendationService.Recommendation>, preds2: seq<RecommendationService.Recommendation>,
                     h1: History, h2: History, k: nat): Metrics {
    Metrics(
      ScoresOf(RecTitles(preds1), RecTitles(preds2)),
      ScoresOf(h1.entries, h2.entries),
      ScoresOf(h1.ids, RecIds(preds1)),
      ScoresOf(h2.ids, RecIds(preds2)),
      ScoresOf(LastK(h1.ids, k), RecIds(preds1)),
      ScoresOf(LastK(h2.ids, k), RecIds(preds2)))
  }

  /** The histories of both users when the dataset is valid and knows
      both; `None` otherwise. */
  function Histories(users: Option<map<string, Record>>, uid1: string, uid2: string): Result<Option<(History, History)>, PyError> {
    if users.None? || uid1 !in users.value || uid2 !in users.value then Ok(None)
    else
      match ReadHistory(users.value[uid1])
      case Err(e) => Err(e)
      case Ok(h1) =>
        match ReadHistory(users.value[uid2])
        case Err(e) => Err(e)
        case Ok(h2) => Ok(Some((h1, h2)))
  }

  /** `calculate_user_similarity_metrics` once both recommendation
      dictionaries are built: the first entry of each (a `StopIteration`
      for an empty one), then the report, or `None` (an empty report)
      unless both users have a non-empty history. */
  function SimilarityReport(recs1: Entries<string, seq<RecommendationService.Recommendation>>,
                            recs2: Entries<string, seq<RecommendationService.Recommendation>>,
                            users: Option<map<string, Record>>, uid1: string, uid2: string, k: nat): (r: Result<Option<Metrics>, PyError>)
    ensures recs1 == [] || recs2 == [] ==> r == Err(StopIteration)
    ensures r.Ok? && r.value.Some? ==>
              && users.Some? && uid1 in users.value && uid2 in users.value
              && ReadHistory(users.value[uid1]).Ok? && ReadHistory(users.value[uid1]).value.entries != []
              && ReadHistory(users.value[uid2]).Ok? && ReadHistory(users.value[uid2]).value.entries != []
    ensures r.Ok? && r.value.Some? ==>
              && r.value.value.rg1 == ScoresOf(LastK(ReadHistory(users.value[uid1]).value.ids, k), RecIds(recs1[0].1))
              && r.value.value.rg2 == ScoresOf(LastK(ReadHistory(users.value[uid2]).value.ids, k), RecIds(recs2[0].1))
    ensures r.Ok? && r.value.None? && users.Some? && uid1 in users.value && uid2 in users.value &&
            ReadHistory(users.value[uid1]).Ok? && ReadHistory(users.value[uid2]).Ok? ==>
              ReadHistory(users.value[uid1]).value.entries == [] || ReadHistory(users.value[uid2]).value.entries == []
  {
    if recs1 == [] || recs2 == [] then Err(StopIteration)
    else
      match Histories(users, uid1, uid2)
      case Err(e) => Err(e)
      case Ok(None) => Ok(None)
      case Ok(Some((h1, h2))) =>
        if h1.entries != [] && h2.entries != [] then Ok(Some(MetricsOf(recs1[0].1, recs2[0].1, h1, h2, k)))
        else Ok(None)
  }

  /** The report on the registry's dataset. */
  function SimilarityOf(manager: DatasetManager.Manager, ds: string,
                        recs1: Entries<string, seq<RecommendationService.Recommendation>>,
                        recs2: Entries<string, seq<RecommendationService.Recommendation>>,
                        uid1: string, uid2: string, k: nat): Result<Option<Metrics>, PyError>
    reads manager, DatasetManager.Objects(manager.datasets)
  {
    var users := match ValidMappings(manager, ds) case None => None case Some((u, _)) => Some(u);
    SimilarityReport(recs1, recs2, users, uid1, uid2, k)
  }
}
