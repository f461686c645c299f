/** The dataset registry of the back end: the constructor scans the
    datasets directory, sorts each sub-directory's entries into interaction,
    user and item files and the `models` directory's checkpoints, and keeps
    every sub-directory whose loaded dataset is valid.  The directory
    listing is an input (in the order the file system lists it); a file is
    its lines. */
module DatasetManager {
  import opened Wrappers
  import opened Strings
  import opened OrderedMaps
  import opened PyValues
  import Dataset

  /** One entry of a dataset directory: its name, its lines when read as a
      file, and its own listing when it is a directory. */
  datatype Artifact = Artifact(name: string, lines: Dataset.Lines, listing: Option<seq<string>>)

  /** One entry of the datasets directory. */
  datatype SubDir = SubDir(name: string, isDir: bool, artifacts: seq<Artifact>)

  /** The checkpoint files of a dataset: file name to path. */
  type Models = Entries<string, string>

  /** What the classification loop collects from one dataset directory. */
  datatype Kinds = Kinds(inter: seq<Artifact>, user: seq<Artifact>, item: seq<Artifact>, models: Models)

  // ---------------------------------------------------------------------
  // Classification

  /** The `.pth` files of a `models` directory, each stored under its name
      with its path. */
  function ModelFiles(models: Models, modelDir: string, files: seq<string>): Models
    decreases |files|
  {
    if files == [] then models
    else
      var f := files[|files| - 1];
      var before := ModelFiles(models, modelDir, files[..|files| - 1]);
      if EndsWith(f, ".pth") then Put(before, f, PathJoin(modelDir, f)) else before
  }

  /** One entry of the classification loop: the suffix decides, in the
      order `.inter`, `.user`, `.item`; an entry named `models` that is a
      directory contributes its checkpoints. */
  function Classified(k: Kinds, modelDir: string, a: Artifact): Kinds {
    if EndsWith(a.name, ".inter") then k.(inter := k.inter + [a])
    else if EndsWith(a.name, ".user") then k.(user := k.user + [a])
    else if EndsWith(a.name, ".item") then k.(item := k.item + [a])
    else if a.name == "models" && a.listing.Some? then k.(models := ModelFiles(k.models, modelDir, a.listing.value))
    else k
  }

  /** The classification loop over a directory's entries. */
  function Classify(modelDir: string, artifacts: seq<Artifact>): Kinds
    decreases |artifacts|
  {
    if artifacts == [] then Kinds([], [], [], [])
    else Classified(Classify(modelDir, artifacts[..|artifacts| - 1]), modelDir, artifacts[|artifacts| - 1])
  }

  /** The entries whose name ends in `suffix`, in listing order. */
  function WithSuffix(artifacts: seq<Artifact>, suffix: string): seq<Artifact>
    decreases |artifacts|
  {
    if artifacts == [] then []
    else
      var a := artifacts[|artifacts| - 1];
      WithSuffix(artifacts[..|artifacts| - 1], suffix) + (if EndsWith(a.name, suffix) then [a] else [])
  }

  /** The listings of the entries named `models` that are directories, one
      after another. */
  function ModelListings(artifacts: seq<Artifact>): seq<string>
    decreases |artifacts|
  {
    if artifacts == [] then []
    else
      var a := artifacts[|artifacts| - 1];
      ModelListings(artifacts[..|artifacts| - 1]) + (if a.name == "models" && a.listing.Some? then a.listing.value else [])
  }

  /** No name ends in two of the three data suffixes. */
  lemma SuffixesExclusive(name: string)
    ensures !(EndsWith(name, ".inter") && EndsWith(name, ".user"))
    ensures !(EndsWith(name, ".inter") && EndsWith(name, ".item"))
    ensures !(EndsWith(name, ".user") && EndsWith(name, ".item"))
    ensures name == "models" ==> !EndsWith(name, ".inter") && !EndsWith(name, ".user") && !EndsWith(name, ".item")
  {
    var n := |name|;
    if EndsWith(name, ".inter") {
      assert name[n - 3] == ".inter"[3] == 't';
      assert name[n - 1] == ".inter"[5] == 'r';
    }
    if EndsWith(name, ".user") {
      assert name[n - 3] == ".user"[2] == 's';
      assert name[n - 1] == ".user"[4] == 'r';
    }
    if EndsWith(name, ".item") {
      assert name[n - 1] == ".item"[4] == 'm';
    }
  }

  /** Checkpoints over two listings are those of the first, then of the
      second. */
  lemma {:induction false} ModelFilesAppend(models: Models, modelDir: string, a: seq<string>, b: seq<string>)
    ensures ModelFiles(models, modelDir, a + b) == ModelFiles(ModelFiles(models, modelDir, a), modelDir, b)
    decreases |b|
  {
    if b != [] {
      var b' := b[..|b| - 1];
      assert (a + b)[..|a + b| - 1] == a + b';
      assert (a + b)[|a + b| - 1] == b[|b| - 1];
      ModelFilesAppend(models, modelDir, a, b');
    } else {
      assert a + b == a;
    }
  }

  /** One entry of the classification, on the three file lists. */
  lemma ClassifyFilesStep(modelDir: string, artifacts: seq<Artifact>)
    requires artifacts != []
    ensures var init, a := artifacts[..|artifacts| - 1], artifacts[|artifacts| - 1];
            Classify(modelDir, artifacts).inter == Classify(modelDir, init).inter + (if EndsWith(a.name, ".inter") then [a] else []) &&
            Classify(modelDir, artifacts).user == Classify(modelDir, init).user + (if EndsWith(a.name, ".user") then [a] else []) &&
            Classify(modelDir, artifacts).item == Classify(modelDir, init).item + (if EndsWith(a.name, ".item") then [a] else [])
  {
    SuffixesExclusive(artifacts[|artifacts| - 1].name);
  }

  /** The classification keeps, in order, exactly the entries with each
      suffix. */
  lemma {:induction false} ClassifyFiles(modelDir: string, artifacts: seq<Artifact>)
    ensures Classify(modelDir, artifacts).inter == WithSuffix(artifacts, ".inter")
    ensures Classify(modelDir, artifacts).user == WithSuffix(artifacts, ".user")
    ensures Classify(modelDir, artifacts).item == WithSuffix(artifacts, ".item")
    decreases |artifacts|
  {
    if artifacts != [] {
      ClassifyFiles(modelDir, artifacts[..|artifacts| - 1]);
      ClassifyFilesStep(modelDir, artifacts);
    }
  }

  /** The checkpoint listing an entry contributes. */
  function Listing(a: Artifact): seq<string> {
    if a.name == "models" && a.listing.Some? then a.listing.value else []
  }

  /** One entry of the classification, on the checkpoints. */
  lemma ClassifyModelsStep(modelDir: string, artifacts: seq<Artifact>)
    requires artifacts != []
    ensures Classify(modelDir, artifacts).models ==
              ModelFiles(Classify(modelDir, artifacts[..|artifacts| - 1]).models, modelDir, Listing(artifacts[|artifacts| - 1]))
    ensures ModelListings(artifacts) == ModelListings(artifacts[..|artifacts| - 1]) + Listing(artifacts[|artifacts| - 1])
  {
    SuffixesExclusive(artifacts[|artifacts| - 1].name);
  }

  /** The classification records every `.pth` file of the `models`
      directory with its path, and nothing else. */
  lemma {:induction false} ClassifyModels(modelDir: string, artifacts: seq<Artifact>)
    ensures Classify(modelDir, artifacts).models == ModelFiles([], modelDir, ModelListings(artifacts))
    decreases |artifacts|
  {
    if artifacts != [] {
      var init := artifacts[..|artifacts| - 1];
      ClassifyModels(modelDir, init);
      ClassifyModelsStep(modelDir, artifacts);
      ModelFilesAppend([], modelDir, ModelListings(init), Listing(artifacts[|artifacts| - 1]));
    }
  }

  /** A checkpoint is recorded exactly when its file name ends in `.pth`,
      and its path is the `models` directory joined with that name. */
  lemma {:induction false} ModelFilesExactly(modelDir: string, files: seq<string>, f: string)
    ensures Get(ModelFiles([], modelDir, files), f) ==
              if f in files && EndsWith(f, ".pth") then Some(PathJoin(modelDir, f)) else None
    decreases |files|
  {
    if files != [] {
      var init := files[..|files| - 1];
      ModelFilesExactly(modelDir, init, f);
      assert files == init + [files[|files| - 1]];
      assert f in files <==> f in init || f == files[|files| - 1];
    }
  }

  // ---------------------------------------------------------------------
  // Registration

  /** The files' contents, in order. */
  function Contents(artifacts: seq<Artifact>): (ls: seq<Dataset.Lines>)
    ensures |ls| == |artifacts|
    ensures forall i :: 0 <= i < |artifacts| ==> ls[i] == artifacts[i].lines
  {
    seq(|artifacts|, i requires 0 <= i < |artifacts| => artifacts[i].lines)
  }

  /** The `models` directory of a dataset directory. */
  function ModelDir(dsPath: string, sub: SubDir): string {
    PathJoin(PathJoin(dsPath, sub.name), "models")
  }

  /** What loading the dataset of a directory gives. */
  function LoadDir(dsPath: string, sub: SubDir): Result<Dataset.Loaded, PyError> {
    var k := Classify(ModelDir(dsPath, sub), sub.artifacts);
    Dataset.Load(Dataset.ParseAll(Contents(k.user)), Dataset.ParseAll(Contents(k.item)), Dataset.ParseAll(Contents(k.inter)))
  }

  /** A directory is loaded when it has at least one user file and one
      item file. */
  predicate Candidate(dsPath: string, sub: SubDir) {
    && sub.isDir
    && Classify(ModelDir(dsPath, sub), sub.artifacts).user != []
    && Classify(ModelDir(dsPath, sub), sub.artifacts).item != []
  }

  /** A directory is registered when it is loaded and its dataset is valid. */
  predicate Admitted(dsPath: string, sub: SubDir) {
    Candidate(dsPath, sub) && LoadDir(dsPath, sub).Ok? && Dataset.IsValid(LoadDir(dsPath, sub).value)
  }

  /** What the directory loop does with one entry: nothing, raise, or
      register the dataset with its checkpoints. */
  datatype Verdict = Skip | Raise(error: PyError) | Keep(models: Models)

  function VerdictOf(dsPath: string, sub: SubDir): Verdict {
    if !Candidate(dsPath, sub) then Skip
    else Loaded(LoadDir(dsPath, sub), Classify(ModelDir(dsPath, sub), sub.artifacts).models)
  }

  /** The verdict on a loaded directory: its exception, or its checkpoints
      when the dataset is valid. */
  function Loaded(load: Result<Dataset.Loaded, PyError>, models: Models): Verdict {
    match load
    case Err(e) => Raise(e)
    case Ok(l) => if Dataset.IsValid(l) then Keep(models) else Skip
  }

  /** A directory is kept exactly when it is admitted, and raises exactly
      when loading it raises. */
  lemma VerdictMeaning(dsPath: string, sub: SubDir)
    ensures VerdictOf(dsPath, sub).Keep? <==> Admitted(dsPath, sub)
    ensures VerdictOf(dsPath, sub).Keep? ==>
              VerdictOf(dsPath, sub).models == Classify(ModelDir(dsPath, sub), sub.artifacts).models
    ensures VerdictOf(dsPath, sub).Raise? <==> Candidate(dsPath, sub) && LoadDir(dsPath, sub).Err?
  {
  }

  /** The directory names with their verdicts, in listing order. */
  function Verdicts(dsPath: string, subs: seq<SubDir>): (runs: seq<(string, Verdict)>)
    ensures |runs| == |subs|
    ensures forall i :: 0 <= i < |subs| ==> runs[i] == (subs[i].name, VerdictOf(dsPath, subs[i]))
  {
    seq(|subs|, i requires 0 <= i < |subs| => (subs[i].name, VerdictOf(dsPath, subs[i])))
  }

  /** One turn of the constructor's directory loop, on the registry's names
      and checkpoints.  An exception while loading a dataset leaves the
      constructor. */
  function Register(reg: Entries<string, Models>, name: string, v: Verdict): Result<Entries<string, Models>, PyError> {
    match v
    case Skip => Ok(reg)
    case Raise(e) => Err(e)
    case Keep(models) => Ok(Put(reg, name, models))
  }

  /** The whole directory loop. */
  function Registry(reg: Entries<string, Models>, runs: seq<(string, Verdict)>): Result<Entries<string, Models>, PyError>
    decreases |runs|
  {
    if runs == [] then Ok(reg)
    else
      match Registry(reg, runs[..|runs| - 1])
      case Err(e) => Err(e)
      case Ok(mid) => Register(mid, runs[|runs| - 1].0, runs[|runs| - 1].1)
  }

  /** No entry after the `i`-th has its name. */
  predicate LastNamed(runs: seq<(string, Verdict)>, i: nat)
    requires i < |runs|
  {
    forall j :: i < j < |runs| ==> runs[j].0 != runs[i].0
  }

  /** The registry holds exactly the names it started with and those of the
      kept directories; a kept directory that no later entry of the same
      name follows keeps its own checkpoints. */
  lemma {:induction false} RegisteredExactly(reg: Entries<string, Models>, runs: seq<(string, Verdict)>)
    requires Registry(reg, runs).Ok?
    ensures forall n :: n in Keys(Registry(reg, runs).value) <==>
              n in Keys(reg) || exists i :: 0 <= i < |runs| && runs[i].0 == n && runs[i].1.Keep?
    ensures forall i :: 0 <= i < |runs| && runs[i].1.Keep? && LastNamed(runs, i) ==>
              Get(Registry(reg, runs).value, runs[i].0) == Some(runs[i].1.models)
    decreases |runs|
  {
    if runs != [] {
      var n := |runs|;
      var init := runs[..n - 1];
      RegisteredExactly(reg, init);
      forall i | 0 <= i < n - 1 ensures runs[i] == init[i] && (LastNamed(runs, i) ==> LastNamed(init, i)) {
        if LastNamed(runs, i) {
          forall j | i < j < n - 1 ensures init[j].0 != init[i].0 {
            assert init[j] == runs[j];
          }
        }
      }
    }
  }

  /** The loop raises exactly when some directory raises, and then with the
      exception of the first one. */
  lemma {:induction false} RegistryRaises(reg: Entries<string, Models>, runs: seq<(string, Verdict)>)
    ensures Registry(reg, runs).Err? <==> exists i :: 0 <= i < |runs| && runs[i].1.Raise?
    ensures Registry(reg, runs).Err? ==>
              exists i :: && 0 <= i < |runs| && runs[i].1 == Raise(Registry(reg, runs).error)
                          && forall j :: 0 <= j < i ==> !runs[j].1.Raise?
    decreases |runs|
  {
    if runs != [] {
      var n := |runs|;
      var init := runs[..n - 1];
      RegistryRaises(reg, init);
      assert forall i :: 0 <= i < n - 1 ==> init[i] == runs[i];
      if Registry(reg, init).Err? {
        var i :| 0 <= i < |init| && init[i].1 == Raise(Registry(reg, init).error) && forall j :: 0 <= j < i ==> !init[j].1.Raise?;
        assert runs[i] == init[i];
      }
    }
  }

  /** The loop after `i + 1` turns. */
  lemma RegistryNext(reg: Entries<string, Models>, runs: seq<(string, Verdict)>, i: nat, cur: Entries<string, Models>)
    requires i < |runs|
    requires Registry(reg, runs[..i]) == Ok(cur)
    ensures Registry(reg, runs[..i + 1]) == Register(cur, runs[i].0, runs[i].1)
  {
    assert runs[..i + 1][..i] == runs[..i];
  }

  /** An exception ends the loop. */
  lemma {:induction false} RegistryStops(reg: Entries<string, Models>, runs: seq<(string, Verdict)>, i: nat)
    requires i <= |runs|
    requires Registry(reg, runs[..i]).Err?
    ensures Registry(reg, runs) == Registry(reg, runs[..i])
    decreases |runs| - i
  {
    if i < |runs| {
      assert runs[..i + 1][..i] == runs[..i];
      RegistryStops(reg, runs, i + 1);
    } else {
      assert runs[..i] == runs;
    }
  }

  // ---------------------------------------------------------------------
  // The manager

  /** One registry entry: `{"dataset_obj": ..., "models": ...}`. */
  datatype Entry = Entry(obj: Dataset.Dataset, models: Models)

  function ModelsOf(e: Entry): Models {
    e.models
  }

  /** The registry's names and checkpoints. */
  function Table(ds: Entries<string, Entry>): Entries<string, Models> {
    MapValues(ds, ModelsOf)
  }

  /** The dataset objects of a registry. */
  function Objects(ds: Entries<string, Entry>): set<object> {
    set e | e in ds :: e.1.obj
  }

  /** Every registered dataset is valid, carries the directory's name and
      shares the entry's checkpoints. */
  ghost predicate Registered(ds: Entries<string, Entry>)
    reads Objects(ds)
  {
    forall e | e in ds :: e.1.obj.valid && e.1.obj.datasetName == e.0 && e.1.obj.models == e.1.models
  }

  /** One turn of the directory loop, on the registry. */
  method Admit(ds: Entries<string, Entry>, dsPath: string, sub: SubDir) returns (err: Option<PyError>, ds': Entries<string, Entry>)
    requires Registered(ds)
    ensures Registered(ds')
    ensures Register(Table(ds), sub.name, VerdictOf(dsPath, sub)) == Outcome(err, Table(ds'))
  {
    err, ds' := None, ds;
    if sub.isDir {
      var k := ClassifyDir(ModelDir(dsPath, sub), sub.artifacts);
      if k.user != [] && k.item != [] {
        ghost var load := LoadDir(dsPath, sub);
        var r := Dataset.Open(Contents(k.user), Contents(k.item), Contents(k.inter), k.models, sub.name);
        err, ds' := Store(ds, sub.name, k.models, r, load);
      }
    }
  }

  /** The registration of a loaded dataset: an exception is passed on, and
      a valid dataset is stored under its directory's name. */
  method Store(ds: Entries<string, Entry>, name: string, models: Models, r: Result<Dataset.Dataset, PyError>,
               ghost load: Result<Dataset.Loaded, PyError>)
    returns (err: Option<PyError>, ds': Entries<string, Entry>)
    requires Registered(ds)
    requires load.Err? ==> r == Err(load.error)
    requires load.Ok? ==> && r.Ok? && r.value.valid == Dataset.IsValid(load.value)
                          && r.value.models == models && r.value.datasetName == name
    ensures Registered(ds')
    ensures Register(Table(ds), name, Loaded(load, models)) == Outcome(err, Table(ds'))
  {
    err, ds' := None, ds;
    match r
    case Err(e) =>
      err := Some(e);
    case Ok(d) =>
      if d.valid {
        ds' := Put(ds, name, Entry(d, models));
        PutMapValues(ds, name, Entry(d, models), ModelsOf);
        RegisteredPut(ds, name, Entry(d, models));
      }
  }

  /** Registering a valid dataset under its own name keeps the registry's
      invariant. */
  lemma RegisteredPut(ds: Entries<string, Entry>, name: string, e: Entry)
    requires Registered(ds)
    requires e.obj.valid && e.obj.datasetName == name && e.obj.models == e.models
    ensures Registered(Put(ds, name, e))
  {
    PutElements(ds, name, e);
  }

  /** Every entry after a store is an old one or the stored one. */
  lemma {:induction false} PutElements<K(!new), V>(m: Entries<K, V>, k: K, v: V)
    ensures forall e :: e in Put(m, k, v) ==> e in m || e == (k, v)
  {
    if m != [] && m[0].0 != k {
      PutElements(m[1..], k, v);
      assert Put(m, k, v) == [m[0]] + Put(m[1..], k, v);
      assert forall e :: e in m[1..] ==> e in m;
    } else if m != [] {
      assert Put(m, k, v) == [(k, v)] + m[1..];
      assert forall e :: e in m[1..] ==> e in m;
    }
  }

  /** The classification loop of one directory. */
  method ClassifyDir(modelDir: string, artifacts: seq<Artifact>) returns (k: Kinds)
    ensures k == Classify(modelDir, artifacts)
  {
    k := Kinds([], [], [], []);
    for i := 0 to |artifacts|
      invariant k == Classify(modelDir, artifacts[..i])
    {
      assert artifacts[..i + 1][..i] == artifacts[..i];
      var a := artifacts[i];
      if EndsWith(a.name, ".inter") {
        k := k.(inter := k.inter + [a]);
      } else if EndsWith(a.name, ".user") {
        k := k.(user := k.user + [a]);
      } else if EndsWith(a.name, ".item") {
        k := k.(item := k.item + [a]);
      } else if a.name == "models" && a.listing.Some? {
        var models := ListModels(k.models, modelDir, a.listing.value);
        k := k.(models := models);
      }
    }
    assert artifacts[..|artifacts|] == artifacts;
  }

  /** The loop over a `models` directory. */
  method ListModels(models: Models, modelDir: string, files: seq<string>) returns (r: Models)
    ensures r == ModelFiles(models, modelDir, files)
  {
    r := models;
    for j := 0 to |files|
      invariant r == ModelFiles(models, modelDir, files[..j])
    {
      assert files[..j + 1][..j] == files[..j];
      if EndsWith(files[j], ".pth") {
        r := Put(r, files[j], PathJoin(modelDir, files[j]));
      }
    }
    assert files[..|files|] == files;
  }

  class Manager {
    /** `self.datasets`, in registration order. */
    var datasets: Entries<string, Entry>

    ghost predicate Valid()
      reads this, Objects(datasets)
    {
      Registered(datasets)
    }

    /** The attribute initialisation of the constructor. */
    constructor ()
      ensures Valid() && datasets == []
    {
      datasets := [];
    }

    /** The constructor's loop over the datasets directory. */
    method Scan(dsPath: string, subs: seq<SubDir>) returns (err: Option<PyError>)
      requires Valid()
      modifies this`datasets
      ensures Valid()
      ensures Registry(Table(old(datasets)), Verdicts(dsPath, subs)) == Outcome(err, Table(datasets))
    {
      ghost var reg0 := Table(datasets);
      ghost var runs := Verdicts(dsPath, subs);
      var ds := datasets;
      err := None;
      var i := 0;
      while i < |subs|
        invariant 0 <= i <= |subs|
        invariant Registry(reg0, runs[..i]) == Ok(Table(ds))
        invariant Registered(ds)
        invariant err.None?
      {
        RegistryNext(reg0, runs, i, Table(ds));
        err, ds := Admit(ds, dsPath, subs[i]);
        if err.Some? {
          RegistryStops(reg0, runs, i + 1);
          datasets := ds;
          return;
        }
        i := i + 1;
      }
      assert runs[..i] == runs;
      datasets := ds;
    }

    /** `get_available_datasets`: the registered names, in registration
        order. */
    function AvailableDatasets(): (names: seq<string>)
      reads this
      ensures |names| == |datasets|
      ensures forall n :: n in names <==> GetDataset(n).Some?
    {
      Keys(datasets)
    }

    /** `get_dataset`: the entry, or `None` for an unregistered name. */
    function GetDataset(name: string): (e: Option<Entry>)
      reads this
      ensures e.Some? <==> name in Keys(datasets)
      ensures e.Some? ==> (name, e.value) in datasets
    {
      Get(datasets, name)
    }

    /** `get_available_models`: the checkpoints of a registered dataset,
        or `None`. */
    function AvailableModels(name: string): (m: Option<Models>)
      reads this, Objects(datasets)
      ensures m.Some? <==> name in Keys(datasets)
      ensures Valid() ==> m == Get(Table(datasets), name)
    {
      match Get(datasets, name)
      case Some(e) =>
        assert (name, e) in datasets;
        TableGet(datasets, name);
        Some(e.obj.models)
      case None =>
        TableGet(datasets, name);
        None
    }
  }

  /** Looking a name up in the table is looking it up in the registry. */
  lemma {:induction false} TableGet(ds: Entries<string, Entry>, name: string)
    ensures Get(Table(ds), name) == if Get(ds, name).Some? then Some(Get(ds, name).value.models) else None
  {
    if ds != [] {
      assert Table(ds)[1..] == Table(ds[1..]);
      TableGet(ds[1..], name);
    }
  }

  /** `DatasetManager()`: a fresh manager whose registry is what the
      directory loop gives, or the exception a dataset raised. */
  method Open(dsPath: string, subs: seq<SubDir>) returns (r: Result<Manager, PyError>)
    ensures Registry([], Verdicts(dsPath, subs)).Err? ==> r == Err(Registry([], Verdicts(dsPath, subs)).error)
    ensures Registry([], Verdicts(dsPath, subs)).Ok? ==>
              r.Ok? && fresh(r.value) && r.value.Valid() && Table(r.value.datasets) == Registry([], Verdicts(dsPath, subs)).value
  {
    var m := new Manager();
    var err := m.Scan(dsPath, subs);
    if err.Some? {
      return Err(err.value);
    }
    return Ok(m);
  }

  /** A registered dataset is exactly an admitted directory, with the
      checkpoints of its `models` directory; an unknown name has no entry;
      and the constructor raises exactly when loading some directory with
      user and item files raises. */
  lemma RegistryNames(dsPath: string, subs: seq<SubDir>, name: string)
    ensures Registry([], Verdicts(dsPath, subs)).Err? <==>
              exists i :: 0 <= i < |subs| && Candidate(dsPath, subs[i]) && LoadDir(dsPath, subs[i]).Err?
    ensures Registry([], Verdicts(dsPath, subs)).Ok? ==>
              (name in Keys(Registry([], Verdicts(dsPath, subs)).value) <==>
                 exists i :: 0 <= i < |subs| && subs[i].name == name && Admitted(dsPath, subs[i]))
    ensures Registry([], Verdicts(dsPath, subs)).Ok? ==>
              forall i :: 0 <= i < |subs| && subs[i].name == name && Admitted(dsPath, subs[i]) &&
                          (forall j :: i < j < |subs| ==> subs[j].name != name) ==>
                Get(Registry([], Verdicts(dsPath, subs)).value, name) == Some(Classify(ModelDir(dsPath, subs[i]), subs[i].artifacts).models)
  {
    var runs := Verdicts(dsPath, subs);
    forall i | 0 <= i < |subs| {
      VerdictMeaning(dsPath, subs[i]);
    }
    RegistryRaises([], runs);
    if Registry([], runs).Ok? {
      RegisteredExactly([], runs);
      forall i | 0 <= i < |subs| && (forall j :: i < j < |subs| ==> subs[j].name != subs[i].name)
        ensures LastNamed(runs, i)
      {
      }
    }
  }
}
