/** Where the rating models live and how they are loaded and cached
    (src/ml_rating.py: `find_best_model_directory`, `MLModelManager`).
    The file system is an input: directory listings, and for each model or
    card-list file what loading it yields. */
module ModelStore {

  import opened Wrappers

  /** A loaded inference session, identified by an opaque number. */
  datatype Session = Session(id: nat)

  /** The file system as the manager sees it.
      `dirs`: each existing directory and the file names it lists.
      `models`: each existing `.onnx` file and the session it loads, `None`
      when loading raises. `tables`: each existing card `.csv` file and its
      `name` column, `None` when reading raises. */
  datatype Disk = Disk(
    dirs: map<string, seq<string>>,
    models: map<string, Option<Session>>,
    tables: map<string, Option<seq<string>>>)

  /** Path separator used by `Join`. */
  const Sep: char := '/'

  /** `os.path.join(a, b)` for a relative `b`. */
  function Join(a: string, b: string): (p: string)
    ensures |p| >= |b| && p[|p| - |b|..] == b
    ensures a == "" ==> p == b
  {
    if a == "" then b
    else if a[|a| - 1] == Sep then a + b
    else a + [Sep] + b
  }

  /** Joining onto a non-empty directory keeps the directory as the path's
      prefix, with a separator just before the component, so every path
      built from `model_directory` depends on it. */
  lemma JoinKeepsDirectory(a: string, b: string)
    requires a != ""
    ensures |Join(a, b)| > |b| && |Join(a, b)| >= |a|
    ensures Join(a, b)[..|a|] == a
    ensures Join(a, b)[|Join(a, b)| - |b| - 1] == Sep
  {
  }

  predicate EndsWith(s: string, suffix: string) {
    |s| >= |suffix| && s[|s| - |suffix|..] == suffix
  }

  /** Some listed file name ends in ".onnx". */
  predicate HasModelFile(files: seq<string>) {
    exists i :: 0 <= i < |files| && EndsWith(files[i], ".onnx")
  }

  /** The downloaded-models directory's `onnx` sub-directory lists a model. */
  predicate HoldsModels(appdata: string, disk: Disk) {
    Join(appdata, "onnx") in disk.dirs && HasModelFile(disk.dirs[Join(appdata, "onnx")])
  }

  /** `_find_appdata_model_directory`: the downloaded-models directory when
      its `onnx` sub-directory lists at least one model file, else "". */
  function AppdataModelDirectory(appdata: string, disk: Disk): (r: string)
    ensures r == appdata || r == ""
    ensures r == appdata <==> (appdata == "" || HoldsModels(appdata, disk))
  {
    var onnxDir := Join(appdata, "onnx");
    if onnxDir in disk.dirs && HasModelFile(disk.dirs[onnxDir]) then appdata else ""
  }

  /** `_find_bundled_model_directory`: `models` beside the program, if it is a
      directory, else "". */
  function BundledModelDirectory(base: string, disk: Disk): (r: string)
    ensures r == Join(base, "models") || r == ""
    ensures r == Join(base, "models") <==> Join(base, "models") in disk.dirs
  {
    var candidate := Join(base, "models");
    if candidate in disk.dirs then candidate else ""
  }

  /** `find_best_model_directory`: the downloaded models when that directory
      holds a model file, else the bundled directory, which may be "". */
  function FindBestModelDirectory(appdata: string, base: string, disk: Disk): (r: string)
    ensures appdata != "" && HoldsModels(appdata, disk) ==> r == appdata
    ensures !(appdata != "" && HoldsModels(appdata, disk)) ==>
      r == (if Join(base, "models") in disk.dirs then Join(base, "models") else "")
  {
    var a := AppdataModelDirectory(appdata, disk);
    if a != "" then a else BundledModelDirectory(base, disk)
  }

  /** `MLModelManager`: the model directory and the two caches, sessions by
      `"{set}_{mode}"` and card-name lists by set code. */
  datatype Manager = Manager(directory: string, sessions: map<string, Session>, cardNames: map<string, seq<string>>)

  /** A manager call's result together with the manager afterwards. */
  datatype Loaded<T> = Loaded(manager: Manager, value: Option<T>)

  /** `MLModelManager.__init__`: an explicit non-empty directory wins over
      the search; both caches start empty. */
  function NewManager(directory: string, appdata: string, base: string, disk: Disk): (m: Manager)
    ensures directory != "" ==> m.directory == directory
    ensures directory == "" ==> m.directory == FindBestModelDirectory(appdata, base, disk)
    ensures m.sessions == map[] && m.cardNames == map[]
  {
    Manager(if directory != "" then directory else FindBestModelDirectory(appdata, base, disk), map[], map[])
  }

  /** `set_model_directory`: repoint and drop both caches. */
  function SetModelDirectory(m: Manager, path: string): (r: Manager)
    ensures r.directory == path && r.sessions == map[] && r.cardNames == map[]
  {
    Manager(path, map[], map[])
  }

  function CacheKey(setCode: string, mode: string): string {
    setCode + "_" + mode
  }

  /** `os.path.join(model_directory, "onnx", f"{set_code}_{mode}.onnx")`. */
  function ModelPath(directory: string, setCode: string, mode: string): string {
    Join(Join(directory, "onnx"), setCode + "_" + mode + ".onnx")
  }

  /** `os.path.join(model_directory, "cards", f"{set_code}.csv")`. */
  function CardsPath(directory: string, setCode: string): string {
    Join(Join(directory, "cards"), setCode + ".csv")
  }

  /** Only Premier falls back, and only to PickTwo. */
  function ModesToTry(mode: string): (modes: seq<string>)
    ensures |modes| == if mode == "Premier" then 2 else 1
    ensures modes[0] == mode
    ensures mode == "Premier" ==> modes[1] == "PickTwo"
  {
    if mode == "Premier" then [mode, "PickTwo"] else [mode]
  }

  /** `modes[j]` is the first of `modes` whose model file exists. */
  predicate FirstExisting(disk: Disk, directory: string, setCode: string, modes: seq<string>, j: nat)
    requires j < |modes|
  {
    && ModelPath(directory, setCode, modes[j]) in disk.models
    && forall i :: 0 <= i < j ==> ModelPath(directory, setCode, modes[i]) !in disk.models
  }

  /** The loop over `modes_to_try`: the first existing file is loaded and
      cached under `key`; if loading it raises, the search stops with `None`. */
  function TryModes(m: Manager, disk: Disk, setCode: string, key: string, modes: seq<string>): (r: Loaded<Session>)
    ensures r.value.None? ==> r.manager == m
    ensures r.value.Some? ==> r.manager == m.(sessions := m.sessions[key := r.value.value])
    ensures r.value.Some? ==>
      (exists i :: 0 <= i < |modes| &&
        ModelPath(m.directory, setCode, modes[i]) in disk.models &&
        disk.models[ModelPath(m.directory, setCode, modes[i])] == r.value)
    ensures forall j :: 0 <= j < |modes| && FirstExisting(disk, m.directory, setCode, modes, j) ==>
      r.value == disk.models[ModelPath(m.directory, setCode, modes[j])]
    ensures (forall i :: 0 <= i < |modes| ==> ModelPath(m.directory, setCode, modes[i]) !in disk.models) ==>
      r.value.None?
  {
    if |modes| == 0 then Loaded(m, None)
    else
      var path := ModelPath(m.directory, setCode, modes[0]);
      if path in disk.models then
        match disk.models[path]
        case None => Loaded(m, None)
        case Some(session) => Loaded(m.(sessions := m.sessions[key := session]), Some(session))
      else
        var rest := TryModes(m, disk, setCode, key, modes[1..]);
        assert forall j :: 1 <= j < |modes| && FirstExisting(disk, m.directory, setCode, modes, j) ==>
          rest.value == disk.models[ModelPath(m.directory, setCode, modes[j])] by {
          forall j | 1 <= j < |modes| && FirstExisting(disk, m.directory, setCode, modes, j)
            ensures rest.value == disk.models[ModelPath(m.directory, setCode, modes[j])]
          {
            assert modes[1..][j - 1] == modes[j];
            assert forall i :: 0 <= i < j - 1 ==> modes[1..][i] == modes[i + 1];
            assert FirstExisting(disk, m.directory, setCode, modes[1..], j - 1);
          }
        }
        assert (forall i :: 0 <= i < |modes| ==> ModelPath(m.directory, setCode, modes[i]) !in disk.models) ==>
          rest.value.None? by {
          assert forall i :: 0 <= i < |modes[1..]| ==> modes[1..][i] == modes[i + 1];
        }
        assert rest.value.Some? ==>
          (exists i :: 1 <= i < |modes| &&
            ModelPath(m.directory, setCode, modes[i]) in disk.models &&
            disk.models[ModelPath(m.directory, setCode, modes[i])] == rest.value) by {
          if rest.value.Some? {
            var i :| 0 <= i < |modes[1..]| && ModelPath(m.directory, setCode, modes[1..][i]) in disk.models &&
              disk.models[ModelPath(m.directory, setCode, modes[1..][i])] == rest.value;
            assert modes[1..][i] == modes[i + 1];
          }
        }
        rest
  }

  /** `MLModelManager.get_model`. */
  function GetModel(m: Manager, disk: Disk, onnxAvailable: bool, setCode: string, mode: string): (r: Loaded<Session>)
    ensures r.manager.directory == m.directory && r.manager.cardNames == m.cardNames
    ensures m.sessions.Keys <= r.manager.sessions.Keys
    ensures !onnxAvailable ==> r == Loaded(m, None)
    ensures onnxAvailable && CacheKey(setCode, mode) in m.sessions ==>
      r == Loaded(m, Some(m.sessions[CacheKey(setCode, mode)]))
    ensures r.value.None? ==> r.manager == m
    ensures r.value.Some? ==> r.manager.sessions == m.sessions[CacheKey(setCode, mode) := r.value.value]
  {
    if !onnxAvailable then Loaded(m, None)
    else
      var key := CacheKey(setCode, mode);
      if key in m.sessions then Loaded(m, Some(m.sessions[key]))
      else TryModes(m, disk, setCode, key, ModesToTry(mode))
  }

  /** Outside Premier only the requested mode's file is consulted: a PickTwo
      model never stands in for any other mode. */
  lemma NoFallbackOutsidePremier(m: Manager, disk: Disk, setCode: string, mode: string)
    requires mode != "Premier" && CacheKey(setCode, mode) !in m.sessions
    ensures GetModel(m, disk, true, setCode, mode).value ==
      if ModelPath(m.directory, setCode, mode) in disk.models
      then disk.models[ModelPath(m.directory, setCode, mode)] else None
  {
    assert ModesToTry(mode)[1..] == [];
  }

  /** Premier tries its own file, then PickTwo's; the session found is cached
      under the Premier key. */
  lemma PremierFallsBackToPickTwo(m: Manager, disk: Disk, setCode: string)
    requires CacheKey(setCode, "Premier") !in m.sessions
    requires ModelPath(m.directory, setCode, "Premier") !in disk.models
    ensures GetModel(m, disk, true, setCode, "Premier").value ==
      if ModelPath(m.directory, setCode, "PickTwo") in disk.models
      then disk.models[ModelPath(m.directory, setCode, "PickTwo")] else None
    ensures GetModel(m, disk, true, setCode, "Premier").value.Some? ==>
      CacheKey(setCode, "Premier") in GetModel(m, disk, true, setCode, "Premier").manager.sessions
  {
    var modes := ModesToTry("Premier");
    var key := CacheKey(setCode, "Premier");
    assert modes[1..] == ["PickTwo"];
    assert modes[1..][1..] == [];
    assert TryModes(m, disk, setCode, key, modes) == TryModes(m, disk, setCode, key, ["PickTwo"]);
  }

  /** Premier prefers its own file: when it exists, its session (or its load
      failure) is the answer, whatever PickTwo's file holds. */
  lemma PremierPrefersOwnModel(m: Manager, disk: Disk, setCode: string)
    requires CacheKey(setCode, "Premier") !in m.sessions
    requires ModelPath(m.directory, setCode, "Premier") in disk.models
    ensures GetModel(m, disk, true, setCode, "Premier").value ==
      disk.models[ModelPath(m.directory, setCode, "Premier")]
  {
    assert FirstExisting(disk, m.directory, setCode, ModesToTry("Premier"), 0);
  }

  /** A model file that exists but fails to load ends the search: `None`,
      even when a fallback file would load. */
  lemma LoadFailureStopsSearch(m: Manager, disk: Disk, setCode: string, mode: string)
    requires CacheKey(setCode, mode) !in m.sessions
    requires ModelPath(m.directory, setCode, mode) in disk.models
    requires disk.models[ModelPath(m.directory, setCode, mode)] == None
    ensures GetModel(m, disk, true, setCode, mode) == Loaded(m, None)
  {
  }

  /** Once a session is cached the disk is no longer consulted: the next
      request for the same set and mode returns the same session whatever the
      disk now holds. */
  lemma CachedSessionIgnoresDisk(m: Manager, disk: Disk, later: Disk, setCode: string, mode: string)
    requires GetModel(m, disk, true, setCode, mode).value.Some?
    ensures var first := GetModel(m, disk, true, setCode, mode);
      GetModel(first.manager, later, true, setCode, mode) == first
  {
  }

  /** After repointing, what `get_model` returns depends only on the new
      directory and the disk, not on anything cached before. */
  lemma RepointForgetsSessions(m1: Manager, m2: Manager, path: string, disk: Disk, onnxAvailable: bool, setCode: string, mode: string)
    ensures GetModel(SetModelDirectory(m1, path), disk, onnxAvailable, setCode, mode) ==
            GetModel(SetModelDirectory(m2, path), disk, onnxAvailable, setCode, mode)
    ensures GetCardNames(SetModelDirectory(m1, path), disk, setCode) ==
            GetCardNames(SetModelDirectory(m2, path), disk, setCode)
  {
  }

  /** `MLModelManager.get_cardnames`: the cached list, else the file's name
      column, cached only when it was read. */
  function GetCardNames(m: Manager, disk: Disk, setCode: string): (r: Loaded<seq<string>>)
    ensures r.manager.directory == m.directory && r.manager.sessions == m.sessions
    ensures setCode in m.cardNames ==> r == Loaded(m, Some(m.cardNames[setCode]))
    ensures setCode !in m.cardNames && CardsPath(m.directory, setCode) !in disk.tables ==> r == Loaded(m, None)
    ensures r.value.None? ==> r.manager == m
    ensures r.value.Some? ==> r.manager.cardNames == m.cardNames[setCode := r.value.value]
    ensures r.value.Some? && setCode !in m.cardNames ==>
      disk.tables[CardsPath(m.directory, setCode)] == r.value
    ensures setCode !in m.cardNames && CardsPath(m.directory, setCode) in disk.tables ==>
      r.value == disk.tables[CardsPath(m.directory, setCode)]
  {
    if setCode in m.cardNames then Loaded(m, Some(m.cardNames[setCode]))
    else
      var path := CardsPath(m.directory, setCode);
      if path !in disk.tables then Loaded(m, None)
      else match disk.tables[path]
        case None => Loaded(m, None)
        case Some(names) => Loaded(m.(cardNames := m.cardNames[setCode := names]), Some(names))
  }
}
