/** The generator: for each application it ensures a `views` and a `urls`
    directory, writes an `__init__.py` aggregator into each, and writes one
    view file and one url file per model, never overwriting a path that
    already exists.

    Each step is a method over a `FileSystem` object, proved against a
    function on `Disk` values that says what the step does; the lemmas at
    the end are about those functions. Template rendering is the parameter
    `render`, an arbitrary function of the template name and the context. */
module Generator {
  import opened Descriptors
  import opened Naming
  import opened Storage

  type TemplateId = string

  /** The context of a per-model template: the four keys `app_path`,
      `app_label`, `model_name` and `model_name_slug`. */
  datatype Attributes = Attributes(appPath: string, appLabel: string, modelName: Ascii, modelNameSlug: string)

  /** What a template is rendered with: a model's attributes, or the
      aggregator's `app_label`, `model_name_slugs` and `model_names_dict`. */
  datatype Context =
    | ModelContext(attributes: Attributes)
    | InitContext(appLabel: string, modelNameSlugs: seq<string>, modelNamesDict: map<string, string>)

  /** A file to generate: where, from which template, with which context. */
  datatype Target = Target(path: string, template: TemplateId, context: Context)

  /** The notice printed for each candidate file. */
  datatype Event = Created(path: string) | Skipped(path: string)

  /** One resolved application: its label, its models in registry order and
      its descriptor. */
  datatype Entry = Entry(appLabel: string, models: seq<Model>, app: App)

  /** The disk after some steps, and the notices those steps printed. */
  datatype Effect = Effect(disk: Disk, log: seq<Event>)

  const FOLDERS: seq<string> := ["views", "urls"]

  // ---------------------------------------------------------------------
  // Names, contexts and paths

  function ModelNames(models: seq<Model>): seq<Ascii>
  {
    seq(|models|, i requires 0 <= i < |models| => models[i].name)
  }

  /** `model_name_slugs`: the slug of every name, in the same order. */
  function Slugs(names: seq<Ascii>): (slugs: seq<string>)
    ensures |slugs| == |names|
    ensures forall i | 0 <= i < |names| :: slugs[i] == CamelToSlug(names[i])
  {
    if names == [] then [] else [CamelToSlug(names[0])] + Slugs(names[1..])
  }

  /** A dict comprehension `{key(x): value(x) for x in items}`: each key
      maps to the value of the last item with that key. */
  function Comprehension<T>(items: seq<T>, key: T -> string, value: T -> string): (dict: map<string, string>)
    ensures forall i | 0 <= i < |items| :: key(items[i]) in dict
    decreases |items|
  {
    if items == [] then map[]
    else Comprehension(items[..|items| - 1], key, value)[key(items[|items| - 1]) := value(items[|items| - 1])]
  }

  function ModelSlug(model: Model): string
  {
    CamelToSlug(model.name)
  }

  /** `model_names_dict`: each model's slug mapped to the slug of its
      plural. */
  function PluralSlugs(models: seq<Model>): map<string, string>
  {
    Comprehension(models, ModelSlug, PluralSlug)
  }

  /** `model_attributes`: the per-model context. */
  function ModelAttributes(app: App, model: Model): (a: Attributes)
    ensures a.appPath == app.path && a.appLabel == app.appLabel && a.modelName == model.name
    ensures a.modelNameSlug == CamelToSlug(a.modelName)
  {
    Attributes(app.path, app.appLabel, model.name, CamelToSlug(model.name))
  }

  function FolderPath(appPath: string, folder: string): string
  {
    appPath + "/" + folder
  }

  /** The two output directories of an application. */
  function AppDirs(app: App): seq<string>
  {
    seq(|FOLDERS|, i requires 0 <= i < |FOLDERS| => FolderPath(app.path, FOLDERS[i]))
  }

  /** The suffix of a per-model file: the folder name, without its last
      character for `views`. */
  function EndFilename(folder: string): string
  {
    if folder == "views" then folder[..|folder| - 1] else folder
  }

  function ModelTarget(attributes: Attributes, folder: string): Target
  {
    Target(FolderPath(attributes.appPath, folder) + "/" + attributes.modelNameSlug + "_" + EndFilename(folder) + ".py",
           folder, ModelContext(attributes))
  }

  /** The files `create_files_from_templates` aims at, in order. */
  function ModelTargets(attributes: Attributes): seq<Target>
  {
    seq(|FOLDERS|, i requires 0 <= i < |FOLDERS| => ModelTarget(attributes, FOLDERS[i]))
  }

  function InitTarget(app: App, slugs: seq<string>, dict: map<string, string>, folder: string): Target
  {
    Target(FolderPath(app.path, folder) + "/__init__.py", "__init__" + folder, InitContext(app.appLabel, slugs, dict))
  }

  /** The files `create_init_files` aims at, in order. */
  function InitTargets(app: App, modelNames: seq<Ascii>, models: seq<Model>): seq<Target>
  {
    var slugs := Slugs(modelNames);
    var dict := PluralSlugs(models);
    seq(|FOLDERS|, i requires 0 <= i < |FOLDERS| => InitTarget(app, slugs, dict, FOLDERS[i]))
  }

  /** The per-model files of an application, model after model. */
  function ModelsTargets(app: App, models: seq<Model>): seq<Target>
  {
    if models == [] then []
    else ModelsTargets(app, models[..|models| - 1]) + ModelTargets(ModelAttributes(app, models[|models| - 1]))
  }

  /** Every file aimed at for one application, in the order of the run. */
  function AppTargets(entry: Entry): seq<Target>
  {
    InitTargets(entry.app, ModelNames(entry.models), entry.models) + ModelsTargets(entry.app, entry.models)
  }

  /** Every file aimed at for all applications, in the order of the run. */
  function Targets(bake: seq<Entry>): seq<Target>
  {
    if bake == [] then [] else Targets(bake[..|bake| - 1]) + AppTargets(bake[|bake| - 1])
  }

  function TargetPaths(targets: seq<Target>): set<string>
  {
    set t | t in targets :: t.path
  }

  /** Every directory and file path one application should end up with. */
  function AppPaths(entry: Entry): set<string>
  {
    (set p | p in AppDirs(entry.app)) + TargetPaths(AppTargets(entry))
  }

  function Paths(bake: seq<Entry>): set<string>
  {
    if bake == [] then {} else Paths(bake[..|bake| - 1]) + AppPaths(bake[|bake| - 1])
  }

  // ---------------------------------------------------------------------
  // What each step does to the disk

  /** The write policy: skip a path that exists, else write the rendering. */
  function Put(d: Disk, target: Target, render: (TemplateId, Context) -> string): Effect
  {
    if Exists(d, target.path) then Effect(d, [Skipped(target.path)])
    else Effect(d.(files := d.files[target.path := render(target.template, target.context)]), [Created(target.path)])
  }

  function PutAll(d: Disk, targets: seq<Target>, render: (TemplateId, Context) -> string): Effect
  {
    if targets == [] then Effect(d, [])
    else
      var first := PutAll(d, targets[..|targets| - 1], render);
      var last := Put(first.disk, targets[|targets| - 1], render);
      Effect(last.disk, first.log + last.log)
  }

  function EnsureDir(d: Disk, path: string): Disk
  {
    if Exists(d, path) then d else AddDirs(d, path)
  }

  function EnsureDirs(d: Disk, paths: seq<string>): Disk
  {
    if paths == [] then d else EnsureDir(EnsureDirs(d, paths[..|paths| - 1]), paths[|paths| - 1])
  }

  function RunApp(d: Disk, entry: Entry, render: (TemplateId, Context) -> string): Effect
  {
    PutAll(EnsureDirs(d, AppDirs(entry.app)), AppTargets(entry), render)
  }

  /** What `processing` does, application after application. */
  function Run(d: Disk, bake: seq<Entry>, render: (TemplateId, Context) -> string): Effect
  {
    if bake == [] then Effect(d, [])
    else
      var first := Run(d, bake[..|bake| - 1], render);
      var last := RunApp(first.disk, bake[|bake| - 1], render);
      Effect(last.disk, first.log + last.log)
  }

  // ---------------------------------------------------------------------
  // The steps

  /** `create_file_from_template`: an existing path is left alone and
      reported as skipped; otherwise the rendering is written there. */
  method CreateFileFromTemplate(fs: FileSystem, filePath: string, templatePath: TemplateId, context: Context,
                                render: (TemplateId, Context) -> string)
    returns (event: Event)
    modifies fs
    ensures old(fs.PathExists(filePath)) ==> fs.State() == old(fs.State()) && event == Skipped(filePath)
    ensures !old(fs.PathExists(filePath)) ==>
      && fs.dirs == old(fs.dirs)
      && fs.files == old(fs.files)[filePath := render(templatePath, context)]
      && event == Created(filePath)
    ensures Effect(fs.State(), [event]) == Put(old(fs.State()), Target(filePath, templatePath, context), render)
  {
    if fs.PathExists(filePath) {
      return Skipped(filePath);
    }
    fs.WriteFile(filePath, render(templatePath, context));
    event := Created(filePath);
  }

  /** `create_directories`: each output directory is made unless the path
      exists. */
  method CreateDirectories(fs: FileSystem, app: App)
    modifies fs
    ensures fs.State() == EnsureDirs(old(fs.State()), AppDirs(app))
  {
    for i := 0 to |FOLDERS|
      invariant fs.State() == EnsureDirs(old(fs.State()), AppDirs(app)[..i])
    {
      var directoryPath := FolderPath(app.path, FOLDERS[i]);
      assert AppDirs(app)[..i + 1][..i] == AppDirs(app)[..i];
      if !fs.PathExists(directoryPath) {
        fs.MakeDirs(directoryPath);
      }
    }
    assert AppDirs(app)[..|FOLDERS|] == AppDirs(app);
  }

  /** `create_init_files`: the two aggregators, each rendered with the
      slugs of the models and their plural slugs. */
  method CreateInitFiles(fs: FileSystem, app: App, modelNames: seq<Ascii>, models: seq<Model>,
                         render: (TemplateId, Context) -> string)
    returns (log: seq<Event>)
    modifies fs
    ensures Effect(fs.State(), log) == PutAll(old(fs.State()), InitTargets(app, modelNames, models), render)
  {
    var modelNameSlugs := Slugs(modelNames);
    var modelNamesDict := PluralSlugs(models);
    var targets := InitTargets(app, modelNames, models);
    log := [];
    for i := 0 to |FOLDERS|
      invariant Effect(fs.State(), log) == PutAll(old(fs.State()), targets[..i], render)
    {
      var folder := FOLDERS[i];
      var filePath := FolderPath(app.path, folder) + "/__init__.py";
      var templatePath := "__init__" + folder;
      assert targets[..i + 1][..i] == targets[..i];
      var event := CreateFileFromTemplate(fs, filePath, templatePath, InitContext(app.appLabel, modelNameSlugs, modelNamesDict), render);
      log := log + [event];
    }
    assert targets[..|FOLDERS|] == targets;
  }

  /** `create_files_from_templates`: the view file and the url file of one
      model. */
  method CreateFilesFromTemplates(fs: FileSystem, attributes: Attributes, render: (TemplateId, Context) -> string)
    returns (log: seq<Event>)
    modifies fs
    ensures Effect(fs.State(), log) == PutAll(old(fs.State()), ModelTargets(attributes), render)
  {
    var targets := ModelTargets(attributes);
    log := [];
    for i := 0 to |FOLDERS|
      invariant Effect(fs.State(), log) == PutAll(old(fs.State()), targets[..i], render)
    {
      var folderName := FOLDERS[i];
      var endFilename := folderName;
      if folderName == "views" {
        endFilename := folderName[..|folderName| - 1];
      }
      var filePath := FolderPath(attributes.appPath, folderName) + "/" + attributes.modelNameSlug + "_" + endFilename + ".py";
      assert targets[..i + 1][..i] == targets[..i];
      var event := CreateFileFromTemplate(fs, filePath, folderName, ModelContext(attributes), render);
      log := log + [event];
    }
    assert targets[..|FOLDERS|] == targets;
  }

  /** `processing`: every application in order, and within it the
      directories, the aggregators, then each model's files. */
  method Processing(fs: FileSystem, bake: seq<Entry>, render: (TemplateId, Context) -> string)
    returns (log: seq<Event>)
    modifies fs
    ensures Effect(fs.State(), log) == Run(old(fs.State()), bake, render)
  {
    log := [];
    for k := 0 to |bake|
      invariant Effect(fs.State(), log) == Run(old(fs.State()), bake[..k], render)
    {
      var entry := bake[k];
      var models := entry.models;
      var app := entry.app;
      var modelNames := ModelNames(models);
      ghost var before := fs.State();
      ghost var dirsMade := EnsureDirs(before, AppDirs(app));
      ghost var initTargets := InitTargets(app, modelNames, models);
      CreateDirectories(fs, app);
      var appLog := CreateInitFiles(fs, app, modelNames, models, render);
      assert initTargets + ModelsTargets(app, models[..0]) == initTargets;
      for j := 0 to |models|
        invariant Effect(fs.State(), appLog) == PutAll(dirsMade, initTargets + ModelsTargets(app, models[..j]), render)
      {
        var attributes := ModelAttributes(app, models[j]);
        var modelLog := CreateFilesFromTemplates(fs, attributes, render);
        ModelsTargetsStep(dirsMade, initTargets, app, models, j, render);
        appLog := appLog + modelLog;
      }
      assert models[..|models|] == models;
      RunStep(old(fs.State()), bake, k, render);
      log := log + appLog;
    }
    assert bake[..|bake|] == bake;
  }

  // ---------------------------------------------------------------------
  // Properties of a run

  /** A comprehension maps nothing but the items' keys. */
  lemma {:induction false} ComprehensionKeys<T>(items: seq<T>, key: T -> string, value: T -> string)
    ensures forall k | k in Comprehension(items, key, value) :: exists i | 0 <= i < |items| :: k == key(items[i])
    decreases |items|
  {
    if items != [] {
      var n := |items|;
      var prefix := items[..n - 1];
      ComprehensionKeys(prefix, key, value);
      forall k | k in Comprehension(items, key, value)
        ensures exists i | 0 <= i < n :: k == key(items[i])
      {
        if k != key(items[n - 1]) {
          assert k in Comprehension(prefix, key, value);
          var i :| 0 <= i < n - 1 && k == key(prefix[i]);
          assert items[i] == prefix[i];
        }
      }
    }
  }

  /** In a comprehension an item's key maps to its value unless a later
      item has the same key. */
  lemma {:induction false} ComprehensionValues<T>(items: seq<T>, key: T -> string, value: T -> string, i: nat)
    requires i < |items|
    requires forall j | i < j < |items| :: key(items[j]) != key(items[i])
    ensures Comprehension(items, key, value)[key(items[i])] == value(items[i])
    decreases |items|
  {
    var n := |items|;
    var prefix := items[..n - 1];
    if i < n - 1 {
      assert items[i] == prefix[i];
      assert forall j | i < j < n - 1 :: prefix[j] == items[j];
      ComprehensionValues(prefix, key, value, i);
    }
  }

  lemma ModelsTargetsStep(d: Disk, initTargets: seq<Target>, app: App, models: seq<Model>, j: nat,
                          render: (TemplateId, Context) -> string)
    requires j < |models|
    ensures
      var done := initTargets + ModelsTargets(app, models[..j]);
      var first := PutAll(d, done, render);
      var next := PutAll(first.disk, ModelTargets(ModelAttributes(app, models[j])), render);
      PutAll(d, initTargets + ModelsTargets(app, models[..j + 1]), render) == Effect(next.disk, first.log + next.log)
  {
    var done := initTargets + ModelsTargets(app, models[..j]);
    var more := ModelTargets(ModelAttributes(app, models[j]));
    assert models[..j + 1][..j] == models[..j];
    assert done + more == initTargets + ModelsTargets(app, models[..j + 1]);
    PutAllAppend(d, done, more, render);
  }

  lemma RunStep(d: Disk, bake: seq<Entry>, k: nat, render: (TemplateId, Context) -> string)
    requires k < |bake|
    ensures
      var first := Run(d, bake[..k], render);
      var next := RunApp(first.disk, bake[k], render);
      Run(d, bake[..k + 1], render) == Effect(next.disk, first.log + next.log)
  {
    assert bake[..k + 1][..k] == bake[..k];
  }

  lemma {:induction false} PutAllAppend(d: Disk, ts: seq<Target>, us: seq<Target>, render: (TemplateId, Context) -> string)
    ensures
      var first := PutAll(d, ts, render);
      var second := PutAll(first.disk, us, render);
      PutAll(d, ts + us, render) == Effect(second.disk, first.log + second.log)
    decreases |us|
  {
    if us == [] {
      assert ts + us == ts;
    } else {
      var n := |us|;
      assert (ts + us)[..|ts + us| - 1] == ts + us[..n - 1];
      assert (ts + us)[|ts + us| - 1] == us[n - 1];
      PutAllAppend(d, ts, us[..n - 1], render);
    }
  }

  /** New files on `d2` are renderings of targets whose path they hold. */
  ghost predicate RenderedFrom(d1: Disk, d2: Disk, targets: seq<Target>, render: (TemplateId, Context) -> string)
  {
    forall p | p in d2.files && p !in d1.files ::
      exists t | t in targets :: t.path == p && d2.files[p] == render(t.template, t.context)
  }

  lemma {:induction false} PutAllPreserves(d: Disk, targets: seq<Target>, render: (TemplateId, Context) -> string)
    ensures Extends(d, PutAll(d, targets, render).disk)
    ensures PutAll(d, targets, render).disk.dirs == d.dirs
    ensures RenderedFrom(d, PutAll(d, targets, render).disk, targets, render)
    decreases |targets|
  {
    if targets != [] {
      var prefix := targets[..|targets| - 1];
      var t := targets[|targets| - 1];
      PutAllPreserves(d, prefix, render);
      var mid := PutAll(d, prefix, render).disk;
      var end := PutAll(d, targets, render).disk;
      forall p | p in end.files && p !in d.files
        ensures exists u | u in targets :: u.path == p && end.files[p] == render(u.template, u.context)
      {
        if p in mid.files {
          var u :| u in prefix && u.path == p && mid.files[p] == render(u.template, u.context);
          assert u in targets;
        } else {
          assert t in targets;
        }
      }
    }
  }

  lemma {:induction false} EnsureDirsPreserves(d: Disk, paths: seq<string>)
    ensures EnsureDirs(d, paths).files == d.files
    ensures d.dirs <= EnsureDirs(d, paths).dirs
    ensures forall p | p in paths :: Exists(EnsureDirs(d, paths), p)
    decreases |paths|
  {
    if paths != [] {
      var prefix := paths[..|paths| - 1];
      EnsureDirsPreserves(d, prefix);
      forall p | p in paths
        ensures Exists(EnsureDirs(d, paths), p)
      {
        if p != paths[|paths| - 1] {
          assert p in prefix;
        }
      }
    }
  }

  lemma {:induction false} PutAllCovers(d: Disk, targets: seq<Target>, render: (TemplateId, Context) -> string)
    ensures forall t | t in targets :: Exists(PutAll(d, targets, render).disk, t.path)
    decreases |targets|
  {
    if targets != [] {
      var prefix := targets[..|targets| - 1];
      PutAllCovers(d, prefix, render);
      forall t | t in targets
        ensures Exists(PutAll(d, targets, render).disk, t.path)
      {
        if t != targets[|targets| - 1] {
          assert t in prefix;
        }
      }
    }
  }

  lemma RunAppPreserves(d: Disk, entry: Entry, render: (TemplateId, Context) -> string)
    ensures Extends(d, RunApp(d, entry, render).disk)
    ensures RenderedFrom(d, RunApp(d, entry, render).disk, AppTargets(entry), render)
    ensures forall p | p in AppPaths(entry) :: Exists(RunApp(d, entry, render).disk, p)
  {
    var dirsMade := EnsureDirs(d, AppDirs(entry.app));
    EnsureDirsPreserves(d, AppDirs(entry.app));
    PutAllPreserves(dirsMade, AppTargets(entry), render);
    PutAllCovers(dirsMade, AppTargets(entry), render);
  }

  /** A run never changes or removes an existing file or directory, and
      every file it adds holds the rendering of a target aimed at that
      path. */
  lemma {:induction false} RunPreserves(d: Disk, bake: seq<Entry>, render: (TemplateId, Context) -> string)
    ensures Extends(d, Run(d, bake, render).disk)
    ensures RenderedFrom(d, Run(d, bake, render).disk, Targets(bake), render)
    decreases |bake|
  {
    if bake != [] {
      var prefix := bake[..|bake| - 1];
      var entry := bake[|bake| - 1];
      RunPreserves(d, prefix, render);
      var mid := Run(d, prefix, render).disk;
      var end := Run(d, bake, render).disk;
      RunAppPreserves(mid, entry, render);
      forall p | p in end.files && p !in d.files
        ensures exists u | u in Targets(bake) :: u.path == p && end.files[p] == render(u.template, u.context)
      {
        if p in mid.files {
          var u :| u in Targets(prefix) && u.path == p && mid.files[p] == render(u.template, u.context);
          assert u in Targets(bake);
        } else {
          var u :| u in AppTargets(entry) && u.path == p && end.files[p] == render(u.template, u.context);
          assert u in Targets(bake);
        }
      }
    }
  }

  /** After a run every application has both directories, both aggregators
      and both files of each of its models (or something already stood at
      that path). */
  lemma {:induction false} RunCovers(d: Disk, bake: seq<Entry>, render: (TemplateId, Context) -> string)
    ensures forall p | p in Paths(bake) :: Exists(Run(d, bake, render).disk, p)
    decreases |bake|
  {
    if bake != [] {
      var prefix := bake[..|bake| - 1];
      var entry := bake[|bake| - 1];
      RunCovers(d, prefix, render);
      var mid := Run(d, prefix, render).disk;
      RunAppPreserves(mid, entry, render);
    }
  }

  lemma {:induction false} PutAllLog(d: Disk, targets: seq<Target>, render: (TemplateId, Context) -> string)
    ensures |PutAll(d, targets, render).log| == |targets|
    ensures forall i | 0 <= i < |targets| :: PutAll(d, targets, render).log[i].path == targets[i].path
    decreases |targets|
  {
    if targets != [] {
      PutAllLog(d, targets[..|targets| - 1], render);
    }
  }

  /** A run prints one notice per target, in the order of the targets. */
  lemma {:induction false} RunLog(d: Disk, bake: seq<Entry>, render: (TemplateId, Context) -> string)
    ensures |Run(d, bake, render).log| == |Targets(bake)|
    ensures forall i | 0 <= i < |Targets(bake)| :: Run(d, bake, render).log[i].path == Targets(bake)[i].path
    decreases |bake|
  {
    if bake != [] {
      var prefix := bake[..|bake| - 1];
      RunLog(d, prefix, render);
      PutAllLog(EnsureDirs(Run(d, prefix, render).disk, AppDirs(bake[|bake| - 1].app)), AppTargets(bake[|bake| - 1]), render);
    }
  }

  lemma {:induction false} EnsureDirsIdle(d: Disk, paths: seq<string>)
    requires forall p | p in paths :: Exists(d, p)
    ensures EnsureDirs(d, paths) == d
    decreases |paths|
  {
    if paths != [] {
      EnsureDirsIdle(d, paths[..|paths| - 1]);
    }
  }

  lemma {:induction false} PutAllIdle(d: Disk, targets: seq<Target>, render: (TemplateId, Context) -> string)
    requires forall t | t in targets :: Exists(d, t.path)
    ensures PutAll(d, targets, render).disk == d
    ensures forall e | e in PutAll(d, targets, render).log :: e.Skipped?
    decreases |targets|
  {
    if targets != [] {
      PutAllIdle(d, targets[..|targets| - 1], render);
    }
  }

  lemma {:induction false} PathsPrefix(bake: seq<Entry>, k: nat)
    requires k <= |bake|
    ensures Paths(bake[..k]) <= Paths(bake)
    decreases |bake|
  {
    if k < |bake| {
      assert bake[..|bake| - 1][..k] == bake[..k];
      PathsPrefix(bake[..|bake| - 1], k);
    } else {
      assert bake[..k] == bake;
    }
  }

  /** A run over a disk that already holds every path changes nothing and
      reports every target as skipped. */
  lemma {:induction false} RunIdle(d: Disk, bake: seq<Entry>, render: (TemplateId, Context) -> string)
    requires forall p | p in Paths(bake) :: Exists(d, p)
    ensures Run(d, bake, render).disk == d
    ensures forall e | e in Run(d, bake, render).log :: e.Skipped?
    decreases |bake|
  {
    if bake != [] {
      var prefix := bake[..|bake| - 1];
      var entry := bake[|bake| - 1];
      PathsPrefix(bake, |bake| - 1);
      RunIdle(d, prefix, render);
      EnsureDirsIdle(d, AppDirs(entry.app));
      PutAllIdle(d, AppTargets(entry), render);
    }
  }

  /** Running the generator a second time changes nothing and reports
      every one of its targets as skipped. */
  lemma SecondRunChangesNothing(d: Disk, bake: seq<Entry>, render: (TemplateId, Context) -> string)
    ensures
      var first := Run(d, bake, render);
      var second := Run(first.disk, bake, render);
      && second.disk == first.disk
      && |second.log| == |Targets(bake)|
      && forall i | 0 <= i < |second.log| :: second.log[i] == Skipped(Targets(bake)[i].path)
  {
    var first := Run(d, bake, render);
    RunCovers(d, bake, render);
    RunIdle(first.disk, bake, render);
    RunLog(first.disk, bake, render);
    var second := Run(first.disk, bake, render);
    forall i | 0 <= i < |second.log|
      ensures second.log[i] == Skipped(Targets(bake)[i].path)
    {
      assert second.log[i] in second.log;
    }
  }

  // ---------------------------------------------------------------------
  // The files aimed at

  /** A model with slug s gets `<app_path>/views/<s>_view.py` from template
      "views" and `<app_path>/urls/<s>_urls.py` from template "urls". */
  lemma ModelFilePaths(attributes: Attributes)
    ensures
      var s := attributes.modelNameSlug;
      ModelTargets(attributes) == [
        Target(attributes.appPath + "/views/" + s + "_view.py", "views", ModelContext(attributes)),
        Target(attributes.appPath + "/urls/" + s + "_urls.py", "urls", ModelContext(attributes))]
  {
    var s := attributes.modelNameSlug;
    var p := attributes.appPath;
    assert EndFilename("views") == "view";
    assert FolderPath(p, "views") + "/" + s + "_" + "view" + ".py" == p + "/views/" + s + "_view.py";
    assert FolderPath(p, "urls") + "/" + s + "_" + "urls" + ".py" == p + "/urls/" + s + "_urls.py";
  }

  /** Two models whose names share a slug aim at the same two files: once
      the first model's files are put, the second model's are all skipped
      and change nothing, so its own context is never rendered. */
  lemma SameSlugSkipped(d: Disk, app: App, m1: Model, m2: Model, render: (TemplateId, Context) -> string)
    requires ModelSlug(m1) == ModelSlug(m2)
    ensures
      var after := PutAll(d, ModelTargets(ModelAttributes(app, m1)), render).disk;
      var second := PutAll(after, ModelTargets(ModelAttributes(app, m2)), render);
      second.disk == after && forall e | e in second.log :: e.Skipped?
  {
    var ts1 := ModelTargets(ModelAttributes(app, m1));
    var ts2 := ModelTargets(ModelAttributes(app, m2));
    var after := PutAll(d, ts1, render).disk;
    PutAllCovers(d, ts1, render);
    forall t | t in ts2
      ensures Exists(after, t.path)
    {
      var i :| 0 <= i < |ts2| && ts2[i] == t;
      assert ts1[i] in ts1 && ts1[i].path == t.path;
    }
    PutAllIdle(after, ts2, render);
  }

  /** Both aggregators are `__init__.py` in the output directories, from
      templates "__init__views" and "__init__urls", with one context. */
  lemma InitFilePaths(app: App, modelNames: seq<Ascii>, models: seq<Model>)
    ensures
      var targets := InitTargets(app, modelNames, models);
      && |targets| == 2
      && targets[0].path == app.path + "/views/__init__.py" && targets[0].template == "__init__views"
      && targets[1].path == app.path + "/urls/__init__.py" && targets[1].template == "__init__urls"
      && targets[0].context == targets[1].context
  {
    var p := app.path;
    assert FolderPath(p, "views") + "/__init__.py" == p + "/views/__init__.py";
    assert FolderPath(p, "urls") + "/__init__.py" == p + "/urls/__init__.py";
  }

  /** The aggregators' context lists every model's slug in model order,
      maps exactly the models' slugs, and maps each to the plural slug of
      the last model with that slug. */
  lemma InitContextCoversModels(app: App, models: seq<Model>)
    ensures
      var context := InitTargets(app, ModelNames(models), models)[0].context;
      && context.InitContext?
      && context.appLabel == app.appLabel
      && |context.modelNameSlugs| == |models|
      && (forall i | 0 <= i < |models| :: context.modelNameSlugs[i] == ModelSlug(models[i]))
      && (forall k | k in context.modelNamesDict :: k in context.modelNameSlugs)
      && (forall i | 0 <= i < |models| && (forall j | i < j < |models| :: ModelSlug(models[j]) != ModelSlug(models[i])) ::
            ModelSlug(models[i]) in context.modelNamesDict &&
            context.modelNamesDict[ModelSlug(models[i])] == PluralSlug(models[i]))
  {
    var names := ModelNames(models);
    var slugs := Slugs(names);
    var dict := PluralSlugs(models);
    assert InitTargets(app, names, models)[0].context == InitContext(app.appLabel, slugs, dict);
    assert forall i | 0 <= i < |models| :: slugs[i] == ModelSlug(models[i]);
    ComprehensionKeys(models, ModelSlug, PluralSlug);
    forall k | k in dict
      ensures k in slugs
    {
      var i :| 0 <= i < |models| && k == ModelSlug(models[i]);
      assert slugs[i] == k;
    }
    forall i | 0 <= i < |models| && (forall j | i < j < |models| :: ModelSlug(models[j]) != ModelSlug(models[i]))
      ensures dict[ModelSlug(models[i])] == PluralSlug(models[i])
    {
      ComprehensionValues(models, ModelSlug, PluralSlug, i);
    }
  }
}
