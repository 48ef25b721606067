/** The `create_restapi` management command: it resolves each command-line
    argument to an installed application, collects them into the "bake"
    dictionary keyed by application label, and only then runs the
    generator over it.

    The framework's application registry is a map from label to the
    application and its models. The bake dictionary is a sequence of
    entries in insertion order with pairwise distinct labels. */
module Command {
  import opened Descriptors
  import opened Storage
  import opened Generator

  /** What the registry knows of an installed application. */
  datatype Registered = Registered(app: App, models: seq<Model>)

  type Registry = map<string, Registered>

  datatype CommandError = CommandError(message: string)

  datatype Result<+T> = Ok(value: T) | Err(error: CommandError)

  // ---------------------------------------------------------------------
  // Arguments and lookups

  /** `arg.split(':')[0]`: the text before the first ':', or all of it. */
  function Label(arg: string): (l: string)
    ensures l <= arg
    ensures ':' !in l
    ensures |l| < |arg| ==> arg[|l|] == ':'
  {
    if arg == [] || arg[0] == ':' then [] else [arg[0]] + Label(arg[1..])
  }

  /** The label of every argument, in order. */
  function ArgLabels(args: seq<string>): seq<string>
  {
    seq(|args|, i requires 0 <= i < |args| => Label(args[i]))
  }

  /** The error raised for a label the registry does not know. */
  function NotRegistered(appName: string): (e: CommandError)
    ensures appName <= e.message
  {
    CommandError(appName + " is ImproperlyConfigured - did you remember to add " + appName + " to settings.INSTALLED_APPS?")
  }

  /** `get_app_and_models`: the registry's application and models for the
      label, or the configuration error. */
  function GetAppAndModels(registry: Registry, appName: string): (r: Result<Registered>)
    ensures r.Ok? <==> appName in registry
    ensures r.Ok? ==> r.value == registry[appName]
    ensures r.Err? ==> r.error == NotRegistered(appName)
  {
    if appName in registry then Ok(registry[appName]) else Err(NotRegistered(appName))
  }

  // ---------------------------------------------------------------------
  // The bake dictionary

  function Labels(bake: seq<Entry>): seq<string>
  {
    seq(|bake|, i requires 0 <= i < |bake| => bake[i].appLabel)
  }

  predicate DistinctLabels(bake: seq<Entry>)
  {
    forall i, j | 0 <= i < j < |bake| :: bake[i].appLabel != bake[j].appLabel
  }

  /** Every entry is what the registry holds for its label. */
  predicate Resolved(registry: Registry, bake: seq<Entry>)
  {
    forall i | 0 <= i < |bake| ::
      bake[i].appLabel in registry && registry[bake[i].appLabel] == Registered(bake[i].app, bake[i].models)
  }

  /** `bake[entry.appLabel] = entry` on a dictionary with distinct labels. */
  function Assign(bake: seq<Entry>, entry: Entry): seq<Entry>
  {
    if bake == [] then [entry]
    else if bake[0].appLabel == entry.appLabel then [entry] + bake[1..]
    else [bake[0]] + Assign(bake[1..], entry)
  }

  /** Assignment keeps a label already present in its place and appends a
      new one; the entry is then present, and every other entry was there
      before. */
  lemma {:induction false} AssignShape(bake: seq<Entry>, entry: Entry)
    ensures var r := Assign(bake, entry);
      && Labels(r) == (if entry.appLabel in Labels(bake) then Labels(bake) else Labels(bake) + [entry.appLabel])
      && entry in r
      && forall i | 0 <= i < |r| :: r[i] == entry || r[i] in bake
    decreases |bake|
  {
    if bake != [] {
      assert Labels(bake) == [bake[0].appLabel] + Labels(bake[1..]);
      if bake[0].appLabel == entry.appLabel {
        assert Labels([entry] + bake[1..]) == Labels(bake);
      } else {
        var rest := Assign(bake[1..], entry);
        AssignShape(bake[1..], entry);
        assert Labels([bake[0]] + rest) == [bake[0].appLabel] + Labels(rest);
      }
    }
  }

  /** The values of a list without repetitions, each at its first place. */
  function Dedup(xs: seq<string>): (r: seq<string>)
    ensures forall x :: x in r <==> x in xs
    ensures forall i, j | 0 <= i < j < |r| :: r[i] != r[j]
  {
    if xs == [] then []
    else
      var d := Dedup(xs[..|xs| - 1]);
      assert xs == xs[..|xs| - 1] + [xs[|xs| - 1]];
      if xs[|xs| - 1] in d then d else d + [xs[|xs| - 1]]
  }

  // ---------------------------------------------------------------------
  // Parsing

  /** One iteration of `parse_bake_options`: after an error nothing more
      happens; otherwise the argument's label is looked up and assigned. */
  function Step(registry: Registry, r: Result<seq<Entry>>, arg: string): Result<seq<Entry>>
  {
    match r
    case Err(e) => Err(e)
    case Ok(bake) =>
      var appName := Label(arg);
      match GetAppAndModels(registry, appName)
      case Err(e) => Err(e)
      case Ok(found) => Ok(Assign(bake, Entry(appName, found.models, found.app)))
  }

  /** The iterations over `args`, starting from `start`. */
  function ParseFrom(registry: Registry, start: Result<seq<Entry>>, args: seq<string>): Result<seq<Entry>>
  {
    if args == [] then start
    else Step(registry, ParseFrom(registry, start, args[..|args| - 1]), args[|args| - 1])
  }

  /** What `parse_bake_options` returns, or the error it raises. */
  function Parse(registry: Registry, args: seq<string>): Result<seq<Entry>>
  {
    ParseFrom(registry, Ok([]), args)
  }

  /** `parse_bake_options`: the dictionary is filled argument by argument
      and the first unknown label aborts the loop. */
  method ParseBakeOptions(registry: Registry, args: seq<string>) returns (r: Result<seq<Entry>>)
    ensures r == Parse(registry, args)
  {
    var bake: seq<Entry> := [];
    for i := 0 to |args|
      invariant Parse(registry, args[..i]) == Ok(bake)
    {
      assert args[..i + 1][..i] == args[..i];
      var appName := Label(args[i]);
      var found := GetAppAndModels(registry, appName);
      if found.Err? {
        ParseStopsAt(registry, args, i + 1);
        return Err(found.error);
      }
      bake := Assign(bake, Entry(appName, found.value.models, found.value.app));
    }
    assert args[..|args|] == args;
    r := Ok(bake);
  }

  /** `handle`: the arguments are parsed first, and the generator runs only
      when every label resolved; on an error the disk is untouched. */
  method Handle(fs: FileSystem, registry: Registry, args: seq<string>, render: (TemplateId, Context) -> string)
    returns (r: Result<seq<Event>>)
    modifies fs
    ensures Parse(registry, args).Err? ==> r == Err(Parse(registry, args).error) && fs.State() == old(fs.State())
    ensures Parse(registry, args).Ok? ==>
      r.Ok? && Effect(fs.State(), r.value) == Run(old(fs.State()), Parse(registry, args).value, render)
  {
    var ingredients := ParseBakeOptions(registry, args);
    if ingredients.Err? {
      return Err(ingredients.error);
    }
    var log := Processing(fs, ingredients.value, render);
    r := Ok(log);
  }

  // ---------------------------------------------------------------------
  // Properties of parsing

  lemma {:induction false} ParseFromAppend(registry: Registry, start: Result<seq<Entry>>, xs: seq<string>, ys: seq<string>)
    ensures ParseFrom(registry, start, xs + ys) == ParseFrom(registry, ParseFrom(registry, start, xs), ys)
    decreases |ys|
  {
    if ys == [] {
      assert xs + ys == xs;
    } else {
      var n := |ys|;
      var zs := xs + ys;
      assert zs[..|zs| - 1] == xs + ys[..n - 1];
      assert zs[|zs| - 1] == ys[n - 1];
      ParseFromAppend(registry, start, xs, ys[..n - 1]);
      calc {
        ParseFrom(registry, start, zs);
        Step(registry, ParseFrom(registry, start, xs + ys[..n - 1]), ys[n - 1]);
        Step(registry, ParseFrom(registry, ParseFrom(registry, start, xs), ys[..n - 1]), ys[n - 1]);
      }
    }
  }

  lemma {:induction false} ParseFromErr(registry: Registry, e: CommandError, ys: seq<string>)
    ensures ParseFrom(registry, Err(e), ys) == Err(e)
    decreases |ys|
  {
    if ys != [] {
      ParseFromErr(registry, e, ys[..|ys| - 1]);
    }
  }

  /** Once a prefix of the arguments fails, the whole parse fails with the
      same error. */
  lemma ParseStopsAt(registry: Registry, args: seq<string>, k: nat)
    requires k <= |args|
    requires Parse(registry, args[..k]).Err?
    ensures Parse(registry, args) == Parse(registry, args[..k])
  {
    assert args == args[..k] + args[k..];
    ParseFromAppend(registry, Ok([]), args[..k], args[k..]);
    ParseFromErr(registry, Parse(registry, args[..k]).error, args[k..]);
  }

  /** Parsing succeeds exactly when every label is registered. */
  lemma {:induction false} ParseSucceeds(registry: Registry, args: seq<string>)
    ensures Parse(registry, args).Ok? <==> forall i | 0 <= i < |args| :: Label(args[i]) in registry
    decreases |args|
  {
    if args != [] {
      var n := |args|;
      var prefix := args[..n - 1];
      ParseSucceeds(registry, prefix);
      assert forall i | 0 <= i < n - 1 :: prefix[i] == args[i];
      assert Parse(registry, args) == Step(registry, Parse(registry, prefix), args[n - 1]);
    }
  }

  /** A successful parse holds each label once, in order of first
      appearance, with the registry's application and models for it. */
  lemma {:induction false} ParseResult(registry: Registry, args: seq<string>)
    requires Parse(registry, args).Ok?
    ensures Labels(Parse(registry, args).value) == Dedup(ArgLabels(args))
    ensures DistinctLabels(Parse(registry, args).value)
    ensures Resolved(registry, Parse(registry, args).value)
    decreases |args|
  {
    if args != [] {
      var n := |args|;
      var prefix := args[..n - 1];
      var appName := Label(args[n - 1]);
      assert Parse(registry, prefix).Ok?;
      ParseResult(registry, prefix);
      var bake := Parse(registry, prefix).value;
      var entry := Entry(appName, registry[appName].models, registry[appName].app);
      var r := Assign(bake, entry);
      assert Parse(registry, args).value == r;
      assert ArgLabels(args) == ArgLabels(prefix) + [appName];
      AssignResolved(registry, bake, entry, ArgLabels(prefix));
      DedupDistinct(r, ArgLabels(args));
    } else {
      DedupDistinct([], []);
    }
  }

  /** One successful iteration keeps the dictionary's keys in order of first
      appearance and every entry resolved. */
  lemma AssignResolved(registry: Registry, bake: seq<Entry>, entry: Entry, xs: seq<string>)
    requires Labels(bake) == Dedup(xs) && Resolved(registry, bake)
    requires entry.appLabel in registry && registry[entry.appLabel] == Registered(entry.app, entry.models)
    ensures Labels(Assign(bake, entry)) == Dedup(xs + [entry.appLabel])
    ensures Resolved(registry, Assign(bake, entry))
  {
    var r := Assign(bake, entry);
    AssignShape(bake, entry);
    assert (xs + [entry.appLabel])[..|xs|] == xs;
    forall i | 0 <= i < |r|
      ensures r[i].appLabel in registry && registry[r[i].appLabel] == Registered(r[i].app, r[i].models)
    {
      if r[i] != entry {
        var j :| 0 <= j < |bake| && bake[j] == r[i];
      }
    }
  }

  lemma DedupDistinct(bake: seq<Entry>, xs: seq<string>)
    requires Labels(bake) == Dedup(xs)
    ensures DistinctLabels(bake)
  {
    assert forall i | 0 <= i < |bake| :: bake[i].appLabel == Labels(bake)[i];
  }

  /** An unregistered label raises the configuration error naming it,
      unless an earlier label already did. */
  lemma {:induction false} ParseFailsAtFirstUnknown(registry: Registry, args: seq<string>, i: nat)
    requires i < |args|
    requires forall j | 0 <= j < i :: Label(args[j]) in registry
    requires Label(args[i]) !in registry
    ensures Parse(registry, args) == Err(NotRegistered(Label(args[i])))
  {
    var prefix := args[..i];
    assert forall j | 0 <= j < i :: prefix[j] == args[j];
    ParseSucceeds(registry, prefix);
    assert args[..i + 1][..i] == prefix;
    assert Parse(registry, prefix).Ok?;
    assert GetAppAndModels(registry, Label(args[i])).Err?;
    assert Parse(registry, args[..i + 1]) == Step(registry, Parse(registry, prefix), args[i]);
    ParseStopsAt(registry, args, i + 1);
  }

  /** Only the label matters: the model list after ':' is ignored. */
  lemma {:induction false} ParseIgnoresModelFilter(registry: Registry, args: seq<string>)
    ensures Parse(registry, args) == Parse(registry, ArgLabels(args))
    decreases |args|
  {
    if args != [] {
      var n := |args|;
      var labels := ArgLabels(args);
      var prefix := args[..n - 1];
      assert ArgLabels(prefix) == labels[..n - 1];
      ParseIgnoresModelFilter(registry, prefix);
      LabelIdempotent(args[n - 1]);
      calc {
        Parse(registry, labels);
        Step(registry, Parse(registry, labels[..n - 1]), Label(args[n - 1]));
        Step(registry, Parse(registry, prefix), Label(args[n - 1]));
        Step(registry, Parse(registry, prefix), args[n - 1]);
        Parse(registry, args);
      }
    }
  }

  lemma {:induction false} LabelIdempotent(arg: string)
    ensures Label(Label(arg)) == Label(arg)
    decreases |arg|
  {
    if arg != [] && arg[0] != ':' {
      LabelIdempotent(arg[1..]);
    }
  }

  lemma LabelOfSelector()
    ensures Label("blog:Post,Tag") == "blog"
    ensures Label("blog") == "blog"
  {
    var selector := "blog:Post,Tag";
    assert selector[4] == ':';
    assert forall i | 0 <= i < 4 :: selector[i] != ':';
  }

  /** Assigning an entry that is already there changes nothing. */
  lemma {:induction false} AssignPresent(bake: seq<Entry>, entry: Entry)
    requires DistinctLabels(bake)
    requires entry in bake
    ensures Assign(bake, entry) == bake
    decreases |bake|
  {
    var tail := bake[1..];
    if bake[0] != entry {
      var j :| 0 <= j < |bake| && bake[j] == entry;
      assert bake[0].appLabel != entry.appLabel;
      assert tail[j - 1] == entry;
      assert DistinctLabels(tail);
      AssignPresent(tail, entry);
      assert Assign(bake, entry) == [bake[0]] + Assign(tail, entry);
    }
    assert bake == [bake[0]] + tail;
  }

  /** Parsing a repeated label once more leaves the dictionary as it was. */
  lemma StepRepeated(registry: Registry, xs: seq<string>, a: string)
    requires Label(a) in ArgLabels(xs)
    ensures Step(registry, Parse(registry, xs), a) == Parse(registry, xs)
  {
    var before := Parse(registry, xs);
    if before.Ok? {
      ParseSucceeds(registry, xs);
      ParseResult(registry, xs);
      var bake := before.value;
      var appName := Label(a);
      var k :| 0 <= k < |xs| && ArgLabels(xs)[k] == appName;
      assert appName in registry;
      assert appName in Labels(bake);
      var j :| 0 <= j < |bake| && Labels(bake)[j] == appName;
      assert bake[j] == Entry(appName, registry[appName].models, registry[appName].app);
      AssignPresent(bake, bake[j]);
    }
  }

  /** A repeated label looks up the same entry again, so the result is as
      if it appeared once. */
  lemma RepeatedLabel(registry: Registry, xs: seq<string>, a: string, ys: seq<string>)
    requires Label(a) in ArgLabels(xs)
    ensures Parse(registry, xs + [a] + ys) == Parse(registry, xs + ys)
  {
    ParseFromAppend(registry, Ok([]), xs + [a], ys);
    ParseFromAppend(registry, Ok([]), xs, ys);
    assert (xs + [a])[..|xs|] == xs;
    assert Parse(registry, xs + [a]) == Step(registry, Parse(registry, xs), a);
    StepRepeated(registry, xs, a);
  }
}
