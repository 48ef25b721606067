# auto_restapi_django_plugin, modelled in Dafny

This project models `create_restapi`, a Django management command that
generates REST boilerplate. Given application labels on the command line,
it looks each one up in the application registry and builds a "bake"
dictionary from label to the application and its models. Only then does it
run the generator. For every application the generator:

- ensures a `views` and a `urls` directory exist;
- writes an `__init__.py` aggregator into each, from the templates
  `__init__views` and `__init__urls`;
- writes one view file and one url file per model.

It never overwrites a path that already exists. File names come from
`camel_to_slug`, which turns a CamelCase class name into a lower-case,
underscore-separated slug. The aggregators also receive a dictionary from
each model's slug to the slug of its plural (`model_name_plural`).

Modules:

- `Descriptors` (descriptors.dfy): applications, models, and the `Ascii`
  text type.
- `Naming` (naming.dfy): `camel_to_slug` is `CamelToSlug`. It is built
  from one recursive function per step:
  - `SpaceCaseBoundaries`, `UnderscoreWords` and `UnderscoreCaseBoundaries`
    are the three regular expression substitutions. They scan with the
    left-to-right, non-overlapping matching of `re.sub`.
  - `TitleAfter` (with `Title`) is `str.title()`.
  - `Without` is `str.replace(x, "")`.

  `str.lower()` is `Lower`, which lowers every character in place as a
  sequence comprehension. `Normalised` is the part of the pipeline up to
  the removal of spaces and underscores. This module also has
  `model_name_plural`, which is `ModelNamePlural`.
- `Storage` (storage.dfy): the disk, as a set of directory paths plus a
  map from file path to contents. The `FileSystem` class holds the disk as
  mutable fields.
- `Generator` (generator.dfy): each generator step is a method that
  changes a `FileSystem`. Each method is proved against a function on disk
  values (`Put`, `PutAll`, `EnsureDirs`, `Run`). The lemmas about a whole
  run are stated about those functions.
- `Command` (command.dfy): label extraction, registry lookup and
  `parse_bake_options` as a loop, proved against the fold `Parse`. Also
  `handle`, and the lemmas about parsing.

Two consequences of the code as written:

- Some names keep no boundary. These are names of letters with no
  lower-case letter directly before an upper-case one, such as a run of
  capitals followed by a word. `str.title()` runs before the underscore
  substitutions and lowers every letter that follows a letter. So
  `HTTPResponse` gives `httpresponse`, not `http_response`
  (`Naming.SlugOfUnbrokenName`, `Naming.SlugOfHTTPResponse`).
- An underscore between two words is removed before the substitutions, so
  `Foo_Bar` and `FooBar` both give `foo_bar` (`Naming.SlugIgnoresUnderscore`).
  Two such models of one application aim at the same files. The second
  model's files are skipped (`Generator.SameSlugSkipped`), and the
  aggregator dictionary keeps one entry for that slug
  (`Generator.InitContextCoversModels`). So that model gets no files of
  its own, although `processing` promises to create all the necessary
  files (auto_restapi_generator.py:13).

Template rendering is the parameter `render`, an arbitrary function of the
template name and the context. So every property holds whatever the
templates contain. Each line the generator prints becomes an `Event`
(`Created` or `Skipped`) in a returned log.

## Model

| member | source | states |
|---|---|---|
| Naming.LowerRun | auto_restapi_generator.py:93 | the `[a-z]+` of the second substitution matches greedily: the longest run of lower-case letters |
| Naming.SlugOfCapitalisedWords | auto_restapi_generator.py:88-95 | a name made of capitalised words `W1…Wn` becomes `w1_…_wn`, the words lowered and joined by `_` |
| Naming.SlugOfPumpernickelBread | auto_restapi_generator.py:88-95 | the documented example: `PumpernickelBread` becomes `pumpernickel_bread` |
| Naming.WithoutMembers | auto_restapi_generator.py:92 | removing spaces or underscores keeps exactly the other characters |
| Naming.SlugSpellsName | auto_restapi_generator.py:92-94 | taking the underscores out of a slug gives the name lowered, without its spaces and underscores: the substitutions only insert `_` |
| Naming.SlugCharacters | auto_restapi_generator.py:92-94 | a slug has no upper-case letter and no space, and each of its characters is `_` or a character of the lowered, stripped name |
| Naming.SpaceCaseBoundariesOnlySpaces | auto_restapi_generator.py:92 | the first substitution only inserts spaces |
| Naming.UnderscoreWordsOnlyUnderscores | auto_restapi_generator.py:93 | the second substitution only inserts underscores |
| Naming.UnderscoreCaseBoundariesOnlyUnderscores | auto_restapi_generator.py:94 | the third substitution only inserts underscores |
| Naming.LowerTitleAfter | auto_restapi_generator.py:92 | `title()` changes only case: lowering after it is lowering the input |
| Naming.SpaceCaseBoundariesWords | auto_restapi_generator.py:92 | on capitalised words the first substitution puts one space between neighbouring words |
| Naming.TitleWords | auto_restapi_generator.py:92 | `title()` leaves space-separated capitalised words unchanged |
| Naming.UnderscoreWordsWords | auto_restapi_generator.py:93 | on capitalised words the second substitution underscores every other boundary: it resumes after each match |
| Naming.UnderscoreCaseBoundariesPairs | auto_restapi_generator.py:94 | the third substitution then underscores the boundaries that are left |
| Naming.SlugOfUnbrokenName | auto_restapi_generator.py:92-94 | a name of letters with no lower-case letter right before an upper-case one (a run of capitals, then a word) has the name lowered as its slug: no underscore is inserted |
| Naming.SlugOfHTTPResponse | auto_restapi_generator.py:92-94 | `HTTPResponse` gives `httpresponse` |
| Naming.NormalisedUnderscored | auto_restapi_generator.py:92 | spacing, title casing and removing spaces and underscores turn `W1_W2` into `W1W2` for capitalised words |
| Naming.SlugIgnoresUnderscore | auto_restapi_generator.py:92-94 | `W1_W2` and `W1W2` have the same slug, `w1_w2` |
| Naming.SlugOfFooUnderscoreBar | auto_restapi_generator.py:92-94 | `Foo_Bar` and `FooBar` both give `foo_bar` |
| Naming.PluralShape | auto_restapi_generator.py:97-107 | an explicit plural string is returned verbatim; otherwise the name gains `s`, a final `y` becomes `ies`, and the result ends in `s` |
| Naming.PluralExamples | auto_restapi_generator.py:101-107 | Category gives Categories, Post gives Posts, and an explicit People is kept |
| Storage.FileSystem.MakeDirs | auto_restapi_generator.py:32 | `makedirs` adds the directory and all its ancestors, and no file changes |
| Storage.FileSystem.WriteFile | auto_restapi_generator.py:84-85 | writing sets exactly that path's contents |
| Generator.Slugs | auto_restapi_generator.py:39 | `model_name_slugs` has one slug per name, in the same order |
| Generator.Comprehension | auto_restapi_generator.py:40-41 | every item's key is in the built dictionary |
| Generator.ComprehensionKeys | auto_restapi_generator.py:40-41 | the dictionary has no key other than the items' keys |
| Generator.ComprehensionValues | auto_restapi_generator.py:40-41 | a key maps to the value of the last item with that key |
| Generator.InitContextCoversModels | auto_restapi_generator.py:39-48 | the aggregator context has the app label and the models' slugs in model order; its dictionary maps exactly those slugs, each to the plural slug of the last model with that slug |
| Generator.SameSlugSkipped | auto_restapi_generator.py:66-86 | two models with the same slug aim at the same files: after the first model's files are put, putting the second's changes nothing and reports only skips |
| Generator.InitFilePaths | auto_restapi_generator.py:42-48 | the aggregators are `<app>/views/__init__.py` and `<app>/urls/__init__.py`, from `__init__views` and `__init__urls`, with one shared context |
| Generator.ModelAttributes | auto_restapi_generator.py:50-60 | the per-model context holds the app path, the app label, the model name and that name's slug |
| Generator.ModelFilePaths | auto_restapi_generator.py:66-75 | a model with slug `s` targets `<app>/views/s_view.py` from template `views` and `<app>/urls/s_urls.py` from `urls` |
| Generator.CreateFileFromTemplate | auto_restapi_generator.py:77-86 | an existing path leaves the disk unchanged and is reported skipped; otherwise exactly that path is added with the rendering, and it is reported created |
| Generator.CreateDirectories | auto_restapi_generator.py:25-32 | each of `views` and `urls` is made, with its ancestors, only when absent |
| Generator.CreateInitFiles | auto_restapi_generator.py:34-48 | both aggregators are put in order, each under the skip-if-exists rule |
| Generator.CreateFilesFromTemplates | auto_restapi_generator.py:62-75 | the view file and then the url file are put under the skip-if-exists rule |
| Generator.Processing | auto_restapi_generator.py:11-23 | application by application: its directories, its aggregators, then each model's two files, in order |
| Generator.PutAllAppend | auto_restapi_generator.py:77-86 | putting two target lists in a row is putting their concatenation |
| Generator.PutAllPreserves | auto_restapi_generator.py:81-85 | writing targets keeps every existing file and directory; every changed path is a target, holding its rendering |
| Generator.EnsureDirsPreserves | auto_restapi_generator.py:29-32 | making directories changes no file and afterwards every requested directory exists |
| Generator.PutAllCovers | auto_restapi_generator.py:81-85 | after the writes every target path exists |
| Generator.RunAppPreserves | auto_restapi_generator.py:19-23 | one application's pass keeps existing content and covers all its paths |
| Generator.RunPreserves | auto_restapi_generator.py:11-23 | a run keeps every existing file with its contents and every directory; every file it writes holds the rendering of a target at that path |
| Generator.RunCovers | auto_restapi_generator.py:15-23 | after a run something exists, a directory or a file, at each application's two directory paths, its two aggregator paths and both file paths of each model: either the run made it or it already stood there |
| Generator.PutAllLog | auto_restapi_generator.py:82-86 | one notice per target, naming that target's path |
| Generator.RunLog | auto_restapi_generator.py:11-23 | a run prints one notice per candidate file, in generation order |
| Generator.EnsureDirsIdle | auto_restapi_generator.py:31 | directories that already exist are not made again |
| Generator.PutAllIdle | auto_restapi_generator.py:81-83 | when every target exists nothing is written and every notice is a skip |
| Generator.RunIdle | auto_restapi_generator.py:11-23 | when every path exists a run changes nothing and only skips |
| Generator.SecondRunChangesNothing | auto_restapi_generator.py:11-23 | running the same bake again leaves the disk as the first run left it, and reports every file skipped |
| Command.Label | management/commands/create_restapi.py:30-31 | the label is the longest prefix of the argument without `:` |
| Command.LabelIdempotent | management/commands/create_restapi.py:30-31 | the label of a label is itself |
| Command.LabelOfSelector | management/commands/create_restapi.py:30-31 | `blog:Post,Tag` and `blog` both give `blog` |
| Command.NotRegistered | management/commands/create_restapi.py:43-44 | the error message starts with the label it names |
| Command.GetAppAndModels | management/commands/create_restapi.py:36-47 | a registered label gives the registry's application and models; any other gives the configuration error naming it |
| Command.AssignShape | management/commands/create_restapi.py:33 | assigning into the dictionary keeps a present label in its place and appends a new one; the entry is then present, and every other entry was there before |
| Command.Dedup | management/commands/create_restapi.py:28-34 | the dictionary's key order: each label once, at its first appearance |
| Command.ParseBakeOptions | management/commands/create_restapi.py:24-34 | the loop returns what the fold over the arguments returns, stopping at the first error |
| Command.ParseStopsAt | management/commands/create_restapi.py:29-33 | once an argument fails, the whole parse fails with that error |
| Command.ParseSucceeds | management/commands/create_restapi.py:28-34 | parsing succeeds if and only if every label is registered |
| Command.ParseResult | management/commands/create_restapi.py:28-34 | a successful parse has the given labels as keys, each once in order of first appearance, each with the registry's application and models |
| Command.ParseFailsAtFirstUnknown | management/commands/create_restapi.py:40-44 | the first unregistered label aborts the parse with the error naming it |
| Command.ParseIgnoresModelFilter | management/commands/create_restapi.py:30-33 | parsing the arguments is parsing their bare labels: text after `:` is ignored |
| Command.AssignResolved | management/commands/create_restapi.py:30-33 | one successful iteration keeps the keys in order of first appearance and stores the registry's application and models under the new label |
| Command.StepRepeated | management/commands/create_restapi.py:30-33 | looking up a label the dictionary already holds leaves the parse result unchanged |
| Command.AssignPresent | management/commands/create_restapi.py:33 | assigning an entry the dictionary already holds changes nothing |
| Command.RepeatedLabel | management/commands/create_restapi.py:32-33 | repeating a label gives the same result as one occurrence |
| Command.Handle | management/commands/create_restapi.py:19-22 | parsing happens first: on an error the disk is untouched and the error is returned; otherwise the generator runs over the parsed dictionary |

## Left out

- Template loading and rendering are outside the model. `render` is a
  parameter.
- The operating system's file calls become operations on a disk value.
  The model does not cover failures such as a missing parent directory,
  `makedirs` over an existing file, or permissions. It also does not
  cover partial writes.
- The coloured console output is not modelled. Each message is recorded
  as a `Created` or `Skipped` event.
- The application registry and `get_models()` are a map from label to the
  application and its models. The bare `except` around the lookup is
  modelled only as "label not registered".
- Argument declaration (`add_arguments`) and the `BaseCommand` plumbing are
  not modelled. `handle` receives the argument list directly. `Parse` also
  accepts an empty list, although the argument parser asks for at least
  one.
- `model_names_dict` (auto_restapi_generator.py:40-41) is a Dafny `map`.
  So the model does not keep the insertion order that `render` would see
  when it iterates the aggregator context's dictionary. Only its keys and
  values are modelled.
- The bake dictionary is a sequence of entries in insertion order, and
  `processing` iterates it in that order. A repeated key keeps its first
  position, as Python dictionaries do.
- Names are ASCII (`Ascii`). Unicode `str.title()` and `str.lower()` and
  the full regular expression engine are not modelled. Only the three
  substitutions and ASCII case rules are.
- Naming.SlugCharacters: the model does not prove that `camel_to_slug` is
  idempotent on its own output. The second substitution resumes after
  each match, which makes a general statement long. The model proves the
  exact result for names made of capitalised words
  (Naming.SlugOfCapitalisedWords).
- Naming.PluralShape: a plural is explicit exactly when it is a plain
  string. Such a plural is returned verbatim even when it is empty, as the
  code does. A lazily translated plural is treated like a missing one.
