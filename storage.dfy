/** The part of the file system the generator touches: a set of directory
    paths and the contents of each file, by path. */
module Storage {

  datatype Disk = Disk(dirs: set<string>, files: map<string, string>)

  /** `os.path.exists`: a directory or a file is there. */
  predicate Exists(d: Disk, path: string)
  {
    path in d.dirs || path in d.files
  }

  /** The proper ancestors of a path: its prefixes that end just before a '/'. */
  function Ancestors(path: string): set<string>
  {
    set i | 0 < i < |path| && path[i] == '/' :: path[..i]
  }

  /** `os.makedirs`: the directory and every missing ancestor. */
  function AddDirs(d: Disk, path: string): Disk
  {
    d.(dirs := d.dirs + {path} + Ancestors(path))
  }

  /** `d2` keeps every directory of `d1` and every file of `d1` with its
      contents. */
  predicate Extends(d1: Disk, d2: Disk)
  {
    && d1.dirs <= d2.dirs
    && forall p | p in d1.files :: p in d2.files && d2.files[p] == d1.files[p]
  }

  /** The file system as one mutable object. */
  class FileSystem {
    var dirs: set<string>
    var files: map<string, string>

    constructor (initial: Disk)
      ensures State() == initial
    {
      dirs := initial.dirs;
      files := initial.files;
    }

    function State(): Disk
      reads this
    {
      Disk(dirs, files)
    }

    function PathExists(path: string): bool
      reads this
    {
      Exists(State(), path)
    }

    method MakeDirs(path: string)
      modifies this
      ensures State() == AddDirs(old(State()), path)
    {
      dirs := dirs + {path} + Ancestors(path);
    }

    /** `open(path, 'w').write(content)`: the whole file in one step. */
    method WriteFile(path: string, content: string)
      modifies this
      ensures dirs == old(dirs)
      ensures files == old(files)[path := content]
    {
      files := files[path := content];
    }
  }
}
