/**
 * The local file system as the scripts see it: a map from path strings to entries, each a
 * directory or a file holding bytes. Paths are compared as written (no normalisation), which
 * is how the scripts build and test them.
 */
module LocalDisk {
  import opened Text

  datatype Entry = Directory | File(content: seq<byte>)

  /** `q` names a direct child of the directory `base`: `base/<name>` with no further `/`. */
  predicate IsChildPath(q: string, base: string)
  {
    |q| > |base| + 1 && q[..|base| + 1] == base + "/" && '/' !in q[|base| + 1..]
  }

  /** The paths of the direct children of `base` present in `entries`. */
  function ChildrenOf(entries: map<string, Entry>, base: string): (r: set<string>)
    ensures forall q :: q in r <==> q in entries && IsChildPath(q, base)
  {
    set q | q in entries && IsChildPath(q, base)
  }

  /** The entries after `if not os.path.exists(p): os.mkdir(p)`. */
  function WithFolder(entries: map<string, Entry>, path: string): (r: map<string, Entry>)
    ensures path in r && r.Keys == entries.Keys + {path}
    ensures path !in entries ==> r[path] == Directory
    ensures forall q :: q in entries ==> r[q] == entries[q]
  {
    if path in entries then entries else entries[path := Directory]
  }

  class Disk {
    var entries: map<string, Entry>

    constructor(initial: map<string, Entry>)
      ensures entries == initial
    {
      entries := initial;
    }

    /** `os.path.exists(p)`. */
    predicate Exists(p: string)
      reads this
    {
      p in entries
    }

    /** `Path.is_dir()`. */
    predicate IsDirectory(p: string)
      reads this
    {
      p in entries && entries[p].Directory?
    }

    /** `os.mkdir(p)` on a path that does not exist yet. */
    method MakeDirectory(p: string)
      requires !Exists(p)
      modifies this
      ensures entries == old(entries)[p := Directory]
    {
      entries := entries[p := Directory];
    }

    /** `open(p, mode='wb').write(content)`: creates or overwrites the file. */
    method WriteFile(p: string, content: seq<byte>)
      modifies this
      ensures entries == old(entries)[p := File(content)]
    {
      entries := entries[p := File(content)];
    }
  }
}
