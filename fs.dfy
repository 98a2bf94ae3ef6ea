/** The part of the filesystem the manager looks at, as data: the set of
    paths that exist and, for each directory that can be listed, its
    entries in the order the directory read returns them. A path that
    exists but has no listing is one whose read fails (a plain file, or a
    directory that cannot be opened). */
module Fs {

  type Path = string

  datatype DirEntry = DirEntry(name: string, isDirectory: bool)

  datatype FileSystem = FileSystem(paths: set<Path>, listings: map<Path, seq<DirEntry>>)

  predicate Exists(fs: FileSystem, p: Path)
  {
    p in fs.paths
  }

  /** Joining a directory and a name; separators are not normalised. */
  function Join(dir: Path, name: string): Path
  {
    dir + "/" + name
  }

  function Names(entries: seq<DirEntry>): (names: seq<string>)
    ensures |names| == |entries|
    ensures forall i :: 0 <= i < |entries| ==> names[i] == entries[i].name
  {
    if entries == [] then [] else [entries[0].name] + Names(entries[1..])
  }
}
