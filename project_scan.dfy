/** Project discovery: every directory directly inside a configured scan
    path that holds a `.cursor` or a `.git` entry is reported as a
    project, scan path by scan path and, within one, in listing order. */
module ProjectScan {
  import opened Wrappers
  import opened Fs

  datatype Project = Project(name: string, path: Path, hasCursorRules: bool)

  /** A scan path contributes entries only when it exists and can be read. */
  predicate Scannable(fs: FileSystem, scanPath: Path)
  {
    Exists(fs, scanPath) && scanPath in fs.listings
  }

  /** What one directory entry contributes: a project when it is a
      directory with `.cursor` or `.git` inside, nothing otherwise. */
  function Probe(fs: FileSystem, scanPath: Path, entry: DirEntry): Option<Project>
  {
    if !entry.isDirectory then None
    else
      var projectPath := Join(scanPath, entry.name);
      var hasCursor := Exists(fs, Join(projectPath, ".cursor"));
      var hasGit := Exists(fs, Join(projectPath, ".git"));
      if hasCursor || hasGit then
        Some(Project(entry.name, projectPath, hasCursor && Exists(fs, Join(Join(projectPath, ".cursor"), "rules"))))
      else None
  }

  function EntryProjects(fs: FileSystem, scanPath: Path, entries: seq<DirEntry>): seq<Project>
  {
    if entries == [] then []
    else
      var found := Probe(fs, scanPath, entries[0]);
      (if found.Some? then [found.value] else []) + EntryProjects(fs, scanPath, entries[1..])
  }

  function PathProjects(fs: FileSystem, scanPath: Path): seq<Project>
  {
    if Scannable(fs, scanPath) then EntryProjects(fs, scanPath, fs.listings[scanPath]) else []
  }

  /** The projects found under all scan paths, in scan-path order. */
  function Projects(fs: FileSystem, scanPaths: seq<Path>): seq<Project>
  {
    if scanPaths == [] then [] else PathProjects(fs, scanPaths[0]) + Projects(fs, scanPaths[1..])
  }

  /** The declarative account of a reported project: `q` is what entry `e`
      of scan path `scanPath` is reported as. */
  ghost predicate ReportedFrom(fs: FileSystem, scanPath: Path, e: DirEntry, q: Project)
  {
    && e.isDirectory
    && q.name == e.name
    && q.path == Join(scanPath, e.name)
    && (Exists(fs, Join(q.path, ".cursor")) || Exists(fs, Join(q.path, ".git")))
    && (q.hasCursorRules <==>
          Exists(fs, Join(q.path, ".cursor")) && Exists(fs, Join(Join(q.path, ".cursor"), "rules")))
  }

  /** Projects of a listing split in two are those of each part, in order. */
  lemma {:induction false} EntryProjectsAppend(fs: FileSystem, scanPath: Path, a: seq<DirEntry>, b: seq<DirEntry>)
    ensures EntryProjects(fs, scanPath, a + b) == EntryProjects(fs, scanPath, a) + EntryProjects(fs, scanPath, b)
  {
    if a == [] {
      assert a + b == b;
    } else {
      assert (a + b)[0] == a[0];
      assert (a + b)[1..] == a[1..] + b;
      EntryProjectsAppend(fs, scanPath, a[1..], b);
    }
  }

  /** Scan paths are handled one after another: the output keeps their order. */
  lemma {:induction false} ProjectsAppend(fs: FileSystem, a: seq<Path>, b: seq<Path>)
    ensures Projects(fs, a + b) == Projects(fs, a) + Projects(fs, b)
  {
    if a == [] {
      assert a + b == b;
    } else {
      assert (a + b)[0] == a[0];
      assert (a + b)[1..] == a[1..] + b;
      ProjectsAppend(fs, a[1..], b);
    }
  }

  /** A scan path that does not exist is skipped: removing it changes nothing. */
  lemma MissingScanPathSkipped(fs: FileSystem, a: seq<Path>, p: Path, b: seq<Path>)
    requires !Exists(fs, p)
    ensures Projects(fs, a + [p] + b) == Projects(fs, a + b)
  {
    ProjectsAppend(fs, a + [p], b);
    ProjectsAppend(fs, a, [p]);
    ProjectsAppend(fs, a, b);
  }

  /** An entry is a project directory when it is a directory holding a
      `.cursor` or a `.git` entry. */
  ghost predicate IsProjectDir(fs: FileSystem, scanPath: Path, e: DirEntry)
  {
    var projectPath := Join(scanPath, e.name);
    e.isDirectory && (Exists(fs, Join(projectPath, ".cursor")) || Exists(fs, Join(projectPath, ".git")))
  }

  lemma ProbeMatches(fs: FileSystem, scanPath: Path, e: DirEntry)
    ensures Probe(fs, scanPath, e).Some? <==> IsProjectDir(fs, scanPath, e)
    ensures Probe(fs, scanPath, e).Some? ==> ReportedFrom(fs, scanPath, e, Probe(fs, scanPath, e).value)
  {
  }

  lemma {:induction false} EntryProjectsSound(fs: FileSystem, scanPath: Path, entries: seq<DirEntry>, q: Project)
    requires q in EntryProjects(fs, scanPath, entries)
    ensures exists j :: 0 <= j < |entries| && ReportedFrom(fs, scanPath, entries[j], q)
  {
    var found := Probe(fs, scanPath, entries[0]);
    ProbeMatches(fs, scanPath, entries[0]);
    if found.Some? && q == found.value {
      assert ReportedFrom(fs, scanPath, entries[0], q);
    } else {
      assert q in EntryProjects(fs, scanPath, entries[1..]);
      EntryProjectsSound(fs, scanPath, entries[1..], q);
      var j :| 0 <= j < |entries[1..]| && ReportedFrom(fs, scanPath, entries[1..][j], q);
      assert entries[1..][j] == entries[j + 1];
    }
  }

  lemma {:induction false} EntryProjectsComplete(fs: FileSystem, scanPath: Path, entries: seq<DirEntry>, j: nat)
    requires j < |entries| && IsProjectDir(fs, scanPath, entries[j])
    ensures exists q :: q in EntryProjects(fs, scanPath, entries) && ReportedFrom(fs, scanPath, entries[j], q)
  {
    ProbeMatches(fs, scanPath, entries[j]);
    if j == 0 {
      var q := Probe(fs, scanPath, entries[0]).value;
      assert q in EntryProjects(fs, scanPath, entries);
    } else {
      assert entries[1..][j - 1] == entries[j];
      EntryProjectsComplete(fs, scanPath, entries[1..], j - 1);
      var q :| q in EntryProjects(fs, scanPath, entries[1..]) && ReportedFrom(fs, scanPath, entries[j], q);
      assert q in EntryProjects(fs, scanPath, entries);
    }
  }

  /** Every reported project comes from a directory entry of an existing,
      readable scan path, and is described by that entry as
      `ReportedFrom` says. */
  lemma {:induction false} ProjectsSound(fs: FileSystem, scanPaths: seq<Path>, q: Project)
    requires q in Projects(fs, scanPaths)
    ensures exists i, j ::
              && 0 <= i < |scanPaths|
              && Scannable(fs, scanPaths[i])
              && 0 <= j < |fs.listings[scanPaths[i]]|
              && ReportedFrom(fs, scanPaths[i], fs.listings[scanPaths[i]][j], q)
  {
    var p := scanPaths[0];
    if q in PathProjects(fs, p) {
      EntryProjectsSound(fs, p, fs.listings[p], q);
      var j :| 0 <= j < |fs.listings[p]| && ReportedFrom(fs, p, fs.listings[p][j], q);
      assert Scannable(fs, scanPaths[0]) && ReportedFrom(fs, scanPaths[0], fs.listings[scanPaths[0]][j], q);
    } else {
      ProjectsSound(fs, scanPaths[1..], q);
      var rest := scanPaths[1..];
      var i, j :|
        && 0 <= i < |rest|
        && Scannable(fs, rest[i])
        && 0 <= j < |fs.listings[rest[i]]|
        && ReportedFrom(fs, rest[i], fs.listings[rest[i]][j], q);
      assert rest[i] == scanPaths[i + 1];
    }
  }

  /** Every project directory of an existing, readable scan path is
      reported. */
  lemma {:induction false} ProjectsComplete(fs: FileSystem, scanPaths: seq<Path>, i: nat, j: nat)
    requires i < |scanPaths| && Scannable(fs, scanPaths[i])
    requires j < |fs.listings[scanPaths[i]]| && IsProjectDir(fs, scanPaths[i], fs.listings[scanPaths[i]][j])
    ensures exists q :: q in Projects(fs, scanPaths) && ReportedFrom(fs, scanPaths[i], fs.listings[scanPaths[i]][j], q)
  {
    var p := scanPaths[i];
    var e := fs.listings[p][j];
    if i == 0 {
      EntryProjectsComplete(fs, p, fs.listings[p], j);
      var q :| q in EntryProjects(fs, p, fs.listings[p]) && ReportedFrom(fs, p, e, q);
      assert q in Projects(fs, scanPaths);
    } else {
      assert scanPaths[1..][i - 1] == p;
      ProjectsComplete(fs, scanPaths[1..], i - 1, j);
      var q :| q in Projects(fs, scanPaths[1..]) && ReportedFrom(fs, p, e, q);
      assert q in Projects(fs, scanPaths);
    }
  }

  /** A project reported with cursor rules has both `.cursor` and
      `.cursor/rules` on disk. */
  lemma CursorRulesExist(fs: FileSystem, scanPaths: seq<Path>, q: Project)
    requires q in Projects(fs, scanPaths) && q.hasCursorRules
    ensures Exists(fs, Join(q.path, ".cursor")) && Exists(fs, Join(Join(q.path, ".cursor"), "rules"))
  {
    ProjectsSound(fs, scanPaths, q);
  }

  /** The nested scan loops, pushing each project as it is found. */
  method ScanForProjects(fs: FileSystem, scanPaths: seq<Path>) returns (projects: seq<Project>)
    ensures projects == Projects(fs, scanPaths)
  {
    projects := [];
    for i := 0 to |scanPaths|
      invariant projects == Projects(fs, scanPaths[..i])
    {
      var scanPath := scanPaths[i];
      ProjectsAppend(fs, scanPaths[..i], [scanPath]);
      assert scanPaths[..i + 1] == scanPaths[..i] + [scanPath];
      if !Exists(fs, scanPath) {
        continue;
      }
      if scanPath in fs.listings {
        var entries := fs.listings[scanPath];
        ghost var before := projects;
        for j := 0 to |entries|
          invariant projects == before + EntryProjects(fs, scanPath, entries[..j])
        {
          var entry := entries[j];
          EntryProjectsAppend(fs, scanPath, entries[..j], [entry]);
          assert entries[..j + 1] == entries[..j] + [entry];
          if entry.isDirectory {
            var projectPath := Join(scanPath, entry.name);
            var hasCursor := Exists(fs, Join(projectPath, ".cursor"));
            var hasGit := Exists(fs, Join(projectPath, ".git"));
            if hasCursor || hasGit {
              projects := projects + [Project(entry.name, projectPath,
                hasCursor && Exists(fs, Join(Join(projectPath, ".cursor"), "rules")))];
            }
          }
        }
        assert entries[..|entries|] == entries;
      }
    }
    assert scanPaths[..|scanPaths|] == scanPaths;
  }
}
