/** The client's local-directory helpers: creating a directory when it is absent, creating the
    application folder under a root, writing a file below the application folder (creating its parent
    directories first), and asking whether a path is a directory.  Failures are swallowed (only
    logged), so each helper leaves the disk unchanged where the underlying call fails. */
module LocalFiles {
  import opened LocalPaths
  import opened LocalFs
  import opened WorkingDirectory

  /** Creates `q` with its missing ancestors unless it already exists; when an ancestor is a regular
      file the creation fails and nothing changes. */
  function EnsureDir(e: Entries, q: seq<string>): Entries
  {
    if q in e || BlockedByFile(e, q) then e else e + NewDirs(e, q)
  }

  /** Unless a regular file is in the way, `q` is a directory afterwards; a second call changes nothing. */
  lemma EnsureDirMakesDir(e: Entries, q: seq<string>)
    requires WellFormed(e) && AllValid(q)
    ensures WellFormed(EnsureDir(e, q))
    ensures !BlockedByFile(e, q) ==> IsDir(EnsureDir(e, q), q)
    ensures EnsureDir(EnsureDir(e, q), q) == EnsureDir(e, q)
  {
    if q in e {
      if !BlockedByFile(e, q) {
        assert q[..|q|] == q;
      }
    } else if !BlockedByFile(e, q) {
      CreateDirsWellFormed(e, q);
    }
  }

  /** The directory the application keeps under a root: Paths.get(rootPath, "dropbox-clone"). */
  function AppRoot(rootPath: string): Path
  {
    Parse(PathsGet([rootPath, AppFolder]))
  }

  /** The file written for `relativePath`: Paths.get(rootPath, "dropbox-clone", relativePath). */
  function LocalFilePath(rootPath: string, relativePath: string): Path
  {
    Parse(PathsGet([rootPath, AppFolder, relativePath]))
  }

  /** Path.getParent() is null: no names, or a single name in a relative path. */
  predicate NoParent(p: Path)
  {
    p.names == [] || (!p.absolute && |p.names| == 1)
  }

  function Parent(p: Path): (r: Path)
    requires p.names != []
    ensures AllElements(p.names) ==> AllElements(r.names)
  {
    Path(p.absolute, p.names[..|p.names| - 1])
  }

  /** createDirectories(parent) followed by write(path, content): a failure of either is swallowed
      (the first one skips the write); a null parent is modelled as leaving the disk unchanged. */
  function WriteFileAt(e: Entries, p: Path, content: seq<byte>, now: int): Entries
    requires AllElements(p.names)
  {
    if NoParent(p) then e
    else
      var pq := Locate(Parent(p));
      if BlockedByFile(e, pq) then e
      else
        var e1 := e + NewDirs(e, pq);
        var q := Locate(p);
        if CanWrite(e1, q) then e1[q := File(now, content)] else e1
  }

  /** A file of proper names is written with the given content whenever no regular file sits on the
      way to it and it is not a directory; the disk stays well formed whatever happens. */
  lemma WriteFileAtWrites(e: Entries, p: Path, content: seq<byte>, now: int)
    requires WellFormed(e) && AllValid(p.names) && !NoParent(p)
    requires !BlockedByFile(e, p.names[..|p.names| - 1]) && !IsDir(e, p.names)
    ensures p.names in WriteFileAt(e, p, content, now)
    ensures WriteFileAt(e, p, content, now)[p.names] == File(now, content)
  {
    var q := p.names;
    var pq := q[..|q| - 1];
    CanonicalOfValid(q);
    CanonicalOfValid(pq);
    assert Locate(p) == q;
    assert Locate(Parent(p)) == pq;
    CreateDirsWellFormed(e, pq);
    var e1 := e + NewDirs(e, pq);
    assert q !in NewDirs(e, pq) by {
      forall d | d in Prefixes(pq) ensures |d| < |q| {
        var k :| 0 <= k <= |pq| && d == pq[..k];
      }
    }
    assert !IsDir(e1, q);
    assert CanWrite(e1, q);
    assert WriteFileAt(e, p, content, now) == e1[q := File(now, content)];
  }

  lemma WriteFileAtWellFormed(e: Entries, p: Path, content: seq<byte>, now: int)
    requires WellFormed(e) && AllElements(p.names)
    ensures WellFormed(WriteFileAt(e, p, content, now))
  {
    if !NoParent(p) {
      var pq := Locate(Parent(p));
      if !BlockedByFile(e, pq) {
        CreateDirsWellFormed(e, pq);
        var e1 := e + NewDirs(e, pq);
        var q := Locate(p);
        if CanWrite(e1, q) {
          PutFileWellFormed(e1, q, File(now, content));
        }
      }
    }
  }

  /** createLocalDirectory(path). */
  method CreateLocalDirectory(fs: FileSystem, path: string)
    requires fs.Valid()
    modifies fs
    ensures fs.Valid()
    ensures fs.entries == EnsureDir(old(fs.entries), Locate(Parse(path)))
    ensures !BlockedByFile(old(fs.entries), Locate(Parse(path))) ==> IsValidLocalDirectory(fs, path)
  {
    var q := Locate(Parse(path));
    EnsureDirMakesDir(fs.entries, q);
    if !fs.Exists(q) {
      var _ := fs.CreateDirectories(q);
    }
  }

  /** createRootDirectory(rootPath): the application folder under the root. */
  method CreateRootDirectory(fs: FileSystem, rootPath: string)
    requires fs.Valid()
    modifies fs
    ensures fs.Valid()
    ensures fs.entries == EnsureDir(old(fs.entries), Locate(AppRoot(rootPath)))
    ensures !BlockedByFile(old(fs.entries), Locate(AppRoot(rootPath))) ==> IsValidLocalDirectoryPath(fs, AppRoot(rootPath))
  {
    var q := Locate(AppRoot(rootPath));
    EnsureDirMakesDir(fs.entries, q);
    if !fs.Exists(q) {
      var _ := fs.CreateDirectories(q);
    }
  }

  /** createLocalFile(rootPath, relativePath, content), with the clock as a parameter. */
  method CreateLocalFile(fs: FileSystem, rootPath: string, relativePath: string, content: seq<byte>, now: int)
    requires fs.Valid()
    modifies fs
    ensures fs.Valid()
    ensures fs.entries == WriteFileAt(old(fs.entries), LocalFilePath(rootPath, relativePath), content, now)
  {
    var p := LocalFilePath(rootPath, relativePath);
    WriteFileAtWellFormed(fs.entries, p, content, now);
    if NoParent(p) {
      return;
    }
    var ok := fs.CreateDirectories(Locate(Parent(p)));
    if ok {
      ok := fs.Write(Locate(p), content, now);
    }
  }

  /** isValidLocalDirectory(String): the path names an existing directory. */
  function IsValidLocalDirectory(fs: FileSystem, path: string): (r: bool)
    reads fs
    ensures r <==> IsDir(fs.entries, Locate(Parse(path)))
  {
    fs.IsDirectory(Locate(Parse(path)))
  }

  /** isValidLocalDirectory(Path). */
  function IsValidLocalDirectoryPath(fs: FileSystem, p: Path): (r: bool)
    requires AllElements(p.names)
    reads fs
    ensures r <==> IsDir(fs.entries, Locate(p))
  {
    fs.IsDirectory(Locate(p))
  }
}
