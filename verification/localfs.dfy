/** The local disk as the client reaches it through java.nio.file.Files: a map from the name elements of
    an absolute location to a directory or a regular file (its size is the length of its content).
    Every operation the client uses (createDirectories, delete, write, copy with REPLACE_EXISTING,
    walk, isDirectory) is a specification function on entries, and a method of FileSystem that
    applies it in place. */
module LocalFs {
  import opened Text
  import opened KeyOrder
  import opened LocalPaths

  newtype byte = x: int | 0 <= x < 256

  datatype Node = Dir | File(mtime: int, content: seq<byte>)

  type Entries = map<seq<string>, Node>

  /** The root exists and is a directory, every other entry sits in a directory, and every name is proper. */
  predicate WellFormed(e: Entries)
  {
    && [] in e && e[[]] == Dir
    && (forall q {:trigger q in e} :: q in e && q != [] ==> q[..|q| - 1] in e && e[q[..|q| - 1]] == Dir)
    && (forall q :: q in e ==> AllValid(q))
  }

  /** The location a path denotes: its names with "." and ".." resolved lexically from the root
      (a relative path is taken from the root as well). */
  function Locate(p: Path): (q: seq<string>)
    requires AllElements(p.names)
    ensures AllValid(q)
  {
    CanonicalValid(p.names);
    Canonical(p.names)
  }

  predicate IsDir(e: Entries, q: seq<string>)
  {
    q in e && e[q] == Dir
  }

  /** Some entry lives directly inside `q`. */
  predicate HasChildren(e: Entries, q: seq<string>)
  {
    exists c {:trigger c in e} :: c in e && c != [] && c[..|c| - 1] == q
  }

  /** Some ancestor of `q`, or `q` itself, is a regular file: Files.createDirectories(q) fails. */
  predicate BlockedByFile(e: Entries, q: seq<string>)
  {
    exists k :: 0 <= k <= |q| && q[..k] in e && e[q[..k]].File?
  }

  function Prefixes(q: seq<string>): set<seq<string>>
  {
    set k | 0 <= k <= |q| :: q[..k]
  }

  /** The directories Files.createDirectories(q) adds: every prefix of `q` not yet present. */
  function NewDirs(e: Entries, q: seq<string>): map<seq<string>, Node>
  {
    map d | d in Prefixes(q) && d !in e :: Dir
  }

  /** Files.delete(q) succeeds: the entry exists, is not the root, and is not a non-empty directory. */
  predicate CanDelete(e: Entries, q: seq<string>)
  {
    q in e && q != [] && !HasChildren(e, q)
  }

  /** The parent of `q` exists as a directory, as writing or copying a file at `q` demands. */
  predicate ParentIsDir(e: Entries, q: seq<string>)
  {
    q != [] && IsDir(e, q[..|q| - 1])
  }

  /** Files.write(q, bytes) succeeds: the parent is a directory and `q` is not a directory. */
  predicate CanWrite(e: Entries, q: seq<string>)
  {
    ParentIsDir(e, q) && !IsDir(e, q)
  }

  /** Files.copy(in, q, REPLACE_EXISTING) succeeds: the parent is a directory and `q` is not a
      non-empty directory (an empty one is replaced). */
  predicate CanCopyReplace(e: Entries, q: seq<string>)
  {
    ParentIsDir(e, q) && !(IsDir(e, q) && HasChildren(e, q))
  }

  /** What a walk of `q` followed by deleting every entry it yields, children first, leaves: the
      subtree of `q` is gone, except the root, which can never be deleted. */
  function RemoveSubtree(e: Entries, q: seq<string>): map<seq<string>, Node>
  {
    map c | c in e && !(q <= c && c != []) :: e[c]
  }

  /** The string Path.compareTo orders by: the absolute path with '/' between names. */
  function RenderAbs(q: seq<string>): string
  {
    Render(Path(true, q))
  }

  /** Adding the missing prefixes of an unblocked location keeps the disk well formed and makes the
      location a directory. */
  lemma CreateDirsWellFormed(e: Entries, q: seq<string>)
    requires WellFormed(e) && AllValid(q) && !BlockedByFile(e, q)
    ensures WellFormed(e + NewDirs(e, q))
    ensures IsDir(e + NewDirs(e, q), q)
  {
    var e' := e + NewDirs(e, q);
    forall c | c in e' && c != []
      ensures c[..|c| - 1] in e' && e'[c[..|c| - 1]] == Dir
    {
      if c !in e {
        var k :| 0 <= k <= |q| && c == q[..k];
        assert c[..|c| - 1] == q[..k - 1];
        if q[..k - 1] !in e {
          assert q[..k - 1] in Prefixes(q);
        }
      }
    }
    forall c | c in e' ensures AllValid(c) {
      if c !in e {
        var k :| 0 <= k <= |q| && c == q[..k];
      }
    }
    assert q == q[..|q|];
    if q !in e {
      assert q in Prefixes(q);
    }
  }

  /** Removing a childless entry other than the root keeps the disk well formed. */
  lemma DeleteWellFormed(e: Entries, q: seq<string>)
    requires WellFormed(e) && CanDelete(e, q)
    ensures WellFormed(map c | c in e && c != q :: e[c])
  {
    var e' := map c | c in e && c != q :: e[c];
    forall c | c in e' && c != []
      ensures c[..|c| - 1] in e' && e'[c[..|c| - 1]] == Dir
    {
      assert c[..|c| - 1] != q;
    }
  }

  /** Putting a file at a location whose parent is a directory, over no directory with entries in it,
      keeps the disk well formed. */
  lemma PutFileWellFormed(e: Entries, q: seq<string>, f: Node)
    requires WellFormed(e) && AllValid(q) && ParentIsDir(e, q) && !(IsDir(e, q) && HasChildren(e, q))
    requires f.File?
    ensures WellFormed(e[q := f])
  {
    var e' := e[q := f];
    forall c | c in e' && c != []
      ensures c[..|c| - 1] in e' && e'[c[..|c| - 1]] == Dir
    {
      if c[..|c| - 1] == q {
        assert false;
      }
    }
  }

  /** A child sorts after its parent in Path.compareTo order. */
  lemma ChildSortsAfter(q: seq<string>, n: string)
    requires n != ""
    ensures StrLess(RenderAbs(q), RenderAbs(q + [n]))
  {
    if q == [] {
      assert q + [n] == [n];
      assert RenderAbs(q) == "/";
      assert RenderAbs(q + [n]) == "/" + n;
    } else {
      JoinSnoc(q, n, '/');
      assert RenderAbs(q + [n]) == RenderAbs(q) + ['/'] + n;
    }
    PrefixSortsFirst(RenderAbs(q), RenderAbs(q + [n]));
  }

  /** Distinct locations render differently. */
  lemma RenderAbsInjective(a: seq<string>, b: seq<string>)
    requires AllValid(a) && AllValid(b) && RenderAbs(a) == RenderAbs(b)
    ensures a == b
  {
    ParseRender(Path(true, a));
    ParseRender(Path(true, b));
  }

  /** The entries left after deleting, in the walk of `q`, every location whose rendering is in `done`. */
  function Deleted(e: Entries, q: seq<string>, done: seq<string>): map<seq<string>, Node>
  {
    map c | c in e && !(q <= c && c != [] && RenderAbs(c) in done) :: e[c]
  }

  class FileSystem {
    var entries: Entries

    ghost predicate Valid()
      reads this
    {
      WellFormed(entries)
    }

    /** An empty disk: only the root directory. */
    constructor ()
      ensures Valid() && entries == map[[] := Dir]
    {
      entries := map[[] := Dir];
    }

    /** Files.exists. */
    function Exists(q: seq<string>): bool
      reads this
    {
      q in entries
    }

    /** Files.isDirectory. */
    function IsDirectory(q: seq<string>): bool
      reads this
    {
      IsDir(entries, q)
    }

    /** Files.createDirectories(q): creates every missing prefix, or fails without change when a
        prefix is a regular file. */
    method CreateDirectories(q: seq<string>) returns (ok: bool)
      requires Valid() && AllValid(q)
      modifies this
      ensures Valid()
      ensures ok == !BlockedByFile(old(entries), q)
      ensures ok ==> IsDirectory(q)
      ensures entries == if ok then old(entries) + NewDirs(old(entries), q) else old(entries)
    {
      ok := !BlockedByFile(entries, q);
      if ok {
        CreateDirsWellFormed(entries, q);
        entries := entries + NewDirs(entries, q);
      }
    }

    /** Files.delete(q). */
    method Delete(q: seq<string>) returns (ok: bool)
      requires Valid()
      modifies this
      ensures Valid()
      ensures ok == CanDelete(old(entries), q)
      ensures entries == if ok then map c | c in old(entries) && c != q :: old(entries)[c] else old(entries)
    {
      ok := CanDelete(entries, q);
      if ok {
        DeleteWellFormed(entries, q);
        entries := map c | c in entries && c != q :: entries[c];
      }
    }

    /** Files.write(q, content): creates or truncates a regular file, stamped with the clock `now`. */
    method Write(q: seq<string>, content: seq<byte>, now: int) returns (ok: bool)
      requires Valid() && AllValid(q)
      modifies this
      ensures Valid()
      ensures ok == CanWrite(old(entries), q)
      ensures entries == if ok then old(entries)[q := File(now, content)] else old(entries)
    {
      ok := CanWrite(entries, q);
      if ok {
        PutFileWellFormed(entries, q, File(now, content));
        entries := entries[q := File(now, content)];
      }
    }

    /** Files.copy(in, q, REPLACE_EXISTING): replaces a file or an empty directory. */
    method CopyReplace(q: seq<string>, content: seq<byte>, now: int) returns (ok: bool)
      requires Valid() && AllValid(q)
      modifies this
      ensures Valid()
      ensures ok == CanCopyReplace(old(entries), q)
      ensures entries == if ok then old(entries)[q := File(now, content)] else old(entries)
    {
      ok := CanCopyReplace(entries, q);
      if ok {
        PutFileWellFormed(entries, q, File(now, content));
        entries := entries[q := File(now, content)];
      }
    }

    /** Files.walk(q) followed by sorting: every location at or below `q`, each once, in ascending
        Path.compareTo order, as the strings that order compares. */
    method SortedWalk(q: seq<string>) returns (keys: seq<string>)
      requires Valid()
      ensures WalkKeys(entries, q, keys)
    {
      var rendered := set c | c in entries && q <= c :: RenderAbs(c);
      var rest;
      keys, rest := TakeSorted(rendered, |rendered|);
      assert |rest| == 0;
      assert SortedKeys(rest) == [];
      assert keys == SortedKeys(rendered);
      SortedKeysFacts(rendered);
      forall k | k in keys ensures exists c :: c in entries && q <= c && RenderAbs(c) == k {
        assert k in rendered;
      }
      forall c | c in entries && q <= c ensures RenderAbs(c) in keys {
        assert RenderAbs(c) in rendered;
      }
    }

    /** Files.walk(q) sorted in descending Path order, each entry deleted in turn with failures
        ignored. A descendant renders with its ancestor as a proper prefix, so it sorts later and is
        deleted first; every deletion but the root's therefore succeeds. */
    method DeleteTree(q: seq<string>)
      requires Valid() && q in entries
      modifies this
      ensures Valid()
      ensures entries == RemoveSubtree(old(entries), q)
    {
      ghost var e0 := entries;
      var keys := SortedWalk(q);
      var i := |keys|;
      assert Deleted(e0, q, []) == e0;
      while i > 0
        invariant 0 <= i <= |keys|
        invariant Valid()
        invariant entries == Deleted(e0, q, keys[i..])
      {
        i := i - 1;
        var c := Parse(keys[i]).names;
        DeleteTreeStep(e0, q, keys, i, entries, c);
        var _ := Delete(c);
      }
      DeletedAll(e0, q, keys);
    }
  }

  /** `keys` lists, in strictly ascending order, exactly the renderings of the locations at or below `q`. */
  ghost predicate WalkKeys(e: Entries, q: seq<string>, keys: seq<string>)
  {
    Ascending(keys) && WalkSound(e, q, keys) && WalkCovered(e, q, keys)
  }

  /** Every key renders a location at or below `q`. */
  ghost predicate WalkSound(e: Entries, q: seq<string>, keys: seq<string>)
  {
    forall k :: k in keys ==> exists c :: c in e && q <= c && RenderAbs(c) == k
  }

  /** Every location at or below `q` is rendered by some key. */
  ghost predicate WalkCovered(e: Entries, q: seq<string>, keys: seq<string>)
  {
    forall c :: c in e && q <= c ==> RenderAbs(c) in keys
  }

  /** One turn of DeleteTree's loop: deleting the location of keys[i] succeeds unless it is the root,
      and extends the deleted part by that key. */
  lemma DeleteTreeStep(e0: Entries, q: seq<string>, keys: seq<string>, i: nat, e: Entries, c: seq<string>)
    requires WellFormed(e0) && WalkKeys(e0, q, keys) && i < |keys|
    requires e == Deleted(e0, q, keys[i + 1..])
    requires c == Parse(keys[i]).names
    ensures CanDelete(e, c) == (c != [])
    ensures Deleted(e0, q, keys[i..]) == if c != [] then map d | d in e && d != c :: e[d] else e
  {
    assert keys[i] in keys;
    var w :| w in e0 && q <= w && RenderAbs(w) == keys[i];
    assert AllElements(w);
    ParseRender(Path(true, w));
    AscendingDistinct(keys, i);
    DeletedExtend(e0, q, keys, i, c, e);
    if c != [] {
      NoChildLeft(e0, q, keys, i, e, c);
    }
  }

  lemma AscendingDistinct(keys: seq<string>, i: nat)
    requires Ascending(keys) && i < |keys|
    ensures keys[i] !in keys[i + 1..]
  {
    if keys[i] in keys[i + 1..] {
      var j :| i + 1 <= j < |keys| && keys[j] == keys[i];
      StrLessIrreflexive(keys[i]);
    }
  }

  /** A non-empty location is its parent followed by its last name (proved apart from the large
      context of NoChildLeft, where the same step is costly). */
  lemma LastSplit(d: seq<string>)
    requires d != []
    ensures d == d[..|d| - 1] + [d[|d| - 1]]
  {
  }

  /** When the keys after position i have been deleted, the location of keys[i] is present and holds
      nothing: every entry inside it renders as a later key. */
  lemma NoChildLeft(e0: Entries, q: seq<string>, keys: seq<string>, i: nat, e: Entries, c: seq<string>)
    requires WellFormed(e0) && Ascending(keys) && WalkCovered(e0, q, keys) && i < |keys|
    requires e == Deleted(e0, q, keys[i + 1..])
    requires c in e0 && q <= c && c != [] && RenderAbs(c) == keys[i]
    requires keys[i] !in keys[i + 1..]
    ensures CanDelete(e, c)
  {
    if HasChildren(e, c) {
      var d :| d in e && d != [] && d[..|d| - 1] == c;
      var n := d[|d| - 1];
      LastSplit(d);
      assert d in e0 && q <= d;
      assert AllValid(d) && ValidName(d[|d| - 1]);
      assert RenderAbs(d) in keys;
      ChildSortsAfter(c, n);
      AscendingAfter(keys, i, RenderAbs(d));
      assert false;
    }
  }

  /** Deleting the location of keys[i] extends the deleted part by that key. */
  lemma DeletedExtend(e0: Entries, q: seq<string>, keys: seq<string>, i: nat, c: seq<string>, e: Entries)
    requires WellFormed(e0) && i < |keys|
    requires c in e0 && q <= c && RenderAbs(c) == keys[i]
    requires e == Deleted(e0, q, keys[i + 1..])
    ensures c != [] ==> Deleted(e0, q, keys[i..]) == map d | d in e && d != c :: e[d]
    ensures c == [] ==> Deleted(e0, q, keys[i..]) == e
  {
    assert keys[i..] == [keys[i]] + keys[i + 1..];
    forall d | d in e0 && RenderAbs(d) == keys[i] ensures d == c {
      RenderAbsInjective(d, c);
    }
  }

  /** Once every key is deleted, what is left is the disk without the subtree. */
  lemma DeletedAll(e0: Entries, q: seq<string>, keys: seq<string>)
    requires WalkCovered(e0, q, keys)
    ensures Deleted(e0, q, keys[0..]) == RemoveSubtree(e0, q)
  {
    assert keys[0..] == keys;
  }
}
