/** The user's position inside their own folder: a list of path segments below a per-user root. The
    same segments name the cloud prefix (userId/seg/...) and the local mirror directory
    (root/dropbox-clone/username/seg/...). */
module WorkingDirectory {
  import opened Text
  import opened LocalPaths

  /** The folder, under the chosen root, that holds every user's local mirror. */
  const AppFolder: string := "dropbox-clone"

  /** A segment the list can hold: non-empty, free of '/', neither "." nor "..". */
  predicate IsSegment(s: string)
  {
    s != "" && s != "." && s != ".." && '/' !in s
  }

  predicate AllSegments(segs: seq<string>)
  {
    forall i :: 0 <= i < |segs| ==> IsSegment(segs[i])
  }

  /** One component of a multi-component path: ".." leaves the last segment (nothing at the top),
      "" and "." are ignored, anything else is entered. */
  function Step(segs: seq<string>, component: string): seq<string>
  {
    if component == ".." then (if segs == [] then segs else segs[..|segs| - 1])
    else if component != "" && component != "." then segs + [component]
    else segs
  }

  /** The components applied left to right. */
  function Walk(segs: seq<string>, components: seq<string>): seq<string>
    decreases |components|
  {
    if components == [] then segs
    else Step(Walk(segs, components[..|components| - 1]), components[|components| - 1])
  }

  /** The segment list after changeDirectory(path): "/" returns to the top, ".." leaves one level,
      anything else is split on '/' and walked. */
  function ChangeDir(segs: seq<string>, path: string): seq<string>
  {
    if path == "/" then []
    else if path == ".." then (if segs == [] then segs else segs[..|segs| - 1])
    else Walk(segs, JavaSplit(path, '/'))
  }

  /** The cloud prefix: the user id followed by "/" and each segment in turn. */
  function FullPath(userId: string, segs: seq<string>): string
    decreases |segs|
  {
    if segs == [] then userId else FullPath(userId, segs[..|segs| - 1]) + "/" + segs[|segs| - 1]
  }

  /** The root directory without one trailing '/' or '\'. */
  function CleanRoot(rootDirectory: string): string
  {
    if |rootDirectory| > 0 && rootDirectory[|rootDirectory| - 1] in Separators
    then rootDirectory[..|rootDirectory| - 1]
    else rootDirectory
  }

  /** The local mirror of the current directory: Paths.get(cleanRoot, "dropbox-clone", username),
      then the segments joined with '/' when there are any. Its name elements are those of the root,
      then "dropbox-clone", then those of the username and of each segment. */
  function Prompt(rootDirectory: string, username: string, segs: seq<string>): (r: string)
    ensures Parse(r).names == NamesOf(rootDirectory) + [AppFolder] + NamesOf(username) + NamesOfAll(segs)
    ensures Parse(r).absolute <==> CleanRoot(rootDirectory) != "" && CleanRoot(rootDirectory)[0] in Separators
  {
    AppFolderIsName();
    PromptShape(rootDirectory, AppFolder, username, segs);
    var base := PathsGet([CleanRoot(rootDirectory), AppFolder, username]);
    if segs == [] then base else PathsGet([base, Join(segs, '/')])
  }

  /** The prompt's names and absoluteness, for any application folder name `app`. */
  lemma PromptShape(rootDirectory: string, app: string, username: string, segs: seq<string>)
    requires IsElement(app) && app[0] !in Separators
    ensures var base := PathsGet([CleanRoot(rootDirectory), app, username]);
            var r := if segs == [] then base else PathsGet([base, Join(segs, '/')]);
            && Parse(r).names == NamesOf(rootDirectory) + [app] + NamesOf(username) + NamesOfAll(segs)
            && (Parse(r).absolute <==> CleanRoot(rootDirectory) != "" && CleanRoot(rootDirectory)[0] in Separators)
  {
    var base := PathsGet([CleanRoot(rootDirectory), app, username]);
    PromptBaseNames(rootDirectory, app, username);
    PromptBaseStart(CleanRoot(rootDirectory), app, username);
    if segs == [] {
      assert NamesOfAll(segs) == [];
    } else {
      SegmentsNames(base, segs);
      PathsGetFirst(base, [Join(segs, '/')]);
      assert [base] + [Join(segs, '/')] == [base, Join(segs, '/')];
    }
  }

  /** Paths.get(root, app, user) starts with the root's first character, or with the application
      folder's when the root is empty: it is absolute exactly when the root is. */
  lemma PromptBaseStart(root: string, app: string, username: string)
    requires app != "" && app[0] !in Separators
    ensures var base := PathsGet([root, app, username]);
            base != "" && (base[0] in Separators <==> root != "" && root[0] in Separators)
  {
    if root != "" {
      PathsGetFirst(root, [app, username]);
      assert [root] + [app, username] == [root, app, username];
    } else {
      PathsGetFirst(app, [username]);
      assert [app] + [username] == [app, username];
      assert NonEmptyParts([root, app, username]) == NonEmptyParts([app, username]) by {
        assert [root, app, username][1..] == [app, username];
      }
    }
  }

  /** Appending the joined segments to a path appends their name elements. */
  lemma SegmentsNames(base: string, segs: seq<string>)
    requires segs != []
    ensures NamesOf(PathsGet([base, Join(segs, '/')])) == NamesOf(base) + NamesOfAll(segs)
  {
    PathsGetNames([base, Join(segs, '/')]);
    NamesOfJoin(segs, '/');
    NamesOfAllCons(base, [Join(segs, '/')]);
    NamesOfAllCons(Join(segs, '/'), []);
  }

  lemma PromptBaseNames(rootDirectory: string, app: string, username: string)
    requires IsElement(app)
    ensures NamesOf(PathsGet([CleanRoot(rootDirectory), app, username]))
            == NamesOf(rootDirectory) + [app] + NamesOf(username)
  {
    var c := CleanRoot(rootDirectory);
    var parts := [c, app, username];
    PathsGetNames(parts);
    assert parts == [c] + ([app] + ([username] + []));
    NamesOfAllCons(c, [app] + ([username] + []));
    NamesOfAllCons(app, [username] + []);
    NamesOfAllCons(username, []);
    NamesOfName(app);
    CleanRootNames(rootDirectory);
    assert NamesOfAll(parts) == NamesOf(c) + ([app] + (NamesOf(username) + []));
  }

  lemma AppFolderIsName()
    ensures ValidName(AppFolder) && NamesOf(AppFolder) == [AppFolder]
    ensures AppFolder[0] !in Separators
  {
    assert AppFolder[0] == 'd';
    NamesOfName(AppFolder);
  }

  /** A single proper name element parses to itself. */
  lemma NamesOfName(n: string)
    requires IsElement(n)
    ensures NamesOf(n) == [n]
  {
    SplitNoSeparator(n, Separators);
    assert NonEmpty([n]) == [n] + NonEmpty([]);
  }

  /** Dropping one trailing separator leaves the name elements unchanged. */
  lemma CleanRootNames(rootDirectory: string)
    ensures NamesOf(CleanRoot(rootDirectory)) == NamesOf(rootDirectory)
  {
    var r := rootDirectory;
    if |r| > 0 && r[|r| - 1] in Separators {
      var c := r[..|r| - 1];
      assert r == c + [r[|r| - 1]] + "";
      SplitConcat(c, r[|r| - 1], "", Separators);
      NonEmptyConcat(Split(c, Separators), [""]);
      assert NonEmpty([""]) == [] + NonEmpty([]);
    }
  }

  /** The cloud prefix is the user id and the segments joined with '/'. */
  lemma {:induction false} FullPathIsJoin(userId: string, segs: seq<string>)
    ensures FullPath(userId, segs) == Join([userId] + segs, '/')
    decreases |segs|
  {
    if segs != [] {
      var init := segs[..|segs| - 1];
      FullPathIsJoin(userId, init);
      assert [userId] + segs == ([userId] + init) + [segs[|segs| - 1]];
      JoinSnoc([userId] + init, segs[|segs| - 1], '/');
    }
  }

  /** Splitting the cloud prefix on '/' gives back the user id and the segments. */
  lemma FullPathSplit(userId: string, segs: seq<string>)
    requires '/' !in userId && AllSegments(segs)
    ensures Split(FullPath(userId, segs), {'/'}) == [userId] + segs
  {
    FullPathIsJoin(userId, segs);
    SplitJoin([userId] + segs, '/', {'/'});
  }

  /** Walking the concatenation of two component lists walks one, then the other. */
  lemma {:induction false} WalkAppend(segs: seq<string>, a: seq<string>, b: seq<string>)
    ensures Walk(segs, a + b) == Walk(Walk(segs, a), b)
    decreases |b|
  {
    if b == [] {
      assert a + b == a;
    } else {
      assert (a + b)[..|a + b| - 1] == a + b[..|b| - 1];
      WalkAppend(segs, a, b[..|b| - 1]);
    }
  }

  /** Empty components change nothing. */
  lemma {:induction false} WalkEmpties(segs: seq<string>, b: seq<string>)
    requires forall i :: 0 <= i < |b| ==> b[i] == ""
    ensures Walk(segs, b) == segs
    decreases |b|
  {
    if b != [] {
      WalkEmpties(segs, b[..|b| - 1]);
    }
  }

  /** Walking one more component of a list is one more step. */
  lemma WalkNext(segs: seq<string>, components: seq<string>, i: nat)
    requires i < |components|
    ensures Walk(segs, components[..i + 1]) == Step(Walk(segs, components[..i]), components[i])
  {
    assert components[..i + 1][..i] == components[..i];
  }

  /** Walking proper components keeps every stored segment proper. */
  lemma {:induction false} WalkKeepsSegments(segs: seq<string>, components: seq<string>)
    requires AllSegments(segs)
    requires forall i :: 0 <= i < |components| ==> '/' !in components[i]
    ensures AllSegments(Walk(segs, components))
    decreases |components|
  {
    if components != [] {
      WalkKeepsSegments(segs, components[..|components| - 1]);
    }
  }

  /** Any argument but "/" is the walk of all its '/'-separated pieces, trailing empty ones included. */
  lemma ChangeDirAsWalk(segs: seq<string>, path: string)
    requires path != "/"
    ensures ChangeDir(segs, path) == Walk(segs, Split(path, {'/'}))
  {
    if path == ".." {
      SplitNoSeparator(path, {'/'});
      assert Walk(segs, [".."]) == Step(Walk(segs, []), "..");
    } else if path != "" {
      var ps := Split(path, {'/'});
      var r := DropTrailingEmpty(ps);
      assert ps == r + ps[|r|..];
      WalkAppend(segs, r, ps[|r|..]);
      WalkEmpties(Walk(segs, r), ps[|r|..]);
    }
  }

  /** Changing to x + "/" + y is changing to x, then to y (neither being "/", not both empty). */
  lemma ChangeDirCompose(segs: seq<string>, x: string, y: string)
    requires x != "/" && y != "/" && (x != "" || y != "")
    ensures ChangeDir(segs, x + "/" + y) == ChangeDir(ChangeDir(segs, x), y)
  {
    var p := x + "/" + y;
    assert |p| == |x| + 1 + |y|;
    ChangeDirAsWalk(segs, p);
    SplitConcat(x, '/', y, {'/'});
    WalkAppend(segs, Split(x, {'/'}), Split(y, {'/'}));
    ChangeDirAsWalk(segs, x);
    ChangeDirAsWalk(ChangeDir(segs, x), y);
  }

  /** changeDirectory("/") empties the list from any depth, ".." drops exactly the last segment. */
  lemma ChangeDirSpecial(segs: seq<string>)
    ensures ChangeDir(segs, "/") == []
    ensures segs != [] ==> ChangeDir(segs, "..") + [segs[|segs| - 1]] == segs
    ensures segs == [] ==> ChangeDir(segs, "..") == []
  {
    if segs != [] {
      assert segs[..|segs| - 1] + [segs[|segs| - 1]] == segs;
    }
  }

  /** Entering "a/b" from anywhere appends both segments, as the client's own test does with
      "foo/bar". */
  lemma EnterTwo(segs: seq<string>, a: string, b: string)
    requires IsSegment(a) && IsSegment(b)
    ensures ChangeDir(segs, a + "/" + b) == segs + [a, b]
  {
    ChangeDirCompose(segs, a, b);
    ChangeDirSingle(segs, a);
    ChangeDirSingle(segs + [a], b);
    assert segs + [a] + [b] == segs + [a, b];
  }

  /** Entering "a/b/c" appends three segments, as the client's own test does with "zoo/goo/boo". */
  lemma EnterThree(segs: seq<string>, a: string, b: string, c: string)
    requires IsSegment(a) && IsSegment(b) && IsSegment(c)
    ensures ChangeDir(segs, a + "/" + b + "/" + c) == segs + [a, b, c]
  {
    assert a + "/" + b + "/" + c == a + "/" + (b + "/" + c);
    assert |b + "/" + c| > 1;
    ChangeDirCompose(segs, a, b + "/" + c);
    ChangeDirSingle(segs, a);
    EnterTwo(segs + [a], b, c);
    assert segs + [a] + [b, c] == segs + [a, b, c];
  }

  /** A proper segment is entered. */
  lemma ChangeDirSingle(segs: seq<string>, s: string)
    requires IsSegment(s)
    ensures ChangeDir(segs, s) == segs + [s]
  {
    SplitNoSeparator(s, {'/'});
    ChangeDirAsWalk(segs, s);
    assert Walk(segs, [s]) == Step(Walk(segs, []), s);
  }

  /** The local mirror under a root written with a trailing '/' has the names of the root, the
      application folder, the user and the segments; written with '\\' separators (NamesOfJoinElements)
      these are the client's own expected prompt ("C:/" giving "C:\\dropbox-clone\\testUser\\foo\\bar"). */
  lemma PromptTrailingSlash(root: string, username: string, segs: seq<string>)
    requires IsElement(root) && IsElement(username) && AllElements(segs)
    ensures Parse(Prompt(root + "/", username, segs)).names == [root, AppFolder, username] + segs
  {
    AppFolderIsName();
    PromptNames(root, AppFolder, username, segs, Parse(Prompt(root + "/", username, segs)).names);
  }

  lemma PromptNames(root: string, app: string, username: string, segs: seq<string>, names: seq<string>)
    requires IsElement(root) && IsElement(username) && AllElements(segs)
    requires names == NamesOf(root + "/") + [app] + NamesOf(username) + NamesOfAll(segs)
    ensures names == [root, app, username] + segs
  {
    RootSlashNames(root);
    NamesOfName(username);
    NamesOfElements(segs);
    assert [root] + [app] + [username] + segs == [root, app, username] + segs;
  }

  /** A proper name written with a trailing '/' has that name as its only element. */
  lemma RootSlashNames(root: string)
    requires IsElement(root)
    ensures NamesOf(root + "/") == [root]
  {
    CleanRootNames(root + "/");
    assert (root + "/")[..|root|] == root;
    NamesOfName(root);
  }

  /** Proper names are their own names, one by one. */
  lemma {:induction false} NamesOfElements(ns: seq<string>)
    requires AllElements(ns)
    ensures NamesOfAll(ns) == ns
  {
    if ns != [] {
      NamesOfElements(ns[1..]);
      NamesOfName(ns[0]);
    }
  }

  class CurrentWorkingDirectory {
    const userId: string
    const username: string
    var pathComponents: seq<string>

    ghost predicate Valid()
      reads this
    {
      AllSegments(pathComponents)
    }

    /** A fresh position at the top of the user's folder. */
    constructor (userId: string, username: string)
      ensures this.userId == userId && this.username == username
      ensures pathComponents == [] && Valid()
    {
      this.userId := userId;
      this.username := username;
      pathComponents := [];
    }

    /** The cloud prefix of the current directory. */
    method GetFullPath() returns (path: string)
      ensures path == FullPath(userId, pathComponents)
      ensures '/' !in userId && AllSegments(pathComponents) ==>
                Split(path, {'/'}) == [userId] + pathComponents
    {
      path := userId;
      for i := 0 to |pathComponents|
        invariant path == FullPath(userId, pathComponents[..i])
      {
        assert pathComponents[..i + 1][..i] == pathComponents[..i];
        path := path + "/" + pathComponents[i];
      }
      assert pathComponents[..|pathComponents|] == pathComponents;
      if '/' !in userId && AllSegments(pathComponents) {
        FullPathSplit(userId, pathComponents);
      }
    }

    /** The local mirror of the current directory under `rootDirectory`. */
    function GetPromptString(rootDirectory: string): string
      reads this
    {
      Prompt(rootDirectory, username, pathComponents)
    }

    /** changeDirectory(path), applied to the list in place. */
    method ChangeDirectory(path: string)
      requires Valid()
      modifies this
      ensures Valid()
      ensures pathComponents == ChangeDir(old(pathComponents), path)
    {
      if path == "/" {
        pathComponents := [];
      } else if path == ".." {
        if pathComponents != [] {
          pathComponents := pathComponents[..|pathComponents| - 1];
        }
      } else {
        var components := JavaSplit(path, '/');
        for i := 0 to |components|
          invariant pathComponents == Walk(old(pathComponents), components[..i])
          invariant Valid()
        {
          var component := components[i];
          WalkNext(old(pathComponents), components, i);
          assert AllSegments(Step(pathComponents, component));
          if component == ".." {
            if pathComponents != [] {
              pathComponents := pathComponents[..|pathComponents| - 1];
            }
          } else if component != "" && component != "." {
            pathComponents := pathComponents + [component];
          }
        }
        assert components[..|components|] == components;
      }
    }
  }
}
