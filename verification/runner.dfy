/** The command guards of the logged-in command line: the session check and the split of an input
    line into a command and its argument, and the commands cd, ls, rm, mkdir, push, pull,
    delete_account and logout.  The runner holds the signed-in user, the access token, the working
    directory and the chosen root directory; it reaches the account service, the bucket and the disk
    through the three services it was built with.  The reply to a confirmation prompt, the clock and
    the root string the containment check compares with are parameters. */
module Cli {
  import opened Wrappers
  import opened Text
  import opened KeyOrder
  import opened LocalPaths
  import opened LocalFs
  import opened WorkingDirectory
  import opened LocalFiles
  import opened S3Listing
  import opened S3Sync
  import opened CloudStorage
  import opened Accounts
  import opened InMemoryUsers

  // ---------------------------------------------------------------------------------------------
  // Reading the input line

  /** The index of the first \s character of `s`, or |s| when there is none. */
  function FirstSpace(s: string): (i: nat)
    ensures i <= |s|
    ensures forall j :: 0 <= j < i ==> !IsRegexSpace(s[j])
    ensures i < |s| ==> IsRegexSpace(s[i])
  {
    if s == [] || IsRegexSpace(s[0]) then 0 else 1 + FirstSpace(s[1..])
  }

  /** The end of the run of \s characters that starts at `i`. */
  function SpaceRunEnd(s: string, i: nat): (j: nat)
    requires i <= |s|
    ensures i <= j <= |s|
    ensures forall k :: i <= k < j ==> IsRegexSpace(s[k])
    ensures j < |s| ==> !IsRegexSpace(s[j])
    decreases |s| - i
  {
    if i < |s| && IsRegexSpace(s[i]) then SpaceRunEnd(s, i + 1) else i
  }

  datatype Command = Command(name: string, args: string)

  /** input.split("\\s+", 2): the text before the first run of white space, lower-cased, is the
      command; what follows the run, trimmed, is the argument (empty when there is no run). */
  function SplitCommand(input: string): Command
  {
    var i := FirstSpace(input);
    if i == |input| then Command(ToLower(input), "")
    else Command(ToLower(input[..i]), Trim(input[SpaceRunEnd(input, i)..]))
  }

  /** The command handleLoggedInCommands receives for a console line: run trims and lower-cases the
      whole line before it is split, so the argument is lower-cased as well as the command name. */
  function ReadCommand(line: string): Command
  {
    SplitCommand(ToLower(Trim(line)))
  }

  /** The command read from a line is the split of the trimmed line with its argument lower-cased:
      no argument a signed-in user types reaches a command with an upper-case letter in it. */
  lemma ReadCommandLowers(line: string)
    ensures ReadCommand(line) == Command(SplitCommand(Trim(line)).name, ToLower(SplitCommand(Trim(line)).args))
    ensures forall c :: c in ReadCommand(line).args ==> !('A' <= c <= 'Z')
  {
    TrimLower(line);
    SplitCommandLower(Trim(line));
    ToLowerLower(SplitCommand(Trim(line)).args);
  }

  /** Lower-casing a line before the split lower-cases the argument and leaves the name as it was. */
  lemma SplitCommandLower(s: string)
    ensures SplitCommand(ToLower(s)) == Command(SplitCommand(s).name, ToLower(SplitCommand(s).args))
  {
    var l := ToLower(s);
    var i := FirstSpace(s);
    FirstSpaceLower(s);
    ToLowerLower(s);
    if i == |s| {
      assert ToLower("") == "";
    } else {
      var j := SpaceRunEnd(s, i);
      SpaceRunEndLower(s, i);
      ToLowerSlice(s, 0, i);
      ToLowerSlice(s, j, |s|);
      assert s[0..i] == s[..i] && l[0..i] == l[..i];
      assert s[j..|s|] == s[j..] && l[j..|s|] == l[j..];
      ToLowerLower(s[..i]);
      TrimLower(s[j..]);
    }
  }

  lemma {:induction false} FirstSpaceLower(s: string)
    ensures FirstSpace(ToLower(s)) == FirstSpace(s)
  {
    if s != [] {
      LowerCharKeepsClass(s[0]);
      ToLowerSlice(s, 1, |s|);
      assert s[1..|s|] == s[1..] && ToLower(s)[1..|s|] == ToLower(s)[1..];
      FirstSpaceLower(s[1..]);
    } else {
      assert ToLower(s) == [];
    }
  }

  lemma {:induction false} SpaceRunEndLower(s: string, i: nat)
    requires i <= |s|
    ensures SpaceRunEnd(ToLower(s), i) == SpaceRunEnd(s, i)
    decreases |s| - i
  {
    if i < |s| {
      LowerCharKeepsClass(s[i]);
      SpaceRunEndLower(s, i + 1);
    }
  }

  /** A line without white space is a command with an empty argument. */
  lemma SplitCommandWord(w: string)
    requires forall c :: c in w ==> !IsRegexSpace(c)
    ensures SplitCommand(w) == Command(ToLower(w), "")
  {
    forall j | 0 <= j < |w| ensures !IsRegexSpace(w[j]) {
      assert w[j] in w;
    }
  }

  /** A word, a run of white space and a rest that does not start with white space split into the
      lower-cased word and the trimmed rest. */
  lemma SplitCommandWords(w: string, ws: string, rest: string)
    requires forall c :: c in w ==> !IsRegexSpace(c)
    requires ws != [] && forall c :: c in ws ==> IsRegexSpace(c)
    requires rest == [] || !IsRegexSpace(rest[0])
    ensures SplitCommand(w + ws + rest) == Command(ToLower(w), Trim(rest))
  {
    var s := w + ws + rest;
    forall j | 0 <= j < |w| ensures !IsRegexSpace(s[j]) {
      assert s[j] == w[j] && w[j] in w;
    }
    forall k | |w| <= k < |w| + |ws| ensures IsRegexSpace(s[k]) {
      assert s[k] == ws[k - |w|] && ws[k - |w|] in ws;
    }
    assert IsRegexSpace(s[|w|]);
    assert FirstSpace(s) == |w|;
    if rest != [] {
      assert s[|w| + |ws|] == rest[0];
    }
    assert SpaceRunEnd(s, |w|) == |w| + |ws|;
    assert s[..|w|] == w;
    assert s[|w| + |ws|..] == rest;
  }

  /** A confirmation reply, trimmed and lower-cased, is exactly "y". */
  predicate Confirmed(reply: string)
  {
    ToLower(Trim(reply)) == "y"
  }

  /** The only replies that confirm are "y" and "Y", with any surrounding white space. */
  lemma ConfirmedMeans(reply: string)
    ensures Confirmed(reply) <==> Trim(reply) == "y" || Trim(reply) == "Y"
  {
    var t := Trim(reply);
    if Confirmed(reply) {
      assert ToLower(t)[0] == LowerChar(t[0]);
      assert t == [t[0]];
    }
    if t == "Y" {
      assert ToLower(t) == [LowerChar('Y')];
    }
  }

  // ---------------------------------------------------------------------------------------------
  // The containment check of cd, ls and rm

  lemma {:induction false} NormNamesElements(absolute: bool, ns: seq<string>)
    requires AllElements(ns)
    ensures AllElements(NormNames(absolute, ns))
    decreases |ns|
  {
    if ns != [] {
      NormNamesElements(absolute, ns[..|ns| - 1]);
    }
  }

  /** The path the containment check tests: an absolute argument as given, a relative one resolved
      against the current local directory and normalised; None when the argument is not a path
      string at all. */
  function Target(prompt: string, arg: string): (r: Option<Path>)
    ensures r.Some? ==> AllElements(r.value.names)
  {
    if !IsValidPathString(arg) then None
    else if Parse(arg).absolute then Some(Parse(arg))
    else
      var p := Resolve(Parse(prompt), Parse(arg));
      NormNamesElements(p.absolute, p.names);
      Some(Normalize(p))
  }

  /** The target starts, name by name, with the root path. */
  predicate Inside(t: Path, rootString: string)
  {
    StartsWith(t, Parse(rootString))
  }

  /** A relative argument resolved against an absolute directory is normalised, so passing the check
      places the location it denotes under the root. */
  lemma RelativeTargetInside(prompt: string, arg: string, rootString: string)
    requires Parse(prompt).absolute && !Parse(arg).absolute
    requires Target(prompt, arg).Some? && Inside(Target(prompt, arg).value, rootString)
    ensures Parse(rootString).names <= Locate(Target(prompt, arg).value)
  {
    var t := Target(prompt, arg).value;
    var p := Resolve(Parse(prompt), Parse(arg));
    assert p.absolute;
    CanonicalValid(p.names);
    CanonicalOfValid(t.names);
  }

  /** The names of "/a" and of "/a/b". */
  lemma AbsoluteNames(a: string, b: string)
    requires IsElement(a) && IsElement(b)
    ensures NamesOf("/" + a) == [a] && NamesOf("/" + a + "/" + b) == [a, b]
  {
    NamesOfEmpty();
    NamesOfSlash("", a);
    assert "" + "/" + a == "/" + a;
    NamesOfSlash("/" + a, b);
  }

  /** Normalising a, "..", x leaves x. */
  lemma EscapeNorm(a: string, x: string)
    requires ValidName(a) && ValidName(x)
    ensures NormNames(true, [a, "..", x]) == [x]
  {
    var up := "..";
    assert NormNames(true, [a]) == [a] by {
      assert [a][..0] == [];
      assert NormNames(true, [a]) == NormStep(true, [], a);
    }
    assert NormNames(true, [a, up]) == [] by {
      assert [a, up][..1] == [a];
      assert NormNames(true, [a, up]) == NormStep(true, [a], up);
      assert [a][..0] == [];
    }
    assert [a, up, x][..2] == [a, up];
    assert NormNames(true, [a, up, x]) == NormStep(true, [], x);
  }

  /** An absolute argument is not normalised before the check: "/a/../x" passes a check against
      the root "/a" although it denotes "/x", outside the root. */
  lemma AbsoluteTargetEscapes(a: string, x: string)
    requires ValidName(a) && ValidName(x) && IsValidPathString(a) && IsValidPathString(x) && a != x
    ensures Target("/" + a, "/" + a + "/../" + x) == Some(Path(true, [a, "..", x]))
    ensures Inside(Target("/" + a, "/" + a + "/../" + x).value, "/" + a)
    ensures Locate(Target("/" + a, "/" + a + "/../" + x).value) == [x]
    ensures !(Parse("/" + a).names <= Locate(Target("/" + a, "/" + a + "/../" + x).value))
  {
    var arg := "/" + a + "/../" + x;
    AbsoluteNames(a, "..");
    NamesOfSlash("/" + a + "/" + "..", x);
    assert "/" + a + "/" + ".." + "/" + x == arg;
    assert '\0' !in arg;
    assert arg[0] == '/' && ("/" + a)[0] == '/';
    EscapeNorm(a, x);
    assert [a, ".."] + [x] == [a, "..", x];
    assert Parse(arg) == Path(true, [a, "..", x]);
    assert [a] != [x];
  }

  /** cd(path) on the segment list: an empty argument changes nothing; "/" and ".." go straight to
      changeDirectory; anything else changes directory only when it is a path string, its target
      passes the containment check, and the target is an existing local directory. */
  function CdSegs(segs: seq<string>, prompt: string, rootString: string, e: Entries, path: string): seq<string>
  {
    if path == "" then segs
    else if path == "/" || path == ".." then ChangeDir(segs, path)
    else match Target(prompt, path)
      case None => segs
      case Some(t) => if Inside(t, rootString) && IsDir(e, Locate(t)) then ChangeDir(segs, path) else segs
  }

  /** cd hands the argument itself, not the checked target, to changeDirectory: an absolute path
      that passes the check appends all of its names to the working directory, so from the top of
      the folder, with root "/a" and a directory "/a/b", cd "/a/b" leaves the segments [a, b]. */
  lemma CdAbsoluteAppends(prompt: string, e: Entries, a: string, b: string)
    requires ValidName(a) && ValidName(b) && IsValidPathString(a) && IsValidPathString(b)
    requires IsDir(e, [a, b])
    ensures CdSegs([], prompt, "/" + a, e, "/" + a + "/" + b) == [a, b]
  {
    AbsoluteExampleTarget(prompt, a, b);
    AbsoluteExampleWalk(a, b);
  }

  lemma AbsoluteExampleTarget(prompt: string, a: string, b: string)
    requires ValidName(a) && ValidName(b) && IsValidPathString(a) && IsValidPathString(b)
    ensures Target(prompt, "/" + a + "/" + b) == Some(Path(true, [a, b]))
    ensures Inside(Path(true, [a, b]), "/" + a)
    ensures Locate(Path(true, [a, b])) == [a, b]
  {
    AbsoluteNames(a, b);
    assert '\0' !in "/" + a + "/" + b;
    CanonicalOfValid([a, b]);
  }

  lemma AbsoluteExampleWalk(a: string, b: string)
    requires ValidName(a) && ValidName(b)
    ensures ChangeDir([], "/" + a + "/" + b) == [a, b]
  {
    var top: seq<string> := [];
    var y := a + "/" + b;
    assert y != "" && y != "/" by { assert |y| > 1; }
    LeadingSlashWalk(top, y);
    assert "/" + y == "/" + a + "/" + b;
    EnterTwo(top, a, b);
  }

  /** A leading '/' in a multi-component argument is an ignored empty component. */
  lemma LeadingSlashWalk(segs: seq<string>, y: string)
    requires y != "" && y != "/"
    ensures ChangeDir(segs, "/" + y) == ChangeDir(segs, y)
  {
    assert JavaSplit("", '/') == [""];
    assert [""][..0] == [];
    assert Walk(segs, [""]) == Step(Walk(segs, []), "");
    assert ChangeDir(segs, "") == segs;
    assert "" + "/" + y == "/" + y;
    ChangeDirCompose(segs, "", y);
  }

  /** The local location ls and rm act on: Paths.get(prompt, path). */
  function Beside(prompt: string, path: string): seq<string>
  {
    Locate(Parse(PathsGet([prompt, path])))
  }

  /** The names of the entries directly inside `q`. */
  function Children(e: Entries, q: seq<string>): set<string>
  {
    set c | c in e && |c| == |q| + 1 && c[..|q|] == q :: c[|q|]
  }

  lemma ChildrenMeans(e: Entries, q: seq<string>, n: string)
    ensures n in Children(e, q) <==> q + [n] in e
  {
    if n in Children(e, q) {
      var c :| c in e && |c| == |q| + 1 && c[..|q|] == q && c[|q|] == n;
      assert c == q + [n];
    }
    if q + [n] in e {
      var c := q + [n];
      assert c[..|q|] == q && c[|q|] == n;
    }
  }

  /** The outcome of ls. */
  datatype LsResult = InvalidPath | OutsideRoot | NotADirectory | Contents(names: seq<string>)

  /** The bucket after createFolder: an empty object under the folder key unless some key already
      starts with it. */
  function WithFolder(b: Bucket, key: string, now: int): Bucket
  {
    if Under(b, key) != {} then b else b[key := S3Object(now, [])]
  }

  /** rm(path) goes as far as deleting: the argument is a non-empty path string whose target passes
      the containment check, the cloud directory or the local path exists, and the reply is "y". */
  predicate RmProceeds(path: string, prompt: string, rootString: string, b: Bucket, e: Entries,
                       cloud: string, reply: string)
  {
    && path != ""
    && Target(prompt, path).Some?
    && Inside(Target(prompt, path).value, rootString)
    && (InCloud(b, cloud) || Beside(prompt, path) in e)
    && Confirmed(reply)
  }

  /** The bucket and the disk before and after rm(path): when RmProceeds, the cloud directory is
      deleted if some key starts with it and the local subtree if the local path is a directory;
      otherwise both are unchanged. */
  predicate RmDone(path: string, prompt: string, rootString: string, cloud: string, reply: string,
                   b: Bucket, e: Entries, b': Bucket, e': Entries)
  {
    if RmProceeds(path, prompt, rootString, b, e, cloud, reply) then
      && b' == (if InCloud(b, cloud) then DeleteUnder(b, cloud) else b)
      && e' == (if IsDir(e, Beside(prompt, path)) then RemoveSubtree(e, Beside(prompt, path)) else e)
    else b' == b && e' == e
  }

  /** The local entry a folder name adds below the current directory: prompt + "/" + name. */
  function FolderPath(prompt: string, name: string): seq<string>
  {
    Locate(Parse(prompt + "/" + name))
  }

  /** The bucket and the disk before and after mkdir(folderName): an empty name changes nothing;
      otherwise the folder object exists in the cloud and the folder on disk. */
  predicate MkdirDone(fullPath: string, prompt: string, folderName: string, now: int,
                      b: Bucket, e: Entries, b': Bucket, e': Entries)
  {
    if folderName == "" then b' == b && e' == e
    else b' == WithFolder(b, FolderKey(fullPath, folderName), now) && e' == EnsureDir(e, FolderPath(prompt, folderName))
  }

  lemma NamesOfSlash(x: string, n: string)
    requires IsElement(n)
    ensures NamesOf(x + "/" + n) == NamesOf(x) + [n]
  {
    SplitConcat(x, '/', n, Separators);
    assert x + "/" + n == x + ['/'] + n;
    SplitNoSeparator(n, Separators);
    NonEmptyConcat(Split(x, Separators), [n]);
    assert NonEmpty([n]) == [n] + NonEmpty([]);
  }

  /** For a proper name below an absolute directory, the folder mkdir creates and the target cd
      tests are the same location. */
  lemma NameTarget(prompt: string, n: string)
    requires ValidName(n) && IsValidPathString(n) && Parse(prompt).absolute
    ensures Target(prompt, n) == Some(Path(true, Canonical(Parse(prompt).names) + [n]))
    ensures FolderPath(prompt, n) == Canonical(Parse(prompt).names) + [n]
  {
    var pn := Parse(prompt).names;
    assert IsElement(n);
    NamesOfSlash(prompt, n);
    NamesOfName(n);
    assert Parse(n) == Path(false, [n]) by {
      assert n[0] in n;
    }
    NormNamesAppendValid(true, pn, [n]);
  }

  /** After mkdir of a proper name below an absolute directory that lies under the root, cd to that
      name enters it. */
  lemma MkdirThenCd(segs: seq<string>, prompt: string, rootString: string, e: Entries, n: string)
    requires WellFormed(e) && ValidName(n) && IsValidPathString(n)
    requires Parse(prompt).absolute && Parse(rootString).absolute
    requires Parse(rootString).names <= Canonical(Parse(prompt).names)
    requires !BlockedByFile(e, FolderPath(prompt, n))
    ensures CdSegs(segs, prompt, rootString, EnsureDir(e, FolderPath(prompt, n)), n) == segs + [n]
  {
    var pn := Parse(prompt).names;
    NameTarget(prompt, n);
    var q := Canonical(pn) + [n];
    EnsureDirMakesDir(e, q);
    CanonicalValid(pn);
    CanonicalOfValid(q);
    ChangeDirSingle(segs, n);
  }

  /** The runner's own current directory, getPromptString(rootDirectory), is absolute exactly when
      the root without its trailing separator starts with a separator; under such a root the
      containment check keeps a relative argument under the checked root. */
  lemma PromptTargetInside(root: string, username: string, segs: seq<string>, arg: string, rootString: string)
    requires CleanRoot(root) != "" && CleanRoot(root)[0] in Separators
    requires !Parse(arg).absolute
    requires Target(Prompt(root, username, segs), arg).Some?
    requires Inside(Target(Prompt(root, username, segs), arg).value, rootString)
    ensures Parse(rootString).names <= Locate(Target(Prompt(root, username, segs), arg).value)
  {
    RelativeTargetInside(Prompt(root, username, segs), arg, rootString);
  }

  /** MkdirThenCd for the runner's own current directory under an absolute root. */
  lemma PromptMkdirThenCd(root: string, username: string, segs: seq<string>, rootString: string, e: Entries, n: string)
    requires CleanRoot(root) != "" && CleanRoot(root)[0] in Separators
    requires WellFormed(e) && ValidName(n) && IsValidPathString(n) && Parse(rootString).absolute
    requires Parse(rootString).names <= Canonical(Parse(Prompt(root, username, segs)).names)
    requires !BlockedByFile(e, FolderPath(Prompt(root, username, segs), n))
    ensures CdSegs(segs, Prompt(root, username, segs), rootString,
                   EnsureDir(e, FolderPath(Prompt(root, username, segs), n)), n) == segs + [n]
  {
    MkdirThenCd(segs, Prompt(root, username, segs), rootString, e, n);
  }

  /** The commands the logged-in loop recognises. */
  const Commands: set<string> :=
    {"logout", "delete_account", "mkdir", "change_root", "cd", "ls", "push", "pull", "rm", "help", "exit"}

  datatype Op = LogoutOp | DeleteAccountOp | MkdirOp | ChangeRootOp | CdOp | LsOp | PushOp | PullOp | RmOp
              | HelpOp | ExitOp | Unrecognised

  /** The case of the switch a command name selects. */
  function OpOf(name: string): (op: Op)
    ensures op == Unrecognised <==> name !in Commands
  {
    match name
    case "logout" => LogoutOp
    case "delete_account" => DeleteAccountOp
    case "mkdir" => MkdirOp
    case "change_root" => ChangeRootOp
    case "cd" => CdOp
    case "ls" => LsOp
    case "push" => PushOp
    case "pull" => PullOp
    case "rm" => RmOp
    case "help" => HelpOp
    case "exit" => ExitOp
    case _ => Unrecognised
  }

  // ---------------------------------------------------------------------------------------------
  // The runner

  class Runner {
    const userService: SimpleUserService
    const storageService: S3StorageService
    const fs: FileSystem
    var currentUser: User?
    var accessToken: Option<string>
    var cwd: CurrentWorkingDirectory?
    var rootDirectory: Option<string>
    var running: bool

    ghost predicate Valid()
      reads this, fs, userService, cwd
    {
      fs.Valid() && userService.Valid() && (cwd != null ==> cwd.Valid())
    }

    /** The state every logged-in command relies on: a user, a token, a working directory and a root. */
    predicate LoggedIn()
      reads this
    {
      currentUser != null && accessToken.Some? && cwd != null && rootDirectory.Some?
    }

    /** A runner over the three services, with nobody signed in. */
    constructor (userService: SimpleUserService, storageService: S3StorageService, fs: FileSystem)
      ensures this.userService == userService && this.storageService == storageService && this.fs == fs
      ensures currentUser == null && accessToken.None? && cwd == null && rootDirectory.None? && running
    {
      this.userService := userService;
      this.storageService := storageService;
      this.fs := fs;
      currentUser := null;
      accessToken := None;
      cwd := null;
      rootDirectory := None;
      running := true;
    }

    /** cd: changes the working directory as CdSegs describes. */
    method Cd(path: string, rootString: string)
      requires Valid() && LoggedIn()
      modifies cwd
      ensures Valid()
      ensures cwd.pathComponents
              == CdSegs(old(cwd.pathComponents), old(cwd.GetPromptString(rootDirectory.value)), rootString, fs.entries, path)
    {
      var prompt := cwd.GetPromptString(rootDirectory.value);
      CdAt(path, prompt, rootString);
    }

    /** cd once the current local directory is known. */
    method CdAt(path: string, prompt: string, rootString: string)
      requires cwd != null && cwd.Valid()
      modifies cwd
      ensures cwd.Valid()
      ensures cwd.pathComponents == CdSegs(old(cwd.pathComponents), prompt, rootString, fs.entries, path)
    {
      if path == "" {
        return;
      }
      if path == "/" || path == ".." {
        cwd.ChangeDirectory(path);
        return;
      }
      var target := Target(prompt, path);
      if target.None? || !Inside(target.value, rootString) {
        return;
      }
      if IsValidLocalDirectoryPath(fs, target.value) {
        cwd.ChangeDirectory(path);
      }
    }

    /** ls: refuses a path that is not a path string or whose target leaves the root, reports a
        location that is not a directory, and otherwise lists the names inside it, sorted. */
    method Ls(path: string, rootString: string) returns (r: LsResult)
      requires Valid() && LoggedIn()
      ensures var prompt := cwd.GetPromptString(rootDirectory.value);
              var t := Target(prompt, path);
              && (r.InvalidPath? <==> t.None?)
              && (r.OutsideRoot? <==> t.Some? && !Inside(t.value, rootString))
              && (r.NotADirectory? <==> t.Some? && Inside(t.value, rootString) && !IsDir(fs.entries, Beside(prompt, path)))
      ensures r.Contents? ==> Ascending(r.names)
      ensures r.Contents? ==> var q := Beside(cwd.GetPromptString(rootDirectory.value), path);
                              forall n :: n in r.names <==> q + [n] in fs.entries
    {
      var prompt := cwd.GetPromptString(rootDirectory.value);
      var target := Target(prompt, path);
      if target.None? {
        return InvalidPath;
      }
      if !Inside(target.value, rootString) {
        return OutsideRoot;
      }
      var q := Beside(prompt, path);
      if !fs.IsDirectory(q) {
        return NotADirectory;
      }
      var kids := Children(fs.entries, q);
      var names, rest := TakeSorted(kids, |kids|);
      SortedKeysFacts(kids);
      SortedKeysFacts(rest);
      assert names == SortedKeys(kids);
      forall n ensures n in names <==> q + [n] in fs.entries {
        ChildrenMeans(fs.entries, q, n);
      }
      r := Contents(names);
    }
  
    /** rm: deletes nothing unless RmProceeds; then deletes the cloud directory when some key starts
        with it, and the local subtree, children before parents, when the local path is a directory. */
    method Rm(path: string, rootString: string, reply: string)
      requires Valid() && LoggedIn()
      modifies storageService, fs
      ensures Valid()
      ensures var prompt := cwd.GetPromptString(rootDirectory.value);
              var cloud := FullPath(cwd.userId, cwd.pathComponents) + "/" + path;
              RmDone(path, prompt, rootString, cloud, reply, old(storageService.objects), old(fs.entries),
                     storageService.objects, fs.entries)
    {
      var prompt := cwd.GetPromptString(rootDirectory.value);
      var base := cwd.GetFullPath();
      RmAt(path, prompt, base + "/" + path, rootString, reply);
    }

    /** rm once the current local directory and the cloud path of the argument are known. */
    method RmAt(path: string, prompt: string, cloud: string, rootString: string, reply: string)
      requires fs.Valid()
      modifies storageService, fs
      ensures fs.Valid()
      ensures RmDone(path, prompt, rootString, cloud, reply, old(storageService.objects), old(fs.entries),
                     storageService.objects, fs.entries)
    {
      if path == "" {
        return;
      }
      var target := Target(prompt, path);
      if target.None? || !Inside(target.value, rootString) {
        return;
      }
      var local := Beside(prompt, path);
      var inCloud := storageService.IsValidS3Directory(cloud);
      if !inCloud && !fs.Exists(local) {
        return;
      }
      if !Confirmed(reply) {
        return;
      }
      inCloud := storageService.IsValidS3Directory(cloud);
      if inCloud {
        storageService.DeleteDirectory(cloud);
      }
      if fs.Exists(local) && fs.IsDirectory(local) {
        fs.DeleteTree(local);
      }
    }

    /** mkdir: with a non-empty name, creates the folder object in the current cloud directory and the
        directory, with any missing parents, below the current local one. */
    method Mkdir(folderName: string, now: int)
      requires Valid() && LoggedIn()
      modifies storageService, fs
      ensures Valid()
      ensures MkdirDone(FullPath(cwd.userId, cwd.pathComponents), cwd.GetPromptString(rootDirectory.value), folderName, now,
                        old(storageService.objects), old(fs.entries), storageService.objects, fs.entries)
    {
      var fullPath := cwd.GetFullPath();
      var prompt := cwd.GetPromptString(rootDirectory.value);
      MkdirAt(fullPath, prompt, folderName, now);
    }

    /** mkdir once the current cloud and local directories are known. */
    method MkdirAt(fullPath: string, prompt: string, folderName: string, now: int)
      requires fs.Valid()
      modifies storageService, fs
      ensures fs.Valid()
      ensures MkdirDone(fullPath, prompt, folderName, now, old(storageService.objects), old(fs.entries),
                        storageService.objects, fs.entries)
    {
      if folderName == "" {
        return;
      }
      storageService.CreateFolder(fullPath, folderName, now);
      CreateLocalDirectory(fs, prompt + "/" + folderName);
    }

    /** push: on a reply of "y", uploads the user's local folder. */
    method Push(reply: string, now: int, failing: set<string>)
      requires Valid() && LoggedIn()
      modifies storageService
      ensures Valid()
      ensures Confirmed(reply) ==>
                storageService.objects == old(storageService.objects)
                  + PushResult(fs.entries, rootDirectory.value, currentUser.username, currentUser.userId, now, failing)
      ensures !Confirmed(reply) ==> storageService.objects == old(storageService.objects)
    {
      if Confirmed(reply) {
        storageService.PushToS3(currentUser.GetUserId(), currentUser.GetUsername(), rootDirectory.value, fs, now, failing);
      }
    }

    /** pull: on a reply of "y", brings the user's cloud folder down to the disk. */
    method Pull(reply: string, now: int)
      requires Valid() && LoggedIn()
      modifies fs
      ensures Valid()
      ensures Confirmed(reply) ==>
                var prefix := UserKey(currentUser.userId, "");
                fs.entries == PullRun(old(fs.entries), storageService.objects, prefix, rootDirectory.value,
                                      currentUser.username, now, Listing(storageService.objects, prefix, None)).entries
      ensures !Confirmed(reply) ==> fs.entries == old(fs.entries)
    {
      if Confirmed(reply) {
        storageService.PullFromS3(currentUser.GetUserId(), currentUser.GetUsername(), rootDirectory.value, fs, now);
      }
    }

    /** delete_account: on a reply of "y", deletes every key starting with the user id, deletes the
        account, and signs the user out, root directory included. */
    method DeleteAccount(reply: string)
      requires Valid() && LoggedIn()
      modifies this, storageService, userService
      ensures Valid()
      ensures Confirmed(reply) ==>
                && storageService.objects == DeleteUnder(old(storageService.objects), old(currentUser.userId))
                && userService.users == (map u | u in old(userService.users) && old(userService.users)[u].id != old(accessToken.value)
                                           :: old(userService.users)[u])
                && userService.activeSessions == old(userService.activeSessions)
                && currentUser == null && accessToken.None? && cwd == null && rootDirectory.None?
      ensures !Confirmed(reply) ==>
                && storageService.objects == old(storageService.objects)
                && userService.users == old(userService.users)
                && userService.activeSessions == old(userService.activeSessions)
                && unchanged(this)
    {
      if Confirmed(reply) {
        storageService.DeleteDirectory(currentUser.GetUserId());
        userService.DeleteUser(accessToken.value);
        currentUser := null;
        accessToken := None;
        cwd := null;
        rootDirectory := None;
      }
    }

    /** logout: with a user signed in, ends the session of the token and clears the user, the token,
        the working directory and the root directory; with nobody signed in, changes nothing. */
    method Logout()
      requires Valid()
      modifies this, userService
      ensures Valid()
      ensures running == old(running)
      ensures userService.users == old(userService.users)
      ensures old(currentUser) != null ==>
                && currentUser == null && accessToken.None? && cwd == null && rootDirectory.None?
                && userService.activeSessions == (if old(accessToken).Some?
                                                  then old(userService.activeSessions) - {old(accessToken).value}
                                                  else old(userService.activeSessions))
      ensures old(currentUser) == null ==>
                unchanged(this) && userService.activeSessions == old(userService.activeSessions)
    {
      if currentUser != null {
        if accessToken.Some? {
          userService.Logout(accessToken.value);
        }
        currentUser := null;
        accessToken := None;
        cwd := null;
        rootDirectory := None;
      }
    }
  
    /** change_root: an empty argument, or one that is not an existing directory, changes nothing;
        otherwise the session's root becomes the argument and root/dropbox-clone is created. */
    method ChangeRoot(newPath: string)
      requires Valid() && LoggedIn()
      modifies this, fs
      ensures Valid() && LoggedIn()
      ensures currentUser == old(currentUser) && accessToken == old(accessToken) && cwd == old(cwd)
      ensures running == old(running)
      ensures var accepted := newPath != "" && IsValidPathString(newPath)
                              && old(IsDir(fs.entries, Locate(Parse(newPath))));
              && (accepted ==> rootDirectory == Some(newPath)
                               && fs.entries == EnsureDir(old(fs.entries), Locate(AppRoot(newPath))))
              && (!accepted ==> rootDirectory == old(rootDirectory) && fs.entries == old(fs.entries))
    {
      if newPath == "" {
        return;
      }
      // java.io.File reports a path holding NUL as not existing
      if !IsValidPathString(newPath) || !IsValidLocalDirectory(fs, newPath) {
        return;
      }
      rootDirectory := Some(newPath);
      CreateRootDirectory(fs, newPath);
    }

    /** shutdown: runs once; it stops the loop and, with a user signed in, logs out. */
    method Shutdown()
      requires Valid()
      modifies this, userService
      ensures Valid()
      ensures !running
      ensures userService.users == old(userService.users)
      ensures old(running) && old(currentUser) != null ==>
                && currentUser == null && accessToken.None? && cwd == null && rootDirectory.None?
                && userService.activeSessions == (if old(accessToken).Some?
                                                  then old(userService.activeSessions) - {old(accessToken).value}
                                                  else old(userService.activeSessions))
      ensures !old(running) || old(currentUser) == null ==>
                && currentUser == old(currentUser) && accessToken == old(accessToken) && cwd == old(cwd)
                && rootDirectory == old(rootDirectory)
                && userService.activeSessions == old(userService.activeSessions)
    {
      if !running {
        return;
      }
      running := false;
      if currentUser != null {
        Logout();
      }
    }

    /** One turn of run's loop for a signed-in user: the line is trimmed and lower-cased, then
        handed to handleLoggedInCommands, which splits it as ReadCommand describes. */
    method LoggedInLine(line: string, rootString: string, reply: string, now: int, failing: set<string>)
      requires Valid() && LoggedIn()
      modifies this, cwd, storageService, fs, userService
      ensures Valid()
      ensures !old(userService.AuthenticateUserSession(accessToken.value)) ==>
                && currentUser == null && accessToken.None? && cwd == null
                && rootDirectory == old(rootDirectory)
                && storageService.objects == old(storageService.objects) && fs.entries == old(fs.entries)
      ensures old(userService.AuthenticateUserSession(accessToken.value)) && ReadCommand(line).name !in Commands ==>
                && unchanged(this) && unchanged(cwd)
                && storageService.objects == old(storageService.objects) && fs.entries == old(fs.entries)
                && userService.activeSessions == old(userService.activeSessions)
      ensures old(userService.AuthenticateUserSession(accessToken.value)) && OpOf(ReadCommand(line).name) == ExitOp ==>
                !running && (old(running) ==> currentUser == null)
    {
      HandleLoggedInCommands(ToLower(Trim(line)), rootString, reply, now, failing);
    }

    /** handleLoggedInCommands: an expired session clears the user, the token and the working
        directory (the root directory stays) and runs nothing; otherwise the line is split and the
        command run.  An unknown command changes nothing. */
    method HandleLoggedInCommands(input: string, rootString: string, reply: string, now: int, failing: set<string>)
      requires Valid() && LoggedIn()
      modifies this, cwd, storageService, fs, userService
      ensures Valid()
      ensures !old(userService.AuthenticateUserSession(accessToken.value)) ==>
                && currentUser == null && accessToken.None? && cwd == null
                && rootDirectory == old(rootDirectory)
                && storageService.objects == old(storageService.objects) && fs.entries == old(fs.entries)
                && userService.users == old(userService.users)
                && userService.activeSessions == old(userService.activeSessions)
      ensures old(userService.AuthenticateUserSession(accessToken.value)) && SplitCommand(input).name !in Commands ==>
                && unchanged(this) && unchanged(cwd)
                && storageService.objects == old(storageService.objects) && fs.entries == old(fs.entries)
                && userService.users == old(userService.users)
                && userService.activeSessions == old(userService.activeSessions)
      ensures old(userService.AuthenticateUserSession(accessToken.value)) && OpOf(SplitCommand(input).name) == ExitOp ==>
                !running && (old(running) ==> currentUser == null)
    {
      if !userService.AuthenticateUserSession(accessToken.value) {
        ExpireSession();
        return;
      }
      var command := SplitCommand(input);
      Dispatch(OpOf(command.name), command.args, rootString, reply, now, failing);
    }

    /** An expired session forgets the user, the token and the working directory, and keeps the root. */
    method ExpireSession()
      requires Valid()
      modifies this
      ensures Valid()
      ensures currentUser == null && accessToken.None? && cwd == null
      ensures rootDirectory == old(rootDirectory) && running == old(running)
    {
      currentUser := null;
      accessToken := None;
      cwd := null;
    }

    /** The switch on the command name. */
    method Dispatch(op: Op, args: string, rootString: string, reply: string, now: int, failing: set<string>)
      requires Valid() && LoggedIn()
      modifies this, cwd, storageService, fs, userService
      ensures Valid()
      ensures op == Unrecognised ==>
                && unchanged(this) && unchanged(cwd)
                && storageService.objects == old(storageService.objects) && fs.entries == old(fs.entries)
                && userService.users == old(userService.users)
                && userService.activeSessions == old(userService.activeSessions)
      ensures op == ExitOp ==> !running && (old(running) ==> currentUser == null)
    {
      match op
      case LogoutOp => Logout();
      case DeleteAccountOp => DeleteAccount(reply);
      case MkdirOp => Mkdir(args, now);
      case CdOp => Cd(args, rootString);
      case LsOp => var _ := Ls(args, rootString);
      case PushOp => Push(reply, now, failing);
      case PullOp => Pull(reply, now);
      case RmOp => Rm(args, rootString, reply);
      case ChangeRootOp => ChangeRoot(args);
      case ExitOp => Shutdown();
      case _ =>
    }
  }
}
