/** What pushToS3 and pullFromS3 do, as functions of the disk and the bucket.  A push uploads every
    entry the walk of the user's local folder yields: a regular file under its relative path, a
    directory other than the folder itself as an empty object whose key ends with '/'.  A pull visits
    the user's keys in ascending order: a directory key replaces the local directory by an empty one,
    a file key copies the object when the local file is missing or differs in size or modification
    time; a failure on a file key ends the pull. */
module S3Sync {
  import opened Text
  import opened LocalPaths
  import opened LocalFs
  import opened WorkingDirectory
  import opened LocalFiles
  import opened S3Listing

  /** The user's local folder: Paths.get(rootDirectory, "dropbox-clone", username). */
  function LocalRoot(rootDirectory: string, username: string): Path
  {
    Parse(PathsGet([rootDirectory, AppFolder, username]))
  }

  /** The local path pullFromS3 uses for a key's relative path:
      Paths.get(rootDirectory, "dropbox-clone", username, relativePath). */
  function PullLocal(rootDirectory: string, username: string, relativePath: string): Path
  {
    Parse(PathsGet([rootDirectory, AppFolder, username, relativePath]))
  }

  // ---------------------------------------------------------------- push

  /** The key pushToS3 gives the walked entry `c` below the folder `base`: the user id, '/', the
      relative names joined with '/', and a trailing '/' for a directory. */
  function PushKey(userId: string, base: seq<string>, c: seq<string>, node: Node): string
    requires base <= c
  {
    UserKey(userId, Join(c[|base|..], '/')) + (if node.Dir? then "/" else "")
  }

  /** `c` is uploaded by a push of `base`: it is in the walk and is a file or a directory other than `base`. */
  predicate Uploaded(e: Entries, base: seq<string>, c: seq<string>)
  {
    c in e && base <= c && (e[c].File? || c != base)
  }

  /** The object uploaded for an entry: a file's content, or nothing for a directory. */
  function PushObject(node: Node, now: int): S3Object
  {
    S3Object(now, if node.File? then node.content else [])
  }

  /** The relative names a key below `userId/` stands for. */
  function KeyNames(userId: string, key: string): seq<string>
  {
    if |userId| < |key| then NamesOf(key[|userId| + 1..]) else []
  }

  /** The names of joined proper names, with or without a trailing '/', are those names. */
  lemma JoinedNamesTrailing(rel: seq<string>, slash: bool)
    requires AllElements(rel)
    ensures NamesOf(Join(rel, '/') + (if slash then "/" else "")) == rel
  {
    var j := Join(rel, '/');
    NamesOfJoinElements(rel, '/');
    if slash {
      assert j + "/" == j + ['/'] + "";
      SplitConcat(j, '/', "", Separators);
      assert Split("", Separators) == [""];
      NonEmptyConcat(Split(j, Separators), [""]);
      assert NonEmpty([""]) == [] + NonEmpty([]);
    } else {
      assert j + "" == j;
    }
  }

  /** A push key names the entry's location relative to the folder. */
  lemma PushKeyNames(userId: string, base: seq<string>, c: seq<string>, node: Node)
    requires base <= c && AllValid(c)
    ensures KeyNames(userId, PushKey(userId, base, c, node)) == c[|base|..]
  {
    var rel := c[|base|..];
    var tail := Join(rel, '/') + (if node.Dir? then "/" else "");
    var key := PushKey(userId, base, c, node);
    assert key == userId + "/" + tail;
    assert key[|userId| + 1..] == tail;
    assert AllElements(rel);
    JoinedNamesTrailing(rel, node.Dir?);
  }

  /** Two distinct uploaded entries get distinct keys. */
  lemma PushKeyDistinct(e: Entries, base: seq<string>, userId: string, c1: seq<string>, c2: seq<string>)
    requires WellFormed(e) && Uploaded(e, base, c1) && Uploaded(e, base, c2) && c1 != c2
    ensures PushKey(userId, base, c1, e[c1]) != PushKey(userId, base, c2, e[c2])
  {
    PushKeyInjective(e, base, userId);
  }

  /** Distinct uploaded entries get distinct keys. */
  lemma PushKeyInjective(e: Entries, base: seq<string>, userId: string)
    requires WellFormed(e)
    ensures forall c1, c2 ::
              (Uploaded(e, base, c1) && Uploaded(e, base, c2)
               && PushKey(userId, base, c1, e[c1]) == PushKey(userId, base, c2, e[c2])) ==> c1 == c2
  {
    forall c1, c2 | Uploaded(e, base, c1) && Uploaded(e, base, c2)
                    && PushKey(userId, base, c1, e[c1]) == PushKey(userId, base, c2, e[c2])
      ensures c1 == c2
    {
      PushKeyNames(userId, base, c1, e[c1]);
      PushKeyNames(userId, base, c2, e[c2]);
      assert c1 == base + c1[|base|..] && c2 == base + c2[|base|..];
    }
  }

  /** The objects a push of `base` puts for the walked entries in `done`; puts of keys in `failing`
      are rejected by the store and skipped. */
  function Pushed(e: Entries, base: seq<string>, userId: string, now: int, failing: set<string>,
                  done: set<seq<string>>): Bucket
    requires WellFormed(e)
  {
    PushKeyInjective(e, base, userId);
    map c | c in done && Uploaded(e, base, c) && PushKey(userId, base, c, e[c]) !in failing
      :: PushKey(userId, base, c, e[c]) := PushObject(e[c], now)
  }

  /** The entries Files.walk yields for `base`: `base` and everything below it. */
  function WalkSet(e: Entries, base: seq<string>): set<seq<string>>
  {
    set c | c in e && base <= c
  }

  /** What a whole push adds to the bucket: nothing when the folder does not exist. */
  function PushResult(e: Entries, rootDirectory: string, username: string, userId: string, now: int,
                      failing: set<string>): Bucket
    requires WellFormed(e)
  {
    var base := Locate(LocalRoot(rootDirectory, username));
    if base in e then Pushed(e, base, userId, now, failing, WalkSet(e, base)) else map[]
  }

  /** A push puts exactly one object per uploaded entry whose put is not rejected: a file's content
      under its relative key, and an empty object under a directory's key ending in '/'. */
  lemma PushedMeans(e: Entries, base: seq<string>, userId: string, now: int, failing: set<string>,
                    done: set<seq<string>>, k: string)
    requires WellFormed(e)
    ensures k in Pushed(e, base, userId, now, failing, done) <==>
            exists c :: c in done && Uploaded(e, base, c) && PushKey(userId, base, c, e[c]) == k && k !in failing
    ensures forall c :: c in done && Uploaded(e, base, c) && PushKey(userId, base, c, e[c]) == k && k !in failing ==>
            Pushed(e, base, userId, now, failing, done)[k] == PushObject(e[c], now)
  {
    PushKeyInjective(e, base, userId);
  }

  /** The put for one walked entry `c`, applied to the bucket `m`. */
  function PushOne(m: Bucket, e: Entries, base: seq<string>, userId: string, now: int, failing: set<string>,
                   c: seq<string>): Bucket
    requires c in e && base <= c
  {
    if Uploaded(e, base, c) && PushKey(userId, base, c, e[c]) !in failing
    then m[PushKey(userId, base, c, e[c]) := PushObject(e[c], now)]
    else m
  }

  /** Visiting one more walked entry adds at most its own key. */
  lemma PushedStep(e: Entries, base: seq<string>, userId: string, now: int, failing: set<string>,
                   done: set<seq<string>>, c: seq<string>)
    requires WellFormed(e) && c in e && base <= c && c !in done
    ensures Pushed(e, base, userId, now, failing, done + {c}) ==
            PushOne(Pushed(e, base, userId, now, failing, done), e, base, userId, now, failing, c)
  {
    PushedStepKept(e, base, userId, now, failing, done, c);
    PushedStepAdded(e, base, userId, now, failing, done, c);
    assert Pushed(e, base, userId, now, failing, done + {c}) ==
           PushOne(Pushed(e, base, userId, now, failing, done), e, base, userId, now, failing, c);
  }

  /** Every object pushed for `done + {c}` is in the bucket after the put for `c`, unchanged. */
  lemma PushedStepKept(e: Entries, base: seq<string>, userId: string, now: int, failing: set<string>,
                       done: set<seq<string>>, c: seq<string>)
    requires WellFormed(e) && c in e && base <= c && c !in done
    ensures var m' := Pushed(e, base, userId, now, failing, done + {c});
            var r := PushOne(Pushed(e, base, userId, now, failing, done), e, base, userId, now, failing, c);
            forall k :: k in m' ==> k in r && m'[k] == r[k]
  {
    var m' := Pushed(e, base, userId, now, failing, done + {c});
    forall k | k in m'
      ensures var r := PushOne(Pushed(e, base, userId, now, failing, done), e, base, userId, now, failing, c);
              k in r && m'[k] == r[k]
    {
      PushedMeans(e, base, userId, now, failing, done + {c}, k);
      var c' :| c' in done + {c} && Uploaded(e, base, c') && PushKey(userId, base, c', e[c']) == k && k !in failing;
      if c' != c {
        PushedMeans(e, base, userId, now, failing, done, k);
        if Uploaded(e, base, c) {
          PushKeyDistinct(e, base, userId, c', c);
        }
      }
    }
  }

  /** Every key in the bucket after the put for `c` is pushed for `done + {c}`. */
  lemma PushedStepAdded(e: Entries, base: seq<string>, userId: string, now: int, failing: set<string>,
                        done: set<seq<string>>, c: seq<string>)
    requires WellFormed(e) && c in e && base <= c && c !in done
    ensures var r := PushOne(Pushed(e, base, userId, now, failing, done), e, base, userId, now, failing, c);
            forall k :: k in r ==> k in Pushed(e, base, userId, now, failing, done + {c})
  {
    var key := PushKey(userId, base, c, e[c]);
    var r := PushOne(Pushed(e, base, userId, now, failing, done), e, base, userId, now, failing, c);
    forall k | k in r ensures k in Pushed(e, base, userId, now, failing, done + {c}) {
      PushedMeans(e, base, userId, now, failing, done + {c}, k);
      if k != key || !(Uploaded(e, base, c) && key !in failing) {
        PushedMeans(e, base, userId, now, failing, done, k);
      }
    }
  }

  /** A push key's relative path, pulled back, lands on the entry it was pushed from. */
  lemma PushPullRoundTrip(rootDirectory: string, username: string, userId: string, c: seq<string>, node: Node)
    requires AllValid(c) && Locate(LocalRoot(rootDirectory, username)) <= c
    ensures |UserKey(userId, "")| <= |PushKey(userId, Locate(LocalRoot(rootDirectory, username)), c, node)|
    ensures Locate(PullLocal(rootDirectory, username,
                             PushKey(userId, Locate(LocalRoot(rootDirectory, username)), c, node)[|UserKey(userId, "")|..])) == c
  {
    var base := Locate(LocalRoot(rootDirectory, username));
    var rel := c[|base|..];
    assert c == base + rel;
    assert AllValid(rel);
    PushPullBelow(rootDirectory, username, userId, rel, node);
  }

  /** The round trip for the entry at `rel` below the user's folder. */
  lemma PushPullBelow(rootDirectory: string, username: string, userId: string, rel: seq<string>, node: Node)
    requires AllValid(rel)
    ensures var base := Locate(LocalRoot(rootDirectory, username));
            var key := PushKey(userId, base, base + rel, node);
            |UserKey(userId, "")| <= |key| &&
            Locate(PullLocal(rootDirectory, username, key[|UserKey(userId, "")|..])) == base + rel
  {
    var base := Locate(LocalRoot(rootDirectory, username));
    var tail := Join(rel, '/') + (if node.Dir? then "/" else "");
    assert (base + rel)[|base|..] == rel;
    PushKeyTail(userId, base, base + rel, node);
    assert AllElements(rel);
    JoinedNamesTrailing(rel, node.Dir?);
    LocatePullLocal(rootDirectory, username, tail, rel);
  }

  /** Below the user's prefix, a push key is the relative path with a '/' after a directory. */
  lemma PushKeyTail(userId: string, base: seq<string>, c: seq<string>, node: Node)
    requires base <= c
    ensures var key := PushKey(userId, base, c, node);
            |UserKey(userId, "")| <= |key| &&
            key[|UserKey(userId, "")|..] == Join(c[|base|..], '/') + (if node.Dir? then "/" else "")
  {
  }

  /** Pulling a relative path that names only proper names lands below the user's folder. */
  lemma LocatePullLocal(rootDirectory: string, username: string, tail: string, rel: seq<string>)
    requires AllValid(rel) && NamesOf(tail) == rel
    ensures Locate(PullLocal(rootDirectory, username, tail)) == Locate(LocalRoot(rootDirectory, username)) + rel
  {
    var parts := [rootDirectory, AppFolder, username];
    assert parts + [tail] == [rootDirectory, AppFolder, username, tail];
    LocateAppend(parts, tail, rel);
  }

  /** A last part for Paths.get that names only proper names appends them to the located path. */
  lemma LocateAppend(parts: seq<string>, last: string, rel: seq<string>)
    requires AllValid(rel) && NamesOf(last) == rel
    ensures Locate(Parse(PathsGet(parts + [last]))) == Locate(Parse(PathsGet(parts))) + rel
  {
    PathsGetAppend(parts, last);
    NormNamesAppendValid(true, Parse(PathsGet(parts)).names, rel);
  }

  /** One more part for Paths.get appends its names. */
  lemma PathsGetAppend(parts: seq<string>, last: string)
    ensures NamesOf(PathsGet(parts + [last])) == NamesOf(PathsGet(parts)) + NamesOf(last)
  {
    PathsGetNames(parts + [last]);
    PathsGetNames(parts);
    NamesOfAllConcat(parts, [last]);
    NamesOfAllSingle(last);
  }

  // ---------------------------------------------------------------- pull

  /** The disk after some of a pull, and whether an exception has ended it. */
  datatype Outcome = Outcome(entries: Entries, aborted: bool)

  /** The local file is copied again: it is missing (checked by the caller), a directory, or differs
      in size or in last-modified time. */
  predicate Differs(node: Node, obj: S3Object)
  {
    node.Dir? || |node.content| != |obj.content| || node.mtime != obj.lastModified
  }

  /** A directory key at location `q`: whatever is there is deleted, children first, and the
      directory is created again; a failure to create it is only logged. */
  function PullDir(e: Entries, q: seq<string>): Entries
  {
    var e1 := if q in e then RemoveSubtree(e, q) else e;
    if BlockedByFile(e1, q) then e1 else e1 + NewDirs(e1, q)
  }

  /** A file key at location `q` with parent location `pq`: the parents are created, then the object
      is copied unless an up-to-date file is there; a failure to create the parents or to copy ends
      the pull. */
  function PullFile(e: Entries, q: seq<string>, pq: seq<string>, obj: S3Object, now: int): Outcome
  {
    if BlockedByFile(e, pq) then Outcome(e, true)
    else
      var e1 := e + NewDirs(e, pq);
      if q in e1 && !Differs(e1[q], obj) then Outcome(e1, false)
      else if CanCopyReplace(e1, q) then Outcome(e1[q := File(now, obj.content)], false)
      else Outcome(e1, true)
  }

  /** One key of a pull, at the local path `local`: a key ending in '/' is a directory; for any other
      key a null parent path ends the pull. */
  function PullStep(e: Entries, key: string, local: Path, obj: S3Object, now: int): Outcome
    requires AllElements(local.names)
  {
    if |key| > 0 && key[|key| - 1] == '/' then Outcome(PullDir(e, Locate(local)), false)
    else if NoParent(local) then Outcome(e, true)
    else PullFile(e, Locate(local), Locate(Parent(local)), obj, now)
  }

  /** The step for the key `key` of the user's listing (`prefix` is "userId/"). */
  function PullKeyStep(e: Entries, b: Bucket, prefix: string, rootDirectory: string, username: string,
                       now: int, key: string): Outcome
  {
    if key in b && |prefix| <= |key|
    then PullStep(e, key, PullLocal(rootDirectory, username, key[|prefix|..]), b[key], now)
    else Outcome(e, false)
  }

  /** The keys `keys` pulled in order, stopping at the first step that ends the pull. */
  function PullRun(e: Entries, b: Bucket, prefix: string, rootDirectory: string, username: string,
                   now: int, keys: seq<string>): Outcome
  {
    if keys == [] then Outcome(e, false)
    else
      var o := PullRun(e, b, prefix, rootDirectory, username, now, keys[..|keys| - 1]);
      if o.aborted then o else PullKeyStep(o.entries, b, prefix, rootDirectory, username, now, keys[|keys| - 1])
  }

  /** Pulling one more key continues the run unless it has ended. */
  lemma PullRunSnoc(e: Entries, b: Bucket, prefix: string, rootDirectory: string, username: string,
                    now: int, keys: seq<string>, key: string)
    ensures PullRun(e, b, prefix, rootDirectory, username, now, keys + [key]) ==
            var o := PullRun(e, b, prefix, rootDirectory, username, now, keys);
            if o.aborted then o else PullKeyStep(o.entries, b, prefix, rootDirectory, username, now, key)
  {
    assert (keys + [key])[..|keys|] == keys;
  }

  /** Once a pull has ended, later keys change nothing. */
  lemma {:induction false} PullRunAborted(e: Entries, b: Bucket, prefix: string, rootDirectory: string,
                                          username: string, now: int, keys: seq<string>, more: seq<string>)
    requires PullRun(e, b, prefix, rootDirectory, username, now, keys).aborted
    ensures PullRun(e, b, prefix, rootDirectory, username, now, keys + more)
            == PullRun(e, b, prefix, rootDirectory, username, now, keys)
    decreases |more|
  {
    if more != [] {
      var init := more[..|more| - 1];
      PullRunAborted(e, b, prefix, rootDirectory, username, now, keys, init);
      assert keys + more == (keys + init) + [more[|more| - 1]];
      PullRunSnoc(e, b, prefix, rootDirectory, username, now, keys + init, more[|more| - 1]);
    } else {
      assert keys + more == keys;
    }
  }

  /** In a well-formed disk every proper ancestor of an entry is a directory. */
  lemma {:induction false} AncestorsAreDirs(e: Entries, q: seq<string>)
    requires WellFormed(e) && q in e
    ensures forall k :: 0 <= k < |q| ==> IsDir(e, q[..k])
    decreases |q|
  {
    if q != [] {
      var p := q[..|q| - 1];
      AncestorsAreDirs(e, p);
      forall k | 0 <= k < |q| ensures IsDir(e, q[..k]) {
        if k < |p| {
          assert q[..k] == p[..k];
        } else {
          assert q[..k] == p;
        }
      }
    }
  }

  /** A file key whose local file is present with the object's size and time changes nothing. */
  lemma PullKeepsUpToDate(e: Entries, q: seq<string>, obj: S3Object, now: int)
    requires WellFormed(e) && q != []
    requires q in e && e[q].File? && !Differs(e[q], obj)
    ensures PullFile(e, q, q[..|q| - 1], obj, now) == Outcome(e, false)
  {
    var pq := q[..|q| - 1];
    AncestorsAreDirs(e, q);
    assert !BlockedByFile(e, pq) by {
      forall k | 0 <= k <= |pq| ensures !(pq[..k] in e && e[pq[..k]].File?) {
        assert pq[..k] == q[..k];
      }
    }
    assert NewDirs(e, pq) == map[] by {
      forall d | d in Prefixes(pq) ensures d in e {
        var k :| 0 <= k <= |pq| && d == pq[..k];
        assert d == q[..k];
      }
    }
    assert e + NewDirs(e, pq) == e;
  }

  /** A file key whose local file is missing or differs is copied, with the object's content and the
      current time, when no regular file blocks the parent and no non-empty directory sits at the path. */
  lemma PullCopiesChanged(e: Entries, q: seq<string>, obj: S3Object, now: int)
    requires WellFormed(e) && AllValid(q) && q != []
    requires !BlockedByFile(e, q[..|q| - 1])
    requires !(IsDir(e, q) && HasChildren(e, q))
    requires q !in e || Differs(e[q], obj)
    ensures var r := PullFile(e, q, q[..|q| - 1], obj, now);
            !r.aborted && q in r.entries && r.entries[q] == File(now, obj.content)
  {
    var pq := q[..|q| - 1];
    CreateDirsWellFormed(e, pq);
    var e1 := e + NewDirs(e, pq);
    assert q !in NewDirs(e, pq);
    assert CanCopyReplace(e1, q);
  }

  /** A directory key leaves an empty directory at the location. */
  lemma PullDirEmpty(e: Entries, q: seq<string>)
    requires WellFormed(e)
    ensures q in PullDir(e, q) ==> PullDir(e, q)[q] == Dir && !HasChildren(PullDir(e, q), q)
  {
  }

  /** The location is missing after a directory key only when a regular file above it blocks it. */
  lemma PullDirBlocked(e: Entries, q: seq<string>)
    requires WellFormed(e)
    ensures q !in PullDir(e, q) ==> exists k :: 0 <= k < |q| && q[..k] in e && e[q[..k]].File?
  {
    var e1 := if q in e then RemoveSubtree(e, q) else e;
    if !BlockedByFile(e1, q) {
      assert q[..|q|] == q;
      assert q in Prefixes(q);
    }
    if q !in PullDir(e, q) {
      assert q !in e1;
      var k :| 0 <= k <= |q| && q[..k] in e1 && e1[q[..k]].File?;
      assert q[..|q|] == q;
      assert k < |q|;
      assert q[..k] in e;
    }
  }

  /** A directory key keeps every entry outside its location. */
  lemma PullDirKeepsOthers(e: Entries, q: seq<string>)
    ensures forall c :: c in e && !(q <= c) ==> c in PullDir(e, q) && PullDir(e, q)[c] == e[c]
  {
  }
}
