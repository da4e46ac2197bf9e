/** The cloud storage service over one bucket: folders as empty objects whose keys end with '/',
    listing one level of a path, pushing the user's local folder, pulling it back, deleting a
    directory page by page, and single-file upload, delete and download.  The clock and rejected
    puts are parameters. */
module CloudStorage {
  import opened Wrappers
  import opened Text
  import opened KeyOrder
  import opened LocalPaths
  import opened LocalFs
  import opened LocalFiles
  import opened S3Listing
  import opened S3Sync

  /** The key createFolder puts: fullPath + "/" + folderName + "/". */
  function FolderKey(fullPath: string, folderName: string): string
  {
    fullPath + "/" + folderName + "/"
  }

  /** Some object key starts with `p`: what isValidS3Directory(p) answers. */
  predicate InCloud(b: Bucket, p: string)
  {
    exists k :: k in b && p <= k
  }

  /** The bucket after deleteDirectory(p): every key with the string prefix `p` is gone. */
  function DeleteUnder(b: Bucket, p: string): Bucket
  {
    map k | k in b && !(p <= k) :: b[k]
  }

  class S3StorageService {
    var objects: Bucket

    constructor (objects: Bucket)
      ensures this.objects == objects
    {
      this.objects := objects;
    }

    /** createFolder: puts an empty object under the folder key unless some key already starts with it. */
    method CreateFolder(fullPath: string, folderName: string, now: int)
      modifies this
      ensures var key := FolderKey(fullPath, folderName);
              objects == if Under(old(objects), key) != {} then old(objects) else old(objects)[key := S3Object(now, [])]
      ensures Under(objects, FolderKey(fullPath, folderName)) != {}
    {
      var key := FolderKey(fullPath, folderName);
      var page := ListPage(objects, key, None, 1);
      assert Pending(objects, key, None) == Under(objects, key);
      if |page.keys| > 0 {
        return;
      }
      objects := objects[key := S3Object(now, [])];
      assert key in Under(objects, key);
    }

    /** listFiles: one page of the listing of ListPrefix(fullPath, path) delimited by '/'; the names of
        the objects at that level (without the prefix, the empty one dropped), then the common
        prefixes in full.  Every listed name stands for a key, and when the level fits in one page
        every key under the prefix is listed, as its name or its common prefix. */
    method ListFiles(fullPath: string, path: string) returns (files: seq<string>)
      ensures var prefix := ListPrefix(fullPath, path);
              forall n :: n in files ==>
                (n != "" && '/' !in n && prefix + n in objects)
                || (IsCommonPrefix(prefix, n) && exists k :: k in objects && n <= k)
      ensures var prefix := ListPrefix(fullPath, path);
              |ListEntries(objects, prefix)| <= MaxKeys ==>
                forall k :: k in objects && prefix <= k && k != prefix ==>
                  (if '/' in k[|prefix|..] then Rolled(prefix, k) else k[|prefix|..]) in files
    {
      var prefix := ListPrefix(fullPath, path);
      var all := ListEntries(objects, prefix);
      var taken, rest := TakeSorted(all, MaxKeys);
      files := ObjectNames(prefix, taken) + CommonPrefixes(prefix, taken);
      SortedKeysFacts(all);
      forall n | n in files
        ensures (n != "" && '/' !in n && prefix + n in objects)
                || (IsCommonPrefix(prefix, n) && exists k :: k in objects && n <= k)
      {
        ObjectNamesMembership(prefix, taken, n);
        CommonPrefixesMembership(prefix, taken, n);
        if n in ObjectNames(prefix, taken) {
          assert prefix + n in SortedKeys(all);
          ListEntrySource(objects, prefix, prefix + n);
          assert (prefix + n)[|prefix|..] == n;
        } else {
          assert n in SortedKeys(all);
          ListEntrySource(objects, prefix, n);
        }
      }
      if |all| <= MaxKeys {
        SortedKeysFacts(rest);
        assert SortedKeys(rest) == [];
        assert taken == SortedKeys(all);
        forall k | k in objects && prefix <= k && k != prefix
          ensures (if '/' in k[|prefix|..] then Rolled(prefix, k) else k[|prefix|..]) in files
        {
          ListEntryOfKey(objects, prefix, k);
          var tail := k[|prefix|..];
          if '/' in tail {
            CommonPrefixesMembership(prefix, taken, Rolled(prefix, k));
          } else {
            assert prefix + tail == k;
            ObjectNamesMembership(prefix, taken, tail);
          }
        }
      }
    }

    /** isValidS3Directory: some key starts with the path (a raw string prefix, so "u/foo" is valid
        when only "u/foobar/x" exists). */
    method IsValidS3Directory(fullPath: string) returns (r: bool)
      ensures r <==> InCloud(objects, fullPath)
    {
      var page := ListPage(objects, fullPath, None, 1);
      UnderNonEmpty(objects, fullPath);
      r := |page.keys| > 0;
    }

    /** deleteDirectory: deletes, page by page, every key that starts with the path (a raw string
        prefix, so deleting "u/foo" also deletes "u/foobar/x"). */
    method DeleteDirectory(fullPath: string)
      modifies this
      ensures objects == DeleteUnder(old(objects), fullPath)
    {
      ghost var b0 := objects;
      var token: Option<string> := None;
      var more := true;
      DoneAtStart(b0, fullPath);
      assert objects == Without(b0, Done(b0, fullPath, token));
      while more
        invariant more ==> objects == Without(b0, Done(b0, fullPath, token))
        invariant !more ==> objects == Without(b0, Under(b0, fullPath))
        decreases more, |Pending(b0, fullPath, token)|
      {
        ghost var before := objects;
        var page := ListPage(objects, fullPath, token, MaxKeys);
        var i := 0;
        while i < |page.keys|
          invariant 0 <= i <= |page.keys|
          invariant objects == Without(before, Elems(page.keys[..i]))
        {
          WithoutNext(before, page.keys, i);
          objects := objects - {page.keys[i]};
          i := i + 1;
        }
        assert page.keys[..|page.keys|] == page.keys;
        assert Without(Without(b0, Done(b0, fullPath, token)), Elems(page.keys))
            == Without(b0, Done(b0, fullPath, token) + Elems(page.keys));
        DeletePageDone(b0, fullPath, token, page);
        if page.truncated {
          token := page.next;
        } else {
          more := false;
        }
      }
      assert Without(b0, Under(b0, fullPath)) == DeleteUnder(b0, fullPath);
    }

    /** uploadFile: puts the local file under fullPath + "/" + remotePath; a missing file or a
        directory makes the put fail, which is only logged. */
    method UploadFile(fullPath: string, localFilePath: Path, remotePath: string, fs: FileSystem, now: int)
      requires AllElements(localFilePath.names)
      modifies this
      ensures var q := Locate(localFilePath);
              objects == if q in fs.entries && fs.entries[q].File?
                         then old(objects)[fullPath + "/" + remotePath := S3Object(now, fs.entries[q].content)]
                         else old(objects)
    {
      var q := Locate(localFilePath);
      if fs.Exists(q) && fs.entries[q].File? {
        objects := objects[fullPath + "/" + remotePath := S3Object(now, fs.entries[q].content)];
      }
    }

    /** deleteFile: removes the key userId + "/" + filePath (deleting a missing key is no error). */
    method DeleteFile(userId: string, filePath: string)
      modifies this
      ensures objects == old(objects) - {UserKey(userId, filePath)}
    {
      objects := objects - {UserKey(userId, filePath)};
    }

    /** downloadFile: the object's content, or an empty array when the key is missing. */
    method DownloadFile(userId: string, filePath: string) returns (bytes: seq<byte>)
      ensures UserKey(userId, filePath) in objects ==> bytes == objects[UserKey(userId, filePath)].content
      ensures UserKey(userId, filePath) !in objects ==> bytes == []
    {
      var key := UserKey(userId, filePath);
      if key in objects {
        bytes := objects[key].content;
      } else {
        bytes := [];
      }
    }

    /** pushToS3: walks the user's local folder and puts every file and every directory below it;
        a missing folder makes the walk fail, which is only logged. */
    method PushToS3(userId: string, username: string, rootDirectory: string, fs: FileSystem, now: int,
                    failing: set<string>)
      requires fs.Valid()
      modifies this
      ensures objects == old(objects) + PushResult(fs.entries, rootDirectory, username, userId, now, failing)
    {
      var base := Locate(LocalRoot(rootDirectory, username));
      if fs.Exists(base) {
        PushWalk(userId, base, fs, now, failing);
      } else {
        assert old(objects) + map[] == objects;
      }
    }

    /** The walk of an existing folder `base`: one put per walked entry, in any order. */
    method PushWalk(userId: string, base: seq<string>, fs: FileSystem, now: int, failing: set<string>)
      requires fs.Valid()
      modifies this
      ensures objects == old(objects) + Pushed(fs.entries, base, userId, now, failing, WalkSet(fs.entries, base))
    {
      var todo := WalkSet(fs.entries, base);
      ghost var walk := todo;
      ghost var done: set<seq<string>> := {};
      assert objects == old(objects) + Pushed(fs.entries, base, userId, now, failing, done);
      while todo != {}
        invariant walk == WalkSet(fs.entries, base)
        invariant todo <= walk && done == walk - todo
        invariant objects == old(objects) + Pushed(fs.entries, base, userId, now, failing, done)
        decreases |todo|
      {
        var c :| c in todo;
        ghost var before := objects;
        PushEntry(userId, base, c, fs, now, failing);
        PushedStep(fs.entries, base, userId, now, failing, done, c);
        MergeOne(old(objects), Pushed(fs.entries, base, userId, now, failing, done), fs.entries, base, userId, now, failing, c);
        assert objects == old(objects) + Pushed(fs.entries, base, userId, now, failing, done + {c});
        todo := todo - {c};
        done := done + {c};
      }
      assert done == walk;
    }

    /** The put for one walked entry: an empty object under key + "/" for a directory other than the
        folder, the file under its key otherwise; a rejected put is only logged. */
    method PushEntry(userId: string, base: seq<string>, c: seq<string>, fs: FileSystem, now: int, failing: set<string>)
      requires fs.Valid() && c in fs.entries && base <= c
      modifies this
      ensures objects == PushOne(old(objects), fs.entries, base, userId, now, failing, c)
    {
      var node := fs.entries[c];
      var key := UserKey(userId, Replace(Join(c[|base|..], '/'), '\\', '/'));
      ghost var k := PushKey(userId, base, c, node);
      PushKeyPlain(fs.entries, base, userId, c);
      if node.Dir? {
        assert k == key + "/";
        if c != base && key + "/" !in failing {
          objects := objects[key + "/" := S3Object(now, [])];
        }
      } else {
        assert k == key;
        if key !in failing {
          objects := objects[key := S3Object(now, node.content)];
        }
      }
    }

    /** The steps of a pull for one key: getObject, then the directory or the file case. */
    method PullKey(fs: FileSystem, key: string, prefix: string, rootDirectory: string, username: string, now: int)
      returns (aborted: bool)
      requires fs.Valid()
      modifies fs
      ensures fs.Valid()
      ensures Outcome(fs.entries, aborted) == PullKeyStep(old(fs.entries), objects, prefix, rootDirectory, username, now, key)
    {
      if !(key in objects && |prefix| <= |key|) {
        return false;
      }
      var obj := objects[key];
      var local := PullLocal(rootDirectory, username, key[|prefix|..]);
      var q := Locate(local);
      if |key| > 0 && key[|key| - 1] == '/' {
        if fs.Exists(q) {
          fs.DeleteTree(q);
        }
        var _ := fs.CreateDirectories(q);
        return false;
      }
      if NoParent(local) {
        return true;
      }
      var ok := fs.CreateDirectories(Locate(Parent(local)));
      if !ok {
        return true;
      }
      if !fs.Exists(q) || Differs(fs.entries[q], obj) {
        ok := fs.CopyReplace(q, obj.content, now);
        return !ok;
      }
      return false;
    }

    /** The keys of one page pulled in order, until one ends the pull; `count` keys were visited. */
    method PullPage(fs: FileSystem, keys: seq<string>, prefix: string, rootDirectory: string, username: string,
                    now: int, ghost e0: Entries, ghost start: seq<string>)
      returns (aborted: bool, count: nat)
      requires fs.Valid()
      requires Outcome(fs.entries, false) == PullRun(e0, objects, prefix, rootDirectory, username, now, start)
      modifies fs
      ensures fs.Valid() && count <= |keys|
      ensures Outcome(fs.entries, aborted) == PullRun(e0, objects, prefix, rootDirectory, username, now, start + keys[..count])
      ensures !aborted ==> count == |keys|
    {
      aborted, count := false, 0;
      assert start + keys[..0] == start;
      while count < |keys| && !aborted
        invariant 0 <= count <= |keys|
        invariant fs.Valid()
        invariant Outcome(fs.entries, aborted) == PullRun(e0, objects, prefix, rootDirectory, username, now, start + keys[..count])
      {
        PullRunNext(e0, objects, prefix, rootDirectory, username, now, start, keys, count);
        aborted := PullKey(fs, keys[count], prefix, rootDirectory, username, now);
        count := count + 1;
      }
    }

    /** pullFromS3: visits the keys under "userId/" page by page, in ascending order, and applies each
        to the disk; an exception on a key ends the whole pull. */
    method PullFromS3(userId: string, username: string, rootDirectory: string, fs: FileSystem, now: int)
      requires fs.Valid()
      modifies fs
      ensures fs.Valid()
      ensures fs.entries == PullRun(old(fs.entries), objects, UserKey(userId, ""), rootDirectory, username, now,
                                    Listing(objects, UserKey(userId, ""), None)).entries
    {
      var prefix := UserKey(userId, "");
      ghost var e0 := fs.entries;
      ghost var full := Listing(objects, prefix, None);
      ghost var processed: seq<string> := [];
      var token: Option<string> := None;
      var more := true;
      var aborted := false;
      while more
        invariant fs.Valid()
        invariant Outcome(fs.entries, aborted) == PullRun(e0, objects, prefix, rootDirectory, username, now, processed)
        invariant more ==> !aborted && processed + Listing(objects, prefix, token) == full
        invariant !more ==> fs.entries == PullRun(e0, objects, prefix, rootDirectory, username, now, full).entries
        decreases more, |Pending(objects, prefix, token)|
      {
        var page := ListPage(objects, prefix, token, MaxKeys);
        ghost var start := processed;
        var i;
        aborted, i := PullPage(fs, page.keys, prefix, rootDirectory, username, now, e0, start);
        processed := start + page.keys[..i];
        ghost var later := if page.truncated then Listing(objects, prefix, page.next) else [];
        assert page.keys + later == Listing(objects, prefix, token);
        assert start + page.keys + later == start + (page.keys + later);
        if aborted {
          SplitAt(start, page.keys, i, later);
          PullRunAborted(e0, objects, prefix, rootDirectory, username, now, processed, page.keys[i..] + later);
          more := false;
        } else {
          assert page.keys[..i] == page.keys;
          if page.truncated {
            SortedKeysFacts(Pending(objects, prefix, token));
            SortedKeysFacts(Pending(objects, prefix, page.next));
            token := page.next;
          } else {
            assert processed == full;
            more := false;
          }
        }
      }
    }
  }

  /** The key pushToS3 builds, with '\\' replaced by '/', is the push key: names hold no separator. */
  lemma PushKeyPlain(e: Entries, base: seq<string>, userId: string, c: seq<string>)
    requires WellFormed(e) && c in e && base <= c
    ensures UserKey(userId, Replace(Join(c[|base|..], '/'), '\\', '/')) + (if e[c].Dir? then "/" else "")
            == PushKey(userId, base, c, e[c])
  {
    var rel := c[|base|..];
    assert AllValid(c);
    forall i | 0 <= i < |rel| ensures '\\' !in rel[i] {
      assert rel[i] == c[|base| + i];
    }
    JoinAvoids(rel, '/', '\\');
    assert Replace(Join(rel, '/'), '\\', '/') == Join(rel, '/');
  }

  /** Inside a page, a run that has not ended continues with the page's next key. */
  lemma PullRunNext(e: Entries, b: Bucket, prefix: string, rootDirectory: string, username: string, now: int,
                    start: seq<string>, keys: seq<string>, count: nat)
    requires count < |keys|
    requires !PullRun(e, b, prefix, rootDirectory, username, now, start + keys[..count]).aborted
    ensures PullRun(e, b, prefix, rootDirectory, username, now, start + keys[..count + 1])
            == PullKeyStep(PullRun(e, b, prefix, rootDirectory, username, now, start + keys[..count]).entries,
                           b, prefix, rootDirectory, username, now, keys[count])
  {
    assert start + keys[..count + 1] == (start + keys[..count]) + [keys[count]];
    PullRunSnoc(e, b, prefix, rootDirectory, username, now, start + keys[..count], keys[count]);
  }

  /** One put on the added map is one put on the union. */
  lemma MergeOne(a: Bucket, m: Bucket, e: Entries, base: seq<string>, userId: string, now: int,
                 failing: set<string>, c: seq<string>)
    requires c in e && base <= c
    ensures a + PushOne(m, e, base, userId, now, failing, c) == PushOne(a + m, e, base, userId, now, failing, c)
  {
  }

  /** Keys beyond a key the listing has still to return were not passed yet. */
  lemma PendingWithoutDoneLater(b: Bucket, prefix: string, token: Option<string>, next: string)
    requires next in Pending(b, prefix, token)
    ensures Pending(Without(b, Done(b, prefix, token)), prefix, Some(next)) == Pending(b, prefix, Some(next))
  {
    forall k | k in Pending(b, prefix, Some(next)) ensures After(token, k) {
      if token.Some? {
        StrLessTransitive(token.value, next, k);
      }
    }
  }

  /** Some key starts with `prefix` exactly when the first listing of `prefix` has something to return. */
  lemma UnderNonEmpty(b: Bucket, prefix: string)
    ensures |Pending(b, prefix, None)| > 0 <==> exists k :: k in b && prefix <= k
  {
    assert Pending(b, prefix, None) == Under(b, prefix);
    if exists k :: k in b && prefix <= k {
      var k :| k in b && prefix <= k;
      assert k in Under(b, prefix);
    }
  }

  /** Cutting a page at `i` splits the listing around it. */
  lemma SplitAt(start: seq<string>, keys: seq<string>, i: nat, later: seq<string>)
    requires i <= |keys|
    ensures start + keys + later == (start + keys[..i]) + (keys[i..] + later)
  {
    assert keys == keys[..i] + keys[i..];
  }

  /** Deleting one more key of a page removes one more element. */
  lemma WithoutNext(b: Bucket, keys: seq<string>, i: nat)
    requires i < |keys|
    ensures Without(b, Elems(keys[..i])) - {keys[i]} == Without(b, Elems(keys[..i + 1]))
  {
    assert keys[..i + 1] == keys[..i] + [keys[i]];
    assert Elems(keys[..i + 1]) == Elems(keys[..i]) + {keys[i]};
  }

  /** One page of deleteDirectory, listed from the bucket with the passed keys already deleted:
      after a truncated page the passed keys are the earlier ones and the page, and fewer keys are
      pending; after the last page every key under the prefix has been passed. */
  lemma DeletePageDone(b: Bucket, prefix: string, token: Option<string>, page: Page)
    requires var w := Without(b, Done(b, prefix, token));
             page.keys + (if page.truncated then Listing(w, prefix, page.next) else []) == Listing(w, prefix, token)
    requires page.truncated ==> page.keys != [] && page.next == Some(page.keys[|page.keys| - 1])
    ensures page.truncated ==> Done(b, prefix, token) + Elems(page.keys) == Done(b, prefix, page.next)
                               && |Pending(b, prefix, page.next)| < |Pending(b, prefix, token)|
    ensures !page.truncated ==> Done(b, prefix, token) + Elems(page.keys) == Under(b, prefix)
  {
    var w := Without(b, Done(b, prefix, token));
    PendingWithoutDone(b, prefix, token);
    assert Listing(w, prefix, token) == Listing(b, prefix, token);
    if page.truncated {
      var next := page.keys[|page.keys| - 1];
      LastKeyPending(b, prefix, token, page.keys, Listing(w, prefix, page.next));
      PendingWithoutDoneLater(b, prefix, token, next);
      assert Listing(w, prefix, page.next) == Listing(b, prefix, Some(next));
      DoneAfterPage(b, prefix, token, page.keys, next);
      PendingShrinks(b, prefix, token, next);
    } else {
      DoneAfterLastPage(b, prefix, token, page.keys);
    }
  }

  /** The last key of a non-empty page is one the listing had still to return. */
  lemma LastKeyPending(b: Bucket, prefix: string, token: Option<string>, keys: seq<string>, later: seq<string>)
    requires keys != [] && keys + later == Listing(b, prefix, token)
    ensures keys[|keys| - 1] in Pending(b, prefix, token)
  {
    SortedKeysFacts(Pending(b, prefix, token));
    assert Listing(b, prefix, token)[|keys| - 1] == keys[|keys| - 1];
  }

  /** Continuing after a pending key leaves fewer keys to return. */
  lemma PendingShrinks(b: Bucket, prefix: string, token: Option<string>, next: string)
    requires next in Pending(b, prefix, token)
    ensures |Pending(b, prefix, Some(next))| < |Pending(b, prefix, token)|
  {
    StrLessIrreflexive(next);
    forall k | k in Pending(b, prefix, Some(next)) ensures After(token, k) {
      if token.Some? {
        StrLessTransitive(token.value, next, k);
      }
    }
    var a := Pending(b, prefix, Some(next));
    var c := Pending(b, prefix, token);
    assert next !in a;
    assert |a + {next}| == |a| + 1;
    assert c == (a + {next}) + (c - (a + {next}));
    assert (a + {next}) * (c - (a + {next})) == {};
  }
}
