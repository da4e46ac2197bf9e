/** The object store as the client sees it: a bucket maps keys to objects, ListObjectsV2 returns the
    keys under a prefix in ascending order, at most MaxKeys at a time, and a truncated page continues
    after its last key.  The lemmas say how successive pages add up to the whole listing. */
module S3Listing {
  import opened Wrappers
  import opened KeyOrder
  import opened LocalFs

  /** An object's last-modified time and content (its size is the content's length). */
  datatype S3Object = S3Object(lastModified: int, content: seq<byte>)

  type Bucket = map<string, S3Object>

  /** The page size ListObjectsV2 uses when the request sets none. */
  const MaxKeys: nat := 1000

  /** A page: its keys, whether more follow, and where the next page starts. */
  datatype Page = Page(keys: seq<string>, truncated: bool, next: Option<string>)

  /** `k` lies beyond the continuation point `token` (every key does when there is none). */
  predicate After(token: Option<string>, k: string)
  {
    token.None? || StrLess(token.value, k)
  }

  /** The keys under `prefix` that a listing continued at `token` still has to return. */
  function Pending(b: Bucket, prefix: string, token: Option<string>): set<string>
  {
    set k | k in b && prefix <= k && After(token, k)
  }

  /** The keys under `prefix` a listing continued at `token` has already passed. */
  function Done(b: Bucket, prefix: string, token: Option<string>): set<string>
  {
    set k | k in b && prefix <= k && !After(token, k)
  }

  /** All keys under `prefix`. */
  function Under(b: Bucket, prefix: string): set<string>
  {
    set k | k in b && prefix <= k
  }

  /** The remaining keys, in the order the store returns them. */
  ghost function Listing(b: Bucket, prefix: string, token: Option<string>): seq<string>
  {
    SortedKeys(Pending(b, prefix, token))
  }

  /** The bucket without the keys in `ks`. */
  function Without(b: Bucket, ks: set<string>): Bucket
  {
    map k | k in b && k !in ks :: b[k]
  }

  /** The elements of a sequence of keys. */
  function Elems(s: seq<string>): set<string>
  {
    set x | x in s
  }

  /** listObjectsV2(prefix, continuation token, max keys) on bucket `b`: the next `maxKeys` keys in
      ascending order; the page is truncated exactly when more keys remain, which are then the keys
      after the page's last one. */
  method ListPage(b: Bucket, prefix: string, token: Option<string>, maxKeys: nat) returns (page: Page)
    requires maxKeys > 0
    ensures page.keys + (if page.truncated then Listing(b, prefix, page.next) else []) == Listing(b, prefix, token)
    ensures |page.keys| == if |Pending(b, prefix, token)| < maxKeys then |Pending(b, prefix, token)| else maxKeys
    ensures page.truncated <==> |Pending(b, prefix, token)| > maxKeys
    ensures page.truncated ==> page.keys != [] && page.next == Some(page.keys[|page.keys| - 1])
  {
    var taken, rest := TakeSorted(Pending(b, prefix, token), maxKeys);
    if rest != {} {
      PendingAfterLast(b, prefix, token, taken, rest);
      page := Page(taken, true, Some(taken[|taken| - 1]));
    } else {
      assert SortedKeys(rest) == [];
      assert taken + [] == taken;
      page := Page(taken, false, None);
    }
  }

  /** Once a page has been taken off the ascending listing, what is left is exactly the keys above
      the page's last key. */
  lemma PendingAfterLast(b: Bucket, prefix: string, token: Option<string>, taken: seq<string>, rest: set<string>)
    requires SortedKeys(Pending(b, prefix, token)) == taken + SortedKeys(rest)
    requires rest <= Pending(b, prefix, token)
    requires taken != []
    ensures rest == Pending(b, prefix, Some(taken[|taken| - 1]))
  {
    var s := Pending(b, prefix, token);
    var last := taken[|taken| - 1];
    SortedSuffixAbove(s, taken, rest);
    assert last in s by { SortedKeysFacts(s); assert SortedKeys(s)[|taken| - 1] == last; }
    forall k | k in Pending(b, prefix, Some(last)) ensures k in rest {
      if token.Some? {
        StrLessTransitive(token.value, last, k);
      }
    }
  }

  /** Deleting keys the listing has already passed does not change what it still has to return. */
  lemma PendingWithoutDone(b: Bucket, prefix: string, token: Option<string>)
    ensures Pending(Without(b, Done(b, prefix, token)), prefix, token) == Pending(b, prefix, token)
  {
  }

  /** After a truncated page, the passed keys are the earlier ones plus the page's keys. */
  lemma DoneAfterPage(b: Bucket, prefix: string, token: Option<string>, page: seq<string>, next: string)
    requires page != [] && next == page[|page| - 1]
    requires page + Listing(b, prefix, Some(next)) == Listing(b, prefix, token)
    ensures Done(b, prefix, token) + Elems(page) == Done(b, prefix, Some(next))
  {
    PageKeysDone(b, prefix, token, page, next);
    NewlyDoneInPage(b, prefix, token, page, next);
    assert next in Pending(b, prefix, token) by {
      SortedKeysFacts(Pending(b, prefix, token));
      assert next in Listing(b, prefix, token);
    }
    DoneStaysDone(b, prefix, token, next);
  }

  /** The keys of a page are passed once the listing continues after its last key. */
  lemma PageKeysDone(b: Bucket, prefix: string, token: Option<string>, page: seq<string>, next: string)
    requires page != [] && next == page[|page| - 1]
    requires page + Listing(b, prefix, Some(next)) == Listing(b, prefix, token)
    ensures Elems(page) <= Done(b, prefix, Some(next))
  {
    var l := Listing(b, prefix, token);
    SortedKeysFacts(Pending(b, prefix, token));
    forall k | k in Elems(page) ensures k in Done(b, prefix, Some(next)) {
      var i :| 0 <= i < |page| && page[i] == k;
      assert l[i] == k && l[|page| - 1] == next;
      assert k in l;
      PrefixKeyNotAbove(l, |page|, i);
    }
  }

  /** A key passed after the page but not before it is one of the page's keys. */
  lemma NewlyDoneInPage(b: Bucket, prefix: string, token: Option<string>, page: seq<string>, next: string)
    requires page + Listing(b, prefix, Some(next)) == Listing(b, prefix, token)
    ensures Done(b, prefix, Some(next)) - Done(b, prefix, token) <= Elems(page)
  {
    SortedKeysFacts(Pending(b, prefix, token));
    SortedKeysFacts(Pending(b, prefix, Some(next)));
    forall k | k in Done(b, prefix, Some(next)) && k !in Done(b, prefix, token) ensures k in Elems(page) {
      assert k in Listing(b, prefix, token);
    }
  }

  /** Continuing after a later key passes every key passed before. */
  lemma DoneStaysDone(b: Bucket, prefix: string, token: Option<string>, next: string)
    requires next in Pending(b, prefix, token)
    ensures Done(b, prefix, token) <= Done(b, prefix, Some(next))
  {
    forall k | k in Done(b, prefix, token) ensures k in Done(b, prefix, Some(next)) {
      if StrLess(next, k) {
        StrLessTransitive(token.value, next, k);
      }
    }
  }

  /** After the last page, every key under the prefix has been passed. */
  lemma DoneAfterLastPage(b: Bucket, prefix: string, token: Option<string>, page: seq<string>)
    requires page == Listing(b, prefix, token)
    ensures Done(b, prefix, token) + Elems(page) == Under(b, prefix)
  {
    SortedKeysFacts(Pending(b, prefix, token));
  }

  /** The first listing passes nothing. */
  lemma DoneAtStart(b: Bucket, prefix: string)
    ensures Done(b, prefix, None) == {}
  {
  }

  /** `s` up to and including its first '/'. */
  function UpToSlash(s: string): (r: string)
    requires '/' in s
    ensures r <= s && r != [] && r[|r| - 1] == '/' && '/' !in r[..|r| - 1]
  {
    if s[0] == '/' then "/"
    else
      assert '/' in s[1..] by {
        var i :| 0 <= i < |s| && s[i] == '/';
        assert s[1..][i - 1] == '/';
      }
      [s[0]] + UpToSlash(s[1..])
  }

  /** A common prefix of a listing delimited by '/': it has a '/' after the listing's prefix. */
  predicate IsCommonPrefix(prefix: string, x: string)
  {
    prefix <= x && '/' in x[|prefix|..]
  }

  /** What a listing delimited by '/' returns for key `k`: the key itself when no '/' follows the
      prefix, and otherwise the common prefix ending at the first such '/'. */
  function Rolled(prefix: string, k: string): string
    requires prefix <= k
  {
    if '/' in k[|prefix|..] then prefix + UpToSlash(k[|prefix|..]) else k
  }

  /** The entries of a delimited listing of `prefix`: object keys and common prefixes. */
  function ListEntries(b: Bucket, prefix: string): set<string>
  {
    set k | k in b && prefix <= k :: Rolled(prefix, k)
  }

  /** The object keys among `xs`, without the prefix, dropping the empty name (the key equal to the prefix). */
  function ObjectNames(prefix: string, xs: seq<string>): seq<string>
  {
    if xs == [] then []
    else
      var x := xs[|xs| - 1];
      ObjectNames(prefix, xs[..|xs| - 1])
      + (if prefix <= x && !IsCommonPrefix(prefix, x) && |x| > |prefix| then [x[|prefix|..]] else [])
  }

  /** The common prefixes among `xs`, in full. */
  function CommonPrefixes(prefix: string, xs: seq<string>): seq<string>
  {
    if xs == [] then []
    else
      var x := xs[|xs| - 1];
      CommonPrefixes(prefix, xs[..|xs| - 1]) + (if IsCommonPrefix(prefix, x) then [x] else [])
  }

  /** A name is listed as an object exactly when it is non-empty, has no '/', and prefix + name is an entry. */
  lemma {:induction false} ObjectNamesMembership(prefix: string, xs: seq<string>, n: string)
    ensures n in ObjectNames(prefix, xs) <==> n != "" && '/' !in n && prefix + n in xs
    decreases |xs|
  {
    if xs != [] {
      var init := xs[..|xs| - 1];
      var x := xs[|xs| - 1];
      ObjectNamesMembership(prefix, init, n);
      assert xs == init + [x];
      if prefix <= x && |x| > |prefix| {
        assert x == prefix + x[|prefix|..];
      }
      if prefix + n == x {
        assert x[|prefix|..] == n;
      }
    }
  }

  /** A string is listed as a common prefix exactly when it is one and is an entry. */
  lemma {:induction false} CommonPrefixesMembership(prefix: string, xs: seq<string>, n: string)
    ensures n in CommonPrefixes(prefix, xs) <==> n in xs && IsCommonPrefix(prefix, n)
    decreases |xs|
  {
    if xs != [] {
      CommonPrefixesMembership(prefix, xs[..|xs| - 1], n);
      assert xs == xs[..|xs| - 1] + [xs[|xs| - 1]];
    }
  }

  /** The prefix listFiles asks for: the full path, then '/' and the path unless it is empty. */
  function ListPrefix(fullPath: string, path: string): string
  {
    fullPath + (if path == "" then "" else "/" + path)
  }

  /** An entry of a delimited listing is either a key with no '/' after the prefix or a common
      prefix of some key. */
  lemma ListEntrySource(b: Bucket, prefix: string, x: string)
    requires x in ListEntries(b, prefix)
    ensures !IsCommonPrefix(prefix, x) ==> x in b
    ensures IsCommonPrefix(prefix, x) ==> exists k :: k in b && x <= k
  {
    var k :| k in b && prefix <= k && Rolled(prefix, k) == x;
    var tail := k[|prefix|..];
    if '/' in tail {
      var u := UpToSlash(tail);
      assert x == prefix + u;
      assert x[|prefix|..] == u;
      assert u[|u| - 1] == '/';
      assert k == prefix + tail;
    }
  }

  /** Every key under the prefix shows up in the delimited listing, as itself or as its common prefix. */
  lemma ListEntryOfKey(b: Bucket, prefix: string, k: string)
    requires k in b && prefix <= k
    ensures Rolled(prefix, k) in ListEntries(b, prefix)
    ensures '/' in k[|prefix|..] ==> IsCommonPrefix(prefix, Rolled(prefix, k))
    ensures '/' !in k[|prefix|..] ==> Rolled(prefix, k) == k && !IsCommonPrefix(prefix, k)
  {
    var tail := k[|prefix|..];
    if '/' in tail {
      var u := UpToSlash(tail);
      assert (prefix + u)[|prefix|..] == u;
      assert u[|u| - 1] in u;
    }
  }

  /** The key path below a user's prefix: `userId/path`. */
  function UserKey(userId: string, path: string): string
  {
    userId + "/" + path
  }
}
