/** The order in which the object store lists keys and in which java.nio sorts path strings:
    lexicographic comparison of code points, a proper prefix sorting first.  Sorting a finite
    set of strings is specified by the ghost function SortedKeys and carried out by TakeSorted. */
module KeyOrder {

  /** `a` sorts strictly before `b`. */
  predicate StrLess(a: string, b: string)
  {
    if a == [] then b != []
    else if b == [] then false
    else a[0] < b[0] || (a[0] == b[0] && StrLess(a[1..], b[1..]))
  }

  lemma {:induction false} StrLessIrreflexive(a: string)
    ensures !StrLess(a, a)
  {
    if a != [] {
      StrLessIrreflexive(a[1..]);
    }
  }

  lemma {:induction false} StrLessAsymmetric(a: string, b: string)
    requires StrLess(a, b)
    ensures !StrLess(b, a)
  {
    if a != [] && b != [] && a[0] == b[0] {
      StrLessAsymmetric(a[1..], b[1..]);
    }
  }

  lemma {:induction false} StrLessTransitive(a: string, b: string, c: string)
    requires StrLess(a, b) && StrLess(b, c)
    ensures StrLess(a, c)
  {
    if a != [] && b != [] && c != [] && a[0] == b[0] && b[0] == c[0] {
      StrLessTransitive(a[1..], b[1..], c[1..]);
    }
  }

  lemma {:induction false} StrLessTotal(a: string, b: string)
    requires a != b
    ensures StrLess(a, b) || StrLess(b, a)
  {
    if a != [] && b != [] && a[0] == b[0] {
      assert a == [a[0]] + a[1..] && b == [b[0]] + b[1..];
      StrLessTotal(a[1..], b[1..]);
    }
  }

  /** A proper prefix sorts first. */
  lemma {:induction false} PrefixSortsFirst(a: string, b: string)
    requires a < b
    ensures StrLess(a, b)
  {
    if a != [] {
      assert a[1..] < b[1..];
      PrefixSortsFirst(a[1..], b[1..]);
    }
  }

  /** `m` is the least element of `s`. */
  predicate IsLeast(m: string, s: set<string>)
  {
    m in s && forall k :: k in s && k != m ==> StrLess(m, k)
  }

  lemma {:induction false} LeastExists(s: set<string>)
    requires s != {}
    ensures exists m :: IsLeast(m, s)
    decreases |s|
  {
    var x :| x in s;
    if s != {x} {
      var s' := s - {x};
      LeastExists(s');
      var m :| IsLeast(m, s');
      if StrLess(m, x) {
        forall k | k in s && k != m ensures StrLess(m, k) {
          if k == x {} else {}
        }
        assert IsLeast(m, s);
      } else {
        StrLessTotal(m, x);
        forall k | k in s && k != x ensures StrLess(x, k) {
          if k != m { StrLessTransitive(x, m, k); }
        }
        assert IsLeast(x, s);
      }
    } else {
      assert IsLeast(x, s);
    }
  }

  lemma LeastUnique(m: string, n: string, s: set<string>)
    requires IsLeast(m, s) && IsLeast(n, s)
    ensures m == n
  {
    if m != n {
      StrLessAsymmetric(m, n);
    }
  }

  ghost function Least(s: set<string>): (m: string)
    requires s != {}
    ensures IsLeast(m, s)
  {
    LeastExists(s);
    var m :| IsLeast(m, s); m
  }

  /** The elements of `s` in ascending order. */
  ghost function SortedKeys(s: set<string>): seq<string>
    decreases |s|
  {
    if s == {} then []
    else
      var m := Least(s);
      assert |s - {m}| < |s| by { assert s - {m} < s; }
      [m] + SortedKeys(s - {m})
  }

  /** When the sorted keys of `s` are `taken` followed by the sorted keys of `rest`, `rest` holds
      exactly the keys of `s` above the last one taken. */
  lemma SortedSuffixAbove(s: set<string>, taken: seq<string>, rest: set<string>)
    requires SortedKeys(s) == taken + SortedKeys(rest)
    requires rest <= s
    requires taken != []
    ensures forall k :: k in rest <==> k in s && StrLess(taken[|taken| - 1], k)
  {
    SortedKeysFacts(s);
    SortedKeysFacts(rest);
    forall k | k in rest ensures StrLess(taken[|taken| - 1], k) {
      SuffixKeyAbove(SortedKeys(s), |taken|, k);
    }
    forall k | k in s && StrLess(taken[|taken| - 1], k) ensures k in rest {
      var j :| 0 <= j < |SortedKeys(s)| && SortedKeys(s)[j] == k;
      AboveKeyInSuffix(SortedKeys(s), |taken|, j);
    }
  }

  /** In an ascending sequence, a key after position `n` sorts above the key just before `n`. */
  lemma SuffixKeyAbove(l: seq<string>, n: nat, k: string)
    requires Ascending(l) && 0 < n <= |l| && k in l[n..]
    ensures StrLess(l[n - 1], k)
  {
    var j :| n <= j < |l| && l[j] == k;
  }

  /** In an ascending sequence, no key before position `n` sorts above the key at `n - 1`. */
  lemma PrefixKeyNotAbove(l: seq<string>, n: nat, i: nat)
    requires Ascending(l) && i < n <= |l|
    ensures !StrLess(l[n - 1], l[i])
  {
    if i < n - 1 {
      StrLessAsymmetric(l[i], l[n - 1]);
    } else {
      StrLessIrreflexive(l[i]);
    }
  }

  /** In an ascending sequence, a key above the one at `n - 1` sits at position `n` or later. */
  lemma AboveKeyInSuffix(l: seq<string>, n: nat, j: nat)
    requires Ascending(l) && 0 < n <= |l| && j < |l| && StrLess(l[n - 1], l[j])
    ensures l[j] in l[n..]
  {
    if j < n - 1 {
      StrLessAsymmetric(l[j], l[n - 1]);
    } else if j == n - 1 {
      StrLessIrreflexive(l[j]);
    } else {
      assert l[j] == l[n..][j - n];
    }
  }

  /** A sequence in strictly ascending order. */
  ghost predicate Ascending(r: seq<string>)
  {
    forall i, j :: 0 <= i < j < |r| ==> StrLess(r[i], r[j])
  }

  /** SortedKeys lists every element of the set exactly once, in ascending order. */
  lemma {:induction false} SortedKeysFacts(s: set<string>)
    ensures |SortedKeys(s)| == |s|
    ensures forall k :: k in SortedKeys(s) <==> k in s
    ensures Ascending(SortedKeys(s))
    decreases |s|
  {
    if s != {} {
      var m := Least(s);
      assert |s - {m}| < |s| by { assert s - {m} < s; }
      SortedKeysFacts(s - {m});
      var r := SortedKeys(s);
      assert r == [m] + SortedKeys(s - {m});
      forall i, j | 0 <= i < j < |r| ensures StrLess(r[i], r[j]) {
        if i == 0 {
          assert r[j] in SortedKeys(s - {m});
        }
      }
    }
  }

  /** In an ascending sequence, every element above r[i] sits after position i. */
  lemma AscendingAfter(r: seq<string>, i: nat, x: string)
    requires Ascending(r) && i < |r|
    requires x in r && StrLess(r[i], x)
    ensures exists j :: i < j < |r| && r[j] == x
  {
    var j :| 0 <= j < |r| && r[j] == x;
    if j < i {
      StrLessAsymmetric(r[j], r[i]);
    } else if j == i {
      StrLessIrreflexive(x);
    }
  }

  /** Moving the least element of `rest` to the end of `taken` keeps `taken + SortedKeys(rest)`. */
  lemma TakeLeast(taken: seq<string>, rest: set<string>, m: string)
    requires IsLeast(m, rest)
    ensures taken + SortedKeys(rest) == (taken + [m]) + SortedKeys(rest - {m})
    ensures |rest - {m}| == |rest| - 1
  {
    LeastUnique(m, Least(rest), rest);
    assert SortedKeys(rest) == [m] + SortedKeys(rest - {m});
  }

  /** Takes the `limit` smallest elements of `s` in ascending order, and returns what is left. */
  method TakeSorted(s: set<string>, limit: nat) returns (taken: seq<string>, rest: set<string>)
    ensures SortedKeys(s) == taken + SortedKeys(rest)
    ensures |taken| == if |s| < limit then |s| else limit
    ensures rest <= s && |rest| == |s| - |taken|
  {
    taken, rest := [], s;
    while |taken| < limit && rest != {}
      invariant SortedKeys(s) == taken + SortedKeys(rest)
      invariant rest <= s && |taken| + |rest| == |s|
      invariant |taken| <= limit
      decreases |rest|
    {
      LeastExists(rest);
      var m :| IsLeast(m, rest);
      TakeLeast(taken, rest, m);
      taken, rest := taken + [m], rest - {m};
    }
  }
}
