/** Character-level helpers with the semantics of the java.lang.String operations the client relies on:
    splitting on a separator, joining, trimming, ASCII lower-casing and character replacement. */
module Text {

  /** The pieces of `s` between occurrences of any separator in `seps`, empty pieces included
      (a split that keeps every piece, trailing empty ones too). */
  function Split(s: string, seps: set<char>): (r: seq<string>)
    ensures |r| >= 1
    ensures forall i :: 0 <= i < |r| ==> forall c :: c in r[i] ==> c !in seps
  {
    if s == [] then [""]
    else
      var rest := Split(s[1..], seps);
      if s[0] in seps then [""] + rest
      else [[s[0]] + rest[0]] + rest[1..]
  }

  /** `parts` separated by `d`. */
  function Join(parts: seq<string>, d: char): string
  {
    if |parts| == 0 then ""
    else if |parts| == 1 then parts[0]
    else parts[0] + [d] + Join(parts[1..], d)
  }

  /** `ps` without its trailing empty pieces. */
  function DropTrailingEmpty(ps: seq<string>): (r: seq<string>)
    ensures r <= ps
    ensures forall i :: |r| <= i < |ps| ==> ps[i] == ""
    ensures r != [] ==> r[|r| - 1] != ""
  {
    if |ps| > 0 && ps[|ps| - 1] == "" then DropTrailingEmpty(ps[..|ps| - 1]) else ps
  }

  /** String.split(String.valueOf(d)) in Java: the empty string gives [""]; otherwise the pieces
      of a full split with the trailing empty pieces removed. */
  function JavaSplit(s: string, d: char): (r: seq<string>)
    ensures forall i :: 0 <= i < |r| ==> d !in r[i]
  {
    if s == "" then [""] else DropTrailingEmpty(Split(s, {d}))
  }

  /** A separator-free string is its own single piece. */
  lemma {:induction false} SplitNoSeparator(s: string, seps: set<char>)
    requires forall c :: c in s ==> c !in seps
    ensures Split(s, seps) == [s]
  {
    if s != [] {
      assert s[0] in s;
      SplitNoSeparator(s[1..], seps);
      assert [s[0]] + s[1..] == s;
    }
  }

  /** Splitting at a separator character splits the two halves independently. */
  lemma {:induction false} SplitConcat(x: string, d: char, y: string, seps: set<char>)
    requires d in seps
    ensures Split(x + [d] + y, seps) == Split(x, seps) + Split(y, seps)
  {
    if x == [] {
      assert x + [d] + y == [d] + y;
      assert ([d] + y)[1..] == y;
    } else {
      assert (x + [d] + y)[1..] == x[1..] + [d] + y;
      SplitConcat(x[1..], d, y, seps);
    }
  }

  /** Join and Split are inverse when no part contains a separator. */
  lemma {:induction false} SplitJoin(parts: seq<string>, d: char, seps: set<char>)
    requires d in seps
    requires |parts| >= 1
    requires forall i :: 0 <= i < |parts| ==> forall c :: c in parts[i] ==> c !in seps
    ensures Split(Join(parts, d), seps) == parts
  {
    if |parts| == 1 {
      SplitNoSeparator(parts[0], seps);
    } else {
      SplitNoSeparator(parts[0], seps);
      SplitJoin(parts[1..], d, seps);
      SplitConcat(parts[0], d, Join(parts[1..], d), seps);
      assert [parts[0]] + parts[1..] == parts;
    }
  }

  /** Joining one more part appends the delimiter and that part. */
  lemma {:induction false} JoinSnoc(q: seq<string>, n: string, d: char)
    requires q != []
    ensures Join(q + [n], d) == Join(q, d) + [d] + n
    decreases |q|
  {
    if |q| == 1 {
      assert q + [n] == [q[0], n];
    } else {
      assert (q + [n])[1..] == q[1..] + [n];
      JoinSnoc(q[1..], n, d);
    }
  }

  /** A character found in no part and different from the delimiter is not in the joined string. */
  lemma {:induction false} JoinAvoids(parts: seq<string>, d: char, x: char)
    requires x != d && forall i :: 0 <= i < |parts| ==> x !in parts[i]
    ensures x !in Join(parts, d)
  {
    if |parts| > 1 {
      JoinAvoids(parts[1..], d, x);
    }
  }

  /** A character that String.trim() removes: every code point up to U+0020. */
  predicate IsTrimmed(c: char) { c <= ' ' }

  function TrimStart(s: string): (r: string)
    ensures r == [] || !IsTrimmed(r[0])
    ensures |r| <= |s| && r == s[|s| - |r|..]
  {
    if s != [] && IsTrimmed(s[0]) then
      var r := TrimStart(s[1..]);
      assert s[1..][|s| - 1 - |r|..] == s[|s| - |r|..];
      r
    else
      s
  }

  function TrimEnd(s: string): (r: string)
    ensures r == [] || !IsTrimmed(r[|r| - 1])
    ensures r <= s
  {
    if s != [] && IsTrimmed(s[|s| - 1]) then TrimEnd(s[..|s| - 1]) else s
  }

  /** String.trim(): `s` without leading and trailing characters up to U+0020. */
  function Trim(s: string): string
  {
    TrimEnd(TrimStart(s))
  }

  /** ASCII lower-casing of one character. */
  function LowerChar(c: char): char
  {
    if 'A' <= c <= 'Z' then (c as int + 32) as char else c
  }

  /** String.toLowerCase() restricted to ASCII letters. */
  function ToLower(s: string): (r: string)
    ensures |r| == |s|
  {
    seq(|s|, i requires 0 <= i < |s| => LowerChar(s[i]))
  }

  /** Lower-casing commutes with taking a slice. */
  lemma ToLowerSlice(s: string, i: nat, j: nat)
    requires i <= j <= |s|
    ensures ToLower(s)[i..j] == ToLower(s[i..j])
  {
    assert forall k :: 0 <= k < j - i ==> ToLower(s)[i..j][k] == LowerChar(s[i + k]);
  }

  /** A lower-cased string holds no upper-case ASCII letter, so lower-casing it again changes nothing. */
  lemma ToLowerLower(s: string)
    ensures forall c :: c in ToLower(s) ==> !('A' <= c <= 'Z')
    ensures ToLower(ToLower(s)) == ToLower(s)
  {
    forall c | c in ToLower(s) ensures !('A' <= c <= 'Z') {
      var k :| 0 <= k < |s| && ToLower(s)[k] == c;
    }
  }

  /** Lower-casing turns no character into, or out of, a trimmed or a \s character. */
  lemma LowerCharKeepsClass(c: char)
    ensures IsTrimmed(LowerChar(c)) <==> IsTrimmed(c)
    ensures IsRegexSpace(LowerChar(c)) <==> IsRegexSpace(c)
  {
    if 'A' <= c <= 'Z' {
      assert LowerChar(c) as int == c as int + 32;
    }
  }

  /** Trimming and lower-casing commute: no upper-case letter is a trimmed character. */
  lemma {:induction false} TrimStartLower(s: string)
    ensures TrimStart(ToLower(s)) == ToLower(TrimStart(s))
  {
    if s != [] {
      var l := ToLower(s);
      assert l[0] == LowerChar(s[0]);
      LowerCharKeepsClass(s[0]);
      if IsTrimmed(s[0]) {
        ToLowerSlice(s, 1, |s|);
        assert s[1..|s|] == s[1..] && l[1..|s|] == l[1..];
        TrimStartLower(s[1..]);
        assert TrimStart(s) == TrimStart(s[1..]);
        assert TrimStart(l) == TrimStart(l[1..]);
      } else {
        assert TrimStart(s) == s;
        assert TrimStart(l) == l;
      }
    } else {
      assert ToLower(s) == [];
    }
  }

  lemma {:induction false} TrimEndLower(s: string)
    ensures TrimEnd(ToLower(s)) == ToLower(TrimEnd(s))
    decreases |s|
  {
    if s != [] {
      ToLowerSlice(s, 0, |s| - 1);
      TrimEndLower(s[..|s| - 1]);
    }
  }

  lemma TrimLower(s: string)
    ensures Trim(ToLower(s)) == ToLower(Trim(s))
  {
    TrimStartLower(s);
    TrimEndLower(TrimStart(s));
  }

  /** String.replace(a, b) for single characters. */
  function Replace(s: string, a: char, b: char): (r: string)
    ensures |r| == |s|
  {
    seq(|s|, i requires 0 <= i < |s| => if s[i] == a then b else s[i])
  }

  /** A character of the regular-expression class \s: space, tab, newline, vertical tab, form feed, carriage return. */
  predicate IsRegexSpace(c: char)
  {
    c == ' ' || c == '\t' || c == '\n' || c == '\U{000B}' || c == '\U{000C}' || c == '\r'
  }
}
