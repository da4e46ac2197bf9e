/** java.nio.file.Path as the client uses it: parsing a string into name elements, joining with
    Paths.get, resolving a relative path against a base, lexical normalisation, and the
    element-wise startsWith test.  Both '/' and '\' separate names (as on Windows, where the client
    was developed); a path is absolute when it begins with a separator. */
module LocalPaths {
  import opened Text

  const Separators: set<char> := {'/', '\\'}

  datatype Path = Path(absolute: bool, names: seq<string>)

  /** A name element a directory can hold: non-empty, free of separators, neither "." nor "..". */
  predicate ValidName(n: string)
  {
    n != "" && n != "." && n != ".." && '/' !in n && '\\' !in n
  }

  predicate AllValid(ns: seq<string>)
  {
    forall i :: 0 <= i < |ns| ==> ValidName(ns[i])
  }

  /** A name element as Paths.get produces it: non-empty and free of separators. */
  predicate IsElement(n: string)
  {
    n != "" && '/' !in n && '\\' !in n
  }

  predicate AllElements(ns: seq<string>)
  {
    forall i :: 0 <= i < |ns| ==> IsElement(ns[i])
  }

  /** The non-empty pieces of `ps`, in order. */
  function NonEmpty(ps: seq<string>): (r: seq<string>)
    ensures forall i :: 0 <= i < |r| ==> r[i] != "" && r[i] in ps
  {
    if ps == [] then []
    else (if ps[0] == "" then [] else [ps[0]]) + NonEmpty(ps[1..])
  }

  lemma {:induction false} NonEmptyConcat(a: seq<string>, b: seq<string>)
    ensures NonEmpty(a + b) == NonEmpty(a) + NonEmpty(b)
  {
    if a == [] {
      assert a + b == b;
    } else {
      assert (a + b)[1..] == a[1..] + b;
      NonEmptyConcat(a[1..], b);
    }
  }

  lemma {:induction false} NonEmptyOfNonEmpty(ps: seq<string>)
    requires forall i :: 0 <= i < |ps| ==> ps[i] != ""
    ensures NonEmpty(ps) == ps
  {
    if ps != [] {
      NonEmptyOfNonEmpty(ps[1..]);
    }
  }

  /** The name elements of a path string. */
  function NamesOf(s: string): (ns: seq<string>)
    ensures AllElements(ns)
  {
    var ns := NonEmpty(Split(s, Separators));
    assert AllElements(ns) by {
      forall i | 0 <= i < |ns| ensures IsElement(ns[i]) {
        var pieces := Split(s, Separators);
        var k :| 0 <= k < |pieces| && pieces[k] == ns[i];
      }
    }
    ns
  }

  /** Paths.get(s) for a single string. */
  function Parse(s: string): (p: Path)
    ensures AllElements(p.names)
  {
    Path(|s| > 0 && s[0] in Separators, NamesOf(s))
  }

  /** Paths.get throws InvalidPathException for a string holding a NUL character. */
  predicate IsValidPathString(s: string)
  {
    '\0' !in s
  }

  /** The string form of a path, with '/' between names. */
  function Render(p: Path): string
  {
    (if p.absolute then "/" else "") + Join(p.names, '/')
  }

  /** Rendering a path made of proper name elements and parsing it back gives the same path. */
  lemma ParseRender(p: Path)
    requires AllElements(p.names)
    ensures Parse(Render(p)) == p
  {
    var j := Join(p.names, '/');
    NamesOfJoinElements(p.names, '/');
    if p.names != [] {
      JoinStart(p.names, '/');
      assert p.names[0][0] in p.names[0];
    }
    if p.absolute {
      NamesOfLeadingSeparator(j);
    } else {
      assert Render(p) == j;
    }
  }

  /** Proper names joined with either separator parse back to themselves. */
  lemma NamesOfJoinElements(ns: seq<string>, d: char)
    requires AllElements(ns) && d in Separators
    ensures NamesOf(Join(ns, d)) == ns
  {
    if ns == [] {
      NamesOfEmpty();
    } else {
      SplitJoin(ns, d, Separators);
      NonEmptyOfNonEmpty(ns);
    }
  }

  lemma NamesOfLeadingSeparator(j: string)
    ensures NamesOf("/" + j) == NamesOf(j)
  {
    SplitConcat("", '/', j, Separators);
    assert "" + ['/'] + j == "/" + j;
    assert Split("", Separators) == [""];
    NonEmptyConcat([""], Split(j, Separators));
    assert NonEmpty([""]) == [] + NonEmpty([]);
  }

  lemma {:induction false} JoinStart(parts: seq<string>, d: char)
    requires |parts| >= 1 && parts[0] != ""
    ensures Join(parts, d) != "" && Join(parts, d)[0] == parts[0][0]
  {
  }

  /** Paths.get starts with the first character of a non-empty first part. */
  lemma PathsGetFirst(first: string, rest: seq<string>)
    requires first != ""
    ensures PathsGet([first] + rest) != "" && PathsGet([first] + rest)[0] == first[0]
  {
    assert ([first] + rest)[1..] == rest;
    JoinStart(NonEmptyParts([first] + rest), '/');
  }

  lemma NamesOfEmpty()
    ensures NamesOf("") == []
  {
    assert Split("", Separators) == [""];
    assert NonEmpty([""]) == [] + NonEmpty([]);
  }

  /** The names of several strings joined with separators are the names of each, in order. */
  function NamesOfAll(parts: seq<string>): seq<string>
  {
    if parts == [] then [] else NamesOf(parts[0]) + NamesOfAll(parts[1..])
  }

  lemma {:induction false} NamesOfJoin(parts: seq<string>, d: char)
    requires d in Separators
    ensures NamesOf(Join(parts, d)) == NamesOfAll(parts)
  {
    if |parts| == 0 {
      NamesOfEmpty();
    } else if |parts| == 1 {
      assert NamesOfAll(parts) == NamesOf(parts[0]) + NamesOfAll([]);
    } else {
      NamesOfJoin(parts[1..], d);
      SplitConcat(parts[0], d, Join(parts[1..], d), Separators);
      NonEmptyConcat(Split(parts[0], Separators), Split(Join(parts[1..], d), Separators));
    }
  }

  /** The non-empty strings of `parts`. */
  function NonEmptyParts(parts: seq<string>): (r: seq<string>)
    ensures forall i :: 0 <= i < |r| ==> r[i] != ""
  {
    if parts == [] then []
    else (if parts[0] == "" then [] else [parts[0]]) + NonEmptyParts(parts[1..])
  }

  lemma {:induction false} NamesOfNonEmptyParts(parts: seq<string>)
    ensures NamesOfAll(NonEmptyParts(parts)) == NamesOfAll(parts)
  {
    if parts != [] {
      NamesOfNonEmptyParts(parts[1..]);
      NamesOfAllConcat(if parts[0] == "" then [] else [parts[0]], NonEmptyParts(parts[1..]));
      if parts[0] == "" {
        NamesOfEmpty();
      }
    }
  }

  lemma NamesOfAllCons(a: string, rest: seq<string>)
    ensures NamesOfAll([a] + rest) == NamesOf(a) + NamesOfAll(rest)
  {
    assert ([a] + rest)[1..] == rest;
  }

  lemma NamesOfAllSingle(a: string)
    ensures NamesOfAll([a]) == NamesOf(a)
  {
    NamesOfAllCons(a, []);
    assert [a] + [] == [a];
    assert NamesOfAll([]) == [];
    assert NamesOf(a) + [] == NamesOf(a);
  }

  lemma {:induction false} NamesOfAllConcat(a: seq<string>, b: seq<string>)
    ensures NamesOfAll(a + b) == NamesOfAll(a) + NamesOfAll(b)
  {
    if a == [] {
      assert a + b == b;
    } else {
      assert (a + b)[0] == a[0];
      assert (a + b)[1..] == a[1..] + b;
      NamesOfAllConcat(a[1..], b);
      var x, y, z := NamesOf(a[0]), NamesOfAll(a[1..]), NamesOfAll(b);
      assert x + (y + z) == (x + y) + z;
    }
  }

  /** Paths.get(first, more...).toString(): the non-empty strings joined with a separator. */
  function PathsGet(parts: seq<string>): string
  {
    Join(NonEmptyParts(parts), '/')
  }

  /** Paths.get keeps the name elements of every part, in order. */
  lemma PathsGetNames(parts: seq<string>)
    ensures NamesOf(PathsGet(parts)) == NamesOfAll(parts)
  {
    NamesOfJoin(NonEmptyParts(parts), '/');
    NamesOfNonEmptyParts(parts);
  }

  /** One step of Path.normalize(): "." vanishes, ".." cancels the previous name when there is one
      that is not itself "..", is dropped at the root of an absolute path and kept otherwise. */
  function NormStep(absolute: bool, acc: seq<string>, n: string): seq<string>
  {
    if n == "." then acc
    else if n == ".." then
      if acc != [] && acc[|acc| - 1] != ".." then acc[..|acc| - 1]
      else if absolute then acc
      else acc + [".."]
    else acc + [n]
  }

  function NormNames(absolute: bool, ns: seq<string>): seq<string>
  {
    if ns == [] then []
    else NormStep(absolute, NormNames(absolute, ns[..|ns| - 1]), ns[|ns| - 1])
  }

  /** Path.normalize(). */
  function Normalize(p: Path): Path
  {
    Path(p.absolute, NormNames(p.absolute, p.names))
  }

  /** Path.resolve(other). */
  function Resolve(base: Path, other: Path): Path
  {
    if other.absolute then other
    else if other.names == [] then base
    else Path(base.absolute, base.names + other.names)
  }

  /** Path.startsWith(other), compared name by name. */
  predicate StartsWith(p: Path, other: Path)
  {
    p.absolute == other.absolute && other.names <= p.names
  }

  /** The directory a path denotes once "." and ".." are resolved lexically from the file-system root. */
  function Canonical(names: seq<string>): seq<string>
  {
    NormNames(true, names)
  }

  /** Normalising a path whose trailing names are proper names only normalises the head. */
  lemma {:induction false} NormNamesAppendValid(absolute: bool, a: seq<string>, r: seq<string>)
    requires AllValid(r)
    ensures NormNames(absolute, a + r) == NormNames(absolute, a) + r
    decreases |r|
  {
    if r == [] {
      assert a + r == a;
    } else {
      var r' := r[..|r| - 1];
      assert (a + r)[..|a + r| - 1] == a + r';
      NormNamesAppendValid(absolute, a, r');
    }
  }

  /** Canonical names of an absolute path are proper names. */
  lemma {:induction false} CanonicalValid(ns: seq<string>)
    requires AllElements(ns)
    ensures AllValid(Canonical(ns))
    decreases |ns|
  {
    if ns != [] {
      CanonicalValid(ns[..|ns| - 1]);
    }
  }

  /** Canonical names of proper names are themselves. */
  lemma CanonicalOfValid(ns: seq<string>)
    requires AllValid(ns)
    ensures Canonical(ns) == ns
  {
    NormNamesAppendValid(true, [], ns);
    assert [] + ns == ns;
  }
}
