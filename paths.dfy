/** Filesystem paths as `pathlib.Path` sees them: a sequence of components. Python orders
    paths by comparing their component lists, and component strings by code point, so both
    orders are lexicographic; the anchor of an absolute path is not modelled. */
module Paths {
  import opened Wrappers
  import Strings

  type Path = seq<string>

  /** `p.name`: the last component, empty for the empty path. */
  function Name(p: Path): string
  {
    if |p| == 0 then "" else p[|p| - 1]
  }

  /** `p.parent`: every component but the last. */
  function Parent(p: Path): (r: Path)
    ensures |p| > 0 ==> r + [Name(p)] == p
  {
    if |p| == 0 then [] else p[..|p| - 1]
  }

  /** `s.rfind(c)`: the index of the last `c`, or -1. */
  function LastIndexOf(s: string, c: char): (i: int)
    ensures -1 <= i < |s|
  {
    LastIndexBefore(s, c, |s|)
  }

  /** The index of the last `c` among the first `n` characters, or -1. */
  function LastIndexBefore(s: string, c: char, n: nat): (i: int)
    requires n <= |s|
    ensures -1 <= i < n
  {
    if n == 0 then -1
    else if s[n - 1] == c then n - 1
    else LastIndexBefore(s, c, n - 1)
  }

  lemma {:induction false} LastIndexBeforeIsLast(s: string, c: char, n: nat)
    requires n <= |s|
    ensures LastIndexBefore(s, c, n) >= 0 ==> s[LastIndexBefore(s, c, n)] == c
    ensures forall k :: LastIndexBefore(s, c, n) < k < n ==> s[k] != c
  {
    if n > 0 && s[n - 1] != c {
      LastIndexBeforeIsLast(s, c, n - 1);
    }
  }

  /** `rfind` finds an occurrence, and no later one exists. */
  lemma LastIndexOfIsLast(s: string, c: char)
    ensures LastIndexOf(s, c) >= 0 ==> s[LastIndexOf(s, c)] == c
    ensures forall k :: LastIndexOf(s, c) < k < |s| ==> s[k] != c
  {
    LastIndexBeforeIsLast(s, c, |s|);
  }

  /** `PurePath.suffix` of a name: from the last dot on, provided that dot is neither the
      first nor the last character; otherwise empty. */
  function Suffix(name: string): string
  {
    var i := LastIndexOf(name, '.');
    if 0 < i < |name| - 1 then name[i..] else ""
  }

  /** A suffix is empty, or a dot followed by at least one character and no further dot. */
  lemma SuffixShape(name: string)
    ensures var r := Suffix(name);
      r == "" || (|r| >= 2 && r[0] == '.' && '.' !in r[1..])
  {
    LastIndexOfIsLast(name, '.');
    var i := LastIndexOf(name, '.');
    if 0 < i < |name| - 1 {
      assert forall k :: 1 <= k < |name[i..]| ==> name[i..][k] == name[i + k];
    }
  }

  /** `PurePath.stem` of a name: the name without its suffix. */
  function Stem(name: string): (r: string)
  {
    var i := LastIndexOf(name, '.');
    if 0 < i < |name| - 1 then name[..i] else name
  }

  /** A name is always its stem followed by its suffix. */
  lemma StemSuffix(name: string)
    ensures Stem(name) + Suffix(name) == name
  {
  }

  predicate IsPrefix(base: Path, p: Path)
  {
    |base| <= |p| && p[..|base|] == base
  }

  /** `p.relative_to(base)`, which raises when `base` is not a prefix of `p`. */
  function RelativeTo(p: Path, base: Path): (r: Option<Path>)
    ensures r.Some? <==> IsPrefix(base, p)
    ensures r.Some? ==> base + r.value == p
  {
    if IsPrefix(base, p) then Some(p[|base|..]) else None
  }

  /** `str(p)` for a relative path: the components joined by '/'. */
  function PathText(p: Path): string
  {
    Strings.Join(p, '/')
  }

  /** ASCII `lower()`. Python's `str.lower` also maps other letters, but no non-ASCII
      letter lowercases to an ASCII one that a C++ suffix contains. */
  function LowerAscii(s: string): (r: string)
    ensures |r| == |s|
  {
    if |s| == 0 then []
    else [Lower(s[0])] + LowerAscii(s[1..])
  }

  function Lower(c: char): char
  {
    if 'A' <= c <= 'Z' then (c as int + 32) as char else c
  }

  /** Lower-casing works character by character: an upper-case ASCII letter becomes its
      lower-case form and every other character stays. */
  lemma {:induction false} LowerAsciiChars(s: string)
    ensures forall k :: 0 <= k < |s| ==> LowerAscii(s)[k] == Lower(s[k])
  {
    if |s| > 0 {
      LowerAsciiChars(s[1..]);
      assert forall k :: 1 <= k < |s| ==> LowerAscii(s)[k] == LowerAscii(s[1..])[k - 1];
    }
  }

  // ---- ordering ----------------------------------------------------------------------

  /** Python's `a <= b` on strings. */
  predicate StrLe(a: string, b: string)
  {
    |a| == 0 || (|b| > 0 && (a[0] < b[0] || (a[0] == b[0] && StrLe(a[1..], b[1..]))))
  }

  predicate StrLt(a: string, b: string)
  {
    StrLe(a, b) && a != b
  }

  lemma {:induction false} StrLeReflexive(a: string)
    ensures StrLe(a, a)
  {
    if |a| > 0 {
      StrLeReflexive(a[1..]);
    }
  }

  lemma {:induction false} StrLeTotal(a: string, b: string)
    ensures StrLe(a, b) || StrLe(b, a)
  {
    if |a| > 0 && |b| > 0 && a[0] == b[0] {
      StrLeTotal(a[1..], b[1..]);
    }
  }

  lemma {:induction false} StrLeTransitive(a: string, b: string, c: string)
    requires StrLe(a, b) && StrLe(b, c)
    ensures StrLe(a, c)
  {
    if |a| > 0 && a[0] == b[0] && b[0] == c[0] {
      StrLeTransitive(a[1..], b[1..], c[1..]);
    }
  }

  lemma {:induction false} StrLeAntisymmetric(a: string, b: string)
    requires StrLe(a, b) && StrLe(b, a)
    ensures a == b
  {
    if |a| > 0 && |b| > 0 {
      StrLeAntisymmetric(a[1..], b[1..]);
      assert a == [a[0]] + a[1..] && b == [b[0]] + b[1..];
    }
  }

  /** Python's `p <= q` on paths: lexicographic on the component lists. */
  predicate PathLe(p: Path, q: Path)
  {
    |p| == 0 || (|q| > 0 && (StrLt(p[0], q[0]) || (p[0] == q[0] && PathLe(p[1..], q[1..]))))
  }

  lemma {:induction false} PathLeTotal(p: Path, q: Path)
    ensures PathLe(p, q) || PathLe(q, p)
  {
    if |p| > 0 && |q| > 0 {
      if p[0] == q[0] {
        PathLeTotal(p[1..], q[1..]);
      } else {
        StrLeTotal(p[0], q[0]);
      }
    }
  }

  lemma {:induction false} PathLeTransitive(p: Path, q: Path, r: Path)
    requires PathLe(p, q) && PathLe(q, r)
    ensures PathLe(p, r)
  {
    if |p| > 0 {
      if p[0] == q[0] && q[0] == r[0] {
        PathLeTransitive(p[1..], q[1..], r[1..]);
      } else {
        StrLeReflexive(q[0]);
        StrLeTransitive(p[0], q[0], r[0]);
        if p[0] == r[0] {
          StrLeAntisymmetric(p[0], q[0]);
        }
      }
    }
  }

  lemma {:induction false} PathLeAntisymmetric(p: Path, q: Path)
    requires PathLe(p, q) && PathLe(q, p)
    ensures p == q
  {
    if |p| > 0 && |q| > 0 {
      if p[0] == q[0] {
        PathLeAntisymmetric(p[1..], q[1..]);
        assert p == [p[0]] + p[1..] && q == [q[0]] + q[1..];
      } else {
        StrLeAntisymmetric(p[0], q[0]);
      }
    }
  }
}
