/** Absolute paths as sequences of components read from the filesystem root:
    `/var/log` is `["var", "log"]` and `/` is `[]`. */
module Paths {
  import opened Text

  type Path = seq<string>

  /** `a == b or a in b.parents`: `a` is `b` or encloses it. */
  predicate IsAncestor(a: Path, b: Path)
  {
    |a| <= |b| && b[..|a|] == a
  }

  /** `a in b.parents`: `a` strictly encloses `b`. */
  predicate IsStrictAncestor(a: Path, b: Path)
  {
    |a| < |b| && b[..|a|] == a
  }

  /** `Path.name`: the last component, empty for the root. */
  function Name(p: Path): string
  {
    if p == [] then "" else p[|p| - 1]
  }

  /** `/c1/c2/...` for a non-empty list of components. */
  function Join(p: Path): string
  {
    if p == [] then "" else "/" + p[0] + Join(p[1..])
  }

  /** `str(p)` for a POSIX path. */
  function Render(p: Path): string
  {
    if p == [] then "/" else Join(p)
  }

  /** `str(a).startswith(str(b)) or str(b).startswith(str(a))`: the test by
      which the scanner decides that two roots overlap. */
  predicate Related(a: Path, b: Path)
  {
    StartsWith(Render(a), Render(b)) || StartsWith(Render(b), Render(a))
  }

  /** `any(str(parent) in claimed for parent in p.parents)`. */
  predicate HasClaimedAncestor(p: Path, claimed: set<Path>)
  {
    exists k :: 0 <= k < |p| && p[..k] in claimed
  }

  /** A claimed ancestor is exactly a claimed strict ancestor. */
  lemma ClaimedAncestorIff(p: Path, claimed: set<Path>)
    ensures HasClaimedAncestor(p, claimed) <==> exists q :: q in claimed && IsStrictAncestor(q, p)
  {
    if q :| q in claimed && IsStrictAncestor(q, p) {
      assert p[..|q|] == q;
    }
  }

  /** Whatever is strictly inside `inner` is strictly inside every path
      enclosing `inner`. */
  lemma StrictAncestorWithin(outer: Path, inner: Path, p: Path)
    requires IsAncestor(outer, inner) && IsStrictAncestor(inner, p)
    ensures IsStrictAncestor(outer, p)
  {
    assert p[..|outer|] == p[..|inner|][..|outer|];
  }

  /** Two ancestors of one path are nested one inside the other. */
  lemma AncestorsAreNested(a: Path, b: Path, c: Path)
    requires IsAncestor(a, c) && IsAncestor(b, c)
    ensures IsAncestor(a, b) || IsAncestor(b, a)
  {
    if |a| <= |b| {
      assert b[..|a|] == c[..|b|][..|a|];
    } else {
      assert a[..|b|] == c[..|a|][..|b|];
    }
  }

  /** The same, for any three paths. */
  lemma CommonDescendant(a: Path, b: Path, c: Path)
    ensures IsAncestor(a, c) && IsAncestor(b, c) ==> IsAncestor(a, b) || IsAncestor(b, a)
  {
    if IsAncestor(a, c) && IsAncestor(b, c) {
      AncestorsAreNested(a, b, c);
    }
  }

  /** Enclosure is transitive. */
  lemma AncestorTrans(a: Path, b: Path, c: Path)
    ensures IsAncestor(a, b) && IsAncestor(b, c) ==> IsAncestor(a, c)
  {
    if IsAncestor(a, b) && IsAncestor(b, c) {
      assert c[..|a|] == c[..|b|][..|a|];
    }
  }

  lemma {:induction false} JoinAppend(a: Path, b: Path)
    ensures Join(a + b) == Join(a) + Join(b)
  {
    if a == [] {
      assert a + b == b;
    } else {
      assert (a + b)[1..] == a[1..] + b;
      JoinAppend(a[1..], b);
    }
  }

  lemma JoinStartsWithSlash(p: Path)
    requires p != []
    ensures |Join(p)| > 0 && Join(p)[0] == '/'
  {
  }

  /** Enclosing paths render as string prefixes, so the string test of
      `Related` catches every pair of nested paths. */
  lemma AncestorIsRelated(a: Path, b: Path)
    requires IsAncestor(a, b)
    ensures Related(a, b)
  {
    if a == [] {
      if b != [] { JoinStartsWithSlash(b); }
    } else {
      assert b == a + b[|a|..];
      JoinAppend(a, b[|a|..]);
      assert Render(b) == Render(a) + Join(b[|a|..]);
    }
  }

  /** The converse fails: the string test also joins siblings that share a
      name prefix, such as `/var/log` and `/var/logs`. */
  lemma RelatedIsNotAncestry()
    ensures Related(["var", "log"], ["var", "logs"])
    ensures !IsAncestor(["var", "log"], ["var", "logs"]) && !IsAncestor(["var", "logs"], ["var", "log"])
  {
    assert Render(["var", "log"]) == "/var/log";
    assert Render(["var", "logs"]) == "/var/logs";
  }
}
