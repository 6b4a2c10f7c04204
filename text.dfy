/** String helpers standing in for the few `str` methods the engine uses:
    `lower`, `startswith`, `rfind` and substring search. Case folding is
    ASCII-only: letters outside A-Z (such as those of a Chinese folder name)
    are their own lower case. */
module Text {

  /** `str.lower` on one character, restricted to ASCII. */
  function LowerChar(c: char): char
  {
    if 'A' <= c <= 'Z' then (c as int + 32) as char else c
  }

  /** `str.lower` on a whole string, character by character. */
  function Lower(s: string): string
  {
    seq(|s|, i requires 0 <= i < |s| => LowerChar(s[i]))
  }

  /** `s.startswith(prefix)`. */
  predicate StartsWith(s: string, prefix: string)
  {
    |prefix| <= |s| && s[..|prefix|] == prefix
  }

  /** `s.endswith(suffix)`. */
  predicate EndsWith(s: string, suffix: string)
  {
    |suffix| <= |s| && s[|s| - |suffix|..] == suffix
  }

  /** The window of `s` that starts at `i` equals `sub`. */
  predicate OccursAt(s: string, sub: string, i: int)
  {
    0 <= i <= |s| - |sub| && s[i..i + |sub|] == sub
  }

  /** `sub in s`, tried window by window from the left. */
  predicate Contains(s: string, sub: string)
  {
    if |s| < |sub| then false
    else if s[..|sub|] == sub then true
    else Contains(s[1..], sub)
  }

  /** `Contains` finds exactly the windows of `s` that equal `sub`. */
  lemma {:induction false} ContainsIff(s: string, sub: string)
    ensures Contains(s, sub) <==> exists i :: 0 <= i <= |s| - |sub| && OccursAt(s, sub, i)
  {
    if |s| >= |sub| {
      if s[..|sub|] == sub {
        assert OccursAt(s, sub, 0);
      } else {
        ContainsIff(s[1..], sub);
        if i :| 0 <= i <= |s| - |sub| && OccursAt(s, sub, i) {
          assert i > 0;
          assert OccursAt(s[1..], sub, i - 1);
        }
        if i :| 0 <= i <= |s| - 1 - |sub| && OccursAt(s[1..], sub, i) {
          assert OccursAt(s, sub, i + 1);
        }
      }
    }
  }

  /** A string without some character of `sub` cannot contain `sub`. */
  lemma NotContainsWithout(s: string, sub: string, k: nat)
    requires k < |sub| && sub[k] !in s
    ensures !Contains(s, sub)
  {
    ContainsIff(s, sub);
    forall i | 0 <= i <= |s| - |sub| ensures !OccursAt(s, sub, i) {
      assert s[i..i + |sub|][k] == s[i + k];
    }
  }

  /** `s.rfind(c)`: the index of the last occurrence of `c`, or -1. */
  function LastIndexOf(s: string, c: char): (r: int)
    ensures -1 <= r < |s|
    ensures r == -1 <==> forall j :: 0 <= j < |s| ==> s[j] != c
    ensures r >= 0 ==> s[r] == c && forall j :: r < j < |s| ==> s[j] != c
  {
    if s == [] then -1
    else if s[|s| - 1] == c then |s| - 1
    else LastIndexOf(s[..|s| - 1], c)
  }

  /** Lowering never moves or creates a dot, so the last dot of a string and
      of its lower-case form are at the same place. */
  lemma LastDotIgnoresCase(s: string)
    ensures LastIndexOf(Lower(s), '.') == LastIndexOf(s, '.')
  {
    var r, r' := LastIndexOf(s, '.'), LastIndexOf(Lower(s), '.');
    assert forall j :: 0 <= j < |s| ==> (Lower(s)[j] == '.' <==> s[j] == '.');
    assert r >= 0 ==> Lower(s)[r] == '.';
    assert r' >= 0 ==> s[r'] == '.';
  }

  /** Lowering commutes with taking a tail. */
  lemma LowerDrop(s: string, i: nat)
    requires i <= |s|
    ensures Lower(s[i..]) == Lower(s)[i..]
  {
  }

  /** Lowering is idempotent. */
  lemma LowerIdempotent(s: string)
    ensures Lower(Lower(s)) == Lower(s)
  {
  }
}
