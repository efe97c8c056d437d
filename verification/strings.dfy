/** Character searches on strings, with the JavaScript convention that a
    missing character is reported as index -1. */
module Strings {
  import opened Wrappers

  /** Index of the first occurrence of `c` in `s` (`String.prototype.indexOf`). */
  function IndexOf(s: string, c: char): (k: int)
    ensures -1 <= k < |s|
    ensures k == -1 <==> c !in s
    ensures k >= 0 ==> s[k] == c && c !in s[..k]
  {
    if s == [] then -1
    else if s[0] == c then 0
    else
      var k := IndexOf(s[1..], c);
      if k == -1 then -1
      else
        assert s[..k + 1] == [s[0]] + s[1..][..k];
        k + 1
  }

  /** The first position holding `c` is the one `IndexOf` reports. */
  lemma IndexOfAt(s: string, c: char, j: int)
    requires 0 <= j < |s| && s[j] == c && c !in s[..j]
    ensures IndexOf(s, c) == j
  {
    // Follows from IndexOf's contract: no earlier position holds `c`, and
    // the reported position does.
  }

  /** Index of the last occurrence of `c` in `s` (`String.prototype.lastIndexOf`). */
  function LastIndexOf(s: string, c: char): (k: int)
    ensures -1 <= k < |s|
    ensures k == -1 <==> c !in s
    ensures k >= 0 ==> s[k] == c && c !in s[k + 1..]
  {
    if s == [] then -1
    else if s[|s| - 1] == c then |s| - 1
    else
      var front := s[..|s| - 1];
      assert s == front + [s[|s| - 1]];
      var k := LastIndexOf(front, c);
      assert k >= 0 ==> s[k + 1..] == front[k + 1..] + [s[|s| - 1]];
      k
  }

  /** The part of `s` between `prefix` and `suffix`, when `s` consists of
      the two around it. */
  function Between(s: string, prefix: string, suffix: string): (r: Option<string>)
    ensures r.Some? ==> s == prefix + r.value + suffix
    ensures forall m :: s == prefix + m + suffix ==> r == Some(m)
  {
    if |prefix| + |suffix| <= |s| && s[..|prefix|] == prefix && s[|s| - |suffix|..] == suffix then
      assert s == s[..|prefix|] + s[|prefix|..|s| - |suffix|] + s[|s| - |suffix|..];
      Some(s[|prefix|..|s| - |suffix|])
    else
      None
  }

  /** `s` cut at the first occurrence of `c`: the part before it, which has no
      `c`, and the part after it. */
  function SplitFirst(s: string, c: char): (r: Option<(string, string)>)
    ensures r.Some? ==> s == r.value.0 + [c] + r.value.1 && c !in r.value.0
    ensures forall a, b :: c !in a && s == a + [c] + b ==> r == Some((a, b))
  {
    var k := IndexOf(s, c);
    forall a, b | c !in a && s == a + [c] + b ensures k == |a| && s[..k] == a && s[k + 1..] == b {
      SplitAround(s, c, a, b);
    }
    if k < 0 then
      None
    else
      assert s == s[..k] + s[k..k + 1] + s[k + 1..];
      Some((s[..k], s[k + 1..]))
  }

  /** A string written as `a`, `c`, `b` with no `c` in `a` is cut at `|a|`. */
  lemma SplitAround(s: string, c: char, a: string, b: string)
    requires c !in a && s == a + [c] + b
    ensures IndexOf(s, c) == |a| && s[..|a|] == a && s[|a| + 1..] == b
  {
    assert s[..|a|] == a;
    assert s[|a| + 1..] == b;
    IndexOfAt(s, c, |a|);
  }
}
