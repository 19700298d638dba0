/** Splitting strings at a separator. */
module Text {
  import opened Common

  /** Where `c` first stands in `s`, or `|s|`. */
  function IndexOf(s: string, c: char): (i: nat)
    ensures i <= |s| && (i < |s| ==> s[i] == c)
    ensures forall k :: 0 <= k < i ==> s[k] != c
  {
    if s == [] || s[0] == c then 0 else 1 + IndexOf(s[1..], c)
  }

  /** The end of the last `c` in `s`, or 0. */
  function EndOfLast(s: string, c: char): (i: nat)
    ensures i <= |s| && (i > 0 ==> s[i - 1] == c)
    ensures forall k :: i <= k < |s| ==> s[k] != c
  {
    if s == [] then 0 else if s[|s| - 1] == c then |s| else EndOfLast(s[..|s| - 1], c)
  }

  /** `split_once`. */
  function SplitOnce(s: string, c: char): Option<(string, string)> {
    var i := IndexOf(s, c);
    if i < |s| then Some((s[..i], s[i + 1..])) else None
  }

  /** `rsplit_once`. */
  function RSplitOnce(s: string, c: char): Option<(string, string)> {
    var i := EndOfLast(s, c);
    if i > 0 then Some((s[..i - 1], s[i..])) else None
  }

  function StripPrefix(s: string, prefix: string): Option<string> {
    if prefix <= s then Some(s[|prefix|..]) else None
  }

  /** A separator followed by text without it is where the last split is. */
  lemma RSplitOnceOfJoin(s: string, c: char, t: string)
    requires c !in t
    ensures RSplitOnce(s + [c] + t, c) == Some((s, t))
  {
    var whole := s + [c] + t;
    var i := EndOfLast(whole, c);
    assert whole[|s|] == c;
    assert i == |s| + 1 && whole[..|s|] == s && whole[|s| + 1..] == t;
  }

  /** The first separator after text without it is where the first split is. */
  lemma SplitOnceOfJoin(s: string, c: char, t: string)
    requires c !in s
    ensures SplitOnce(s + [c] + t, c) == Some((s, t))
  {
    var whole := s + [c] + t;
    var i := IndexOf(whole, c);
    assert whole[|s|] == c;
    assert i == |s| && whole[..|s|] == s && whole[|s| + 1..] == t;
  }

  /** What a split takes apart is put together again, and nothing before it holds the separator. */
  lemma SplitOnceParts(s: string, c: char)
    ensures SplitOnce(s, c).Some? ==> var (a, b) := SplitOnce(s, c).value; s == a + [c] + b && c !in a
    ensures SplitOnce(s, c).None? ==> c !in s
  {
  }

  /** Strings that end differently are different. */
  lemma SuffixesDiffer(a: string, s: string, b: string, t: string, fromEnd: nat)
    requires 1 <= fromEnd <= |s| && fromEnd <= |t| && s[|s| - fromEnd] != t[|t| - fromEnd]
    ensures a + s != b + t
  {
    var x, y := a + s, b + t;
    assert x[|x| - fromEnd] == s[|s| - fromEnd] && y[|y| - fromEnd] == t[|t| - fromEnd];
  }
}
