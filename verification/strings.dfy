/** The parts of Rust's `str` API the loader relies on, over `seq<char>`. */
module Strings {

  predicate IsPrefix<T(==)>(p: seq<T>, s: seq<T>) {
    |p| <= |s| && s[..|p|] == p
  }

  predicate IsSuffix<T(==)>(r: seq<T>, s: seq<T>) {
    |r| <= |s| && s[|s| - |r|..] == r
  }

  /** Unicode White_Space, the set `char::is_whitespace` and `str::trim` use. */
  predicate IsWhitespace(c: char) {
    || ('\t' <= c <= '\r')
    || c == ' '
    || c == '\U{85}'
    || c == '\U{A0}'
    || c == '\U{1680}'
    || ('\U{2000}' <= c <= '\U{200A}')
    || c == '\U{2028}'
    || c == '\U{2029}'
    || c == '\U{202F}'
    || c == '\U{205F}'
    || c == '\U{3000}'
  }

  /** Neither end is whitespace: what `trim` returns and leaves unchanged. */
  predicate IsTrimmed(s: string) {
    s == [] || (!IsWhitespace(s[0]) && !IsWhitespace(s[|s| - 1]))
  }

  /** `str::trim_start`: drops the longest all-whitespace prefix (see
      `TrimStartSpec`). */
  function TrimStart(s: string): string {
    if |s| > 0 && IsWhitespace(s[0]) then TrimStart(s[1..]) else s
  }

  /** `str::trim_end`: drops the longest all-whitespace suffix (see
      `TrimEndSpec`). */
  function TrimEnd(s: string): string {
    if |s| > 0 && IsWhitespace(s[|s| - 1]) then TrimEnd(s[..|s| - 1]) else s
  }

  /** `TrimStart` keeps a suffix, drops only whitespace, and stops at the first
      character that is not whitespace. */
  lemma {:induction false} TrimStartSpec(s: string)
    ensures IsSuffix(TrimStart(s), s)
    ensures forall i :: 0 <= i < |s| - |TrimStart(s)| ==> IsWhitespace(s[i])
    ensures TrimStart(s) == [] || !IsWhitespace(TrimStart(s)[0])
  {
    if |s| > 0 && IsWhitespace(s[0]) {
      TrimStartSpec(s[1..]);
    }
  }

  /** `TrimEnd` keeps a prefix, drops only whitespace, and stops at the last
      character that is not whitespace. */
  lemma {:induction false} TrimEndSpec(s: string)
    ensures IsPrefix(TrimEnd(s), s)
    ensures forall i :: |TrimEnd(s)| <= i < |s| ==> IsWhitespace(s[i])
    ensures TrimEnd(s) == [] || !IsWhitespace(TrimEnd(s)[|TrimEnd(s)| - 1])
  {
    if |s| > 0 && IsWhitespace(s[|s| - 1]) {
      TrimEndSpec(s[..|s| - 1]);
    }
  }

  /** A trimmed text is left alone by both halves of `trim`. */
  lemma TrimmedFixed(s: string)
    requires IsTrimmed(s)
    ensures TrimStart(s) == s && TrimEnd(s) == s
  {
  }

  /** `str::trim`. */
  function Trim(s: string): (r: string)
    ensures IsTrimmed(r)
    ensures |r| <= |s|
    ensures IsTrimmed(s) ==> r == s
  {
    TrimStartSpec(s);
    TrimEndSpec(TrimStart(s));
    if IsTrimmed(s) then TrimmedFixed(s); TrimEnd(TrimStart(s))
    else TrimEnd(TrimStart(s))
  }

  /** `n` space characters. */
  function Spaces(n: nat): (r: string)
    ensures |r| == n && forall i :: 0 <= i < n ==> r[i] == ' '
  {
    seq(n, _ => ' ')
  }

  lemma {:induction false} TrimStartSpaces(n: nat, t: string)
    requires t == [] || !IsWhitespace(t[0])
    ensures TrimStart(Spaces(n) + t) == t
    decreases n
  {
    if n > 0 {
      assert (Spaces(n) + t)[1..] == Spaces(n - 1) + t;
      TrimStartSpaces(n - 1, t);
    } else {
      assert Spaces(n) + t == t;
    }
  }

  /** Indentation does not survive `trim`: a trimmed text behind any run of
      spaces comes back unchanged. */
  lemma TrimIndented(n: nat, t: string)
    requires IsTrimmed(t)
    ensures Trim(Spaces(n) + t) == t
  {
    TrimStartSpaces(n, t);
    TrimmedFixed(t);
  }

  /** Index of the first occurrence of `c`, as `str::find` returns it (see
      `IndexOfSpec`). */
  function IndexOf(s: string, c: char): (i: nat)
    requires c in s
    ensures i < |s| && s[i] == c
  {
    if s[0] == c then 0 else 1 + IndexOf(s[1..], c)
  }

  /** No earlier occurrence: the index is the first one. */
  lemma {:induction false} IndexOfSpec(s: string, c: char)
    requires c in s
    ensures c !in s[..IndexOf(s, c)]
  {
    if s[0] != c {
      assert c in s[1..] by {
        var j :| 0 <= j < |s| && s[j] == c;
        assert s[1..][j - 1] == c;
      }
      IndexOfSpec(s[1..], c);
      assert s[..IndexOf(s, c)] == [s[0]] + s[1..][..IndexOf(s[1..], c)];
    }
  }

  /** `str::split_once`: the text before and after the first `c` (see
      `SplitOnceSpec`). */
  function SplitOnce(s: string, c: char): (string, string)
    requires c in s
  {
    var i := IndexOf(s, c);
    (s[..i], s[i + 1..])
  }

  /** The two parts and the separator make up the text, and the first part
      holds no separator. */
  lemma SplitOnceSpec(s: string, c: char)
    requires c in s
    ensures var r := SplitOnce(s, c); s == r.0 + [c] + r.1 && c !in r.0
  {
    var i := IndexOf(s, c);
    IndexOfSpec(s, c);
    assert s == s[..i] + [c] + s[i + 1..];
  }

  /** `split_once` cuts at the first separator and nowhere else. */
  lemma SplitAtFirst(a: string, c: char, b: string)
    requires c !in a
    ensures SplitOnce(a + [c] + b, c) == (a, b)
  {
    var s := a + [c] + b;
    assert s[|a|] == c;
    IndexOfSpec(s, c);
    var i := IndexOf(s, c);
    assert s[..|a|] == a;
    assert s[..|a| + 1] == a + [c];
  }
}
