/** Placeholder substitution applied to a paragraph's text before drawing. */
module Replacements {
  import opened Errors

  /** The token `{{key}}` that stands for `key` in a text: the key between
      two-character delimiters. For a key without '{' the two opening
      characters are the token's only '{'. */
  function Placeholder(key: string): (r: string)
    ensures |r| == |key| + 4 && r[..2] == "{{" && r[2..|r| - 2] == key && r[|r| - 2..] == "}}"
    ensures '{' !in key ==> forall i :: 0 <= i < |r| ==> (r[i] == '{' <==> i < 2)
  {
    var r := "{{" + key + "}}";
    assert forall i :: 2 <= i < |r| - 2 ==> r[i] == key[i - 2];
    r
  }

  /** `pat` occurs somewhere in `s`. */
  predicate Occurs(pat: string, s: string) {
    |pat| <= |s| && (s[..|pat|] == pat || Occurs(pat, s[1..]))
  }

  /** No proper prefix of `pat` is also a suffix of it, so two occurrences of
      `pat` can never overlap. */
  predicate Borderless(pat: string) {
    forall k :: 0 < k < |pat| ==> pat[k..] != pat[..|pat| - k]
  }

  /** `parts` joined with `sep` between consecutive parts. */
  function Join(parts: seq<string>, sep: string): string {
    if |parts| == 0 then []
    else if |parts| == 1 then parts[0]
    else parts[0] + sep + Join(parts[1..], sep)
  }

  /** `str::replace`: scans left to right and replaces each leftmost,
      non-overlapping occurrence of `pat` by `v`. A text in which the pattern
      does not occur is left as it is (its full meaning is `ReplaceAllJoin`). */
  function ReplaceAll(s: string, pat: string, v: string): (r: string)
    requires |pat| > 0
    ensures !Occurs(pat, s) ==> r == s
    decreases |s|
  {
    if |s| < |pat| then s
    else if s[..|pat|] == pat then v + ReplaceAll(s[|pat|..], pat, v)
    else [s[0]] + ReplaceAll(s[1..], pat, v)
  }

  /** Applies the pairs one after another, in sequence order (the iteration
      order of the source's hash map). A text holding no placeholder of any
      listed key is not changed. */
  function ApplyAll(s: string, replacements: seq<(string, string)>): (r: string)
    ensures (forall i :: 0 <= i < |replacements| ==> !Occurs(Placeholder(replacements[i].0), s)) ==> r == s
    decreases |replacements|
  {
    if replacements == [] then s
    else ApplyAll(ReplaceAll(s, Placeholder(replacements[0].0), replacements[0].1), replacements[1..])
  }

  /** `t` wrapped in double quotes. */
  function Quote(t: string): string {
    "\"" + t + "\""
  }

  /** Removes one leading and one trailing '"'; aborts when either is missing. */
  function StripQuotes(s: string): (r: Outcome<string>)
    ensures r.Done? <==> |s| >= 2 && s[0] == '"' && s[|s| - 1] == '"'
    ensures r.Done? ==> Quote(r.value) == s
    ensures !r.Done? ==> r == Panicked(MissingQuote(s))
  {
    if |s| == 0 || s[0] != '"' then Panicked(MissingQuote(s))
    else
      var t := s[1..];
      if |t| == 0 || t[|t| - 1] != '"' then Panicked(MissingQuote(s))
      else Done(t[..|t| - 1])
  }

  /** The text handed to drawing: every placeholder of a listed key replaced,
      then the surrounding quotes removed. */
  function SetReplacements(line: string, replacements: seq<(string, string)>): (r: Outcome<string>)
    ensures r.Done? <==> (var a := ApplyAll(line, replacements); |a| >= 2 && a[0] == '"' && a[|a| - 1] == '"')
    ensures r.Done? ==> Quote(r.value) == ApplyAll(line, replacements)
    ensures !r.Done? ==> r.Panicked?
  {
    StripQuotes(ApplyAll(line, replacements))
  }

  /** Quoting is undone exactly by quote stripping. */
  lemma StripQuotesInvertsQuote(t: string)
    ensures StripQuotes(Quote(t)) == Done(t)
  {
    assert Quote(t)[1..][..|t|] == t;
  }

  /** Placeholders whose key has no '{' cannot overlap each other. */
  lemma PlaceholderBorderless(key: string)
    requires '{' !in key
    ensures Borderless(Placeholder(key))
  {
    var pat := Placeholder(key);
    forall k | 0 < k < |pat|
      ensures pat[k..] != pat[..|pat| - k]
    {
      if |pat| - k == 1 {
        assert pat[k..][0] == '}' && pat[..|pat| - k][0] == '{';
      } else if k == 1 {
        assert pat[k..][1] != '{' by {
          if key == [] { assert pat[2] == '}'; } else { assert pat[2] == key[0]; }
        }
        assert pat[..|pat| - k][1] == '{';
      } else {
        assert pat[k] != '{' by {
          if k < 2 + |key| { assert pat[k] == key[k - 2]; } else { assert pat[k] == '}'; }
        }
        assert pat[k..][0] != pat[..|pat| - k][0];
      }
    }
  }

  /** A non-empty pattern-free text followed by a non-self-overlapping
      pattern does not start with that pattern. */
  lemma NoMatchAtFront(a: string, pat: string, rest: string)
    requires |pat| > 0 && Borderless(pat) && !Occurs(pat, a) && a != []
    ensures (a + pat + rest)[..|pat|] != pat
  {
    var s := a + pat + rest;
    if |a| >= |pat| {
      assert s[..|pat|] == a[..|pat|];
    } else {
      var k := |a|;
      assert s[..|pat|][k..] == pat[..|pat| - k];
      assert pat[k..] != pat[..|pat| - k];
    }
  }

  /** Dropping the first character keeps a text pattern-free. */
  lemma NotOccursTail(pat: string, a: string)
    requires !Occurs(pat, a) && a != []
    ensures !Occurs(pat, a[1..])
  {
  }

  /** A text that starts with the pattern has it replaced first. */
  lemma MatchFront(pat: string, v: string, rest: string)
    requires |pat| > 0
    ensures ReplaceAll(pat + rest, pat, v) == v + ReplaceAll(rest, pat, v)
  {
    assert (pat + rest)[..|pat|] == pat && (pat + rest)[|pat|..] == rest;
  }

  /** A text that does not start with the pattern keeps its first character. */
  lemma SkipFirst(s: string, pat: string, v: string)
    requires 0 < |pat| <= |s| && s[..|pat|] != pat
    ensures ReplaceAll(s, pat, v) == [s[0]] + ReplaceAll(s[1..], pat, v)
  {
  }

  /** A pattern-free prefix followed by one occurrence: the prefix is kept
      and the occurrence is replaced. */
  lemma {:induction false} ReplaceAfterFreePrefix(a: string, pat: string, v: string, rest: string)
    requires |pat| > 0 && Borderless(pat) && !Occurs(pat, a)
    ensures ReplaceAll(a + pat + rest, pat, v) == a + v + ReplaceAll(rest, pat, v)
    decreases |a|
  {
    var s := a + pat + rest;
    if a == [] {
      assert s == pat + rest;
      MatchFront(pat, v, rest);
    } else {
      NoMatchAtFront(a, pat, rest);
      SkipFirst(s, pat, v);
      NotOccursTail(pat, a);
      assert s[1..] == a[1..] + pat + rest;
      ReplaceAfterFreePrefix(a[1..], pat, v, rest);
      assert a == [a[0]] + a[1..];
    }
  }

  /** Reference meaning of `ReplaceAll`: a text cut into pattern-free pieces
      at the occurrences of a non-self-overlapping pattern comes out as the
      same pieces joined by the replacement. Everything between occurrences,
      placeholders of other keys included, is kept verbatim. */
  lemma {:induction false} ReplaceAllJoin(parts: seq<string>, pat: string, v: string)
    requires |pat| > 0 && Borderless(pat)
    requires forall i :: 0 <= i < |parts| ==> !Occurs(pat, parts[i])
    ensures ReplaceAll(Join(parts, pat), pat, v) == Join(parts, v)
    decreases |parts|
  {
    if |parts| == 1 {
    } else if |parts| > 1 {
      ReplaceAfterFreePrefix(parts[0], pat, v, Join(parts[1..], pat));
      ReplaceAllJoin(parts[1..], pat, v);
    }
  }

  /** The empty text has nothing to replace and no quotes to strip: it aborts
      whatever the replacements are. */
  lemma {:induction false} EmptyTextAborts(replacements: seq<(string, string)>)
    ensures ApplyAll("", replacements) == ""
    ensures SetReplacements("", replacements) == Panicked(MissingQuote(""))
    decreases |replacements|
  {
    if replacements != [] {
      EmptyTextAborts(replacements[1..]);
    }
  }

  /** `pat` occurs in `s` starting at index `i`. */
  predicate OccursAt(pat: string, s: string, i: int) {
    0 <= i <= |s| - |pat| && s[i..i + |pat|] == pat
  }

  /** An occurrence found by `Occurs` sits at some index of `s`. */
  lemma {:induction false} OccursWitness(pat: string, s: string)
    requires Occurs(pat, s)
    ensures exists i :: OccursAt(pat, s, i)
    decreases |s|
  {
    if s[..|pat|] == pat {
      assert OccursAt(pat, s, 0);
    } else {
      OccursWitness(pat, s[1..]);
      var i :| OccursAt(pat, s[1..], i);
      assert s[i + 1..i + 1 + |pat|] == s[1..][i..i + |pat|];
      assert OccursAt(pat, s, i + 1);
    }
  }

  /** Keys and values written without braces. */
  predicate BraceFree(s: string) {
    '{' !in s && '}' !in s
  }

  /** Without a '{' a text holds no placeholder at all. */
  lemma {:induction false} NoPlaceholderWithoutBrace(key: string, s: string)
    requires '{' !in s
    ensures !Occurs(Placeholder(key), s)
    decreases |s|
  {
    var pat := Placeholder(key);
    if |pat| <= |s| {
      assert s[..|pat|][0] != pat[0];
      NoPlaceholderWithoutBrace(key, s[1..]);
    }
  }

  /** A placeholder is not a prefix of a different placeholder followed by
      any text. */
  lemma PlaceholderNotPrefix(k1: string, k2: string, post: string)
    requires BraceFree(k1) && BraceFree(k2) && k1 != k2
    requires Placeholder(k1) != []
    ensures |Placeholder(k1)| <= |Placeholder(k2) + post| ==>
              (Placeholder(k2) + post)[..|Placeholder(k1)|] != Placeholder(k1)
  {
    var p1, t := Placeholder(k1), Placeholder(k2) + post;
    if |p1| <= |t| {
      if |k1| < |k2| {
        assert t[..|p1|][2 + |k1|] != p1[2 + |k1|];
      } else if |k1| > |k2| {
        assert t[..|p1|][2 + |k2|] != p1[2 + |k2|];
      } else {
        var n :| 0 <= n < |k1| && k1[n] != k2[n];
        assert t[..|p1|][2 + n] != p1[2 + n];
      }
    }
  }

  /** The placeholder of one brace-free key is never found inside the
      placeholder of another, whatever '{'-free text surrounds it. */
  lemma {:induction false} OtherPlaceholderAbsent(k1: string, k2: string, pre: string, post: string)
    requires BraceFree(k1) && BraceFree(k2) && k1 != k2
    requires '{' !in pre && '{' !in post
    ensures !Occurs(Placeholder(k1), pre + Placeholder(k2) + post)
    decreases |pre|
  {
    var p1, p2 := Placeholder(k1), Placeholder(k2);
    var s := pre + p2 + post;
    if |p1| <= |s| {
      if pre != [] {
        assert s[..|p1|][0] != p1[0];
        assert s[1..] == pre[1..] + p2 + post;
        OtherPlaceholderAbsent(k1, k2, pre[1..], post);
      } else {
        assert s == p2 + post;
        PlaceholderNotPrefix(k1, k2, post);
        var u := s[1..];
        assert u == "{" + (k2 + "}}" + post);
        NoPlaceholderWithoutBrace(k1, k2 + "}}" + post);
        assert u[1..] == k2 + "}}" + post;
        if |p1| <= |u| {
          assert u[..|p1|][1] != p1[1];
        }
      }
    }
  }

  /** No match of one brace-free key's placeholder starts inside, or at the
      start of, another brace-free key's placeholder. */
  lemma NoMatchInside(k1: string, k2: string, m: nat, b: string)
    requires BraceFree(k1) && BraceFree(k2) && k1 != k2 && m < |Placeholder(k2)|
    requires |Placeholder(k1)| <= |Placeholder(k2)[m..] + b|
    ensures (Placeholder(k2)[m..] + b)[..|Placeholder(k1)|] != Placeholder(k1)
  {
    var p1, p2 := Placeholder(k1), Placeholder(k2);
    var t := p2[m..] + b;
    if m == 0 {
      assert t == p2 + b;
      PlaceholderNotPrefix(k1, k2, b);
    } else if m == 1 {
      assert t[..|p1|][1] == p2[2] && p1[1] == '{';
    } else {
      assert t[..|p1|][0] == p2[m] && p1[0] == '{';
    }
  }

  /** Past the start of a brace-free key's placeholder no other brace-free
      key's placeholder begins: replacing that key walks through the token
      and leaves it as it is. */
  lemma {:induction false} PassPlaceholder(k1: string, v: string, k2: string, m: nat, b: string)
    requires BraceFree(k1) && BraceFree(k2) && k1 != k2 && m <= |Placeholder(k2)|
    ensures ReplaceAll(Placeholder(k2)[m..] + b, Placeholder(k1), v) == Placeholder(k2)[m..] + ReplaceAll(b, Placeholder(k1), v)
    decreases |Placeholder(k2)| - m
  {
    var p1, p2 := Placeholder(k1), Placeholder(k2);
    var x := p2[m..];
    if m == |p2| {
      assert x == [] && x + b == b;
    } else {
      if |p1| <= |x + b| {
        NoMatchInside(k1, k2, m, b);
      }
      PassPlaceholder(k1, v, k2, m + 1, b);
      assert x[1..] == p2[m + 1..];
      KeepThrough(p1, v, x, b);
    }
  }

  /** A text `x` in front of `b` none of whose positions starts a match is
      kept as it is, once its tail is known to be kept. */
  lemma KeepThrough(pat: string, v: string, x: string, b: string)
    requires |pat| > 0 && x != []
    requires |pat| <= |x + b| ==> (x + b)[..|pat|] != pat
    requires ReplaceAll(x[1..] + b, pat, v) == x[1..] + ReplaceAll(b, pat, v)
    ensures ReplaceAll(x + b, pat, v) == x + ReplaceAll(b, pat, v)
  {
    KeepFirst(pat, v, x + b);
    assert (x + b)[1..] == x[1..] + b;
    assert [x[0]] + x[1..] == x;
  }

  /** A match of one brace-free key's placeholder cannot start in a short
      text in front of another brace-free key's placeholder: it would have to
      cover one of that placeholder's opening braces. */
  lemma NoMatchAcross(k1: string, k2: string, a: string, b: string)
    requires BraceFree(k1) && BraceFree(k2)
    requires 1 <= |a| < |Placeholder(k1)| <= |a + Placeholder(k2) + b|
    ensures (a + Placeholder(k2) + b)[..|Placeholder(k1)|] != Placeholder(k1)
  {
    var p1, p2 := Placeholder(k1), Placeholder(k2);
    var s := a + p2 + b;
    if |a| >= 2 {
      assert s[..|p1|][|a|] == p2[0] == '{' != p1[|a|];
    } else {
      assert s[..|p1|][2] == p2[1] == '{' != p1[2];
    }
  }

  lemma Regroup(x: string, y: string, mid: string, z: string)
    ensures x + (y + mid + z) == (x + y) + mid + z
  {
  }

  /** A replacement that splits around `mid` after the first match of `a`
      also splits around it before that match. */
  lemma AroundMatch(pat: string, v: string, a: string, mid: string, b: string)
    requires |pat| > 0 && |pat| <= |a| && a[..|pat|] == pat
    requires ReplaceAll(a[|pat|..] + mid + b, pat, v)
          == ReplaceAll(a[|pat|..], pat, v) + mid + ReplaceAll(b, pat, v)
    ensures ReplaceAll(a + mid + b, pat, v) == ReplaceAll(a, pat, v) + mid + ReplaceAll(b, pat, v)
  {
    var s, a' := a + mid + b, a[|pat|..];
    assert s[..|pat|] == pat && s[|pat|..] == a' + mid + b;
    var x, rb := ReplaceAll(a', pat, v), ReplaceAll(b, pat, v);
    assert ReplaceAll(s, pat, v) == v + (x + mid + rb);
    assert ReplaceAll(a, pat, v) == v + x;
    Regroup(v, x, mid, rb);
  }

  /** Where no match starts at the front, the first character is kept. */
  lemma KeepFirst(pat: string, v: string, s: string)
    requires |pat| > 0 && s != [] && (|pat| <= |s| ==> s[..|pat|] != pat)
    ensures ReplaceAll(s, pat, v) == [s[0]] + ReplaceAll(s[1..], pat, v)
  {
    if |s| < |pat| {
      assert s == [s[0]] + s[1..];
    }
  }

  /** A replacement that splits around `mid` after the first character of
      `a` also splits around it with that character, when no match starts
      there. */
  lemma AroundSkip(pat: string, v: string, a: string, mid: string, b: string)
    requires |pat| > 0 && a != [] && |pat| <= |a + mid + b|
    requires (a + mid + b)[..|pat|] != pat
    requires ReplaceAll(a[1..] + mid + b, pat, v)
          == ReplaceAll(a[1..], pat, v) + mid + ReplaceAll(b, pat, v)
    ensures ReplaceAll(a + mid + b, pat, v) == ReplaceAll(a, pat, v) + mid + ReplaceAll(b, pat, v)
  {
    SkipFront(pat, v, a, mid, b);
    Regroup([a[0]], ReplaceAll(a[1..], pat, v), mid, ReplaceAll(b, pat, v));
  }

  /** When no match starts at the front of `a + mid + b`, replacing in it,
      and in `a` alone, keeps the first character of `a`. */
  lemma SkipFront(pat: string, v: string, a: string, mid: string, b: string)
    requires |pat| > 0 && a != [] && |pat| <= |a + mid + b|
    requires (a + mid + b)[..|pat|] != pat
    ensures ReplaceAll(a + mid + b, pat, v) == [a[0]] + ReplaceAll(a[1..] + mid + b, pat, v)
    ensures ReplaceAll(a, pat, v) == [a[0]] + ReplaceAll(a[1..], pat, v)
  {
    var s := a + mid + b;
    assert s[0] == a[0] && s[1..] == a[1..] + mid + b;
    KeepFirst(pat, v, s);
    if |pat| <= |a| {
      assert s[..|pat|] == a[..|pat|];
    }
    KeepFirst(pat, v, a);
  }

  /** Replacing one brace-free key keeps the placeholder of another
      brace-free key verbatim and treats the texts on either side of it
      independently. */
  lemma {:induction false} ReplaceAroundPlaceholder(k1: string, v: string, k2: string, a: string, b: string)
    requires BraceFree(k1) && BraceFree(k2) && k1 != k2
    ensures ReplaceAll(a + Placeholder(k2) + b, Placeholder(k1), v)
         == ReplaceAll(a, Placeholder(k1), v) + Placeholder(k2) + ReplaceAll(b, Placeholder(k1), v)
    decreases |a|
  {
    var p1, p2 := Placeholder(k1), Placeholder(k2);
    if a == [] {
      assert a + p2 + b == p2[0..] + b && p2[0..] == p2;
      PassPlaceholder(k1, v, k2, 0, b);
    } else if |a| >= |p1| && a[..|p1|] == p1 {
      ReplaceAroundPlaceholder(k1, v, k2, a[|p1|..], b);
      AroundMatch(p1, v, a, p2, b);
    } else if |a + p2 + b| < |p1| {
      assert ReplaceAll(a, p1, v) == a && ReplaceAll(b, p1, v) == b;
    } else {
      assert (a + p2 + b)[..|p1|] != p1 by {
        if |a| < |p1| {
          NoMatchAcross(k1, k2, a, b);
        } else {
          assert (a + p2 + b)[..|p1|] == a[..|p1|];
        }
      }
      ReplaceAroundPlaceholder(k1, v, k2, a[1..], b);
      AroundSkip(p1, v, a, p2, b);
    }
  }

  /** The keys of `replacements` are brace-free and differ from `k`. */
  predicate KeysAvoid(replacements: seq<(string, string)>, k: string) {
    forall i :: 0 <= i < |replacements| ==> BraceFree(replacements[i].0) && replacements[i].0 != k
  }

  /** A placeholder whose brace-free key is not in the map is kept verbatim:
      every pair is applied to the text in front of it and to the text after
      it, independently. */
  lemma {:induction false} AbsentKeyKept(a: string, k: string, b: string, replacements: seq<(string, string)>)
    requires BraceFree(k) && KeysAvoid(replacements, k)
    ensures ApplyAll(a + Placeholder(k) + b, replacements)
         == ApplyAll(a, replacements) + Placeholder(k) + ApplyAll(b, replacements)
    decreases |replacements|
  {
    if replacements != [] {
      var (k1, v) := replacements[0];
      assert BraceFree(k1) && k1 != k;
      ReplaceAroundPlaceholder(k1, v, k, a, b);
      assert KeysAvoid(replacements[1..], k);
      AbsentKeyKept(ReplaceAll(a, Placeholder(k1), v), k, ReplaceAll(b, Placeholder(k1), v), replacements[1..]);
    }
  }

  /** `pat` occurs in any text that holds it between two others. */
  lemma {:induction false} OccursBetween(pat: string, a: string, b: string)
    ensures Occurs(pat, a + pat + b)
    decreases |a|
  {
    var s := a + pat + b;
    if a == [] {
      assert s[..|pat|] == pat;
    } else {
      assert s[1..] == a[1..] + pat + b;
      OccursBetween(pat, a[1..], b);
    }
  }

  /** An unlisted brace-free key's placeholder that occurs in a text still
      occurs after all replacements. */
  lemma AbsentKeyOccurs(s: string, k: string, replacements: seq<(string, string)>)
    requires BraceFree(k) && KeysAvoid(replacements, k) && Occurs(Placeholder(k), s)
    ensures Occurs(Placeholder(k), ApplyAll(s, replacements))
  {
    var p := Placeholder(k);
    OccursWitness(p, s);
    var i :| OccursAt(p, s, i);
    var a, b := s[..i], s[i + |p|..];
    assert s == a + p + b;
    AbsentKeyKept(a, k, b, replacements);
    OccursBetween(p, ApplyAll(a, replacements), ApplyAll(b, replacements));
  }

  /** Joining texts without '{' with a separator without '{' gives a text
      without '{'. */
  lemma {:induction false} JoinNoBrace(parts: seq<string>, sep: string)
    requires forall i :: 0 <= i < |parts| ==> '{' !in parts[i]
    requires '{' !in sep
    ensures '{' !in Join(parts, sep)
    decreases |parts|
  {
    if |parts| > 1 {
      JoinNoBrace(parts[1..], sep);
    }
  }

  /** Replacing another brace-free key leaves brace-free parts joined by a
      key's placeholder unchanged. */
  lemma {:induction false} JoinKeepsOther(parts: seq<string>, k: string, k1: string, v: string)
    requires forall i :: 0 <= i < |parts| ==> BraceFree(parts[i])
    requires BraceFree(k) && BraceFree(k1) && k != k1
    ensures ReplaceAll(Join(parts, Placeholder(k)), Placeholder(k1), v) == Join(parts, Placeholder(k))
    decreases |parts|
  {
    var p, p1 := Placeholder(k), Placeholder(k1);
    if |parts| == 1 {
      NoPlaceholderWithoutBrace(k1, parts[0]);
    } else if |parts| > 1 {
      var tail := Join(parts[1..], p);
      assert Join(parts, p) == parts[0] + p + tail;
      ReplaceAroundPlaceholder(k1, v, k, parts[0], tail);
      NoPlaceholderWithoutBrace(k1, parts[0]);
      JoinKeepsOther(parts[1..], k, k1, v);
    }
  }

  /** A text without '{' holds the placeholder of no listed key. */
  lemma NoneListedOccur(s: string, replacements: seq<(string, string)>)
    requires '{' !in s
    ensures forall i :: 0 <= i < |replacements| ==> !Occurs(Placeholder(replacements[i].0), s)
  {
    forall i | 0 <= i < |replacements|
      ensures !Occurs(Placeholder(replacements[i].0), s)
    {
      NoPlaceholderWithoutBrace(replacements[i].0, s);
    }
  }

  /** The loop's real work: every placeholder of a listed key becomes the
      value of that key's first pair. Brace-free parts joined by the
      placeholder of `k` come out joined by `k`'s value, whatever the other
      pairs and their order, as long as all keys and values are brace-free. */
  lemma {:induction false} PresentKeyFilled(parts: seq<string>, k: string, replacements: seq<(string, string)>, j: nat)
    requires forall i :: 0 <= i < |parts| ==> BraceFree(parts[i])
    requires BraceFree(k)
    requires forall i :: 0 <= i < |replacements| ==> BraceFree(replacements[i].0) && BraceFree(replacements[i].1)
    requires j < |replacements| && replacements[j].0 == k
    requires forall i :: 0 <= i < j ==> replacements[i].0 != k
    ensures ApplyAll(Join(parts, Placeholder(k)), replacements) == Join(parts, replacements[j].1)
    decreases |replacements|
  {
    var p, head, tail := Placeholder(k), replacements[0], replacements[1..];
    var s := Join(parts, p);
    assert ApplyAll(s, replacements) == ApplyAll(ReplaceAll(s, Placeholder(head.0), head.1), tail);
    if j == 0 {
      forall i | 0 <= i < |parts|
        ensures !Occurs(p, parts[i])
      {
        NoPlaceholderWithoutBrace(k, parts[i]);
      }
      PlaceholderBorderless(k);
      ReplaceAllJoin(parts, p, head.1);
      JoinNoBrace(parts, head.1);
      NoneListedOccur(Join(parts, head.1), tail);
    } else {
      JoinKeepsOther(parts, k, head.0, head.1);
      PresentKeyFilled(parts, k, tail, j - 1);
    }
  }

  /** A paragraph text seen as a sequence of pieces: literal text, or the
      placeholder of a key. `"{{greeting}}, {{name}}!"` is
      `[Hole("greeting"), Text(", "), Hole("name"), Text("!")]`. */
  datatype Piece = Text(text: string) | Hole(key: string)

  /** The text of one piece. */
  function PieceText(piece: Piece): string {
    match piece
    case Text(t) => t
    case Hole(k) => Placeholder(k)
  }

  /** The text the pieces spell out. */
  function Render(pieces: seq<Piece>): string
    decreases |pieces|
  {
    if pieces == [] then [] else PieceText(pieces[0]) + Render(pieces[1..])
  }

  /** A literal text or a key written without braces. */
  predicate PieceBraceFree(piece: Piece) {
    match piece
    case Text(t) => BraceFree(t)
    case Hole(k) => BraceFree(k)
  }

  /** Literal texts and keys without braces: the only braces of the rendered
      text are those of its placeholders. */
  predicate PiecesBraceFree(pieces: seq<Piece>) {
    forall i :: 0 <= i < |pieces| ==> PieceBraceFree(pieces[i])
  }

  /** Every key and value of the map is written without braces. */
  predicate PairsBraceFree(replacements: seq<(string, string)>) {
    forall i :: 0 <= i < |replacements| ==> BraceFree(replacements[i].0) && BraceFree(replacements[i].1)
  }

  /** A hole of `key` turned into the literal `v`; any other piece kept. */
  function FillPiece(piece: Piece, key: string, v: string): Piece {
    if piece == Hole(key) then Text(v) else piece
  }

  /** Each hole of `key` turned into the literal `v`. */
  function Fill(pieces: seq<Piece>, key: string, v: string): seq<Piece> {
    seq(|pieces|, i requires 0 <= i < |pieces| => FillPiece(pieces[i], key, v))
  }

  /** The pairs filled in one after another, in sequence order. */
  function FillAll(pieces: seq<Piece>, replacements: seq<(string, string)>): seq<Piece>
    decreases |replacements|
  {
    if replacements == [] then pieces
    else FillAll(Fill(pieces, replacements[0].0, replacements[0].1), replacements[1..])
  }

  /** `j` is the position of `key`'s first pair. */
  predicate FirstPair(replacements: seq<(string, string)>, key: string, j: int) {
    0 <= j < |replacements| && replacements[j].0 == key && forall l :: 0 <= l < j ==> replacements[l].0 != key
  }

  /** No pair has `key`. */
  predicate Unlisted(replacements: seq<(string, string)>, key: string) {
    forall j :: 0 <= j < |replacements| ==> replacements[j].0 != key
  }

  /** A brace-free front passes through a replacement of any pattern that
      starts with '{' unchanged. */
  lemma {:induction false} FreeFront(x: string, y: string, pat: string, v: string)
    requires |pat| > 0 && pat[0] == '{' && '{' !in x
    ensures ReplaceAll(x + y, pat, v) == x + ReplaceAll(y, pat, v)
    decreases |x|
  {
    var s := x + y;
    if x == [] {
      assert s == y;
    } else if |s| < |pat| {
      assert ReplaceAll(s, pat, v) == s && ReplaceAll(y, pat, v) == y;
    } else {
      assert s[..|pat|][0] == x[0];
      SkipFirst(s, pat, v);
      assert s[1..] == x[1..] + y;
      FreeFront(x[1..], y, pat, v);
      assert x == [x[0]] + x[1..];
    }
  }

  /** One pair applied to a brace-free piece in front of any text: the piece
      is filled on its own and the rest is replaced after it. */
  lemma FillFront(piece: Piece, key: string, v: string, rest: string)
    requires PieceBraceFree(piece) && BraceFree(key)
    ensures ReplaceAll(PieceText(piece) + rest, Placeholder(key), v)
         == PieceText(FillPiece(piece, key, v)) + ReplaceAll(rest, Placeholder(key), v)
  {
    var p := Placeholder(key);
    match piece
    case Text(t) =>
      FreeFront(t, rest, p, v);
    case Hole(k) =>
      if k == key {
        MatchFront(p, v, rest);
      } else {
        ReplaceAroundPlaceholder(key, v, k, [], rest);
        assert [] + Placeholder(k) + rest == Placeholder(k) + rest;
      }
  }

  /** One pair applied to a text of brace-free pieces fills exactly the holes
      of its key and keeps every other piece. */
  lemma {:induction false} FillStep(pieces: seq<Piece>, key: string, v: string)
    requires PiecesBraceFree(pieces) && BraceFree(key)
    ensures ReplaceAll(Render(pieces), Placeholder(key), v) == Render(Fill(pieces, key, v))
    decreases |pieces|
  {
    if pieces != [] {
      var tail := pieces[1..];
      assert PiecesBraceFree(tail) by {
        forall i | 0 <= i < |tail|
          ensures PieceBraceFree(tail[i])
        {
          assert tail[i] == pieces[i + 1];
        }
      }
      FillStep(tail, key, v);
      FillFront(pieces[0], key, v, Render(tail));
      var filled := Fill(pieces, key, v);
      assert filled[0] == FillPiece(pieces[0], key, v) && filled[1..] == Fill(tail, key, v);
    }
  }

  /** The loop over the map, for any template whose only braces are its
      placeholders and any map of brace-free keys and values: the text comes
      out as the template with every pair filled in. */
  lemma {:induction false} FillTemplate(pieces: seq<Piece>, replacements: seq<(string, string)>)
    requires PiecesBraceFree(pieces) && PairsBraceFree(replacements)
    ensures ApplyAll(Render(pieces), replacements) == Render(FillAll(pieces, replacements))
    decreases |replacements|
  {
    if replacements != [] {
      var (k, v) := replacements[0];
      assert BraceFree(k) && BraceFree(v);
      FillStep(pieces, k, v);
      var filled := Fill(pieces, k, v);
      assert PiecesBraceFree(filled) by {
        forall i | 0 <= i < |filled|
          ensures PieceBraceFree(filled[i])
        {
          assert PieceBraceFree(pieces[i]);
        }
      }
      assert PairsBraceFree(replacements[1..]) by {
        forall i | 0 <= i < |replacements| - 1
          ensures BraceFree(replacements[1..][i].0) && BraceFree(replacements[1..][i].1)
        {
          assert replacements[1..][i] == replacements[i + 1];
        }
      }
      FillTemplate(filled, replacements[1..]);
    }
  }

  /** What filling does to one piece: a literal is kept, a hole of an
      unlisted key is kept, and a hole of a listed key becomes the value of
      that key's first pair. */
  lemma {:induction false} FillAllMeaning(pieces: seq<Piece>, replacements: seq<(string, string)>, i: nat)
    requires i < |pieces|
    ensures |FillAll(pieces, replacements)| == |pieces|
    ensures pieces[i].Text? ==> FillAll(pieces, replacements)[i] == pieces[i]
    ensures pieces[i].Hole? && Unlisted(replacements, pieces[i].key) ==> FillAll(pieces, replacements)[i] == pieces[i]
    ensures forall j :: pieces[i].Hole? && FirstPair(replacements, pieces[i].key, j)
              ==> FillAll(pieces, replacements)[i] == Text(replacements[j].1)
    decreases |replacements|
  {
    if replacements != [] {
      var (k, v) := replacements[0];
      var tail := replacements[1..];
      var filled := Fill(pieces, k, v);
      FillAllMeaning(filled, tail, i);
      if pieces[i] == Hole(k) {
        assert FirstPair(replacements, k, 0);
        forall j | FirstPair(replacements, k, j)
          ensures j == 0
        {
        }
      } else if pieces[i].Hole? {
        forall j | FirstPair(replacements, pieces[i].key, j)
          ensures FirstPair(tail, pieces[i].key, j - 1)
        {
        }
        assert Unlisted(replacements, pieces[i].key) ==> Unlisted(tail, pieces[i].key);
      }
    }
  }

  /** The keys of the pairs are pairwise distinct, as the keys of a hash map
      are. */
  predicate DistinctKeys(replacements: seq<(string, string)>) {
    forall i, j :: 0 <= i < j < |replacements| ==> replacements[i].0 != replacements[j].0
  }

  /** With distinct keys, the first pair of a key is the pair with that key. */
  lemma PairIsFirst(replacements: seq<(string, string)>, j: nat)
    requires DistinctKeys(replacements) && j < |replacements|
    ensures FirstPair(replacements, replacements[j].0, j)
  {
  }

  /** Rendering distributes over concatenation. */
  lemma {:induction false} RenderAppend(a: seq<Piece>, b: seq<Piece>)
    ensures Render(a + b) == Render(a) + Render(b)
    decreases |a|
  {
    if a == [] {
      assert a + b == b;
    } else {
      assert (a + b)[0] == a[0] && (a + b)[1..] == a[1..] + b;
      RenderAppend(a[1..], b);
    }
  }

  /** The pieces between two literal double quotes. */
  function QuotedPieces(pieces: seq<Piece>): seq<Piece> {
    [Text("\"")] + pieces + [Text("\"")]
  }

  lemma RenderQuoted(pieces: seq<Piece>)
    ensures Render(QuotedPieces(pieces)) == Quote(Render(pieces))
  {
    var q := [Text("\"")];
    RenderAppend(q + pieces, q);
    RenderAppend(q, pieces);
    assert Render(q) == "\"" by {
      assert q[1..] == [];
    }
  }

  /** Filling never touches the literal quotes around a template. */
  lemma {:induction false} FillAllQuoted(pieces: seq<Piece>, replacements: seq<(string, string)>)
    ensures FillAll(QuotedPieces(pieces), replacements) == QuotedPieces(FillAll(pieces, replacements))
    decreases |replacements|
  {
    if replacements != [] {
      var (k, v) := replacements[0];
      assert Fill(QuotedPieces(pieces), k, v) == QuotedPieces(Fill(pieces, k, v));
      FillAllQuoted(Fill(pieces, k, v), replacements[1..]);
    }
  }

  /** What `set_replacements` promises for a quoted template whose only
      braces are its placeholders, with brace-free keys and values: the call
      succeeds, and the drawn text is the template with every hole of a
      listed key filled by that key's first value (`FillAllMeaning`). */
  lemma DrawTemplate(pieces: seq<Piece>, replacements: seq<(string, string)>)
    requires PiecesBraceFree(pieces) && PairsBraceFree(replacements)
    ensures SetReplacements(Quote(Render(pieces)), replacements) == Done(Render(FillAll(pieces, replacements)))
  {
    var qs := QuotedPieces(pieces);
    assert PiecesBraceFree(qs) by {
      forall i | 0 <= i < |qs|
        ensures PieceBraceFree(qs[i])
      {
        if 0 < i < |qs| - 1 {
          assert qs[i] == pieces[i - 1];
        }
      }
    }
    RenderQuoted(pieces);
    FillTemplate(qs, replacements);
    FillAllQuoted(pieces, replacements);
    RenderQuoted(FillAll(pieces, replacements));
    StripQuotesInvertsQuote(Render(FillAll(pieces, replacements)));
  }

  /** Filling keeps the number of pieces. */
  lemma FillAllLength(pieces: seq<Piece>, replacements: seq<(string, string)>)
    ensures |FillAll(pieces, replacements)| == |pieces|
    decreases |replacements|
  {
    if replacements != [] {
      FillAllLength(Fill(pieces, replacements[0].0, replacements[0].1), replacements[1..]);
    }
  }

  /** A pair of one ordering sits somewhere in any other ordering. */
  lemma PairIn(m1: seq<(string, string)>, m2: seq<(string, string)>, j1: nat) returns (j2: nat)
    requires multiset(m1) == multiset(m2) && j1 < |m1|
    ensures j2 < |m2| && m2[j2] == m1[j1]
  {
    assert m1[j1] in multiset(m2);
    j2 :| j2 < |m2| && m2[j2] == m1[j1];
  }

  /** A key missing from one ordering is missing from any other. */
  lemma UnlistedIn(m1: seq<(string, string)>, m2: seq<(string, string)>, key: string)
    requires multiset(m1) == multiset(m2) && Unlisted(m1, key)
    ensures Unlisted(m2, key)
  {
    forall j | 0 <= j < |m2|
      ensures m2[j].0 != key
    {
      var j1 := PairIn(m2, m1, j);
    }
  }

  /** Two orderings of the same pairs with distinct keys fill each piece
      alike. */
  lemma SamePiece(pieces: seq<Piece>, m1: seq<(string, string)>, m2: seq<(string, string)>, i: nat)
    requires DistinctKeys(m1) && DistinctKeys(m2) && multiset(m1) == multiset(m2) && i < |pieces|
    ensures |FillAll(pieces, m1)| == |pieces| == |FillAll(pieces, m2)|
    ensures FillAll(pieces, m1)[i] == FillAll(pieces, m2)[i]
  {
    FillAllMeaning(pieces, m1, i);
    FillAllMeaning(pieces, m2, i);
    if pieces[i].Hole? {
      var k := pieces[i].key;
      if j1 :| 0 <= j1 < |m1| && m1[j1].0 == k {
        var j2 := PairIn(m1, m2, j1);
        PairIsFirst(m1, j1);
        PairIsFirst(m2, j2);
      } else {
        UnlistedIn(m1, m2, k);
      }
    }
  }

  /** For a hash map's pairs, iteration order does not matter on a template
      whose only braces are its placeholders: any two orders of the same
      brace-free pairs draw the same text. */
  lemma {:induction false} OrderFree(pieces: seq<Piece>, m1: seq<(string, string)>, m2: seq<(string, string)>)
    requires PiecesBraceFree(pieces) && PairsBraceFree(m1) && PairsBraceFree(m2)
    requires DistinctKeys(m1) && DistinctKeys(m2) && multiset(m1) == multiset(m2)
    ensures ApplyAll(Render(pieces), m1) == ApplyAll(Render(pieces), m2)
  {
    FillTemplate(pieces, m1);
    FillTemplate(pieces, m2);
    FillAllLength(pieces, m1);
    FillAllLength(pieces, m2);
    forall i | 0 <= i < |pieces|
      ensures FillAll(pieces, m1)[i] == FillAll(pieces, m2)[i]
    {
      SamePiece(pieces, m1, m2, i);
    }
    assert FillAll(pieces, m1) == FillAll(pieces, m2);
  }

  lemma JoinTwo(a: string, b: string, sep: string)
    ensures Join([a, b], sep) == a + sep + b
  {
    assert [a, b][1..] == [b];
  }

  /** `ReplaceAllJoin` for two pieces around one placeholder. */
  lemma FillBetween(k: string, v: string, a: string, b: string)
    requires '{' !in k && !Occurs(Placeholder(k), a) && !Occurs(Placeholder(k), b)
    ensures ReplaceAll(Join([a, b], Placeholder(k)), Placeholder(k), v) == Join([a, b], v)
  {
    PlaceholderBorderless(k);
    ReplaceAllJoin([a, b], Placeholder(k), v);
  }

  lemma QuoteLeading(x: string, rest: string)
    ensures Quote(x + rest) == Join(["\"", rest + "\""], x)
  {
    JoinTwo("\"", rest + "\"", x);
  }

  lemma QuoteTrailing(pre: string, x: string)
    ensures Quote(pre + x) == Join(["\"" + pre, "\""], x)
  {
    JoinTwo("\"" + pre, "\"", x);
  }

  /** Filling a placeholder at the start of a quoted text. */
  lemma FillLeading(k: string, v: string, rest: string)
    requires '{' !in k && !Occurs(Placeholder(k), rest + "\"")
    ensures ReplaceAll(Quote(Placeholder(k) + rest), Placeholder(k), v) == Quote(v + rest)
  {
    NoPlaceholderWithoutBrace(k, "\"");
    FillBetween(k, v, "\"", rest + "\"");
    QuoteLeading(Placeholder(k), rest);
    QuoteLeading(v, rest);
  }

  /** Filling a placeholder at the end of a quoted text. */
  lemma FillTrailing(k: string, v: string, pre: string)
    requires '{' !in k && !Occurs(Placeholder(k), "\"" + pre)
    ensures ReplaceAll(Quote(pre + Placeholder(k)), Placeholder(k), v) == Quote(pre + v)
  {
    NoPlaceholderWithoutBrace(k, "\"");
    FillBetween(k, v, "\"" + pre, "\"");
    QuoteTrailing(pre, Placeholder(k));
    QuoteTrailing(pre, v);
  }

  lemma ApplyOne(s: string, a: (string, string))
    ensures ApplyAll(s, [a]) == ReplaceAll(s, Placeholder(a.0), a.1)
  {
    assert [a][1..] == [];
  }

  lemma ApplyTwo(s: string, a: (string, string), b: (string, string))
    ensures ApplyAll(s, [a, b]) == ReplaceAll(ReplaceAll(s, Placeholder(a.0), a.1), Placeholder(b.0), b.1)
  {
    assert [a, b][1..] == [b];
    ApplyOne(ReplaceAll(s, Placeholder(a.0), a.1), b);
  }

  /** Filling `k1` then `k2` in `"{{k1}}{{k2}}"`. */
  lemma FillInOrder(k1: string, v1: string, k2: string, v2: string)
    requires BraceFree(k1) && BraceFree(k2) && k1 != k2 && '{' !in v1
    ensures ApplyAll(Quote(Placeholder(k1) + Placeholder(k2)), [(k1, v1), (k2, v2)]) == Quote(v1 + v2)
  {
    OtherPlaceholderAbsent(k1, k2, [], "\"");
    assert [] + Placeholder(k2) + "\"" == Placeholder(k2) + "\"";
    FillLeading(k1, v1, Placeholder(k2));
    NoPlaceholderWithoutBrace(k2, "\"" + v1);
    FillTrailing(k2, v2, v1);
    ApplyTwo(Quote(Placeholder(k1) + Placeholder(k2)), (k1, v1), (k2, v2));
  }

  /** Filling `k2` then `k1` in `"{{k1}}{{k2}}"`. */
  lemma FillReversed(k1: string, v1: string, k2: string, v2: string)
    requires BraceFree(k1) && BraceFree(k2) && k1 != k2 && '{' !in v2
    ensures ApplyAll(Quote(Placeholder(k1) + Placeholder(k2)), [(k2, v2), (k1, v1)]) == Quote(v1 + v2)
  {
    OtherPlaceholderAbsent(k2, k1, "\"", []);
    assert "\"" + Placeholder(k1) + [] == "\"" + Placeholder(k1);
    FillTrailing(k2, v2, Placeholder(k1));
    NoPlaceholderWithoutBrace(k1, v2 + "\"");
    FillLeading(k1, v1, v2);
    ApplyTwo(Quote(Placeholder(k1) + Placeholder(k2)), (k2, v2), (k1, v1));
  }

  /** Two brace-free placeholders side by side are both filled, and the order
      in which the two keys are applied does not matter. */
  lemma TwoPlaceholders(k1: string, v1: string, k2: string, v2: string)
    requires BraceFree(k1) && BraceFree(k2) && k1 != k2
    requires '{' !in v1 && '{' !in v2
    ensures SetReplacements(Quote(Placeholder(k1) + Placeholder(k2)), [(k1, v1), (k2, v2)]) == Done(v1 + v2)
    ensures SetReplacements(Quote(Placeholder(k1) + Placeholder(k2)), [(k2, v2), (k1, v1)]) == Done(v1 + v2)
  {
    FillInOrder(k1, v1, k2, v2);
    FillReversed(k1, v1, k2, v2);
    StripQuotesInvertsQuote(v1 + v2);
  }

  /** The interpolation example's paragraph text and replacement map. */
  const HelloTemplate: string := "\"{{hello}}{{world}}\""
  const HelloMap: seq<(string, string)> := [("hello", "Hello, "), ("world", "World!")]

  /** The interpolation example: `"{{hello}}{{world}}"` with hello mapped to
      `Hello, ` and world to `World!` draws `Hello, World!`. */
  lemma HelloWorld()
    ensures SetReplacements(HelloTemplate, HelloMap) == Done("Hello, World!")
  {
    var k1, v1, k2, v2 := "hello", "Hello, ", "world", "World!";
    HelloExampleShape(k1, v1, k2, v2);
    TwoPlaceholders(k1, v1, k2, v2);
  }

  /** The map's iteration order can matter: when filling one key with the
      empty text joins the delimiters around it into another key's
      placeholder, only the order that fills the inner key first fills both.
      For keys `a` and `b`, the text `"{{{{a}}b}}"` draws `v` in one order and
      `{{b}}` in the other. */
  lemma MapOrderMatters(ka: string, kb: string, v: string)
    requires BraceFree(ka) && BraceFree(kb) && ka != kb
    ensures var t := Quote("{{" + Placeholder(ka) + kb + "}}");
      && SetReplacements(t, [(ka, ""), (kb, v)]) == Done(v)
      && SetReplacements(t, [(kb, v), (ka, "")]) == Done(Placeholder(kb))
  {
    var pa, pb := Placeholder(ka), Placeholder(kb);
    var pre, post := "\"{{", kb + "}}\"";
    var t := Quote("{{" + pa + kb + "}}");
    assert t == pre + pa + post;
    var filled := Quote(pb);
    assert filled == pre + post;
    // Filling `ka` turns the text into the quoted placeholder of `kb`.
    JoinTwo(pre, post, pa);
    JoinTwo(pre, post, "");
    NoPlaceholderWithoutBrace(ka, post);
    PlaceholderBorderless(ka);
    ReplaceAllJoin([pre, post], pa, "");
    assert ReplaceAll(t, pa, "") == filled;
    JoinTwo("\"", "\"", pb);
    JoinTwo("\"", "\"", v);
    PlaceholderBorderless(kb);
    ReplaceAllJoin(["\"", "\""], pb, v);
    assert ReplaceAll(filled, pb, v) == Quote(v);
    ApplyTwo(t, (ka, ""), (kb, v));
    StripQuotesInvertsQuote(v);
    // Filling `kb` first finds nothing, and filling `ka` then leaves it unfilled.
    ReplaceAroundPlaceholder(kb, v, ka, pre, post);
    NoPlaceholderWithoutBrace(kb, post);
    assert ReplaceAll(t, pb, v) == t;
    ApplyTwo(t, (kb, v), (ka, ""));
    StripQuotesInvertsQuote(pb);
  }

  lemma HelloExampleShape(k1: string, v1: string, k2: string, v2: string)
    requires k1 == "hello" && v1 == "Hello, " && k2 == "world" && v2 == "World!"
    ensures HelloTemplate == Quote(Placeholder(k1) + Placeholder(k2))
    ensures HelloMap == [(k1, v1), (k2, v2)]
    ensures BraceFree(k1) && BraceFree(k2) && k1 != k2 && '{' !in v1 && '{' !in v2
    ensures v1 + v2 == "Hello, World!"
  {
  }
}
