/**
 * The handful of Python string operations the styling pipeline is built
 * from: whitespace stripping, prefix/suffix tests, substring search,
 * `str.replace`, `str.split` on one character and `str.join`.
 * Whitespace is Python's ASCII whitespace set.
 */
module Text {

  /** The characters Python's `str.strip()` and the regex class `\s` treat as
      whitespace in ASCII text: space, tab, the line breaks `\n`, `\v`,
      `\f` and `\r`, and the separators U+001C to U+001F. */
  predicate IsSpace(c: char) {
    c == ' ' || c == '\t' || c == '\n' || c == '\r' || c == '\U{0B}' || c == '\U{0C}' ||
    ('\U{1C}' <= c <= '\U{1F}')
  }

  predicate AllSpace(s: string) {
    forall i :: 0 <= i < |s| ==> IsSpace(s[i])
  }

  /** No leading and no trailing whitespace: what `strip()` guarantees. */
  predicate IsStripped(s: string) {
    s == [] || (!IsSpace(s[0]) && !IsSpace(s[|s| - 1]))
  }

  /** `s.lstrip()` */
  function LStrip(s: string): (r: string)
    ensures |r| <= |s|
    ensures r == [] || !IsSpace(r[0])
  {
    if s == [] || !IsSpace(s[0]) then s else LStrip(s[1..])
  }

  /** `lstrip()` keeps a suffix of the text: it only removes characters. */
  lemma {:induction false} LStripSuffix(s: string)
    ensures LStrip(s) == s[|s| - |LStrip(s)|..]
    decreases |s|
  {
    if s != [] && IsSpace(s[0]) {
      LStripSuffix(s[1..]);
      assert s[1..][|s| - 1 - |LStrip(s)|..] == s[|s| - |LStrip(s)|..];
    }
  }

  /** `s.rstrip()` */
  function RStrip(s: string): (r: string)
    ensures |r| <= |s|
    ensures r == [] || !IsSpace(r[|r| - 1])
  {
    if s == [] || !IsSpace(s[|s| - 1]) then s else RStrip(s[..|s| - 1])
  }

  /** `rstrip()` keeps a prefix of the text. */
  lemma {:induction false} RStripPrefix(s: string)
    ensures RStrip(s) == s[..|RStrip(s)|]
    decreases |s|
  {
    if s != [] && IsSpace(s[|s| - 1]) {
      RStripPrefix(s[..|s| - 1]);
      assert s[..|s| - 1][..|RStrip(s)|] == s[..|RStrip(s)|];
    }
  }

  /** `s.strip()` */
  function Strip(s: string): (r: string)
    ensures IsStripped(r)
    ensures |r| <= |s|
  {
    var l := LStrip(s);
    var r := RStrip(l);
    RStripPrefix(l);
    assert r != [] ==> r[0] == l[0];
    r
  }

  lemma LStripOfStripped(s: string)
    requires s == [] || !IsSpace(s[0])
    ensures LStrip(s) == s
  {
  }

  lemma RStripOfStripped(s: string)
    requires s == [] || !IsSpace(s[|s| - 1])
    ensures RStrip(s) == s
  {
  }

  /** Stripping a string that already has no outer whitespace changes nothing. */
  lemma StripOfStripped(s: string)
    requires IsStripped(s)
    ensures Strip(s) == s
  {
    LStripOfStripped(s);
    RStripOfStripped(s);
  }

  /** A run of leading whitespace is dropped by `strip()`. */
  lemma {:induction false} StripPadded(w: string, s: string)
    requires AllSpace(w) && IsStripped(s)
    ensures Strip(w + s) == s
  {
    if w == [] {
      assert w + s == s;
      StripOfStripped(s);
    } else {
      assert (w + s)[1..] == w[1..] + s;
      StripPadded(w[1..], s);
    }
  }

  /** Trailing whitespace is dropped by `rstrip()`. */
  lemma {:induction false} RStripPadded(s: string, w: string)
    requires AllSpace(w) && (s == [] || !IsSpace(s[|s| - 1]))
    ensures RStrip(s + w) == s
    decreases |w|
  {
    if w == [] {
      assert s + w == s;
    } else {
      assert (s + w)[..|s + w| - 1] == s + w[..|w| - 1];
      RStripPadded(s, w[..|w| - 1]);
    }
  }

  /** Whitespace on both sides of a stripped text is dropped by `strip()`. */
  lemma StripSurrounded(w1: string, s: string, w2: string)
    requires AllSpace(w1) && IsStripped(s) && AllSpace(w2)
    ensures Strip(w1 + s + w2) == s
  {
    if s == [] {
      assert AllSpace(w1 + s + w2);
      AllSpaceStrips(w1 + s + w2);
    } else {
      assert w1 + s + w2 == w1 + (s + w2);
      LStripBefore(w1, s + w2);
      AllSpaceStrips(w1);
      assert LStrip(w1) + (s + w2) == s + w2;
      RStripPadded(s, w2);
    }
  }

  /** Text made only of whitespace strips to nothing. */
  lemma {:induction false} AllSpaceStrips(s: string)
    requires AllSpace(s)
    ensures LStrip(s) == [] && Strip(s) == []
    decreases |s|
  {
    if s != [] {
      AllSpaceStrips(s[1..]);
    }
  }

  /** Left-stripping text that ends with a stripped, non-empty part strips
      only the part in front of it. */
  lemma {:induction false} LStripBefore(w: string, a: string)
    requires a != [] && !IsSpace(a[0])
    ensures LStrip(w + a) == LStrip(w) + a
    decreases |w|
  {
    if w == [] {
      assert w + a == a;
    } else if IsSpace(w[0]) {
      assert (w + a)[1..] == w[1..] + a;
      LStripBefore(w[1..], a);
    }
  }

  /** Right-stripping never cuts into a part that ends with a non-space. */
  lemma {:induction false} RStripKeeps(x: string, y: string)
    requires x != [] && !IsSpace(x[|x| - 1])
    ensures StartsWith(RStrip(x + y), x)
    decreases |y|
  {
    if y == [] {
      assert x + y == x;
    } else if IsSpace(y[|y| - 1]) {
      assert (x + y)[..|x + y| - 1] == x + y[..|y| - 1];
      RStripKeeps(x, y[..|y| - 1]);
    } else {
      assert (x + y)[..|x|] == x;
    }
  }

  /** Stripping text that ends with a stripped, non-empty part keeps that
      part whole at the end. */
  lemma StripBefore(w: string, a: string)
    requires a != [] && IsStripped(a)
    ensures Strip(w + a) == LStrip(w) + a
  {
    var t := LStrip(w) + a;
    LStripBefore(w, a);
    assert !IsSpace(t[|t| - 1]) by {
      assert t[|t| - 1] == a[|a| - 1];
    }
    RStripOfStripped(t);
    assert Strip(w + a) == RStrip(t);
  }

  /** Stripping text that starts with a non-space and ends in a non-space
      part keeps that prefix. */
  lemma StripKeepsPrefix(x: string, y: string)
    requires x != [] && !IsSpace(x[0]) && !IsSpace(x[|x| - 1])
    ensures StartsWith(Strip(x + y), x)
  {
    LStripOfStripped(x + y);
    RStripKeeps(x, y);
  }

  /** A text that starts with `p` contains it, and so does anything that
      starts with that text. */
  lemma ContainsPrefixOf(s: string, t: string, p: string)
    requires StartsWith(t, s) && Contains(s, p)
    ensures Contains(t, p)
  {
    assert t == s + t[|s|..];
    ContainsAppend(s, t[|s|..], p);
  }

  /** `s.startswith(p)` */
  predicate StartsWith(s: string, p: string) {
    |p| <= |s| && s[..|p|] == p
  }

  /** `s.endswith(p)` */
  predicate EndsWith(s: string, p: string) {
    |p| <= |s| && s[|s| - |p|..] == p
  }

  /** `p` occurs in `s` starting at index `i`. */
  predicate OccursAt(s: string, i: int, p: string) {
    0 <= i && i + |p| <= |s| && s[i..i + |p|] == p
  }

  /** `p in s`: `p` occurs at the head of `s` or further on. */
  predicate Contains(s: string, p: string)
    decreases |s|
  {
    StartsWith(s, p) || (s != [] && Contains(s[1..], p))
  }

  /** An occurrence at any index is an occurrence. */
  lemma {:induction false} ContainsAt(s: string, i: nat, p: string)
    requires OccursAt(s, i, p)
    ensures Contains(s, p)
    decreases i
  {
    if i > 0 {
      assert s[1..][i - 1..i - 1 + |p|] == s[i..i + |p|];
      ContainsAt(s[1..], i - 1, p);
    }
  }

  /** An occurrence has an index. */
  lemma {:induction false} ContainsWitness(s: string, p: string) returns (i: nat)
    requires Contains(s, p)
    ensures OccursAt(s, i, p)
    decreases |s|
  {
    if StartsWith(s, p) {
      i := 0;
    } else {
      var j := ContainsWitness(s[1..], p);
      assert s[1..][j..j + |p|] == s[j + 1..j + 1 + |p|];
      i := j + 1;
    }
  }

  lemma {:induction false} ContainsAppend(s: string, t: string, p: string)
    requires Contains(s, p)
    ensures Contains(s + t, p)
    decreases |s|
  {
    if StartsWith(s, p) {
      assert (s + t)[..|p|] == s[..|p|];
    } else {
      assert (s + t)[1..] == s[1..] + t;
      ContainsAppend(s[1..], t, p);
    }
  }

  lemma {:induction false} ContainsSuffix(s: string, p: string)
    ensures Contains(s + p, p)
    decreases |s|
  {
    if s == [] {
      assert s + p == p;
      assert StartsWith(p, p);
    } else {
      assert (s + p)[1..] == s[1..] + p;
      ContainsSuffix(s[1..], p);
    }
  }

  /** A pattern whose first character is absent from the text does not occur in it. */
  lemma {:induction false} FirstCharAbsent(s: string, p: string)
    requires p != [] && p[0] !in s
    ensures !Contains(s, p)
    decreases |s|
  {
    if s != [] {
      assert s[0] != p[0];
      assert p[0] !in s[1..];
      FirstCharAbsent(s[1..], p);
    }
  }

  /** A pattern longer than the text never occurs in it. */
  lemma {:induction false} NotContainsLonger(s: string, p: string)
    requires |s| < |p|
    ensures !Contains(s, p)
    decreases |s|
  {
    if s != [] {
      NotContainsLonger(s[1..], p);
    }
  }

  /** Python's `s.replace(pat, rep)`: every non-overlapping occurrence of
      `pat`, scanning left to right, becomes `rep`. Every call in the
      system passes a non-empty literal `pat`. */
  function Replace(s: string, pat: string, rep: string): (r: string)
    requires pat != []
    decreases |s|
  {
    if |s| < |pat| then s
    else if s[..|pat|] == pat then rep + Replace(s[|pat|..], pat, rep)
    else [s[0]] + Replace(s[1..], pat, rep)
  }

  /** Replacing a pattern that does not occur leaves the text as it was. */
  lemma {:induction false} ReplaceAbsent(s: string, pat: string, rep: string)
    requires pat != [] && !Contains(s, pat)
    ensures Replace(s, pat, rep) == s
    decreases |s|
  {
    if |s| < |pat| {
    } else {
      ReplaceAbsent(s[1..], pat, rep);
    }
  }

  /** Replacing in a text whose only occurrence is a trailing one: the text
      before it cannot hold the pattern's first character. */
  lemma {:induction false} ReplaceTrailing(s: string, pat: string, rep: string)
    requires pat != [] && pat[0] !in s
    ensures Replace(s + pat, pat, rep) == s + rep
    decreases |s|
  {
    if s == [] {
      assert s + pat == pat + [];
      ReplaceHead(s + pat, pat, rep, []);
    } else {
      assert (s + pat)[0] == s[0] && s[0] != pat[0];
      assert (s + pat)[1..] == s[1..] + pat;
      ReplaceTrailing(s[1..], pat, rep);
    }
  }

  /** Replacing where the text starts with the pattern. */
  lemma ReplaceHead(s: string, pat: string, rep: string, rest: string)
    requires pat != [] && s == pat + rest
    ensures Replace(s, pat, rep) == rep + Replace(rest, pat, rep)
  {
    assert s[..|pat|] == pat;
    assert s[|pat|..] == rest;
  }

  /** Replacing a one-character pattern puts `rep` between the pieces the
      text splits into at that character. */
  lemma {:induction false} ReplaceCharIsJoin(s: string, c: char, rep: string)
    ensures Replace(s, [c], rep) == Join(Split(s, c), rep)
    decreases |s|
  {
    if s != [] {
      ReplaceCharIsJoin(s[1..], c, rep);
      var t := Split(s[1..], c);
      if s[0] == c {
        assert s[..1] == [c];
        JoinCons("", t, rep);
      } else {
        assert s[..1] != [c];
        JoinPrefix([s[0]], t, rep);
      }
    }
  }

  /** Replacing a character by a longer text never shortens the text, and
      lengthens it when the character occurs. */
  lemma {:induction false} ReplaceCharGrows(s: string, c: char, rep: string)
    requires |rep| >= 1
    ensures |Replace(s, [c], rep)| >= |s|
    ensures c in s && |rep| > 1 ==> |Replace(s, [c], rep)| > |s|
    decreases |s|
  {
    if s != [] {
      ReplaceCharGrows(s[1..], c, rep);
      if s[0] == c {
        assert s[..1] == [c];
      } else {
        assert s[..1] != [c];
        assert c in s ==> c in s[1..];
      }
    }
  }

  /** A replacement that contains the character keeps it present. */
  lemma {:induction false} ReplaceCharKeeps(s: string, c: char, rep: string)
    requires c in s && c in rep
    ensures c in Replace(s, [c], rep)
    decreases |s|
  {
    if s[0] == c {
      assert s[..1] == [c];
    } else {
      assert s[..1] != [c];
      ReplaceCharKeeps(s[1..], c, rep);
    }
  }

  /** Python's `s.split(c)`: the pieces between occurrences of `c`; there is
      always at least one piece, and `"".split(c) == [""]`. */
  function Split(s: string, c: char): (r: seq<string>)
    ensures |r| >= 1
    ensures forall k :: 0 <= k < |r| ==> c !in r[k]
    decreases |s|
  {
    if s == [] then [""]
    else
      var t := Split(s[1..], c);
      if s[0] == c then [""] + t
      else
        assert c !in t[0];
        [[s[0]] + t[0]] + t[1..]
  }

  /** Python's `sep.join(xs)`. */
  function Join(xs: seq<string>, sep: string): string {
    if |xs| == 0 then ""
    else if |xs| == 1 then xs[0]
    else xs[0] + sep + Join(xs[1..], sep)
  }

  /** Joining the pieces of a split with the same character gives the text back. */
  lemma {:induction false} JoinSplit(s: string, c: char)
    ensures Join(Split(s, c), [c]) == s
    decreases |s|
  {
    if s != [] {
      var t := Split(s[1..], c);
      JoinSplit(s[1..], c);
      if s[0] == c {
        assert Split(s, c) == [""] + t;
        assert ([""] + t)[1..] == t;
        assert [c] + s[1..] == s;
      } else {
        JoinHead(s[0], t, [c]);
      }
    }
  }

  /** Splitting at line breaks undoes joining lines that hold none. */
  lemma SplitJoinLines(xs: seq<string>)
    requires |xs| >= 1
    requires forall k :: 0 <= k < |xs| ==> '\n' !in xs[k]
    ensures Split(Join(xs, "\n"), '\n') == xs
  {
    assert "\n" == ['\n'];
    SplitJoin(xs, '\n');
  }

  lemma JoinHead(x: char, t: seq<string>, sep: string)
    requires |t| >= 1
    ensures Join([[x] + t[0]] + t[1..], sep) == [x] + Join(t, sep)
  {
    JoinPrefix([x], t, sep);
  }

  /** Joining a piece in front of at least one more. */
  lemma JoinCons(a: string, t: seq<string>, sep: string)
    requires |t| >= 1
    ensures Join([a] + t, sep) == a + sep + Join(t, sep)
  {
    assert ([a] + t)[1..] == t;
  }

  /** Putting text in front of the first piece puts it in front of the join. */
  lemma JoinPrefix(a: string, t: seq<string>, sep: string)
    requires |t| >= 1
    ensures Join([a + t[0]] + t[1..], sep) == a + Join(t, sep)
  {
    var u := [a + t[0]] + t[1..];
    assert u[1..] == t[1..];
    if |t| > 1 {
      assert a + t[0] + sep + Join(t[1..], sep) == a + (t[0] + sep + Join(t[1..], sep));
    }
  }

  /** Splitting what was joined with a character that no piece contains
      gives the pieces back: the partner of `JoinSplit`. */
  lemma {:induction false} SplitJoin(xs: seq<string>, c: char)
    requires |xs| >= 1
    requires forall k :: 0 <= k < |xs| ==> c !in xs[k]
    ensures Split(Join(xs, [c]), c) == xs
    decreases |xs|, |xs[0]|
  {
    if |xs| == 1 {
      SplitNoSep(xs[0], c);
    } else {
      SplitPrefix(xs[0], Join(xs[1..], [c]), c);
      SplitJoin(xs[1..], c);
    }
  }

  /** A piece without the separator splits into itself. */
  lemma {:induction false} SplitNoSep(s: string, c: char)
    requires c !in s
    ensures Split(s, c) == [s]
    decreases |s|
  {
    if s != [] {
      assert c !in s[1..];
      SplitNoSep(s[1..], c);
      assert [s[0]] + s[1..] == s;
    }
  }

  /** Splitting `a + [c] + b` where `a` has no separator. */
  lemma {:induction false} SplitPrefix(a: string, b: string, c: char)
    requires c !in a
    ensures Split(a + [c] + b, c) == [a] + Split(b, c)
    decreases |a|
  {
    var s := a + [c] + b;
    if a == [] {
      assert s == [c] + b;
      assert s[1..] == b;
    } else {
      assert c !in a[1..];
      assert s[1..] == a[1..] + [c] + b;
      SplitPrefix(a[1..], b, c);
      assert [a[0]] + a[1..] == a;
    }
  }
}
