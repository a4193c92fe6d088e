/**
 * The clean-up of one CSS value read from the theme script: the escapes
 * `\"` and `\n` are undone, every run of whitespace becomes one space, and
 * the result is stripped.
 */
module CssValue {
  import opened Text

  /** `value.replace('\\"', '"').replace('\\n', '\n')` */
  function Unescape(s: string): string {
    Replace(Replace(s, "\\\"", "\""), "\\n", "\n")
  }

  /** No two whitespace characters in a row. */
  predicate NoDoubleSpace(s: string) {
    forall i :: 0 < i < |s| ==> !(IsSpace(s[i - 1]) && IsSpace(s[i]))
  }

  /** The only whitespace character is the plain space. */
  predicate OnlyBlank(s: string) {
    forall i :: 0 <= i < |s| && IsSpace(s[i]) ==> s[i] == ' '
  }

  /** The text with all whitespace removed. */
  function NonSpace(s: string): string
    decreases |s|
  {
    if s == [] then [] else (if IsSpace(s[0]) then [] else [s[0]]) + NonSpace(s[1..])
  }

  lemma NonSpaceCons(c: char, s: string)
    ensures NonSpace([c] + s) == (if IsSpace(c) then [] else [c]) + NonSpace(s)
  {
    assert ([c] + s)[1..] == s;
  }

  /** `re.sub(r'\s+', ' ', s)`: every maximal run of whitespace becomes one
      space, everything else stays in order. */
  function Collapse(s: string): (r: string)
    ensures (r == []) == (s == [])
    ensures r != [] ==> (IsSpace(r[0]) <==> IsSpace(s[0]))
    ensures NoDoubleSpace(r) && OnlyBlank(r)
    ensures NonSpace(r) == NonSpace(s)
    decreases |s|
  {
    if s == [] then []
    else if IsSpace(s[0]) && |s| > 1 && IsSpace(s[1]) then Collapse(s[1..])
    else if IsSpace(s[0]) then
      var t := Collapse(s[1..]);
      NonSpaceCons(' ', t);
      NonSpaceCons(s[0], s[1..]);
      ConsSingle(' ', t);
      assert s == [s[0]] + s[1..];
      [' '] + t
    else
      var t := Collapse(s[1..]);
      NonSpaceCons(s[0], t);
      NonSpaceCons(s[0], s[1..]);
      ConsSingle(s[0], t);
      assert s == [s[0]] + s[1..];
      [s[0]] + t
  }

  /** One character in front of a text with single plain spaces keeps it
      so, unless it is a second space or another whitespace character. */
  lemma ConsSingle(c: char, t: string)
    requires NoDoubleSpace(t) && OnlyBlank(t)
    requires IsSpace(c) ==> c == ' ' && (t == [] || !IsSpace(t[0]))
    ensures NoDoubleSpace([c] + t) && OnlyBlank([c] + t)
  {
    assert forall i :: 0 < i < |[c] + t| ==> ([c] + t)[i] == t[i - 1];
  }

  /** A whitespace run in front of text that does not start with whitespace
      becomes exactly one space. */
  lemma {:induction false} CollapseRun(w: string, y: string)
    requires AllSpace(w) && w != [] && (y == [] || !IsSpace(y[0]))
    ensures Collapse(w + y) == " " + Collapse(y)
    decreases |w|
  {
    var s := w + y;
    assert s[0] == w[0] && s[1..] == w[1..] + y;
    if |w| == 1 {
      assert s[1..] == y;
    } else {
      assert IsSpace(s[1]);
      CollapseRun(w[1..], y);
    }
  }

  /** A character other than whitespace is kept, in front of the collapse of
      what follows it. */
  lemma CollapseWord(c: char, y: string)
    requires !IsSpace(c)
    ensures Collapse([c] + y) == [c] + Collapse(y)
  {
    assert ([c] + y)[1..] == y;
  }

  /** Text that ends in something other than whitespace collapses on its own:
      no run crosses its end. */
  lemma {:induction false} CollapseAppend(x: string, z: string)
    requires x == [] || !IsSpace(x[|x| - 1])
    ensures Collapse(x + z) == Collapse(x) + Collapse(z)
    decreases |x|
  {
    if x == [] {
      assert x + z == z;
    } else {
      var s := x + z;
      assert s[0] == x[0] && s[1..] == x[1..] + z;
      if IsSpace(x[0]) {
        assert |x| > 1 && s[1] == x[1];
      }
      CollapseAppend(x[1..], z);
    }
  }

  /** The collapse ends in whitespace exactly when the text does. */
  lemma {:induction false} CollapseLast(s: string)
    requires s != []
    ensures var r := Collapse(s); r != [] && (IsSpace(r[|r| - 1]) <==> IsSpace(s[|s| - 1]))
    decreases |s|
  {
    if |s| > 1 {
      CollapseLast(s[1..]);
    }
  }

  /** Two stripped texts with whitespace between them collapse to their
      collapses joined by one space. */
  lemma CollapseJoin(x: string, w: string, y: string)
    requires x != [] && IsStripped(x) && (y == [] || !IsSpace(y[0]))
    requires AllSpace(w) && w != []
    ensures Collapse(x + w + y) == Collapse(x) + " " + Collapse(y)
  {
    CollapseRun(w, y);
    CollapseAppend(x, w + y);
    Regroup(x, w, y);
    Regroup(Collapse(x), " ", Collapse(y));
  }

  lemma Regroup(a: string, b: string, c: string)
    ensures a + (b + c) == a + b + c
  {
  }

  /** Collapsing keeps a text stripped. */
  lemma CollapseStripped(x: string)
    requires IsStripped(x)
    ensures IsStripped(Collapse(x))
  {
    if x != [] {
      CollapseLast(x);
    }
  }

  /** Two cleaned values with whitespace between them clean to the two
      values joined by one space. */
  lemma CleanJoin(x: string, w: string, y: string)
    requires x != [] && y != [] && IsStripped(x) && IsStripped(y)
    requires AllSpace(w) && w != []
    requires '\\' !in x && '\\' !in w && '\\' !in y
    ensures Clean(x + w + y) == Clean(x) + " " + Clean(y)
  {
    NoBackslash(x, w, y);
    UnescapePlain(x + w + y);
    UnescapePlain(x);
    UnescapePlain(y);
    CollapseJoin(x, w, y);
    var cx := Collapse(x);
    var cy := Collapse(y);
    CollapseStripped(x);
    CollapseStripped(y);
    StripOfStripped(cx);
    StripOfStripped(cy);
    var r := cx + " " + cy;
    assert r[0] == cx[0] && r[|r| - 1] == cy[|cy| - 1];
    StripOfStripped(r);
  }

  lemma NoBackslash(x: string, w: string, y: string)
    requires '\\' !in x && '\\' !in w && '\\' !in y
    ensures '\\' !in x + w + y
  {
  }

  /** Collapsing a text that already has single plain spaces changes nothing. */
  lemma {:induction false} CollapseFixed(s: string)
    requires NoDoubleSpace(s) && OnlyBlank(s)
    ensures Collapse(s) == s
    decreases |s|
  {
    if s != [] {
      assert NoDoubleSpace(s[1..]) by {
        forall i | 0 < i < |s| - 1 ensures !(IsSpace(s[1..][i - 1]) && IsSpace(s[1..][i])) {
          assert s[1..][i - 1] == s[i] && s[1..][i] == s[i + 1];
        }
      }
      assert OnlyBlank(s[1..]) by {
        forall i | 0 <= i < |s| - 1 && IsSpace(s[1..][i]) ensures s[1..][i] == ' ' {
          assert s[1..][i] == s[i + 1];
        }
      }
      CollapseFixed(s[1..]);
      assert |s| > 1 ==> !(IsSpace(s[0]) && IsSpace(s[1]));
      assert s == [s[0]] + s[1..];
    }
  }

  /** The whitespace `lstrip()` removes. */
  lemma {:induction false} LStripDrops(s: string)
    ensures |LStrip(s)| <= |s| && LStrip(s) == s[|s| - |LStrip(s)|..]
    ensures AllSpace(s[..|s| - |LStrip(s)|])
    decreases |s|
  {
    LStripSuffix(s);
    if s != [] && IsSpace(s[0]) {
      LStripDrops(s[1..]);
      var n := |s| - |LStrip(s)|;
      assert s[..n] == [s[0]] + s[1..][..n - 1];
    }
  }

  /** The whitespace `rstrip()` removes. */
  lemma {:induction false} RStripDrops(s: string)
    ensures RStrip(s) == s[..|RStrip(s)|]
    ensures AllSpace(s[|RStrip(s)|..])
    decreases |s|
  {
    RStripPrefix(s);
    if s != [] && IsSpace(s[|s| - 1]) {
      var t := s[..|s| - 1];
      RStripDrops(t);
      var m := |RStrip(s)|;
      assert s[m..] == t[m..] + [s[|s| - 1]];
    }
  }

  lemma {:induction false} NonSpaceAppend(x: string, y: string)
    ensures NonSpace(x + y) == NonSpace(x) + NonSpace(y)
    decreases |x|
  {
    if x == [] {
      assert x + y == y;
    } else {
      assert x + y == [x[0]] + (x[1..] + y);
      NonSpaceCons(x[0], x[1..] + y);
      NonSpaceAppend(x[1..], y);
      assert x == [x[0]] + x[1..];
      NonSpaceCons(x[0], x[1..]);
    }
  }

  lemma {:induction false} NonSpaceOfSpace(s: string)
    requires AllSpace(s)
    ensures NonSpace(s) == []
    decreases |s|
  {
    if s != [] {
      NonSpaceOfSpace(s[1..]);
    }
  }

  /** `strip()` keeps a slice of the text and removes only whitespace. */
  lemma StripSlice(s: string) returns (a: nat, b: nat)
    ensures a <= b <= |s| && Strip(s) == s[a..b]
    ensures NonSpace(Strip(s)) == NonSpace(s)
  {
    var l := LStrip(s);
    LStripDrops(s);
    a := |s| - |l|;
    var r := RStrip(l);
    RStripDrops(l);
    b := a + |r|;
    assert l == s[a..];
    assert Strip(s) == s[a..b] by {
      assert r == l[..|r|];
    }
    assert s[b..] == l[|r|..];
    NonSpaceMiddle(s, a, b);
  }

  /** Dropping blank text from both ends keeps the non-space characters. */
  lemma NonSpaceMiddle(s: string, a: nat, b: nat)
    requires a <= b <= |s| && AllSpace(s[..a]) && AllSpace(s[b..])
    ensures NonSpace(s[a..b]) == NonSpace(s)
  {
    assert s == s[..a] + (s[a..b] + s[b..]);
    NonSpaceAppend(s[..a], s[a..b] + s[b..]);
    NonSpaceAppend(s[a..b], s[b..]);
    NonSpaceOfSpace(s[..a]);
    NonSpaceOfSpace(s[b..]);
    assert NonSpace(s[a..b]) + [] == NonSpace(s[a..b]);
  }

  /** Stripping keeps single plain spaces single and plain. */
  lemma StripKeeps(s: string)
    requires NoDoubleSpace(s) && OnlyBlank(s)
    ensures NoDoubleSpace(Strip(s)) && OnlyBlank(Strip(s))
    ensures NonSpace(Strip(s)) == NonSpace(s)
  {
    var a, b := StripSlice(s);
    assert forall i :: 0 <= i < b - a ==> s[a..b][i] == s[a + i];
  }

  /** The clean-up of `extract_styles`. */
  function Clean(s: string): (r: string)
    ensures IsStripped(r) && NoDoubleSpace(r) && OnlyBlank(r)
    ensures NonSpace(r) == NonSpace(Unescape(s))
  {
    var c := Collapse(Unescape(s));
    StripKeeps(c);
    Strip(c)
  }

  lemma NonSpaceHas(s: string, c: char)
    requires !IsSpace(c)
    ensures c in s <==> c in NonSpace(s)
    decreases |s|
  {
    if s != [] {
      NonSpaceHas(s[1..], c);
      NonSpaceCons(s[0], s[1..]);
      assert s == [s[0]] + s[1..];
    }
  }

  /** A value without backslashes is left as it was by the unescaping. */
  lemma UnescapePlain(s: string)
    requires '\\' !in s
    ensures Unescape(s) == s
  {
    FirstCharAbsent(s, "\\\"");
    ReplaceAbsent(s, "\\\"", "\"");
    FirstCharAbsent(s, "\\n");
    ReplaceAbsent(s, "\\n", "\n");
  }

  /** Cleaning a cleaned value without backslashes changes nothing. */
  lemma CleanIdempotent(s: string)
    requires '\\' !in s
    ensures Clean(Clean(s)) == Clean(s)
  {
    var r := Clean(s);
    UnescapePlain(s);
    NonSpaceHas(s, '\\');
    NonSpaceHas(r, '\\');
    UnescapePlain(r);
    CollapseFixed(r);
    StripOfStripped(r);
  }
}
