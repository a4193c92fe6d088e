/**
 * The inline-style platform adjusters of the renderer. For WeChat every
 * declaration of a `style` attribute gets `!important`: the attribute is cut
 * at each `;`, every piece is stripped, pieces that are empty or have no `:`
 * are dropped, `" !important"` is appended where the piece does not already
 * say `!important`, and the kept declarations are joined with `"; "`.
 * The Xiaohongshu and Zhihu adjusters return the style as it is.
 */
module InlineAdjust {
  import opened Text

  const Important := "!important"

  /** A declaration as the WeChat adjuster emits it. */
  predicate WellFormed(d: string) {
    d != [] && IsStripped(d) && ':' in d && Contains(d, Important)
  }

  /** No piece holds a `;`, as after cutting at every `;`. */
  predicate NoSemicolon(ps: seq<string>) {
    forall k :: 0 <= k < |ps| ==> ';' !in ps[k]
  }

  /** Every declaration of the list is well-formed. */
  predicate AllWellFormed(ds: seq<string>)
    decreases |ds|
  {
    ds == [] || (WellFormed(ds[0]) && AllWellFormed(ds[1..]))
  }

  /** What one piece of the split becomes: nothing, or one declaration. */
  function Declaration(piece: string): (r: seq<string>)
    ensures |r| <= 1
  {
    var d := Strip(piece);
    if d != [] && ':' in d then
      if Contains(d, Important) then [d] else [d + " " + Important]
    else []
  }

  /** Appending `" !important"` to a stripped declaration gives a
      well-formed one that starts with it. */
  lemma MarkImportant(d: string)
    requires d != [] && IsStripped(d) && ':' in d
    ensures WellFormed(d + " " + Important) && StartsWith(d + " " + Important, d)
  {
    var e := d + " " + Important;
    assert e == d + (" " + Important);
    ContainsSuffix(d + " ", Important);
    assert e[..|d|] == d;
    assert e[|e| - 1] == 't';
  }

  lemma StripNoChar(s: string, c: char)
    requires c !in s
    ensures c !in Strip(s)
  {
    var l := LStrip(s);
    LStripSuffix(s);
    assert c !in l;
    var r := RStrip(l);
    RStripPrefix(l);
    assert c !in r;
  }

  /** A piece is dropped exactly when it strips to nothing or has no `:`;
      a kept piece is a well-formed declaration that starts with its stripped
      text, and one that already says `!important` is kept exactly as
      stripped, with no second `!important`. */
  lemma DeclarationMeaning(piece: string)
    ensures var d := Strip(piece); var r := Declaration(piece);
      (r == [] <==> d == [] || ':' !in d) &&
      (r != [] ==> WellFormed(r[0]) && StartsWith(r[0], d)) &&
      (r != [] && Contains(d, Important) ==> r[0] == d)
  {
    var d := Strip(piece);
    if d != [] && ':' in d && !Contains(d, Important) {
      MarkImportant(d);
    }
  }

  /** A piece that strips to a well-formed declaration is kept as it is. */
  lemma DeclarationOfWellFormed(p: string, d: string)
    requires WellFormed(d) && Strip(p) == d
    ensures Declaration(p) == [d]
  {
  }

  /** The declarations kept from a list of pieces, in order. */
  function Declarations(pieces: seq<string>): (r: seq<string>)
    ensures |r| <= |pieces|
    decreases |pieces|
  {
    if pieces == [] then [] else Declaration(pieces[0]) + Declarations(pieces[1..])
  }

  /** Every declaration kept is well-formed. */
  lemma {:induction false} DeclarationsWellFormed(pieces: seq<string>)
    ensures AllWellFormed(Declarations(pieces))
    decreases |pieces|
  {
    if pieces != [] {
      DeclarationMeaning(pieces[0]);
      DeclarationsWellFormed(pieces[1..]);
      AllWellFormedCons(Declaration(pieces[0]), Declarations(pieces[1..]));
    }
  }

  /** A kept piece brings no `;` of its own: the adjuster adds none. */
  lemma DeclarationNoSemicolon(piece: string)
    requires ';' !in piece
    ensures forall k :: 0 <= k < |Declaration(piece)| ==> ';' !in Declaration(piece)[k]
  {
    StripNoChar(piece, ';');
    var d := Strip(piece);
    assert ';' !in " " + Important;
    assert d + " " + Important == d + (" " + Important);
  }

  /** Declarations found in pieces without `;` have none either. */
  lemma {:induction false} DeclarationsNoSemicolon(ps: seq<string>)
    requires NoSemicolon(ps)
    ensures NoSemicolon(Declarations(ps))
    decreases |ps|
  {
    if ps != [] {
      assert NoSemicolon(ps[1..]) by {
        forall k | 0 <= k < |ps| - 1 ensures ';' !in ps[1..][k] {
          assert ps[1..][k] == ps[k + 1];
        }
      }
      DeclarationsNoSemicolon(ps[1..]);
      DeclarationNoSemicolon(ps[0]);
      var f := Declaration(ps[0]);
      var rest := Declarations(ps[1..]);
      assert forall k :: |f| <= k < |f + rest| ==> (f + rest)[k] == rest[k - |f|];
    }
  }

  lemma {:induction false} AllWellFormedAt(ds: seq<string>, k: nat)
    requires AllWellFormed(ds) && k < |ds|
    ensures WellFormed(ds[k])
    decreases k
  {
    if k > 0 {
      AllWellFormedAt(ds[1..], k - 1);
    }
  }

  lemma AllWellFormedCons(first: seq<string>, rest: seq<string>)
    requires |first| <= 1 && (first != [] ==> WellFormed(first[0])) && AllWellFormed(rest)
    ensures AllWellFormed(first + rest)
  {
    if first != [] {
      assert (first + rest)[1..] == rest;
    } else {
      assert first + rest == rest;
    }
  }

  /** The specification of `_adjust_for_wechat_style`. */
  function WeChatStyle(style: string): string {
    if style == [] then style else Join(Declarations(Split(style, ';')), "; ")
  }

  /** `_adjust_for_wechat_style`: builds the list of adjusted declarations
      one piece at a time and joins it. */
  method AdjustForWeChatStyle(style: string) returns (r: string)
    ensures r == WeChatStyle(style)
  {
    if style == [] {
      return style;
    }
    var declarations := Split(style, ';');
    var adjusted: seq<string> := [];
    var i := 0;
    while i < |declarations|
      invariant 0 <= i <= |declarations|
      invariant adjusted == Declarations(declarations[..i])
    {
      DeclarationsSnoc(declarations[..i], declarations[i]);
      assert declarations[..i + 1] == declarations[..i] + [declarations[i]];
      var declaration := Strip(declarations[i]);
      if declaration != [] && ':' in declaration {
        if !Contains(declaration, Important) {
          declaration := declaration + " " + Important;
        }
        adjusted := adjusted + [declaration];
      }
      i := i + 1;
    }
    assert declarations[..i] == declarations;
    r := Join(adjusted, "; ");
  }

  lemma {:induction false} DeclarationsSnoc(pieces: seq<string>, piece: string)
    ensures Declarations(pieces + [piece]) == Declarations(pieces) + Declaration(piece)
    decreases |pieces|
  {
    if pieces == [] {
      assert [piece][1..] == [];
      assert pieces + [piece] == [piece];
    } else {
      assert (pieces + [piece])[1..] == pieces[1..] + [piece];
      DeclarationsSnoc(pieces[1..], piece);
    }
  }

  /** An empty style is returned unchanged. */
  lemma WeChatEmpty()
    ensures WeChatStyle("") == ""
  {
  }

  /** Every declaration but the first, behind the single space that `"; "`
      leaves in front of it. */
  function Spaced(ds: seq<string>): (r: seq<string>)
    ensures |r| == |ds|
    ensures forall k :: 0 <= k < |r| ==> r[k] == " " + ds[k]
    decreases |ds|
  {
    if ds == [] then [] else [" " + ds[0]] + Spaced(ds[1..])
  }

  /** Joining with `"; "` is joining with `";"` after putting a space in
      front of every declaration but the first. */
  lemma {:induction false} JoinSpaced(ds: seq<string>)
    requires |ds| >= 1
    ensures Join(ds, "; ") == Join([ds[0]] + Spaced(ds[1..]), ";")
    decreases |ds|
  {
    if |ds| > 1 {
      JoinSpaced(ds[1..]);
      var p := [ds[0]] + Spaced(ds[1..]);
      var q := [ds[1]] + Spaced(ds[2..]);
      assert ds[1..][0] == ds[1] && ds[1..][1..] == ds[2..];
      assert p[1..] == Spaced(ds[1..]) == [" " + ds[1]] + Spaced(ds[2..]);
      JoinPrefix(" ", q, ";");
      assert [" " + q[0]] + q[1..] == p[1..];
    }
  }

  /** The declarations found in well-formed declarations behind one space
      each are those declarations. */
  lemma {:induction false} DeclarationsOfSpaced(ds: seq<string>)
    requires AllWellFormed(ds)
    ensures Declarations(Spaced(ds)) == ds
    decreases |ds|
  {
    if ds != [] {
      var d, tail := ds[0], ds[1..];
      var rest := Spaced(tail);
      assert Spaced(ds) == [" " + d] + rest;
      DeclarationsCons(" " + d, rest);
      DeclarationOfSpaced(d);
      DeclarationsOfSpaced(tail);
      HeadTail(ds);
    }
  }

  lemma HeadTail(ds: seq<string>)
    requires ds != []
    ensures [ds[0]] + ds[1..] == ds
  {
  }

  lemma DeclarationsCons(p: string, rest: seq<string>)
    ensures Declarations([p] + rest) == Declaration(p) + Declarations(rest)
  {
    assert ([p] + rest)[1..] == rest;
  }

  /** A well-formed declaration behind one space is kept as it is. */
  lemma DeclarationOfSpaced(d: string)
    requires WellFormed(d)
    ensures Declaration(" " + d) == [d]
  {
    StripPadded(" ", d);
    DeclarationOfWellFormed(" " + d, d);
  }

  /** Cutting the adjuster's output at `;` gives back the pieces it joined:
      its first declaration, then every other one behind one space. */
  lemma OutputPieces(ds: seq<string>)
    requires |ds| >= 1 && NoSemicolon(ds)
    ensures Split(Join(ds, "; "), ';') == [ds[0]] + Spaced(ds[1..])
  {
    var ps := [ds[0]] + Spaced(ds[1..]);
    JoinSpaced(ds);
    forall k | 0 <= k < |ps| ensures ';' !in ps[k] {
      if k > 0 {
        assert ps[k] == Spaced(ds[1..])[k - 1] == " " + ds[1..][k - 1];
        assert ds[1..][k - 1] == ds[k];
      }
    }
    SplitJoin(ps, ';');
  }

  /** Running the adjuster on its own output finds the same declarations:
      every declaration of the output already carries `!important`, none is
      dropped, none is changed. */
  lemma WeChatReparse(style: string)
    ensures Declarations(Split(WeChatStyle(style), ';')) == Declarations(Split(style, ';'))
  {
    if style != [] {
      var ds := Declarations(Split(style, ';'));
      var out := Join(ds, "; ");
      if ds == [] {
        assert Split(out, ';') == [""];
        assert Declarations([""]) == Declaration("") + Declarations([]);
      } else {
        DeclarationsNoSemicolon(Split(style, ';'));
        DeclarationsWellFormed(Split(style, ';'));
        OutputPieces(ds);
        var ps := [ds[0]] + Spaced(ds[1..]);
        StripOfStripped(ds[0]);
        DeclarationOfWellFormed(ds[0], ds[0]);
        DeclarationsOfSpaced(ds[1..]);
        assert ps[1..] == Spaced(ds[1..]);
        assert [ds[0]] + ds[1..] == ds;
      }
    }
  }

  /** The WeChat adjuster is idempotent. */
  lemma WeChatIdempotent(style: string)
    ensures WeChatStyle(WeChatStyle(style)) == WeChatStyle(style)
  {
    WeChatReparse(style);
  }

  /** The output is its own declarations joined with `"; "` (each carrying
      `!important` and a `:`, none empty), with no semicolon at the end. */
  lemma WeChatShape(style: string)
    ensures var out := WeChatStyle(style);
      out == Join(Declarations(Split(out, ';')), "; ") &&
      AllWellFormed(Declarations(Split(out, ';'))) &&
      !EndsWith(out, ";")
  {
    WeChatReparse(style);
    var ds := Declarations(Split(style, ';'));
    var out := WeChatStyle(style);
    DeclarationsWellFormed(Split(style, ';'));
    if style == [] || ds == [] {
      assert out == "";
      assert Declarations([""]) == Declaration("") + Declarations([]);
    } else {
      assert out == Join(ds, "; ");
      DeclarationsNoSemicolon(Split(style, ';'));
      JoinLast(ds, "; ");
      var last := ds[|ds| - 1];
      AllWellFormedAt(ds, |ds| - 1);
      assert ';' !in last;
      assert out[|out| - 1] == last[|last| - 1];
    }
  }

  /** A non-empty join ends with its last piece. */
  lemma {:induction false} JoinLast(xs: seq<string>, sep: string)
    requires |xs| >= 1
    ensures EndsWith(Join(xs, sep), xs[|xs| - 1])
    decreases |xs|
  {
    if |xs| > 1 {
      JoinLast(xs[1..], sep);
      var j := Join(xs[1..], sep);
      var l := xs[|xs| - 1];
      assert xs[1..][|xs[1..]| - 1] == l;
      assert (xs[0] + sep + j)[|xs[0] + sep + j| - |l|..] == j[|j| - |l|..];
    }
  }

  /** A stripped piece with a `:` and no `!` gets `" !important"` appended. */
  lemma MarkedPiece(p: string, d: string)
    requires Strip(p) == d && d != [] && ':' in d && '!' !in d
    ensures Declaration(p) == [d + " " + Important]
  {
    FirstCharAbsent(d, Important);
  }

  /** Two `;`-terminated pieces split into those two pieces and an empty one. */
  lemma SplitTwo(a: string, b: string)
    requires ';' !in a && ';' !in b
    ensures Split(a + [';'] + b + [';'], ';') == [a, b, ""]
  {
    assert a + [';'] + b + [';'] == a + [';'] + (b + [';'] + "");
    SplitPrefix(a, b + [';'] + "", ';');
    SplitPrefix(b, "", ';');
  }

  /** The declarations kept from two pieces without `!important` and the
      empty piece after a final `;`. */
  lemma TwoMarked(a: string, b: string, c: string)
    requires a != [] && IsStripped(a) && ':' in a && '!' !in a
    requires c != [] && IsStripped(c) && ':' in c && '!' !in c && b == " " + c
    ensures Declarations([a, b, ""]) == [a + " " + Important, c + " " + Important]
  {
    var ps := [a, b, ""];
    StripOfStripped(a);
    StripPadded(" ", c);
    MarkedPiece(a, a);
    MarkedPiece(b, c);
    assert Declaration("") == [];
    assert ps[1..] == [b, ""] && ps[1..][1..] == [""] && ps[1..][1..][1..] == [];
    assert Declarations([""]) == [];
    assert Declarations([b, ""]) == [c + " " + Important];
  }

  /** Two `;`-terminated declarations without `!important`, as in
      `"color: #333; font-size: 16px;"`: both are marked and the empty piece
      after the last `;` is dropped. */
  lemma WeChatTwo(a: string, c: string)
    requires a != [] && IsStripped(a) && ':' in a && '!' !in a && ';' !in a
    requires c != [] && IsStripped(c) && ':' in c && '!' !in c && ';' !in c
    ensures WeChatStyle(a + [';'] + (" " + c) + [';']) ==
            a + " " + Important + "; " + c + " " + Important
  {
    var b := " " + c;
    var style := a + [';'] + b + [';'];
    assert |style| > 0;
    SplitTwo(a, b);
    TwoMarked(a, b, c);
    var ds := [a + " " + Important, c + " " + Important];
    assert WeChatStyle(style) == Join(ds, "; ");
    assert Join(ds, "; ") == ds[0] + "; " + Join([ds[1]], "; ");
  }

  /** `_adjust_for_xiaohongshu_style` */
  function XiaohongshuStyle(style: string): string { style }

  /** `_adjust_for_zhihu_style` */
  function ZhihuStyle(style: string): string { style }

  /** The platform branch the renderer runs on each selector's style. Only
      WeChat changes anything; Xiaohongshu, Zhihu and every other platform
      keep the style as it is. */
  function PlatformStyle(platform: string, style: string): (r: string)
    ensures platform != "wechat" ==> r == style
    ensures platform == "wechat" ==> r == WeChatStyle(style)
  {
    if platform == "wechat" then WeChatStyle(style)
    else if platform == "xiaohongshu" then XiaohongshuStyle(style)
    else if platform == "zhihu" then ZhihuStyle(style)
    else style
  }
}
