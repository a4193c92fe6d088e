/**
 * Image-grid grouping of the string renderers. The converter's HTML is cut,
 * left to right, into pieces: an image paragraph `<p><img …></p>` whose
 * attributes hold no `>`, a single whitespace character, or one other
 * character. A run is a maximal stretch that
 * starts with an image paragraph and goes on over image paragraphs and
 * whitespace, which is what one match of `(<p><img[^>]*></p>\s*)+` covers.
 * A run holding one image is emitted as it was; a run of 2, 3 or more
 * images is wrapped in a `section` (renderer) or `div` (stylesheet
 * renderer) of class `img-grid img-grid-2`, `img-grid-3` or
 * `img-grid-multi`. Everything outside runs is emitted unchanged.
 */
module ImageGrid {
  import opened Wrappers
  import opened Text

  datatype Piece =
    | ImgPara(attrs: string)   // `<p><img` attrs `></p>`
    | Ws(c: char)              // one whitespace character
    | Other(text: string)      // any other text

  /** The element the renderer wraps a grid in. */
  datatype Tag = Section | Div

  function TagName(t: Tag): string {
    match t
    case Section => "section"
    case Div => "div"
  }

  function PieceText(p: Piece): string {
    match p
    case ImgPara(a) => "<p><img" + a + "></p>"
    case Ws(c) => [c]
    case Other(s) => s
  }

  /** The text of a sequence of pieces. */
  function Html(ps: seq<Piece>): string
    decreases |ps|
  {
    if ps == [] then "" else PieceText(ps[0]) + Html(ps[1..])
  }

  const ImgOpen := "<p><img"
  const ImgClose := "></p>"

  /** The first `>` at or after `i`, or the end of the text. */
  function NextGt(s: string, i: nat): (r: nat)
    requires i <= |s|
    ensures i <= r <= |s|
    ensures r < |s| ==> s[r] == '>'
    ensures forall k :: i <= k < r ==> s[k] != '>'
    decreases |s| - i
  {
    if i == |s| || s[i] == '>' then i else NextGt(s, i + 1)
  }

  /** Where `<p><img[^>]*></p>` matching at the head of `s` puts its `>`:
      `[^>]*` runs to the first `>`, which must open `></p>`. */
  function ImgEnd(s: string): (r: Option<nat>)
    ensures r.Some? ==>
      7 <= r.value && r.value + 5 <= |s| &&
      s == ImgOpen + s[7..r.value] + ImgClose + s[r.value + 5..] && '>' !in s[7..r.value]
  {
    if !StartsWith(s, ImgOpen) then None
    else
      var j := NextGt(s, 7);
      if OccursAt(s, j, ImgClose) then
        assert s == s[..7] + s[7..j] + s[j..j + 5] + s[j + 5..];
        assert forall k :: 0 <= k < j - 7 ==> s[7..j][k] == s[7 + k];
        Some(j)
      else None
  }

  /** The pieces the pattern sees in a text, left to right. */
  function Lex(s: string): seq<Piece>
    decreases |s|
  {
    if s == [] then []
    else match ImgEnd(s)
      case Some(j) => [ImgPara(s[7..j])] + Lex(s[j + 5..])
      case None => [if IsSpace(s[0]) then Ws(s[0]) else Other([s[0]])] + Lex(s[1..])
  }

  lemma HtmlCons(p: Piece, ps: seq<Piece>)
    ensures Html([p] + ps) == PieceText(p) + Html(ps)
  {
    assert ([p] + ps)[1..] == ps;
  }

  /** Cutting a text into pieces loses, adds and reorders nothing. */
  lemma {:induction false} LexHtml(s: string)
    ensures Html(Lex(s)) == s
    decreases |s|
  {
    if s != [] {
      match ImgEnd(s)
      case Some(j) =>
        LexHtml(s[j + 5..]);
        HtmlCons(ImgPara(s[7..j]), Lex(s[j + 5..]));
      case None =>
        LexHtml(s[1..]);
        HtmlCons(if IsSpace(s[0]) then Ws(s[0]) else Other([s[0]]), Lex(s[1..]));
        assert s == [s[0]] + s[1..];
    }
  }

  /** The pieces of a text are the ones the pattern sees: image paragraphs
      whose attributes hold no `>`, whitespace characters, and characters
      that are neither. */
  lemma {:induction false} LexCanonical(s: string)
    ensures forall k :: 0 <= k < |Lex(s)| ==>
      match Lex(s)[k]
      case ImgPara(a) => '>' !in a
      case Ws(c) => IsSpace(c)
      case Other(t) => |t| == 1 && !IsSpace(t[0])
    decreases |s|
  {
    if s != [] {
      match ImgEnd(s)
      case Some(j) => LexCanonical(s[j + 5..]);
      case None => LexCanonical(s[1..]);
    }
  }

  /** An image paragraph at the head of a text becomes one piece. */
  lemma LexImage(s: string, a: string, rest: string)
    requires '>' !in a && s == ImgOpen + a + ImgClose + rest
    ensures Lex(s) == [ImgPara(a)] + Lex(rest)
  {
    assert s[..7] == ImgOpen;
    assert forall k :: 7 <= k < 7 + |a| ==> s[k] == a[k - 7];
    assert s[7 + |a|] == '>';
    var j := NextGt(s, 7);
    assert j == 7 + |a|;
    assert s[j..j + 5] == ImgClose;
    assert s[7..j] == a && s[j + 5..] == rest;
  }

  /** A text without `<p><img` has no image paragraph among its pieces. */
  lemma {:induction false} LexNoImages(s: string)
    requires !Contains(s, ImgOpen)
    ensures forall k :: 0 <= k < |Lex(s)| ==> !Lex(s)[k].ImgPara?
    decreases |s|
  {
    if s != [] {
      assert !StartsWith(s, ImgOpen) && !Contains(s[1..], ImgOpen);
      LexNoImages(s[1..]);
    }
  }

  /** A piece a run can continue over: the pattern's body or its `\s*`. */
  predicate InRun(p: Piece) {
    p.ImgPara? || (p.Ws? && IsSpace(p.c))
  }

  /** The number of `<img …>` tags in a sequence of pieces. */
  function Images(ps: seq<Piece>): nat
    decreases |ps|
  {
    if ps == [] then 0 else (if ps[0].ImgPara? then 1 else 0) + Images(ps[1..])
  }

  /** The length of the longest prefix made of run pieces. */
  function RunLength(ps: seq<Piece>): (n: nat)
    ensures n <= |ps|
    ensures forall k :: 0 <= k < n ==> InRun(ps[k])
    ensures n < |ps| ==> !InRun(ps[n])
    decreases |ps|
  {
    if ps == [] || !InRun(ps[0]) then 0 else 1 + RunLength(ps[1..])
  }

  /** What the grouping produces: a piece copied as it is, or a run. */
  datatype Block = Single(p: Piece) | Run(members: seq<Piece>)

  /** The pieces cut into single pieces and maximal runs, left to right, as
      `re.sub` finds its matches. */
  function Group(ps: seq<Piece>): seq<Block>
    decreases |ps|
  {
    if ps == [] then []
    else if ps[0].ImgPara? then
      var n := RunLength(ps);
      [Run(ps[..n])] + Group(ps[n..])
    else [Single(ps[0])] + Group(ps[1..])
  }

  /** The pieces a list of blocks is made of, in order. */
  function Flatten(bs: seq<Block>): seq<Piece>
    decreases |bs|
  {
    if bs == [] then []
    else (match bs[0] case Single(p) => [p] case Run(m) => m) + Flatten(bs[1..])
  }

  /** The class a grid of `n` images gets. */
  function GridClass(n: nat): string {
    if n == 2 then "img-grid img-grid-2"
    else if n == 3 then "img-grid img-grid-3"
    else "img-grid img-grid-multi"
  }

  /** The opening tag of a grid of `n` images. */
  function OpeningTag(tag: Tag, n: nat): string {
    "<" + TagName(tag) + " class=\"" + GridClass(n) + "\">"
  }

  /** The closing tag of a grid. */
  function ClosingTag(tag: Tag): string {
    "</" + TagName(tag) + ">"
  }

  /** `replace_img_group`: one image stays as it was, more are wrapped. */
  function WrapGroup(tag: Tag, n: nat, group: string): string {
    if n == 1 then group else OpeningTag(tag, n) + group + ClosingTag(tag)
  }

  function BlockText(b: Block, tag: Tag): string {
    match b
    case Single(p) => PieceText(p)
    case Run(m) => WrapGroup(tag, Images(m), Html(m))
  }

  function RenderBlocks(bs: seq<Block>, tag: Tag): string
    decreases |bs|
  {
    if bs == [] then "" else BlockText(bs[0], tag) + RenderBlocks(bs[1..], tag)
  }

  lemma RenderOne(b: Block, tag: Tag)
    ensures RenderBlocks([b], tag) == BlockText(b, tag)
  {
    assert [b][1..] == [];
    assert BlockText(b, tag) + "" == BlockText(b, tag);
  }

  /** `_process_image_grids`, with `section` in the renderer and `div` in the
      stylesheet renderer. */
  function ProcessImageGrids(html: string, tag: Tag): string {
    RenderBlocks(Group(Lex(html)), tag)
  }

  /** Each run starts with an image paragraph and holds only run pieces;
      every image paragraph outside a run is impossible, and a run is
      followed by nothing or by a piece that cannot continue it. */
  predicate WellGrouped(bs: seq<Block>)
    decreases |bs|
  {
    bs == [] ||
    ((match bs[0]
      case Single(p) => !p.ImgPara?
      case Run(m) =>
        m != [] && m[0].ImgPara? && (forall k :: 0 <= k < |m| ==> InRun(m[k])) &&
        (|bs| > 1 ==> bs[1].Single? && !InRun(bs[1].p)))
     && WellGrouped(bs[1..]))
  }

  lemma FlattenCons(b: Block, bs: seq<Block>)
    ensures Flatten([b] + bs) == (match b case Single(p) => [p] case Run(m) => m) + Flatten(bs)
  {
    assert ([b] + bs)[1..] == bs;
  }

  /** Grouping loses, adds and reorders nothing: its blocks put back together
      are the input. */
  lemma {:induction false} GroupFlatten(ps: seq<Piece>)
    ensures Flatten(Group(ps)) == ps
    decreases |ps|
  {
    if ps != [] {
      if ps[0].ImgPara? {
        var n := RunLength(ps);
        GroupFlatten(ps[n..]);
        FlattenCons(Run(ps[..n]), Group(ps[n..]));
        SplitAt(ps, n);
      } else {
        GroupFlatten(ps[1..]);
        FlattenCons(Single(ps[0]), Group(ps[1..]));
        SplitAt(ps, 1);
      }
    }
  }

  lemma SplitAt(ps: seq<Piece>, n: nat)
    requires n <= |ps|
    ensures ps[..n] + ps[n..] == ps
  {
  }

  /** The blocks are well-grouped: the runs are exactly the maximal
      stretches the pattern matches. */
  lemma {:induction false} GroupWellGrouped(ps: seq<Piece>)
    ensures WellGrouped(Group(ps))
    decreases |ps|
  {
    if ps != [] {
      var bs := Group(ps);
      if ps[0].ImgPara? {
        var n := RunLength(ps);
        var rest := ps[n..];
        GroupWellGrouped(rest);
        assert bs[1..] == Group(rest);
        assert forall k :: 0 <= k < n ==> ps[..n][k] == ps[k];
        if rest != [] {
          assert !InRun(rest[0]);
          assert !rest[0].ImgPara?;
          assert bs[1] == Single(rest[0]);
        }
      } else {
        GroupWellGrouped(ps[1..]);
        assert bs[1..] == Group(ps[1..]);
      }
    }
  }

  /** A run of one image is emitted exactly as it was; a run of two or more
      is enclosed in one element whose class is `img-grid img-grid-2` for
      two images, `img-grid-3` for three and `img-grid-multi` for four and
      more, with the run's text inside. */
  lemma GridWrapped(tag: Tag, n: nat, group: string)
    requires n >= 1
    ensures n == 1 ==> WrapGroup(tag, n, group) == group
    ensures n >= 2 ==> var t := TagName(tag); var out := WrapGroup(tag, n, group);
      StartsWith(out, "<" + t + " class=\"" + GridClass(n) + "\">") &&
      EndsWith(out, group + "</" + t + ">")
    ensures GridClass(n) == (if n == 2 then "img-grid img-grid-2"
                             else if n == 3 then "img-grid img-grid-3"
                             else "img-grid img-grid-multi")
  {
    if n >= 2 {
      WrappedIn(tag, n, group);
    }
    GridClassIs(n);
  }

  lemma GridClassIs(n: nat)
    ensures GridClass(n) == (if n == 2 then "img-grid img-grid-2"
                             else if n == 3 then "img-grid img-grid-3"
                             else "img-grid img-grid-multi")
  {
  }

  lemma WrappedIn(tag: Tag, n: nat, group: string)
    requires n >= 2
    ensures var t := TagName(tag); var out := WrapGroup(tag, n, group);
      StartsWith(out, "<" + t + " class=\"" + GridClass(n) + "\">") &&
      EndsWith(out, group + "</" + t + ">")
  {
    var t := TagName(tag);
    var open := OpeningTag(tag, n);
    var close := ClosingTag(tag);
    assert open == "<" + t + " class=\"" + GridClass(n) + "\">";
    assert close == "</" + t + ">";
    Enclosed(open, group, close);
  }

  /** Text between an opening and a closing part starts with the one and
      ends with the text and the other. */
  lemma Enclosed(open: string, inner: string, close: string)
    ensures StartsWith(open + inner + close, open) && EndsWith(open + inner + close, inner + close)
  {
    assert (open + inner + close)[..|open|] == open;
    assert (open + inner + close)[|open|..] == inner + close;
  }

  /** Pieces with no image paragraph are emitted as they are. */
  lemma {:induction false} NoImagePieces(ps: seq<Piece>, tag: Tag)
    requires forall k :: 0 <= k < |ps| ==> !ps[k].ImgPara?
    ensures RenderBlocks(Group(ps), tag) == Html(ps)
    decreases |ps|
  {
    if ps != [] {
      NoImagePieces(ps[1..], tag);
      assert Group(ps)[1..] == Group(ps[1..]);
    }
  }

  /** HTML in which `<p><img` never occurs is emitted unchanged. */
  lemma NoImagesUnchanged(html: string, tag: Tag)
    requires !Contains(html, ImgOpen)
    ensures ProcessImageGrids(html, tag) == html
  {
    LexNoImages(html);
    NoImagePieces(Lex(html), tag);
    LexHtml(html);
  }

  /** Two image paragraphs separated by a newline become one two-image grid. */
  lemma TwoImagesGrid(a: string, b: string, tag: Tag)
    requires '>' !in a && '>' !in b
    ensures var html := ImgOpen + a + ImgClose + "\n" + ImgOpen + b + ImgClose;
      ProcessImageGrids(html, tag) == WrapGroup(tag, 2, html)
  {
    var html := ImgOpen + a + ImgClose + "\n" + ImgOpen + b + ImgClose;
    LexTwo(a, b);
    GroupTwo(a, b);
    RenderOne(Run([ImgPara(a), Ws('\n'), ImgPara(b)]), tag);
    LexHtml(html);
  }

  lemma LexTwo(a: string, b: string)
    requires '>' !in a && '>' !in b
    ensures Lex(ImgOpen + a + ImgClose + "\n" + ImgOpen + b + ImgClose) == [ImgPara(a), Ws('\n'), ImgPara(b)]
  {
    var first := ImgOpen + a + ImgClose;
    var second := ImgOpen + b + ImgClose;
    var tail := "\n" + second;
    assert second + "" == second;
    LexImage(second, b, "");
    LexWs('\n', second);
    LexImage(first + tail, a, tail);
    Regroup(first, "\n", ImgOpen, b, ImgClose);
    assert Lex("") == [];
    assert [ImgPara(a)] + ([Ws('\n')] + ([ImgPara(b)] + [])) == [ImgPara(a), Ws('\n'), ImgPara(b)];
  }

  lemma Regroup(p: string, q: string, r: string, s: string, t: string)
    ensures p + q + r + s + t == p + (q + (r + s + t))
  {
  }

  lemma GroupTwo(a: string, b: string)
    ensures var ps := [ImgPara(a), Ws('\n'), ImgPara(b)];
      Group(ps) == [Run(ps)] && Images(ps) == 2
  {
    var ps := [ImgPara(a), Ws('\n'), ImgPara(b)];
    assert ps[1..] == [Ws('\n'), ImgPara(b)];
    assert ps[1..][1..] == [ImgPara(b)];
    assert ps[1..][1..][1..] == [];
    assert Images(ps[1..][1..]) == 1;
    assert Images(ps[1..]) == 1;
    assert RunLength(ps[1..][1..]) == 1;
    assert RunLength(ps[1..]) == 2;
    assert ps[..3] == ps && ps[3..] == [];
  }

  /** A whitespace character at the head of a text that does not start an
      image paragraph is one piece. */
  lemma LexWs(c: char, rest: string)
    requires IsSpace(c)
    ensures Lex([c] + rest) == [Ws(c)] + Lex(rest)
  {
    var s := [c] + rest;
    assert !StartsWith(s, ImgOpen) by { assert s[0] != ImgOpen[0]; }
    assert s[1..] == rest;
  }

  /** A single image paragraph, and the newline after it, is left as it was. */
  lemma OneImageUnchanged(a: string, tag: Tag)
    requires '>' !in a
    ensures ProcessImageGrids(ImgOpen + a + ImgClose + "\n", tag) == ImgOpen + a + ImgClose + "\n"
  {
    var html := ImgOpen + a + ImgClose + "\n";
    LexWs('\n', "");
    assert html == ImgOpen + a + ImgClose + (['\n'] + "");
    LexImage(html, a, ['\n'] + "");
    var ps := [ImgPara(a), Ws('\n')];
    assert Lex(html) == ps;
    assert ps[1..] == [Ws('\n')];
    assert ps[1..][1..] == [];
    assert Images(ps[1..]) == 0;
    assert RunLength(ps[1..]) == 1;
    assert ps[..2] == ps && ps[2..] == [];
    assert Group(ps) == [Run(ps)];
    RenderOne(Run(ps), tag);
    LexHtml(html);
  }

  /** Image paragraphs, one per line. */
  function Paras(attrs: seq<string>): string
    requires attrs != []
    decreases |attrs|
  {
    if |attrs| == 1 then ImgOpen + attrs[0] + ImgClose
    else ImgOpen + attrs[0] + ImgClose + ("\n" + Paras(attrs[1..]))
  }

  /** The pieces of image paragraphs one per line. */
  function ParaPieces(attrs: seq<string>): (ps: seq<Piece>)
    requires attrs != []
    ensures ps != [] && ps[0] == ImgPara(attrs[0])
    ensures forall k :: 0 <= k < |ps| ==> InRun(ps[k])
    ensures Images(ps) == |attrs|
    decreases |attrs|
  {
    if |attrs| == 1 then [ImgPara(attrs[0])]
    else
      var rest := ParaPieces(attrs[1..]);
      var ps := [ImgPara(attrs[0]), Ws('\n')] + rest;
      assert ps[1..] == [Ws('\n')] + rest && ps[1..][1..] == rest;
      ps
  }

  /** Image paragraphs one per line are cut into their paragraphs and the
      newlines between them. */
  lemma {:induction false} LexParas(attrs: seq<string>)
    requires attrs != [] && forall k :: 0 <= k < |attrs| ==> '>' !in attrs[k]
    ensures Lex(Paras(attrs)) == ParaPieces(attrs)
    decreases |attrs|
  {
    var a := attrs[0];
    if |attrs| == 1 {
      assert Paras(attrs) == ImgOpen + a + ImgClose + "";
      LexImage(Paras(attrs), a, "");
    } else {
      var rest := attrs[1..];
      assert forall k :: 0 <= k < |rest| ==> '>' !in rest[k] by {
        forall k | 0 <= k < |rest| ensures '>' !in rest[k] { assert rest[k] == attrs[k + 1]; }
      }
      LexParas(rest);
      var tail := NewlineThen(Paras(rest));
      assert Paras(attrs) == ImgOpen + a + ImgClose + tail;
      LexImage(Paras(attrs), a, tail);
      PiecesCons(a, Ws('\n'), ParaPieces(rest));
    }
  }

  /** The text after the first paragraph is a newline and the remaining paragraphs,
      lexed as a `Ws` piece before them. */
  lemma NewlineThen(rest: string) returns (tail: string)
    ensures tail == "\n" + rest && Lex(tail) == [Ws('\n')] + Lex(rest)
  {
    tail := "\n" + rest;
    assert tail == ['\n'] + rest;
    LexWs('\n', rest);
  }

  lemma PiecesCons(a: string, w: Piece, rest: seq<Piece>)
    ensures [ImgPara(a)] + ([w] + rest) == [ImgPara(a), w] + rest
  {
  }

  /** A sequence of run pieces starting with an image paragraph is one run. */
  lemma AllInRun(ps: seq<Piece>)
    requires ps != [] && ps[0].ImgPara? && forall k :: 0 <= k < |ps| ==> InRun(ps[k])
    ensures Group(ps) == [Run(ps)]
  {
    assert RunLength(ps) == |ps|;
    assert ps[..|ps|] == ps && ps[|ps|..] == [];
  }

  /** Image paragraphs one per line form one run: a single image is
      emitted as it is, and two or more are wrapped in one grid with the
      class for their count. */
  lemma ImagesGrid(attrs: seq<string>, tag: Tag)
    requires attrs != [] && forall k :: 0 <= k < |attrs| ==> '>' !in attrs[k]
    ensures ProcessImageGrids(Paras(attrs), tag) == WrapGroup(tag, |attrs|, Paras(attrs))
  {
    var html := Paras(attrs);
    var ps := ParaPieces(attrs);
    LexParas(attrs);
    AllInRun(ps);
    RenderOne(Run(ps), tag);
    LexHtml(html);
  }

  /** The text of every grid size: one image stays as it is, two get
      `img-grid img-grid-2`, three `img-grid img-grid-3`, four and more
      `img-grid img-grid-multi`. */
  lemma ImagesGridClass(attrs: seq<string>, tag: Tag)
    requires attrs != [] && forall k :: 0 <= k < |attrs| ==> '>' !in attrs[k]
    ensures var html := Paras(attrs); var out := ProcessImageGrids(html, tag); var t := TagName(tag);
      (|attrs| == 1 ==> out == html) &&
      (|attrs| == 2 ==> out == "<" + t + " class=\"" + "img-grid img-grid-2" + "\">" + html + "</" + t + ">") &&
      (|attrs| == 3 ==> out == "<" + t + " class=\"" + "img-grid img-grid-3" + "\">" + html + "</" + t + ">") &&
      (|attrs| >= 4 ==> out == "<" + t + " class=\"" + "img-grid img-grid-multi" + "\">" + html + "</" + t + ">")
  {
    ImagesGrid(attrs, tag);
    WrapTable(tag, |attrs|, Paras(attrs));
  }

  lemma WrapTable(tag: Tag, n: nat, html: string)
    requires n >= 1
    ensures var out := WrapGroup(tag, n, html); var t := TagName(tag);
      (n == 1 ==> out == html) &&
      (n == 2 ==> out == "<" + t + " class=\"" + "img-grid img-grid-2" + "\">" + html + "</" + t + ">") &&
      (n == 3 ==> out == "<" + t + " class=\"" + "img-grid img-grid-3" + "\">" + html + "</" + t + ">") &&
      (n >= 4 ==> out == "<" + t + " class=\"" + "img-grid img-grid-multi" + "\">" + html + "</" + t + ">")
  {
    if n == 2 {
      WrapSized(tag, n, html, "img-grid img-grid-2");
    } else if n == 3 {
      WrapSized(tag, n, html, "img-grid img-grid-3");
    } else if n >= 4 {
      WrapSized(tag, n, html, "img-grid img-grid-multi");
    }
  }

  /** A group of two or more images is wrapped in the tag carrying the class `cls`. */
  lemma WrapSized(tag: Tag, n: nat, html: string, cls: string)
    requires n >= 2 && cls == GridClass(n)
    ensures var t := TagName(tag);
      WrapGroup(tag, n, html) == "<" + t + " class=\"" + cls + "\">" + html + "</" + t + ">"
  {
  }
}
