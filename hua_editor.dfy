/**
 * The HuaEditor server: the `img://` link rewrite, the image grid and
 * inline-style passes over the parsed document, the style-file routes'
 * path check and style list, and the checks, title and article of the
 * draft route.
 *
 * The parsed document is seen as its elements in document order, each
 * with its tag name, its `style` attribute (empty when it has none) and
 * whether it sits inside the image grid. Selector matching is the HTML
 * parser's: it is a parameter `select` giving the indices of the matched
 * elements.
 */
module HuaEditor {
  import opened Wrappers
  import opened Text
  import opened Theme
  import Dict
  import MarkdownUtils
  import WeChat

  // ---------------------------------------------------------------------
  // The img:// protocol

  /** Where an `img://` image is sent: this text followed by its id. */
  const Placeholder := "https://via.placeholder.com/600x400.png?text=Image+"

  /** The first index at or after `i` that holds `c`, or the length. */
  function IndexOf(s: string, c: char, i: nat): (r: nat)
    requires i <= |s|
    ensures i <= r <= |s| && (r < |s| ==> s[r] == c)
    ensures forall j :: i <= j < r ==> s[j] != c
    decreases |s| - i
  {
    if i == |s| || s[i] == c then i else IndexOf(s, c, i + 1)
  }

  lemma {:induction false} IndexOfAt(s: string, c: char, i: nat, r: nat)
    requires i <= r < |s| && s[r] == c
    requires forall j :: i <= j < r ==> s[j] != c
    ensures IndexOf(s, c, i) == r
    decreases r - i
  {
    if i < r {
      IndexOfAt(s, c, i + 1, r);
    }
  }

  /** A match of `!\[([^\]]*)\]\(img://([^)]+)\)`: the alt text, the image
      id, and the index just past the match. */
  datatype ImageLink = ImageLink(alt: string, id: string, end: nat)

  /** The text of an image link. */
  function LinkText(alt: string, id: string): string {
    "![" + alt + "](img://" + id + ")"
  }

  /** The match starting at `i`, if any. Neither part can hold the character
      that ends it, so the match is unique. */
  function ImageLinkAt(s: string, i: nat): (r: Option<ImageLink>)
    requires i <= |s|
    ensures r.Some? ==> (i < r.value.end <= |s| && ']' !in r.value.alt && ')' !in r.value.id &&
                         r.value.id != [] && r.value.end == i + |r.value.alt| + |r.value.id| + 11)
  {
    if !OccursAt(s, i, "![") then None
    else
      var k := IndexOf(s, ']', i + 2);
      if !OccursAt(s, k, "](img://") then None
      else
        var m := IndexOf(s, ')', k + 8);
        if m == |s| || m == k + 8 then None
        else
          var alt, id := s[i + 2..k], s[k + 8..m];
          assert ']' !in alt by {
            forall j | 0 <= j < |alt| ensures alt[j] != ']' { assert alt[j] == s[i + 2 + j]; }
          }
          assert ')' !in id by {
            forall j | 0 <= j < |id| ensures id[j] != ')' { assert id[j] == s[k + 8 + j]; }
          }
          Some(ImageLink(alt, id, m + 1))
  }

  /** What is found is an image link. */
  lemma ImageLinkSound(s: string, i: nat)
    requires i <= |s| && ImageLinkAt(s, i).Some?
    ensures var link := ImageLinkAt(s, i).value; s[i..link.end] == LinkText(link.alt, link.id)
  {
    var k := IndexOf(s, ']', i + 2);
    var m := IndexOf(s, ')', k + 8);
    assert ImageLinkAt(s, i).value == ImageLink(s[i + 2..k], s[k + 8..m], m + 1);
    LinkAssembled(s, i, k, m);
  }

  /** Pieces in place make an image link. */
  lemma LinkAssembled(s: string, i: nat, k: nat, m: nat)
    requires i + 2 <= k && k + 8 <= m < |s|
    requires s[i..i + 2] == "![" && s[k..k + 8] == "](img://" && s[m] == ')'
    ensures s[i..m + 1] == LinkText(s[i + 2..k], s[k + 8..m])
  {
    SliceSplit(s, i, m, m + 1);
    SliceSplit(s, i, k + 8, m);
    SliceSplit(s, i, k, k + 8);
    SliceSplit(s, i, i + 2, k);
    assert s[m..m + 1] == ")";
  }

  lemma SliceSplit(s: string, a: nat, b: nat, c: nat)
    requires a <= b <= c <= |s|
    ensures s[a..c] == s[a..b] + s[b..c]
  {
  }

  /** The pieces of an image link found at `i`. */
  lemma LinkParts(s: string, i: nat, alt: string, id: string)
    requires OccursAt(s, i, LinkText(alt, id))
    ensures var k := i + 2 + |alt|; var m := k + 8 + |id|;
      m < |s| && s[i..i + 2] == "![" && s[i + 2..k] == alt && s[k..k + 8] == "](img://" &&
      s[k + 8..m] == id && s[m] == ')'
  {
    var t := LinkText(alt, id);
    var u := s[i..i + |t|];
    var k := 2 + |alt|;
    var m := k + 8 + |id|;
    assert u == t;
    LinkTextParts(alt, id);
    SubSlice(s, i, i + |t|, 0, 2);
    SubSlice(s, i, i + |t|, 2, k);
    SubSlice(s, i, i + |t|, k, k + 8);
    SubSlice(s, i, i + |t|, k + 8, m);
  }

  lemma LinkTextParts(alt: string, id: string)
    ensures var t := LinkText(alt, id); var k := 2 + |alt|; var m := k + 8 + |id|;
      |t| == m + 1 && t[..2] == "![" && t[2..k] == alt && t[k..k + 8] == "](img://" && t[k + 8..m] == id && t[m] == ')'
  {
    var t := LinkText(alt, id);
    var k := 2 + |alt|;
    var m := k + 8 + |id|;
    assert t == "![" + alt + "](img://" + id + ")";
    assert t[..m] == "![" + alt + "](img://" + id;
    assert t[..k + 8] == "![" + alt + "](img://";
    assert t[..k] == "![" + alt;
  }

  lemma SubSlice(s: string, i: nat, j: nat, a: nat, b: nat)
    requires i <= j <= |s| && a <= b <= j - i
    ensures s[i..j][a..b] == s[i + a..i + b]
  {
    assert forall x :: 0 <= x < b - a ==> s[i..j][a..b][x] == s[i + a + x];
  }

  /** Every image link is found where it starts. */
  lemma ImageLinkFound(s: string, i: nat, alt: string, id: string)
    requires ']' !in alt && ')' !in id && id != []
    requires OccursAt(s, i, LinkText(alt, id))
    ensures ImageLinkAt(s, i) == Some(ImageLink(alt, id, i + |alt| + |id| + 11))
  {
    var k := i + 2 + |alt|;
    var m := k + 8 + |id|;
    LinkParts(s, i, alt, id);
    forall j | i + 2 <= j < k ensures s[j] != ']' {
      assert s[j] == s[i + 2..k][j - i - 2];
    }
    IndexOfAt(s, ']', i + 2, k);
    forall j | k + 8 <= j < m ensures s[j] != ')' {
      assert s[j] == s[k + 8..m][j - k - 8];
    }
    IndexOfAt(s, ')', k + 8, m);
  }

  /** `re.sub` with the placeholder, scanning from `i`. */
  function RewriteFrom(s: string, i: nat): string
    requires i <= |s|
    decreases |s| - i
  {
    if i == |s| then []
    else match ImageLinkAt(s, i)
      case Some(link) => "![" + link.alt + "](" + Placeholder + link.id + ")" + RewriteFrom(s, link.end)
      case None => [s[i]] + RewriteFrom(s, i + 1)
  }

  /** `process_image_protocol` */
  function ProcessImageProtocol(html: string): string {
    RewriteFrom(html, 0)
  }

  lemma {:induction false} RewritePlain(s: string, i: nat)
    requires i <= |s|
    requires forall j :: !OccursAt(s, j, "](img://")
    ensures RewriteFrom(s, i) == s[i..]
    decreases |s| - i
  {
    if i < |s| {
      RewritePlain(s, i + 1);
      assert s[i..] == [s[i]] + s[i + 1..];
    }
  }

  /** Text with no `](img://` in it is left as it is. */
  lemma NoLinkUnchanged(html: string)
    requires forall j :: !OccursAt(html, j, "](img://")
    ensures ProcessImageProtocol(html) == html
  {
    RewritePlain(html, 0);
  }

  /** An image link becomes the same link to the placeholder for its id. */
  lemma LinkRewritten(alt: string, id: string)
    requires ']' !in alt && ')' !in id && id != []
    ensures ProcessImageProtocol(LinkText(alt, id)) == "![" + alt + "](" + Placeholder + id + ")"
  {
    var s := LinkText(alt, id);
    assert s[0..|s|] == s;
    ImageLinkFound(s, 0, alt, id);
    assert |s| == |alt| + |id| + 11 && RewriteFrom(s, |s|) == [];
  }

  // ---------------------------------------------------------------------
  // The document

  datatype Element = Element(name: string, style: string, inGrid: bool)

  /** The grid container: its `data-image-count`, its style, and the style
      of the `div` each image is put in. */
  datatype Grid = Grid(count: nat, style: string, wrapperStyle: string)

  const ImageStyle := "width: 100%; height: auto; display: block; border-radius: 8px;"
  const WrapperStyle := "width: 100%; height: auto; overflow: hidden;"

  /** The part of every grid container style before the columns. */
  const GridHead := "display: grid; grid-template-columns: "
  /** The part of every grid container style after the columns. */
  const GridTail := "; gap: 8px; margin: 20px auto; max-width: 100%; align-items: start;"

  /** The grid container's style for `n` images. */
  function GridStyle(n: nat): string {
    if n == 2 then GridHead + "1fr 1fr" + GridTail
    else if n == 3 then GridHead + "repeat(3, 1fr)" + GridTail
    else if n == 4 then GridHead + "1fr 1fr" + GridTail
    else GridHead + "repeat(3, 1fr)" + GridTail
  }

  /** `soup.find_all('img')`: the images' indices, in document order. */
  function ImageIndices(els: seq<Element>): (r: seq<nat>)
    ensures forall k :: 0 <= k < |r| ==> r[k] < |els| && els[r[k]].name == "img"
    ensures forall i :: 0 <= i < |els| && els[i].name == "img" ==> i in r
    ensures forall a, b :: 0 <= a < b < |r| ==> r[a] < r[b]
    decreases |els|
  {
    if els == [] then []
    else
      var r := ImageIndices(els[..|els| - 1]);
      if els[|els| - 1].name == "img" then r + [|els| - 1] else r
  }

  /** The image counts of two parts add up. */
  lemma {:induction false} ImageIndicesAppend(a: seq<Element>, b: seq<Element>)
    ensures |ImageIndices(a + b)| == |ImageIndices(a)| + |ImageIndices(b)|
    decreases |b|
  {
    if b == [] {
      assert a + b == a;
    } else {
      var b' := b[..|b| - 1];
      assert (a + b)[..|a + b| - 1] == a + b';
      ImageIndicesAppend(a, b');
    }
  }

  lemma {:induction false} NoImages(els: seq<Element>)
    requires forall i :: 0 <= i < |els| ==> els[i].name != "img"
    ensures ImageIndices(els) == []
    decreases |els|
  {
    if els != [] {
      NoImages(els[..|els| - 1]);
    }
  }

  /** An image moved into the grid: its style overwritten. */
  function GridImage(e: Element): Element {
    if e.name == "img" then Element("img", ImageStyle, true) else e
  }

  /** The elements after `group_consecutive_images`: with two images or
      more, every image is in the grid with the grid image style. */
  function Grouped(els: seq<Element>): (r: seq<Element>)
    ensures |r| == |els|
  {
    if |ImageIndices(els)| >= 2 then seq(|els|, i requires 0 <= i < |els| => GridImage(els[i])) else els
  }

  /** The grid `group_consecutive_images` builds, if any: one for all the
      images when there are two or more, two columns wide for 2 or 4 images
      and three for 3 or 5 and more. */
  function GridOf(els: seq<Element>): (r: Option<Grid>)
    ensures r.Some? <==> |ImageIndices(els)| >= 2
    ensures r.Some? ==> (r.value.count == |ImageIndices(els)| && r.value.wrapperStyle == WrapperStyle &&
                         r.value.style == GridHead + (if r.value.count in {2, 4} then "1fr 1fr" else "repeat(3, 1fr)") + GridTail)
  {
    var n := |ImageIndices(els)|;
    if n >= 2 then Some(Grid(n, GridStyle(n), WrapperStyle)) else None
  }

  /** All images form one group, however far apart they are: two images
      with other elements between them make a grid of two. */
  lemma ApartImagesGrouped(first: Element, between: seq<Element>, second: Element)
    requires first.name == "img" && second.name == "img"
    requires forall i :: 0 <= i < |between| ==> between[i].name != "img"
    ensures GridOf([first] + between + [second]) == Some(Grid(2, GridStyle(2), WrapperStyle))
    ensures forall i :: 0 <= i < |between| ==> Grouped([first] + between + [second])[i + 1] == between[i]
  {
    var els := [first] + between + [second];
    ImageCount(first, between, second);
    var g := Grouped(els);
    assert g == seq(|els|, j requires 0 <= j < |els| => GridImage(els[j]));
    forall i | 0 <= i < |between|
      ensures g[i + 1] == between[i]
    {
      assert els[i + 1] == between[i];
      assert g[i + 1] == GridImage(els[i + 1]);
    }
  }

  /** Two images with no image between them: two images in all. */
  lemma ImageCount(first: Element, between: seq<Element>, second: Element)
    requires first.name == "img" && second.name == "img"
    requires forall i :: 0 <= i < |between| ==> between[i].name != "img"
    ensures |ImageIndices([first] + between + [second])| == 2
  {
    ImageIndicesAppend([first] + between, [second]);
    ImageIndicesAppend([first], between);
    NoImages(between);
    assert ImageIndices([first]) == [0] by {
      assert [first][..0] == [];
    }
    assert ImageIndices([second]) == [0] by {
      assert [second][..0] == [];
    }
  }

  /** Moving exactly the images into the grid is grouping. */
  lemma GroupedPointwise(parsed: seq<Element>, els: seq<Element>)
    requires |ImageIndices(parsed)| >= 2 && |els| == |parsed|
    requires forall j :: 0 <= j < |els| ==>
      els[j] == (if j in ImageIndices(parsed) then GridImage(parsed[j]) else parsed[j])
    ensures els == Grouped(parsed)
  {
    var images := ImageIndices(parsed);
    forall j | 0 <= j < |els| ensures els[j] == Grouped(parsed)[j] {
      if parsed[j].name == "img" {
        assert j in images;
      }
    }
  }

  /** One more image moved into the grid. */
  lemma MarkStep(parsed: seq<Element>, els: seq<Element>, k: nat)
    requires k < |ImageIndices(parsed)| && |els| == |parsed|
    requires forall j :: 0 <= j < |els| ==>
      els[j] == (if j in ImageIndices(parsed)[..k] then GridImage(parsed[j]) else parsed[j])
    ensures var images := ImageIndices(parsed);
      forall j :: 0 <= j < |els| ==>
        els[images[k] := Element("img", ImageStyle, true)][j] ==
          (if j in images[..k + 1] then GridImage(parsed[j]) else parsed[j])
  {
    var images := ImageIndices(parsed);
    assert images[..k + 1] == images[..k] + [images[k]];
  }

  /** Fewer than two images: nothing is grouped. */
  lemma FewImagesUngrouped(els: seq<Element>)
    requires |ImageIndices(els)| < 2
    ensures Grouped(els) == els && GridOf(els) == None
  {
  }

  // ---------------------------------------------------------------------
  // Inline styles

  /** The selectors `apply_inline_styles` never applies. */
  predicate CodeSelector(selector: string) {
    selector == "pre" || selector == "code" || selector == "pre code"
  }

  /** An image inside `div.image-grid`. */
  predicate InGridImage(e: Element) {
    e.name == "img" && e.inGrid
  }

  /** The new style of a matched element. */
  function Merge(existing: string, css: string): (r: string)
    ensures existing == "" ==> r == css
    ensures existing != "" ==> StartsWith(r, existing + "; ") && r[|existing| + 2..] == css
  {
    if existing != "" then existing + "; " + css else css
  }

  /** Selector matching on a document of `n` elements. */
  ghost predicate Selects(select: string -> seq<nat>, n: nat) {
    forall sel :: forall k :: 0 <= k < |select(sel)| ==> select(sel)[k] < n
  }

  /** The elements after merging `css` into each matched element in turn;
      grid images are passed over. */
  function MergeAll(els: seq<Element>, matched: seq<nat>, css: string): (r: seq<Element>)
    requires forall k :: 0 <= k < |matched| ==> matched[k] < |els|
    ensures |r| == |els|
    decreases |matched|
  {
    if matched == [] then els
    else
      var j := matched[0];
      var els' := if InGridImage(els[j]) then els else els[j := els[j].(style := Merge(els[j].style, css))];
      MergeAll(els', matched[1..], css)
  }

  /** What one entry of the style map does to the elements: code selectors
      and the container are skipped here. */
  function Step(els: seq<Element>, rule: (string, string), select: string -> seq<nat>): (r: seq<Element>)
    requires Selects(select, |els|)
    ensures |r| == |els|
  {
    if CodeSelector(rule.0) || rule.0 == "container" then els
    else MergeAll(els, select(rule.0), rule.1)
  }

  /** The elements after every entry of the style map, in map order. */
  function StyleAll(els: seq<Element>, rules: StyleMap, select: string -> seq<nat>): (r: seq<Element>)
    requires Selects(select, |els|)
    ensures |r| == |els|
    decreases |rules|
  {
    if rules == [] then els
    else StyleAll(Step(els, rules[0], select), rules[1..], select)
  }

  /** The styles of the container `div`s the map's `container` entries
      wrap the document in, innermost first. */
  function ContainerStyles(rules: StyleMap): seq<string>
    decreases |rules|
  {
    if rules == [] then []
    else (if rules[0].0 == "container" then [rules[0].1] else []) + ContainerStyles(rules[1..])
  }

  lemma {:induction false} MergeAllKeepsGridImage(els: seq<Element>, matched: seq<nat>, css: string, i: nat)
    requires forall k :: 0 <= k < |matched| ==> matched[k] < |els|
    requires i < |els| && InGridImage(els[i])
    ensures MergeAll(els, matched, css)[i] == els[i]
    decreases |matched|
  {
    if matched != [] {
      var j := matched[0];
      var els' := if InGridImage(els[j]) then els else els[j := els[j].(style := Merge(els[j].style, css))];
      MergeAllKeepsGridImage(els', matched[1..], css, i);
    }
  }

  lemma {:induction false} MergeAllShape(els: seq<Element>, matched: seq<nat>, css: string, i: nat)
    requires forall k :: 0 <= k < |matched| ==> matched[k] < |els|
    requires i < |els|
    ensures MergeAll(els, matched, css)[i].name == els[i].name
    ensures MergeAll(els, matched, css)[i].inGrid == els[i].inGrid
    ensures i !in matched ==> MergeAll(els, matched, css)[i] == els[i]
    decreases |matched|
  {
    if matched != [] {
      var j := matched[0];
      var els' := if InGridImage(els[j]) then els else els[j := els[j].(style := Merge(els[j].style, css))];
      MergeAllShape(els', matched[1..], css, i);
    }
  }

  /** With each element matched at most once, a matched element outside
      the grid gets its old style merged with the declarations. */
  lemma {:induction false} MergeAllAt(els: seq<Element>, matched: seq<nat>, css: string, i: nat)
    requires forall k :: 0 <= k < |matched| ==> matched[k] < |els|
    requires forall a, b :: 0 <= a < b < |matched| ==> matched[a] != matched[b]
    requires i in matched && !InGridImage(els[i])
    ensures MergeAll(els, matched, css)[i] == els[i].(style := Merge(els[i].style, css))
    decreases |matched|
  {
    var j := matched[0];
    var els' := if InGridImage(els[j]) then els else els[j := els[j].(style := Merge(els[j].style, css))];
    if j == i {
      assert i !in matched[1..];
      MergeAllShape(els', matched[1..], css, i);
    } else {
      MergeAllAt(els', matched[1..], css, i);
    }
  }

  /** Images inside the grid are never restyled, and no element changes its
      tag or its place in or out of the grid. */
  lemma {:induction false} StyleAllKeeps(els: seq<Element>, rules: StyleMap, select: string -> seq<nat>, i: nat)
    requires Selects(select, |els|) && i < |els|
    ensures StyleAll(els, rules, select)[i].name == els[i].name
    ensures StyleAll(els, rules, select)[i].inGrid == els[i].inGrid
    ensures InGridImage(els[i]) ==> StyleAll(els, rules, select)[i] == els[i]
    decreases |rules|
  {
    if rules != [] {
      var rule := rules[0];
      if !(CodeSelector(rule.0) || rule.0 == "container") {
        MergeAllShape(els, select(rule.0), rule.1, i);
        if InGridImage(els[i]) {
          MergeAllKeepsGridImage(els, select(rule.0), rule.1, i);
        }
      }
      StyleAllKeeps(Step(els, rule, select), rules[1..], select, i);
    }
  }

  /** The map without its code selectors. */
  function WithoutCode(rules: StyleMap): (r: StyleMap)
    ensures forall k :: 0 <= k < |r| ==> !CodeSelector(r[k].0)
    decreases |rules|
  {
    if rules == [] then []
    else (if CodeSelector(rules[0].0) then [] else [rules[0]]) + WithoutCode(rules[1..])
  }

  /** Code selectors have no effect at all: styling with the map is
      styling with the map without them. */
  lemma {:induction false} CodeSelectorsIgnored(els: seq<Element>, rules: StyleMap, select: string -> seq<nat>)
    requires Selects(select, |els|)
    ensures StyleAll(els, rules, select) == StyleAll(els, WithoutCode(rules), select)
    ensures ContainerStyles(rules) == ContainerStyles(WithoutCode(rules))
    decreases |rules|
  {
    if rules != [] {
      var rest := WithoutCode(rules[1..]);
      CodeSelectorsIgnored(Step(els, rules[0], select), rules[1..], select);
      if CodeSelector(rules[0].0) {
        CodeSelectorsIgnored(els, rules[1..], select);
        assert WithoutCode(rules) == rest;
      } else {
        assert WithoutCode(rules) == [rules[0]] + rest;
        assert ([rules[0]] + rest)[1..] == rest;
      }
    }
  }

  /** Unrolling the style map by one entry. */
  lemma RuleStep(els: seq<Element>, rules: StyleMap, i: nat, select: string -> seq<nat>)
    requires Selects(select, |els|) && i < |rules|
    ensures StyleAll(els, rules[i..], select) == StyleAll(Step(els, rules[i], select), rules[i + 1..], select)
    ensures ContainerStyles(rules[i..]) ==
      (if rules[i].0 == "container" then [rules[i].1] else []) + ContainerStyles(rules[i + 1..])
  {
    assert rules[i..][0] == rules[i] && rules[i..][1..] == rules[i + 1..];
  }

  /** The name of the style applied when the requested one is unknown. */
  const DefaultStyle := "wechat-default"

  /** `HUAEDITOR_STYLES[style_name]['styles']`, falling back to the default
      style for an unknown name. */
  function StylesFor(table: seq<(string, StyleMap)>, name: string): StyleMap
    requires Dict.HasKey(table, DefaultStyle)
  {
    match Dict.Get(table, name)
    case Some(styles) => styles
    case None => Dict.Get(table, DefaultStyle).value
  }

  /** A known name gets its own styles; an unknown one gets the default
      style's. */
  lemma StylesForFallback(table: seq<(string, StyleMap)>, name: string)
    requires Dict.HasKey(table, DefaultStyle)
    ensures Dict.HasKey(table, name) ==> Dict.Get(table, name) == Some(StylesFor(table, name))
    ensures !Dict.HasKey(table, name) ==> StylesFor(table, name) == StylesFor(table, DefaultStyle)
  {
  }

  /** The elements after `apply_inline_styles`. */
  function InlineStyled(table: seq<(string, StyleMap)>, name: string, parsed: seq<Element>,
                        select: string -> seq<nat>): seq<Element>
    requires Dict.HasKey(table, DefaultStyle) && Selects(select, |parsed|)
  {
    StyleAll(Grouped(parsed), StylesFor(table, name), select)
  }

  /** With two images or more, every image ends up in the grid with exactly
      the grid image style, whatever the style map says about images. */
  lemma GridImagesStyled(table: seq<(string, StyleMap)>, name: string, parsed: seq<Element>,
                         select: string -> seq<nat>, i: nat)
    requires Dict.HasKey(table, DefaultStyle) && Selects(select, |parsed|)
    requires |ImageIndices(parsed)| >= 2 && i < |parsed| && parsed[i].name == "img"
    ensures InlineStyled(table, name, parsed, select)[i] == Element("img", ImageStyle, true)
  {
    StyleAllKeeps(Grouped(parsed), StylesFor(table, name), select, i);
  }

  /** The message of the `ValueError` BeautifulSoup's `Tag.insert` raises
      when a tag is inserted into itself. */
  const SelfInsert := "Cannot insert a tag into itself."

  /** What `apply_inline_styles` leaves: the styled elements and the grid,
      or the message of the exception it raised. */
  datatype Styling = Styled(elements: seq<Element>, grid: Option<Grid>) | Raised(message: string)

  /** `apply_inline_styles` as written. Every image is moved into its own
      wrapper `div` inside the grid container before the grid is placed, so
      `group[0].parent` is that wrapper and its parent is the grid itself:
      `insert_after(grid_container)` inserts the grid into itself and
      raises. With fewer than two images no grid is built and the styles
      are applied to the parsed elements. */
  function InlineStyledAsWritten(table: seq<(string, StyleMap)>, name: string, parsed: seq<Element>,
                                 select: string -> seq<nat>): Styling
    requires Dict.HasKey(table, DefaultStyle) && Selects(select, |parsed|)
  {
    if |ImageIndices(parsed)| >= 2 then Raised(SelfInsert)
    else Styled(StyleAll(parsed, StylesFor(table, name), select), None)
  }

  /** As written, styling fails exactly when the intended result has a grid,
      and where it does not fail it gives the intended elements. */
  lemma GroupingRaisesAsWritten(table: seq<(string, StyleMap)>, name: string, parsed: seq<Element>,
                                select: string -> seq<nat>)
    requires Dict.HasKey(table, DefaultStyle) && Selects(select, |parsed|)
    ensures var r := InlineStyledAsWritten(table, name, parsed, select);
      (r.Raised? <==> GridOf(parsed).Some?) &&
      (r.Raised? ==> r.message == SelfInsert) &&
      (r.Styled? ==> r.elements == InlineStyled(table, name, parsed, select) && r.grid == GridOf(parsed))
  {
    if |ImageIndices(parsed)| < 2 {
      FewImagesUngrouped(parsed);
    }
  }

  /** Two images anywhere in the document make the as-written styling
      raise. */
  lemma TwoImagesRaiseAsWritten(table: seq<(string, StyleMap)>, name: string,
                                first: Element, between: seq<Element>, second: Element,
                                select: string -> seq<nat>)
    requires first.name == "img" && second.name == "img"
    requires forall i :: 0 <= i < |between| ==> between[i].name != "img"
    requires Dict.HasKey(table, DefaultStyle) && Selects(select, |between| + 2)
    ensures InlineStyledAsWritten(table, name, [first] + between + [second], select) == Raised(SelfInsert)
  {
    ImageCount(first, between, second);
  }

  /** The parsed document, whose elements' styles are updated in place. */
  class HuaDocument {
    var elements: seq<Element>
    var grid: Option<Grid>
    /** The container `div`s around the content, innermost first. */
    var containers: seq<string>

    constructor (parsed: seq<Element>)
      ensures elements == parsed && grid == None && containers == []
    {
      elements := parsed;
      grid := None;
      containers := [];
    }

    /** `group_consecutive_images` */
    method GroupConsecutiveImages()
      modifies this
      ensures elements == Grouped(old(elements))
      ensures grid == (if GridOf(old(elements)).Some? then GridOf(old(elements)) else old(grid))
      ensures containers == old(containers)
    {
      var images := ImageIndices(elements);
      if |images| == 0 {
        return;
      }
      var group: seq<nat> := [];
      var i := 0;
      while i < |images|
        invariant 0 <= i <= |images| && group == images[..i]
      {
        group := group + [images[i]];
        i := i + 1;
      }
      assert group == images;
      if |group| >= 2 {
        var parsed, els := elements, elements;
        var k := 0;
        while k < |group|
          invariant 0 <= k <= |group| && |els| == |parsed| && containers == old(containers)
          invariant forall j :: 0 <= j < |els| ==>
            els[j] == (if j in group[..k] then GridImage(parsed[j]) else parsed[j])
        {
          var j := group[k];
          MarkStep(parsed, els, k);
          els := els[j := Element("img", ImageStyle, true)];
          k := k + 1;
        }
        assert group[..k] == images;
        GroupedPointwise(parsed, els);
        grid := Some(Grid(|group|, GridStyle(|group|), WrapperStyle));
        elements := els;
      } else {
        FewImagesUngrouped(elements);
      }
    }

    /** `for element in elements: … element['style'] = new_style` */
    method MergeInto(matched: seq<nat>, css: string)
      requires forall k :: 0 <= k < |matched| ==> matched[k] < |elements|
      modifies this
      ensures elements == MergeAll(old(elements), matched, css)
      ensures grid == old(grid) && containers == old(containers)
    {
      var i := 0;
      while i < |matched|
        invariant 0 <= i <= |matched| && |elements| == |old(elements)|
        invariant grid == old(grid) && containers == old(containers)
        invariant MergeAll(elements, matched[i..], css) == MergeAll(old(elements), matched, css)
      {
        var j := matched[i];
        assert matched[i..][0] == j && matched[i..][1..] == matched[i + 1..];
        if !(elements[j].name == "img" && elements[j].inGrid) {
          var current := elements[j].style;
          var merged := if current != "" then current + "; " + css else css;
          elements := elements[j := elements[j].(style := merged)];
        }
        i := i + 1;
      }
    }

    /** The loop over the style map: code selectors are skipped, the
        container wraps the whole document, every other selector's
        declarations are merged into the matched elements. */
    method ApplyRules(rules: StyleMap, select: string -> seq<nat>)
      requires Selects(select, |elements|)
      modifies this
      ensures elements == StyleAll(old(elements), rules, select)
      ensures containers == old(containers) + ContainerStyles(rules)
      ensures grid == old(grid)
    {
      var i := 0;
      while i < |rules|
        invariant 0 <= i <= |rules| && |elements| == |old(elements)| && grid == old(grid)
        invariant StyleAll(elements, rules[i..], select) == StyleAll(old(elements), rules, select)
        invariant containers + ContainerStyles(rules[i..]) == old(containers) + ContainerStyles(rules)
      {
        var (selector, css) := rules[i];
        RuleStep(elements, rules, i, select);
        if CodeSelector(selector) {
        } else if selector == "container" {
          containers := containers + [css];
        } else {
          MergeInto(select(selector), css);
        }
        i := i + 1;
      }
      assert containers + [] == containers;
    }
  }

  /** `apply_inline_styles`: parse, group the images, then style. */
  method ApplyInlineStyles(table: seq<(string, StyleMap)>, name: string, parsed: seq<Element>,
                           select: string -> seq<nat>)
    returns (doc: HuaDocument)
    requires Dict.HasKey(table, DefaultStyle) && Selects(select, |parsed|)
    ensures fresh(doc)
    ensures doc.elements == InlineStyled(table, name, parsed, select)
    ensures doc.grid == GridOf(parsed)
    ensures doc.containers == ContainerStyles(StylesFor(table, name))
  {
    var styles := StylesFor(table, name);
    doc := new HuaDocument(parsed);
    doc.GroupConsecutiveImages();
    doc.ApplyRules(styles, select);
  }

  // ---------------------------------------------------------------------
  // The style-file routes

  /** The path check of `handle_styles`: no `..`, and a `.css` name. */
  predicate CanSave(path: string) {
    !Contains(path, "..") && EndsWith(path, ".css")
  }

  /** The status `handle_styles` answers a save with, when writing works. */
  function SaveStatus(path: string): nat {
    if CanSave(path) then 200 else 400
  }

  /** A path that climbs out of the directory or names something other than
      a stylesheet is refused; every listed style name can be saved. */
  lemma SaveStatusMeaning(path: string, key: string)
    requires '.' !in key
    ensures Contains(path, "..") || !EndsWith(path, ".css") ==> SaveStatus(path) == 400
    ensures SaveStatus(key + ".css") == 200
  {
    var s := key + ".css";
    assert s[|s| - 4..] == ".css";
    forall j: nat | j + 2 <= |s| ensures !OccursAt(s, j, "..") {
      if j < |key| {
        assert s[j..j + 2][0] == key[j] && key[j] in key;
      } else {
        assert s[j..j + 2][1] == ".css"[j + 1 - |key|];
        assert s[j..j + 2][1] != '.';
      }
    }
    if Contains(s, "..") {
      var i := ContainsWitness(s, "..");
      assert false;
    }
  }

  /** `[f for f in listing if f.endswith('.css')]` */
  function CssFiles(listing: seq<string>): (r: seq<string>)
    ensures forall k :: 0 <= k < |r| ==> EndsWith(r[k], ".css") && r[k] in listing
    decreases |listing|
  {
    if listing == [] then []
    else (if EndsWith(listing[0], ".css") then [listing[0]] else []) + CssFiles(listing[1..])
  }

  /** The built-in style names appended, each unless already listed. */
  function AddStyleNames(styles: seq<string>, keys: seq<string>): seq<string>
    decreases |keys|
  {
    if keys == [] then styles
    else
      var name := keys[0] + ".css";
      AddStyleNames(if name in styles then styles else styles + [name], keys[1..])
  }

  /** The list loop of `get_styles` and `refresh_styles`. */
  method StyleList(listing: seq<string>, keys: seq<string>) returns (styles: seq<string>)
    ensures styles == AddStyleNames(CssFiles(listing), keys)
  {
    styles := CssFiles(listing);
    var i := 0;
    while i < |keys|
      invariant 0 <= i <= |keys|
      invariant AddStyleNames(styles, keys[i..]) == AddStyleNames(CssFiles(listing), keys)
    {
      assert keys[i..][0] == keys[i] && keys[i..][1..] == keys[i + 1..];
      var name := keys[i] + ".css";
      if name !in styles {
        styles := styles + [name];
      }
      i := i + 1;
    }
  }

  /** The list keeps the files in front, in order, lists every built-in
      style's file name, adds nothing else, and adds no duplicate. */
  lemma {:induction false} AddStyleNamesMeaning(styles: seq<string>, keys: seq<string>)
    ensures var r := AddStyleNames(styles, keys);
      |styles| <= |r| && r[..|styles|] == styles &&
      (forall k :: 0 <= k < |keys| ==> keys[k] + ".css" in r) &&
      (forall x :: x in r ==> x in styles || exists k :: 0 <= k < |keys| && x == keys[k] + ".css") &&
      ((forall a, b :: 0 <= a < b < |styles| ==> styles[a] != styles[b]) ==>
        forall a, b :: 0 <= a < b < |r| ==> r[a] != r[b])
    decreases |keys|
  {
    if keys != [] {
      var name := keys[0] + ".css";
      var next := if name in styles then styles else styles + [name];
      AddStyleNamesMeaning(next, keys[1..]);
      var r := AddStyleNames(styles, keys);
      assert next[..|styles|] == styles;
      assert r[..|styles|] == r[..|next|][..|styles|];
      assert name in next;
      assert name in r by {
        if name in styles {
          var a :| 0 <= a < |styles| && styles[a] == name;
          assert r[a] == styles[a];
        } else {
          assert r[|styles|] == next[|styles|];
        }
      }
      forall x | x in r ensures x in styles || exists k :: 0 <= k < |keys| && x == keys[k] + ".css" {
        if x !in next {
          var k :| 0 <= k < |keys| - 1 && x == keys[1..][k] + ".css";
          assert x == keys[k + 1] + ".css";
        } else if x !in styles {
          assert x == keys[0] + ".css";
        }
      }
      forall k | 0 <= k < |keys| ensures keys[k] + ".css" in r {
        if k > 0 {
          assert keys[k] == keys[1..][k - 1];
        }
      }
    }
  }

  /** `get_styles`: without the themes directory the working directory's
      stylesheets are listed, and then the built-in styles are not. */
  function GetStyles(themesDir: Option<seq<string>>, cwd: seq<string>, table: seq<(string, StyleMap)>): seq<string> {
    match themesDir
    case Some(listing) => AddStyleNames(CssFiles(listing), Dict.Keys(table))
    case None => CssFiles(cwd)
  }

  /** Every built-in style is offered when the themes directory exists; in
      the fallback only files that are really there are. */
  lemma GetStylesOffers(themesDir: Option<seq<string>>, cwd: seq<string>, table: seq<(string, StyleMap)>)
    ensures themesDir.Some? ==> forall k :: 0 <= k < |table| ==> table[k].0 + ".css" in GetStyles(themesDir, cwd, table)
    ensures themesDir.None? ==> forall x :: x in GetStyles(themesDir, cwd, table) ==> x in cwd && EndsWith(x, ".css")
  {
    if themesDir.Some? {
      var keys := Dict.Keys(table);
      AddStyleNamesMeaning(CssFiles(themesDir.value), keys);
      assert forall k :: 0 <= k < |table| ==> keys[k] == table[k].0;
    }
  }

  // ---------------------------------------------------------------------
  // The draft route

  /** `not value`: missing or empty. */
  predicate Blank(value: Option<string>) {
    value.None? || value.value == ""
  }

  /** The checks of the token route, each answered with 400. */
  function TokenCheck(appid: Option<string>, secret: Option<string>): Option<string> {
    if Blank(appid) then Some("缺少appid")
    else if Blank(secret) then Some("缺少secret")
    else None
  }

  /** The checks of the draft route, in order, each answered with 400. */
  function DraftCheck(appid: Option<string>, secret: Option<string>, markdown: Option<string>): Option<string> {
    if Blank(appid) then Some("缺少appid")
    else if Blank(secret) then Some("缺少secret")
    else if Blank(markdown) then Some("缺少Markdown内容")
    else None
  }

  /** The draft route refuses exactly what the token route refuses, with
      the same message, and besides only an empty Markdown text. */
  lemma DraftCheckExtendsToken(appid: Option<string>, secret: Option<string>, markdown: Option<string>)
    ensures TokenCheck(appid, secret).Some? ==> DraftCheck(appid, secret, markdown) == TokenCheck(appid, secret)
    ensures TokenCheck(appid, secret).None? ==>
      (DraftCheck(appid, secret, markdown).Some? <==> Blank(markdown))
    ensures DraftCheck(appid, secret, markdown).None? <==> !Blank(appid) && !Blank(secret) && !Blank(markdown)
  {
  }

  /** A field of the request's JSON body: missing, `null`, or a string. */
  datatype Field = Absent | Null | Given(text: string)

  /** The message of the `AttributeError` raised by `None.endswith`. */
  const NoEndswith := "'NoneType' object has no attribute 'endswith'"

  /** The style the draft route renders with: `wechat-default.css` when the
      field is missing, looked up without its `.css`; `None` when the
      field is `null`, whose `endswith` raises. */
  function DraftStyle(style: Field): Option<string> {
    match style
    case Absent => Some(StyleName("wechat-default.css"))
    case Null => None
    case Given(s) => Some(StyleName(s))
  }

  lemma DraftStyleDefault()
    ensures DraftStyle(Absent) == Some(DefaultStyle)
    ensures DraftStyle(Null) == None
    ensures forall key :: '.' !in key ==> DraftStyle(Given(key + ".css")) == Some(key)
  {
    StyleNameOfFile(DefaultStyle, DefaultStyle);
    assert DefaultStyle + ".css" == "wechat-default.css";
    forall key | '.' !in key ensures DraftStyle(Given(key + ".css")) == Some(key) {
      StyleNameOfFile(key, key);
    }
  }

  /** The prefix of the draft route's reply when rendering raises. */
  const RenderFailed := "渲染Markdown失败: "

  /** What the render step of the draft route gives: the styled elements,
      or the status and message of its reply. */
  datatype DraftRendering = DraftStyled(elements: seq<Element>) | DraftFailed(status: nat, errmsg: string)

  /** The render step of the draft route as written: the style name, then
      `apply_inline_styles` on the converted document; any exception is
      answered with 500 and its message behind `渲染Markdown失败: `. */
  function DraftRenderAsWritten(table: seq<(string, StyleMap)>, style: Field, parsed: seq<Element>,
                                select: string -> seq<nat>): DraftRendering
    requires Dict.HasKey(table, DefaultStyle) && Selects(select, |parsed|)
  {
    match DraftStyle(style)
    case None => DraftFailed(500, RenderFailed + NoEndswith)
    case Some(name) =>
      match InlineStyledAsWritten(table, name, parsed, select)
      case Raised(m) => DraftFailed(500, RenderFailed + m)
      case Styled(els, _) => DraftStyled(els)
  }

  /** As written, the draft route fails to render, with 500, exactly when
      the style is `null` or the document holds two images or more; what it
      does render is the intended styling with the requested style. */
  lemma DraftRenderMeaning(table: seq<(string, StyleMap)>, style: Field, parsed: seq<Element>,
                           select: string -> seq<nat>)
    requires Dict.HasKey(table, DefaultStyle) && Selects(select, |parsed|)
    ensures var r := DraftRenderAsWritten(table, style, parsed, select);
      (r.DraftFailed? <==> style.Null? || |ImageIndices(parsed)| >= 2) &&
      (r.DraftFailed? ==> r.status == 500 && StartsWith(r.errmsg, RenderFailed)) &&
      (style.Null? ==> r == DraftFailed(500, RenderFailed + NoEndswith)) &&
      (r.DraftStyled? ==> r.elements == InlineStyled(table, DraftStyle(style).value, parsed, select))
  {
    var r := DraftRenderAsWritten(table, style, parsed, select);
    if DraftStyle(style).Some? {
      GroupingRaisesAsWritten(table, DraftStyle(style).value, parsed, select);
    }
    if r.DraftFailed? {
      assert r.errmsg[..|RenderFailed|] == RenderFailed;
    }
  }

  /** The title loop of the draft route. */
  method DraftTitle(markdown: string) returns (title: string)
    ensures title == MarkdownUtils.ExtractTitle(markdown)
  {
    title := MarkdownUtils.DefaultTitle;
    var lines := Split(markdown, '\n');
    var i := 0;
    while i < |lines|
      invariant 0 <= i <= |lines|
      invariant MarkdownUtils.TitleOf(lines[i..]) == MarkdownUtils.TitleOf(lines)
    {
      var line := lines[i];
      assert lines[i..][0] == line && lines[i..][1..] == lines[i + 1..];
      if StartsWith(line, "#") && !StartsWith(line, "##") {
        title := Strip(line[1..]);
        return;
      }
      i := i + 1;
    }
  }

  /** The article of the draft route. */
  function DraftArticle(title: string, styled: string, thumb: Option<string>): WeChat.JsonObject {
    var article := [("title", WeChat.Str(title)), ("author", WeChat.Str("")), ("digest", WeChat.Str("")),
                    ("content", WeChat.Str("<div class=\"markdown-body\">" + styled + "</div>")),
                    ("content_source_url", WeChat.Str("")),
                    ("need_open_comment", WeChat.Num(1)), ("only_fans_can_comment", WeChat.Num(1))];
    if thumb.Some? && thumb.value != "" && Strip(thumb.value) != "" then
      article + [("thumb_media_id", WeChat.Str(thumb.value))]
    else article
  }

  /** The route's article is the service's article for a request with only
      its required fields, so it too carries the cover image exactly when
      one that is not blank is given. */
  lemma DraftArticleAgrees(title: string, styled: string, thumb: Option<string>)
    ensures var t := if thumb.Some? then thumb.value else "";
      DraftArticle(title, styled, thumb) ==
        WeChat.ArticleOf(title, "", "", "<div class=\"markdown-body\">" + styled + "</div>", "", t, 1, 1)
  {
  }
}
