/**
 * The inline-style renderer's styling pass. The converter's HTML first goes
 * through the image-grid rewrite and is parsed; the parsed document is seen
 * here as the list of its elements' `style` attributes, in document order
 * (`None` where an element has none). For every selector of the style map
 * that is not reserved, the declarations are adjusted for the mode and the
 * platform and merged into the `style` of every element the selector
 * matches. Selector matching is the parser's: it is a parameter `select`
 * that gives the indices of the matched elements, or `None` where matching
 * raises. Finally the document is wrapped in a `section.markdown-content`
 * and, when there is an inner style, a `section.inner-container`.
 */
module ThemeStyling {
  import opened Wrappers
  import opened Text
  import opened Theme
  import Dict
  import DarkMode
  import InlineAdjust
  import ImageGrid

  /** The `style` attribute of each element, in document order. */
  type Styles = seq<Option<string>>

  /** Selector matching on a document of `n` elements: every match lies in
      the document. */
  ghost predicate Matches(select: string -> Option<seq<nat>>, n: nat) {
    forall sel :: select(sel).Some? ==> forall k :: 0 <= k < |select(sel).value| ==> select(sel).value[k] < n
  }

  /** The adjustments one selector's declarations receive: dark mode first,
      then the platform's. */
  function AdjustStyle(style: string, mode: string, platform: string): string {
    var s := if mode == "dark-mode" then DarkMode.Darken(style) else style;
    InlineAdjust.PlatformStyle(platform, s)
  }

  /** The adjustments the container styles receive: dark mode, then WeChat
      only. */
  function ContainerStyle(style: string, mode: string, platform: string): string {
    var s := if mode == "dark-mode" then DarkMode.Darken(style) else style;
    if platform == "wechat" then InlineAdjust.WeChatStyle(s) else s
  }

  /** Since the Xiaohongshu and Zhihu adjusters are identities, the container
      styles get exactly the adjustments every other selector gets. */
  lemma ContainerStyleAgrees(style: string, mode: string, platform: string)
    ensures ContainerStyle(style, mode, platform) == AdjustStyle(style, mode, platform)
  {
  }

  /** An existing style followed by `;` unless it is empty or already ends
      with one. */
  function Terminated(existing: string): string {
    if existing != "" && !EndsWith(existing, ";") then existing + ";" else existing
  }

  /** The new `style` of a matched element: its old style, terminated,
      then a space and the adjusted declarations, all stripped. */
  function MergeStyle(existing: Option<string>, adjusted: string): string {
    var e := match existing case Some(s) => s case None => "";
    Strip(Terminated(e) + " " + adjusted)
  }

  /** An element without a style (or with an empty one) gets the adjusted
      declarations alone, stripped. */
  lemma MergeFresh(existing: Option<string>, adjusted: string)
    requires existing.None? || existing == Some("")
    ensures MergeStyle(existing, adjusted) == Strip(adjusted)
  {
    assert Terminated("") + " " + adjusted == " " + adjusted;
    assert (" " + adjusted)[1..] == adjusted;
  }

  /** On a stripped, non-empty style the merge is plain concatenation: the
      old style, a `;` if it lacked one, a space and the new declarations
      (no space when there is nothing to add). */
  lemma MergeOnto(e: string, adjusted: string)
    requires e != [] && IsStripped(e) && IsStripped(adjusted)
    ensures MergeStyle(Some(e), adjusted) ==
      Terminated(e) + (if adjusted == "" then "" else " " + adjusted)
  {
    var t := Terminated(e);
    assert t[0] == e[0];
    if adjusted == "" {
      var x := t + " " + adjusted;
      assert x == t + " ";
      LStripOfStripped(x);
      assert x[..|x| - 1] == t;
      RStripOfStripped(t);
    } else {
      var x := t + " " + adjusted;
      assert x[0] == e[0] && x[|x| - 1] == adjusted[|adjusted| - 1];
      StripOfStripped(x);
    }
  }

  /** Whatever an element held, merging a stripped, non-empty declaration
      string leaves that string whole in its style, and the style is
      stripped. */
  lemma MergeContainsNew(existing: Option<string>, adjusted: string)
    requires adjusted != [] && IsStripped(adjusted)
    ensures var r := MergeStyle(existing, adjusted);
      r != [] && IsStripped(r) && Contains(r, adjusted)
  {
    var e := match existing case Some(s) => s case None => "";
    var w := Terminated(e) + " ";
    assert Terminated(e) + " " + adjusted == w + adjusted;
    StripBefore(w, adjusted);
    ContainsSuffix(LStrip(w), adjusted);
  }

  /** Merging more declarations into a stripped, non-empty style keeps
      everything the style contained. */
  lemma MergeKeeps(e: string, adjusted: string, p: string)
    requires e != [] && IsStripped(e) && Contains(e, p)
    ensures var r := MergeStyle(Some(e), adjusted);
      r != [] && IsStripped(r) && Contains(r, p)
  {
    var t := Terminated(e);
    assert t[0] == e[0] && t[|t| - 1] != ' ';
    assert !IsSpace(t[|t| - 1]);
    assert t + " " + adjusted == t + (" " + adjusted);
    StripKeepsPrefix(t, " " + adjusted);
    var r := MergeStyle(Some(e), adjusted);
    assert StartsWith(t, e) by { assert t[..|e|] == e; }
    assert StartsWith(r, e) by { assert r[..|e|] == t[..|t|][..|e|]; }
    ContainsPrefixOf(e, r, p);
  }

  /** The styles after merging `adjusted` into each matched element in
      turn. */
  function MergeAll(st: Styles, matched: seq<nat>, adjusted: string): (r: Styles)
    requires forall k :: 0 <= k < |matched| ==> matched[k] < |st|
    ensures |r| == |st|
    decreases |matched|
  {
    if matched == [] then st
    else
      var i := matched[0];
      MergeAll(st[i := Some(MergeStyle(st[i], adjusted))], matched[1..], adjusted)
  }

  /** An element that is not matched keeps its style. */
  lemma {:induction false} MergeAllOther(st: Styles, matched: seq<nat>, adjusted: string, i: nat)
    requires forall k :: 0 <= k < |matched| ==> matched[k] < |st|
    requires i < |st| && i !in matched
    ensures MergeAll(st, matched, adjusted)[i] == st[i]
    decreases |matched|
  {
    if matched != [] {
      var j := matched[0];
      MergeAllOther(st[j := Some(MergeStyle(st[j], adjusted))], matched[1..], adjusted, i);
    }
  }

  /** A matched element whose style held `p` (stripped, non-empty) still
      holds it. */
  lemma {:induction false} MergeAllKeeps(st: Styles, matched: seq<nat>, adjusted: string, i: nat, p: string)
    requires forall k :: 0 <= k < |matched| ==> matched[k] < |st|
    requires i < |st| && st[i].Some? && st[i].value != [] && IsStripped(st[i].value) && Contains(st[i].value, p)
    ensures var r := MergeAll(st, matched, adjusted)[i];
      r.Some? && r.value != [] && IsStripped(r.value) && Contains(r.value, p)
    decreases |matched|
  {
    if matched != [] {
      var j := matched[0];
      var st' := st[j := Some(MergeStyle(st[j], adjusted))];
      if j == i {
        MergeKeeps(st[i].value, adjusted, p);
      }
      MergeAllKeeps(st', matched[1..], adjusted, i, p);
    }
  }

  /** Every matched element ends up with the (stripped, non-empty) adjusted
      declarations in its style. */
  lemma {:induction false} MergeAllMatched(st: Styles, matched: seq<nat>, adjusted: string, i: nat)
    requires forall k :: 0 <= k < |matched| ==> matched[k] < |st|
    requires adjusted != [] && IsStripped(adjusted) && i in matched
    ensures var r := MergeAll(st, matched, adjusted)[i];
      r.Some? && r.value != [] && IsStripped(r.value) && Contains(r.value, adjusted)
    decreases |matched|
  {
    var j := matched[0];
    var st' := st[j := Some(MergeStyle(st[j], adjusted))];
    if j == i {
      MergeContainsNew(st[i], adjusted);
      MergeAllKeeps(st', matched[1..], adjusted, i, adjusted);
    } else {
      MergeAllMatched(st', matched[1..], adjusted, i);
    }
  }

  /** With each element matched at most once, a matched element's new style
      is its old style merged with the declarations. */
  lemma {:induction false} MergeAllAt(st: Styles, matched: seq<nat>, adjusted: string, i: nat)
    requires forall k :: 0 <= k < |matched| ==> matched[k] < |st|
    requires forall a, b :: 0 <= a < b < |matched| ==> matched[a] != matched[b]
    requires i < |st| && i in matched
    ensures MergeAll(st, matched, adjusted)[i] == Some(MergeStyle(st[i], adjusted))
    decreases |matched|
  {
    var j := matched[0];
    var st' := st[j := Some(MergeStyle(st[j], adjusted))];
    if j == i {
      assert i !in matched[1..];
      MergeAllOther(st', matched[1..], adjusted, i);
    } else {
      MergeAllAt(st', matched[1..], adjusted, i);
    }
  }

  /** What one entry of the style map does to the document. */
  function Step(st: Styles, rule: (string, string), select: string -> Option<seq<nat>>,
                mode: string, platform: string): (r: Styles)
    requires Matches(select, |st|)
    ensures |r| == |st|
  {
    if Reserved(rule.0) then st
    else match select(rule.0)
      case None => st
      case Some(m) => MergeAll(st, m, AdjustStyle(rule.1, mode, platform))
  }

  /** The document after every entry of the style map, in map order. */
  function StyleAll(st: Styles, rules: StyleMap, select: string -> Option<seq<nat>>,
                    mode: string, platform: string): (r: Styles)
    requires Matches(select, |st|)
    ensures |r| == |st|
    decreases |rules|
  {
    if rules == [] then st
    else StyleAll(Step(st, rules[0], select, mode, platform), rules[1..], select, mode, platform)
  }

  /** Styling with a map is styling with its first part, then its rest. */
  lemma {:induction false} StyleAllSplit(st: Styles, x: StyleMap, y: StyleMap,
      select: string -> Option<seq<nat>>, mode: string, platform: string)
    requires Matches(select, |st|)
    ensures StyleAll(st, x + y, select, mode, platform) ==
            StyleAll(StyleAll(st, x, select, mode, platform), y, select, mode, platform)
    decreases |x|
  {
    if x == [] {
      assert x + y == y;
    } else {
      assert (x + y)[0] == x[0] && (x + y)[1..] == x[1..] + y;
      StyleAllSplit(Step(st, x[0], select, mode, platform), x[1..], y, select, mode, platform);
    }
  }

  /** `container` and `innerContainer` are never applied to content, and a
      selector whose matching raises is skipped: dropping such an entry from
      the map changes nothing, so every other entry is still applied. */
  lemma SkipInert(st: Styles, rules: StyleMap, j: nat,
      select: string -> Option<seq<nat>>, mode: string, platform: string)
    requires Matches(select, |st|) && j < |rules|
    requires Reserved(rules[j].0) || select(rules[j].0).None?
    ensures StyleAll(st, rules, select, mode, platform) ==
            StyleAll(st, rules[..j] + rules[j + 1..], select, mode, platform)
  {
    assert rules == rules[..j] + ([rules[j]] + rules[j + 1..]);
    StyleAllSplit(st, rules[..j], [rules[j]] + rules[j + 1..], select, mode, platform);
    StyleAllSplit(st, rules[..j], rules[j + 1..], select, mode, platform);
    var mid := StyleAll(st, rules[..j], select, mode, platform);
    assert ([rules[j]] + rules[j + 1..])[1..] == rules[j + 1..];
    assert Step(mid, rules[j], select, mode, platform) == mid;
  }

  /** A style that holds `p` keeps holding it through any further entries. */
  lemma {:induction false} StyleAllKeeps(st: Styles, rules: StyleMap, i: nat, p: string,
      select: string -> Option<seq<nat>>, mode: string, platform: string)
    requires Matches(select, |st|)
    requires i < |st| && st[i].Some? && st[i].value != [] && IsStripped(st[i].value) && Contains(st[i].value, p)
    ensures var r := StyleAll(st, rules, select, mode, platform)[i];
      r.Some? && r.value != [] && IsStripped(r.value) && Contains(r.value, p)
    decreases |rules|
  {
    if rules != [] {
      var rule := rules[0];
      var st' := Step(st, rule, select, mode, platform);
      if !Reserved(rule.0) && select(rule.0).Some? {
        MergeAllKeeps(st, select(rule.0).value, AdjustStyle(rule.1, mode, platform), i, p);
      }
      StyleAllKeeps(st', rules[1..], i, p, select, mode, platform);
    }
  }

  /** Every element matched by a non-reserved selector carries, in the
      finished document, that selector's adjusted declarations (when they
      are non-empty and stripped, as the WeChat adjuster's always are). */
  lemma StyledContains(st: Styles, rules: StyleMap, j: nat, i: nat,
      select: string -> Option<seq<nat>>, mode: string, platform: string)
    requires Matches(select, |st|) && j < |rules| && !Reserved(rules[j].0)
    requires select(rules[j].0).Some? && i in select(rules[j].0).value
    requires var a := AdjustStyle(rules[j].1, mode, platform); a != [] && IsStripped(a)
    ensures var r := StyleAll(st, rules, select, mode, platform)[i];
      r.Some? && Contains(r.value, AdjustStyle(rules[j].1, mode, platform))
  {
    var rest := [rules[j]] + rules[j + 1..];
    assert rules == rules[..j] + rest;
    StyleAllSplit(st, rules[..j], rest, select, mode, platform);
    StyledFrom(StyleAll(st, rules[..j], select, mode, platform), rules[j], rules[j + 1..], i,
               select, mode, platform);
  }

  /** An entry's declarations, once on an element, stay through the
      entries after it. */
  lemma StyledFrom(st: Styles, rule: (string, string), tail: StyleMap, i: nat,
      select: string -> Option<seq<nat>>, mode: string, platform: string)
    requires Matches(select, |st|) && !Reserved(rule.0)
    requires select(rule.0).Some? && i in select(rule.0).value
    requires var a := AdjustStyle(rule.1, mode, platform); a != [] && IsStripped(a)
    ensures var r := StyleAll(st, [rule] + tail, select, mode, platform)[i];
      r.Some? && Contains(r.value, AdjustStyle(rule.1, mode, platform))
  {
    var a := AdjustStyle(rule.1, mode, platform);
    assert ([rule] + tail)[0] == rule && ([rule] + tail)[1..] == tail;
    StepMatched(st, rule, i, select, mode, platform);
    StyleAllKeeps(Step(st, rule, select, mode, platform), tail, i, a, select, mode, platform);
  }

  /** One entry puts its adjusted declarations on every element it matches. */
  lemma StepMatched(st: Styles, rule: (string, string), i: nat,
      select: string -> Option<seq<nat>>, mode: string, platform: string)
    requires Matches(select, |st|) && !Reserved(rule.0)
    requires select(rule.0).Some? && i in select(rule.0).value
    requires var a := AdjustStyle(rule.1, mode, platform); a != [] && IsStripped(a)
    ensures var r := Step(st, rule, select, mode, platform)[i];
      r.Some? && r.value != [] && IsStripped(r.value) && Contains(r.value, AdjustStyle(rule.1, mode, platform))
  {
    MergeAllMatched(st, select(rule.0).value, AdjustStyle(rule.1, mode, platform), i);
  }

  /** The parsed document, styled, in its container: `style` is the
      container's attribute (absent when empty), `inner` the inner
      container's style when there is one, `elements` the content. */
  datatype Wrapped = Wrapped(style: Option<string>, inner: Option<string>, elements: Styles)

  /** A `style` attribute that is set only when non-empty. */
  function NonEmpty(s: string): Option<string> {
    if s != "" then Some(s) else None
  }

  /** The whole styling pass, as a function of its inputs. */
  function Styled(html: string, styles: StyleMap, parse: string -> Styles,
                  select: string -> Option<seq<nat>>, mode: string, platform: string): Wrapped
    requires Matches(select, |parse(ImageGrid.ProcessImageGrids(html, ImageGrid.Section))|)
  {
    var doc := parse(ImageGrid.ProcessImageGrids(html, ImageGrid.Section));
    Wrapped(
      NonEmpty(ContainerStyle(Dict.GetOr(styles, "container", ""), mode, platform)),
      NonEmpty(ContainerStyle(Dict.GetOr(styles, "innerContainer", ""), mode, platform)),
      StyleAll(doc, styles, select, mode, platform))
  }

  /** An empty style map still gives one container, unstyled, around the
      document as it was parsed. */
  lemma EmptyMapWrapsOnly(html: string, parse: string -> Styles,
      select: string -> Option<seq<nat>>, mode: string, platform: string)
    requires Matches(select, |parse(ImageGrid.ProcessImageGrids(html, ImageGrid.Section))|)
    ensures Styled(html, [], parse, select, mode, platform) ==
      Wrapped(None, None, parse(ImageGrid.ProcessImageGrids(html, ImageGrid.Section)))
  {
    DarkMode.DarkenEmpty();
  }

  /** The mode and platform adjustments of `_apply_theme_styling`, as the
      method reassigns `adjusted_style`. */
  method AdjustDeclarations(style: string, mode: string, platform: string) returns (adjusted: string)
    ensures adjusted == AdjustStyle(style, mode, platform)
  {
    adjusted := style;
    if mode == "dark-mode" {
      adjusted := DarkMode.AdjustDark(adjusted);
    }
    if platform == "wechat" {
      adjusted := InlineAdjust.AdjustForWeChatStyle(adjusted);
    } else if platform == "xiaohongshu" {
      adjusted := InlineAdjust.XiaohongshuStyle(adjusted);
    } else if platform == "zhihu" {
      adjusted := InlineAdjust.ZhihuStyle(adjusted);
    }
  }

  /** The container adjustments: dark mode, then WeChat only. */
  method AdjustContainer(style: string, mode: string, platform: string) returns (adjusted: string)
    ensures adjusted == ContainerStyle(style, mode, platform)
  {
    adjusted := style;
    if mode == "dark-mode" {
      adjusted := DarkMode.AdjustDark(adjusted);
    }
    if platform == "wechat" {
      adjusted := InlineAdjust.AdjustForWeChatStyle(adjusted);
    }
  }

  /** The parsed document, whose elements' `style` attributes the styling
      pass rewrites in place. */
  class Soup {
    var styles: Styles

    constructor (parsed: Styles)
      ensures styles == parsed
    {
      styles := parsed;
    }

    /** `for element in elements: … element["style"] = combined_style.strip()` */
    method MergeInto(matched: seq<nat>, adjusted: string)
      requires forall k :: 0 <= k < |matched| ==> matched[k] < |styles|
      modifies this
      ensures styles == MergeAll(old(styles), matched, adjusted)
    {
      var i := 0;
      while i < |matched|
        invariant 0 <= i <= |matched| && |styles| == |old(styles)|
        invariant MergeAll(styles, matched[i..], adjusted) == MergeAll(old(styles), matched, adjusted)
      {
        var k := matched[i];
        assert matched[i..][0] == k && matched[i..][1..] == matched[i + 1..];
        styles := styles[k := Some(MergeStyle(styles[k], adjusted))];
        i := i + 1;
      }
    }

    /** The loop over the style map: reserved selectors and selectors whose
        matching raises are skipped. */
    method ApplyStyles(rules: StyleMap, select: string -> Option<seq<nat>>, mode: string, platform: string)
      requires Matches(select, |styles|)
      modifies this
      ensures |styles| == |old(styles)|
      ensures styles == StyleAll(old(styles), rules, select, mode, platform)
    {
      var i := 0;
      while i < |rules|
        invariant 0 <= i <= |rules| && |styles| == |old(styles)|
        invariant StyleAll(styles, rules[i..], select, mode, platform) ==
                  StyleAll(old(styles), rules, select, mode, platform)
      {
        var (selector, properties) := rules[i];
        assert rules[i..][0] == rules[i] && rules[i..][1..] == rules[i + 1..];
        if !Reserved(selector) {
          var adjusted := AdjustDeclarations(properties, mode, platform);
          match select(selector)
          case None =>
          case Some(elements) =>
            MergeInto(elements, adjusted);
        }
        i := i + 1;
      }
    }
  }

  /** `_apply_custom_styling`: grid rewrite, parse, style, wrap. */
  method ApplyCustomStyling(html: string, styles: StyleMap, parse: string -> Styles,
                            select: string -> Option<seq<nat>>, mode: string, platform: string)
    returns (out: Wrapped)
    requires Matches(select, |parse(ImageGrid.ProcessImageGrids(html, ImageGrid.Section))|)
    ensures out == Styled(html, styles, parse, select, mode, platform)
  {
    var gridded := ImageGrid.ProcessImageGrids(html, ImageGrid.Section);
    var soup := new Soup(parse(gridded));
    soup.ApplyStyles(styles, select, mode, platform);
    var containerStyle := AdjustContainer(Dict.GetOr(styles, "container", ""), mode, platform);
    var innerStyle := AdjustContainer(Dict.GetOr(styles, "innerContainer", ""), mode, platform);
    out := Wrapped(NonEmpty(containerStyle), NonEmpty(innerStyle), soup.styles);
  }

  /** `_apply_theme_styling`: the same pass on the theme's style map, which
      is empty when the theme has none. */
  method ApplyThemeStyling(html: string, theme: Theme, parse: string -> Styles,
                           select: string -> Option<seq<nat>>, mode: string, platform: string)
    returns (out: Wrapped)
    requires Matches(select, |parse(ImageGrid.ProcessImageGrids(html, ImageGrid.Section))|)
    ensures out == Styled(html, StylesOf(theme), parse, select, mode, platform)
  {
    out := ApplyCustomStyling(html, StylesOf(theme), parse, select, mode, platform);
  }
}
