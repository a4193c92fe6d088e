/**
 * The stylesheet renderer of the standalone API: instead of inlining
 * declarations it turns the theme's style map into one `<style>` block of
 * `.markdown-content …` rules, adjusts that block as a whole for dark mode
 * and for the target platform, and wraps the converted HTML in a `div`
 * container that carries the raw container style.
 */
module StyleSheet {
  import opened Wrappers
  import opened Text
  import opened Theme
  import Dict
  import DarkMode
  import ImageGrid

  /** The class every rule is scoped under. */
  const Scope := ".markdown-content"

  /** The prefix that names the inner container's class. */
  const Inner := "inner-container"

  /** The rule one selector becomes: `body` is the container itself, a
      selector starting with `inner-container` names the inner container's
      class, any other selector is scoped under the container. */
  function Rule(selector: string, properties: string): string {
    if selector == "body" then Scope + " { " + properties + " }"
    else if StartsWith(selector, Inner) then
      Scope + " ." + Inner + selector[|Inner|..] + " { " + properties + " }"
    else Scope + " " + selector + " { " + properties + " }"
  }

  /** The rules of a style map, in map order, without the two reserved
      container selectors. */
  function Rules(styles: StyleMap): (r: seq<string>)
    ensures |r| <= |styles|
    decreases |styles|
  {
    if styles == [] then []
    else
      (if Reserved(styles[0].0) then [] else [Rule(styles[0].0, styles[0].1)]) + Rules(styles[1..])
  }

  /** The generated stylesheet: the rules, one per line. */
  function Css(styles: StyleMap): string {
    Join(Rules(styles), "\n")
  }

  lemma {:induction false} RulesAppend(x: StyleMap, y: StyleMap)
    ensures Rules(x + y) == Rules(x) + Rules(y)
    decreases |x|
  {
    if x == [] {
      assert x + y == y;
    } else {
      assert (x + y)[0] == x[0] && (x + y)[1..] == x[1..] + y;
      RulesAppend(x[1..], y);
    }
  }

  /** `_generate_css_from_theme_styles`: appends one rule per selector to a
      list, then joins the list with newlines. (The source tests for `:` in
      the last branch, but both of its arms append the same rule.) */
  method GenerateCss(styles: StyleMap) returns (css: string)
    ensures css == Css(styles)
  {
    var cssRules: seq<string> := [];
    var i := 0;
    while i < |styles|
      invariant 0 <= i <= |styles|
      invariant cssRules == Rules(styles[..i])
    {
      var (selector, properties) := styles[i];
      RulesAppend(styles[..i], [styles[i]]);
      assert styles[..i + 1] == styles[..i] + [styles[i]];
      if Reserved(selector) {
      } else if selector == "body" {
        cssRules := cssRules + [Scope + " { " + properties + " }"];
      } else if StartsWith(selector, Inner) {
        cssRules := cssRules + [Scope + " ." + Inner + selector[|Inner|..] + " { " + properties + " }"];
      } else {
        cssRules := cssRules + [Scope + " " + selector + " { " + properties + " }"];
      }
      i := i + 1;
    }
    assert styles[..i] == styles;
    css := Join(cssRules, "\n");
  }

  /** No selector is one of the two reserved ones. */
  predicate NoReserved(styles: StyleMap) {
    forall k :: 0 <= k < |styles| ==> !Reserved(styles[k].0)
  }

  /** Without reserved selectors, rule `k` is the rule of entry `k`: one
      rule per selector, in map order. */
  lemma {:induction false} RulesOfPlain(styles: StyleMap)
    requires NoReserved(styles)
    ensures |Rules(styles)| == |styles|
    ensures forall k :: 0 <= k < |styles| ==> Rules(styles)[k] == Rule(styles[k].0, styles[k].1)
    decreases |styles|
  {
    if styles != [] {
      var rest := styles[1..];
      assert NoReserved(rest) by {
        forall k | 0 <= k < |rest| ensures !Reserved(rest[k].0) {
          assert rest[k] == styles[k + 1];
        }
      }
      RulesOfPlain(rest);
      assert !Reserved(styles[0].0);
      var r := Rules(styles);
      assert r == [Rule(styles[0].0, styles[0].1)] + Rules(rest);
      forall k | 0 <= k < |styles| ensures r[k] == Rule(styles[k].0, styles[k].1) {
        if k > 0 {
          assert rest[k - 1] == styles[k];
          assert r[k] == Rules(rest)[k - 1];
        }
      }
    }
  }

  /** Setting a reserved selector, new or existing, leaves the rules as
      they were: container styles never reach the stylesheet. */
  lemma {:induction false} RulesIgnoreReserved(styles: StyleMap, key: string, value: string)
    requires Reserved(key)
    ensures Rules(Dict.Set(styles, key, value)) == Rules(styles)
    decreases |styles|
  {
    var r := Dict.Set(styles, key, value);
    if styles == [] {
      assert r == [(key, value)];
      assert r[1..] == [];
    } else if styles[0].0 == key {
      assert r[1..] == styles[1..];
    } else {
      assert r[0] == styles[0] && r[1..] == Dict.Set(styles[1..], key, value);
      RulesIgnoreReserved(styles[1..], key, value);
    }
  }

  /** A selector starting with `inner-container` is read as the class
      `.inner-container…`: its rule is the rule of that class selector. */
  lemma InnerContainerIsClass(selector: string, properties: string)
    requires StartsWith(selector, Inner)
    ensures Rule(selector, properties) == Rule("." + selector, properties)
  {
    var rest := selector[|Inner|..];
    assert selector == Inner + rest;
    assert !StartsWith("." + selector, Inner) by {
      assert ("." + selector)[0] == '.' && Inner[0] == 'i';
    }
    assert " ." + Inner + rest == " " + ("." + selector);
  }

  /** No rule spans a line break when no selector or value holds one. */
  lemma {:induction false} RulesSingleLine(styles: StyleMap)
    requires forall k :: 0 <= k < |styles| ==> '\n' !in styles[k].0 && '\n' !in styles[k].1
    ensures forall k :: 0 <= k < |Rules(styles)| ==> '\n' !in Rules(styles)[k]
    decreases |styles|
  {
    if styles != [] {
      var (s, p) := styles[0];
      assert '\n' !in s && '\n' !in p;
      assert StartsWith(s, "inner-container") ==> '\n' !in s[15..] by {
        if StartsWith(s, "inner-container") {
          assert forall j :: 0 <= j < |s| - 15 ==> s[15..][j] == s[j + 15];
        }
      }
      forall k | 0 <= k < |styles| - 1 ensures '\n' !in styles[1..][k].0 && '\n' !in styles[1..][k].1 {
        assert styles[1..][k] == styles[k + 1];
      }
      RulesSingleLine(styles[1..]);
    }
  }

  /** The stylesheet's lines are exactly its rules, when no selector or value
      holds a line break: the partner of joining the rules. */
  lemma CssLines(styles: StyleMap)
    requires forall k :: 0 <= k < |styles| ==> '\n' !in styles[k].0 && '\n' !in styles[k].1
    requires Rules(styles) != []
    ensures Split(Css(styles), '\n') == Rules(styles)
  {
    RulesSingleLine(styles);
    SplitJoinLines(Rules(styles));
  }

  /** The fixed block the WeChat adjuster appends. */
  const WeChatBlock := "\n        .markdown-content table {\n            display: table !important;\n            border-collapse: collapse !important;\n        }\n        .markdown-content img {\n            max-width: 100% !important;\n            height: auto !important;\n        }\n        "

  /** The fixed block the Xiaohongshu adjuster appends. */
  const XiaohongshuBlock := "\n        .markdown-content {\n            background: linear-gradient(135deg, #ffeaa7 0%, #fab1a0 100%);\n            border-radius: 15px;\n            padding: 20px;\n        }\n        "

  /** The fixed block the Zhihu adjuster appends. */
  const ZhihuBlock := "\n        .markdown-content {\n            font-family: -apple-system, BlinkMacSystemFont, Helvetica Neue, PingFang SC, Microsoft YaHei, Source Han Sans SC, Noto Sans CJK SC, WenQuanYi Micro Hei, sans-serif;\n        }\n        .markdown-content pre {\n            background: #f6f6f6;\n            border: 1px solid #e5e5e5;\n        }\n        "

  /** `re.sub(r';', ' !important;', css)` */
  function MarkImportant(css: string): string {
    Replace(css, ";", " !important;")
  }

  /** `_adjust_for_wechat` */
  function WeChatCss(css: string): string {
    MarkImportant(css) + WeChatBlock
  }

  /** `_adjust_for_xiaohongshu` */
  function XiaohongshuCss(css: string): string {
    css + XiaohongshuBlock
  }

  /** `_adjust_for_zhihu` */
  function ZhihuCss(css: string): string {
    css + ZhihuBlock
  }

  /** The platform branch of `_apply_theme_styling`. */
  function PlatformCss(platform: string, css: string): string {
    if platform == "wechat" then WeChatCss(css)
    else if platform == "xiaohongshu" then XiaohongshuCss(css)
    else if platform == "zhihu" then ZhihuCss(css)
    else css
  }

  /** Every `;` of the stylesheet, and nothing else, becomes ` !important;`:
      the marked text is the `;`-separated pieces rejoined with the new
      terminator. */
  lemma MarkIsJoin(css: string)
    ensures MarkImportant(css) == Join(Split(css, ';'), " !important;")
  {
    ReplaceCharIsJoin(css, ';', " !important;");
  }

  /** Marking changes a stylesheet exactly when it has a `;`. */
  lemma MarkFixed(css: string)
    ensures MarkImportant(css) == css <==> ';' !in css
  {
    if ';' in css {
      ReplaceCharGrows(css, ';', " !important;");
    } else {
      FirstCharAbsent(css, ";");
      ReplaceAbsent(css, ";", " !important;");
    }
  }

  /** The WeChat marking is not idempotent: marking twice equals marking
      once only for a stylesheet without any `;`. */
  lemma MarkTwice(css: string)
    ensures MarkImportant(MarkImportant(css)) == MarkImportant(css) <==> ';' !in css
  {
    MarkFixed(MarkImportant(css));
    if ';' in css {
      ReplaceCharKeeps(css, ';', " !important;");
    } else {
      MarkFixed(css);
    }
  }

  /** A declaration ending in `;` gets ` !important` before its `;`. */
  lemma MarkDeclaration(d: string)
    requires ';' !in d
    ensures MarkImportant(d + ";") == d + " !important;"
  {
    MarkIsJoin(d + ";");
    SplitPrefix(d, "", ';');
    assert d + [';'] + "" == d + ";";
    assert Split(d + ";", ';') == [d, ""];
  }

  /** A declaration that is already `!important` gets a second one. */
  lemma ImportantDoubled(d: string)
    requires ';' !in d
    ensures MarkImportant(d + " !important;") == d + " !important !important;"
  {
    assert d + " !important;" == (d + " !important") + ";";
    assert ';' !in d + " !important";
    MarkDeclaration(d + " !important");
  }

  /** The Xiaohongshu and Zhihu adjusters keep the stylesheet as the prefix
      of their result and append their block after it; any platform other
      than the three leaves the stylesheet as it was. */
  lemma PlatformKeepsCss(platform: string, css: string)
    ensures platform == "xiaohongshu" ==>
      StartsWith(PlatformCss(platform, css), css) &&
      PlatformCss(platform, css)[|css|..] == XiaohongshuBlock
    ensures platform == "zhihu" ==>
      StartsWith(PlatformCss(platform, css), css) &&
      PlatformCss(platform, css)[|css|..] == ZhihuBlock
    ensures platform != "wechat" && platform != "xiaohongshu" && platform != "zhihu" ==>
      PlatformCss(platform, css) == css
  {
  }

  /** On WeChat a stylesheet without `;` is kept as the prefix too, and the
      WeChat block follows it. */
  lemma WeChatKeepsPlainCss(css: string)
    requires ';' !in css
    ensures WeChatCss(css) == css + WeChatBlock
  {
    MarkFixed(css);
  }

  /** The stylesheet of `_apply_theme_styling`: generated, darkened in dark
      mode, then adjusted for the platform. */
  function Sheet(styles: StyleMap, mode: string, platform: string): string {
    var css := Css(styles);
    PlatformCss(platform, if mode == "dark-mode" then DarkMode.Darken(css) else css)
  }

  /** The opening of the output: the container with its raw style and the
      stylesheet. */
  function Head(containerStyle: string, css: string): string {
    "<div class=\"markdown-content\" style=\"" + containerStyle + "\"><style>" + css + "</style>"
  }

  /** The content after the stylesheet, inside an inner container when its
      style is non-empty. */
  function Body(innerStyle: string, html: string): string {
    if innerStyle != "" then
      "<div class=\"inner-container\" style=\"" + innerStyle + "\">" + html + "</div></div>"
    else html + "</div>"
  }

  /** `_apply_theme_styling` as a function of its inputs. */
  function Styled(html: string, theme: Theme, mode: string, platform: string): string {
    var styles := StylesOf(theme);
    Head(Dict.GetOr(styles, "container", ""), Sheet(styles, mode, platform)) +
    Body(Dict.GetOr(styles, "innerContainer", ""), ImageGrid.ProcessImageGrids(html, ImageGrid.Div))
  }

  /** `_apply_theme_styling`: reassigns the stylesheet through the mode and
      platform adjustments, rewrites image runs, then wraps. */
  method ApplyThemeStyling(html: string, theme: Theme, mode: string, platform: string)
    returns (full: string)
    ensures full == Styled(html, theme, mode, platform)
  {
    var styles := StylesOf(theme);
    var css := GenerateCss(styles);
    if mode == "dark-mode" {
      css := DarkMode.AdjustDark(css);
    }
    if platform == "wechat" {
      css := WeChatCss(css);
    } else if platform == "xiaohongshu" {
      css := XiaohongshuCss(css);
    } else if platform == "zhihu" {
      css := ZhihuCss(css);
    }
    var content := ImageGrid.ProcessImageGrids(html, ImageGrid.Div);
    var containerStyle := Dict.GetOr(styles, "container", "");
    var innerStyle := Dict.GetOr(styles, "innerContainer", "");
    full := Head(containerStyle, css) + Body(innerStyle, content);
  }

  /** Changing the container style of a theme changes only the container's
      `style` attribute: the stylesheet and the content stay as they were,
      and the container style is used as given, in every mode. */
  lemma ContainerOnlyInAttribute(html: string, theme: Theme, styles: StyleMap,
                                 value: string, mode: string, platform: string)
    requires StylesOf(theme) == Dict.Set(styles, "container", value)
    ensures Styled(html, theme, mode, platform) ==
      Head(value, Sheet(styles, mode, platform)) +
      Body(Dict.GetOr(styles, "innerContainer", ""), ImageGrid.ProcessImageGrids(html, ImageGrid.Div))
  {
    RulesIgnoreReserved(styles, "container", value);
    Dict.SetGet(styles, "container", value);
    Dict.SetGetOther(styles, "container", value, "innerContainer");
  }

  /** A theme without styles gives an empty container around the content:
      an empty `style` attribute and a stylesheet that holds only the
      platform's block. */
  lemma UnstyledTheme(html: string, theme: Theme, mode: string, platform: string)
    requires StylesOf(theme) == []
    ensures Styled(html, theme, mode, platform) ==
      Head("", PlatformCss(platform, "")) + ImageGrid.ProcessImageGrids(html, ImageGrid.Div) + "</div>"
  {
    var styles := StylesOf(theme);
    var grids := ImageGrid.ProcessImageGrids(html, ImageGrid.Div);
    EmptySheet(styles, mode, platform);
    assert Dict.GetOr(styles, "container", "") == "";
    assert Body(Dict.GetOr(styles, "innerContainer", ""), grids) == grids + "</div>";
  }

  /** Without styles the stylesheet is only the platform's block. */
  lemma EmptySheet(styles: StyleMap, mode: string, platform: string)
    requires styles == []
    ensures Sheet(styles, mode, platform) == PlatformCss(platform, "")
  {
    var css := Css(styles);
    assert css == "";
    DarkMode.DarkenEmpty();
    assert (if mode == "dark-mode" then DarkMode.Darken(css) else css) == "";
  }
}
