/**
 * The theme configuration of the standalone API: locating the `STYLES`
 * object in the theme script by brace counting (with a built-in default
 * theme when that fails), filling in mode entries, cleaning up CSS values,
 * the `/themes` listing and the theme and mode validation of `/render`.
 *
 * The regular expressions that cut theme blocks, mode objects and style
 * entries out of the script are not modelled: what they find is a
 * parameter (`parse`, the fields of a mode, the selector/value pairs).
 */
module ThemeConfig {
  import opened Wrappers
  import opened Text
  import opened Theme
  import Dict
  import ImageGrid
  import StyleSheet
  import CssValue

  /** Theme identifiers to themes, in the order of the script. */
  type Themes = seq<(string, Theme)>

  // ---------------------------------------------------------------------
  // Locating the STYLES object
  // ---------------------------------------------------------------------

  /** The text that introduces the object. */
  const Marker := "const STYLES = {"

  /** The index of the first occurrence of `p` at or after `i`, as `find`. */
  function FindFrom(s: string, p: string, i: nat): (r: Option<nat>)
    requires i <= |s|
    ensures r.Some? ==> i <= r.value && OccursAt(s, r.value, p)
    ensures r.Some? ==> forall j :: i <= j < r.value ==> !OccursAt(s, j, p)
    ensures r.None? ==> forall j :: i <= j ==> !OccursAt(s, j, p)
    decreases |s| - i
  {
    if OccursAt(s, i, p) then Some(i)
    else if i == |s| then None
    else FindFrom(s, p, i + 1)
  }

  /** `s.find(p)`, with `None` for -1. */
  function Find(s: string, p: string): Option<nat> {
    FindFrom(s, p, 0)
  }

  /** What one character does to the brace count. */
  function Delta(c: char): int {
    if c == '{' then 1 else if c == '}' then -1 else 0
  }

  /** The brace count after a text: opening minus closing braces. */
  function Depth(s: string): int
    decreases |s|
  {
    if s == [] then 0 else Depth(s[..|s| - 1]) + Delta(s[|s| - 1])
  }

  lemma DepthSnoc(s: string, c: char)
    ensures Depth(s + [c]) == Depth(s) + Delta(c)
  {
    assert (s + [c])[..|s|] == s;
  }

  /** Counting from `start`, the count drops back to zero at the `}` at `i`. */
  ghost predicate ClosesAt(content: string, start: nat, i: nat) {
    start <= i < |content| && content[i] == '}' && Depth(content[start..i + 1]) == 0
  }

  /** `e` is where the extracted text ends: one past the first `}` at which
      the count is back to zero, or `start` itself when there is none. */
  ghost predicate Extracted(content: string, start: nat, e: nat) {
    (e == start && forall i :: start <= i < |content| ==> !ClosesAt(content, start, i)) ||
    (start < e <= |content| && ClosesAt(content, start, e - 1) &&
     forall i :: start <= i < e - 1 ==> !ClosesAt(content, start, i))
  }

  /** The search for that end, index by index. */
  function ScanFrom(content: string, start: nat, i: nat): (e: nat)
    requires start <= i <= |content|
    requires forall j :: start <= j < i ==> !ClosesAt(content, start, j)
    ensures Extracted(content, start, e)
    decreases |content| - i
  {
    if i == |content| then start
    else if content[i] == '}' && Depth(content[start..i + 1]) == 0 then i + 1
    else ScanFrom(content, start, i + 1)
  }

  /** The end of the extracted object text. */
  function BraceEnd(content: string, start: nat): (e: nat)
    requires start <= |content|
    ensures Extracted(content, start, e)
  {
    ScanFrom(content, start, start)
  }

  /** The brace-counting loop of `load_themes`: one running count, checked
      against zero only right after a `}`; the end stays at `start` when
      the loop runs out. */
  method MatchBrace(content: string, start: nat) returns (endIdx: nat)
    requires start <= |content|
    ensures endIdx == BraceEnd(content, start)
  {
    var braceCount := 0;
    endIdx := start;
    var i := start;
    while i < |content|
      invariant start <= i <= |content|
      invariant braceCount == Depth(content[start..i])
      invariant forall j :: start <= j < i ==> !ClosesAt(content, start, j)
    {
      DepthStep(content, start, i);
      if content[i] == '{' {
        braceCount := braceCount + 1;
      } else if content[i] == '}' {
        braceCount := braceCount - 1;
        if braceCount == 0 {
          endIdx := i + 1;
          assert ClosesAt(content, start, i);
          ExtractedUnique(content, start, endIdx, BraceEnd(content, start));
          return;
        }
      }
      assert !ClosesAt(content, start, i);
      i := i + 1;
    }
    ExtractedUnique(content, start, endIdx, BraceEnd(content, start));
  }

  lemma DepthStep(content: string, start: nat, i: nat)
    requires start <= i < |content|
    ensures Depth(content[start..i + 1]) == Depth(content[start..i]) + Delta(content[i])
  {
    assert content[start..i + 1] == content[start..i] + [content[i]];
    DepthSnoc(content[start..i], content[i]);
  }

  /** There is only one such end. */
  lemma ExtractedUnique(content: string, start: nat, e1: nat, e2: nat)
    requires Extracted(content, start, e1) && Extracted(content, start, e2)
    ensures e1 == e2
  {
  }

  /** Every proper prefix of the text from an opening `{` up to the end
      has more opening than closing braces. */
  lemma {:induction false} OpenPrefixes(content: string, start: nat, e: nat, k: nat)
    requires start < e <= |content| && content[start] == '{'
    requires forall i :: start <= i < e - 1 ==> !ClosesAt(content, start, i)
    requires start < k < e
    ensures Depth(content[start..k]) >= 1
    decreases k
  {
    if k == start + 1 {
      assert content[start..k][..0] == [];
    } else {
      OpenPrefixes(content, start, e, k - 1);
      assert content[start..k] == content[start..k - 1] + [content[k - 1]];
      DepthSnoc(content[start..k - 1], content[k - 1]);
      assert !ClosesAt(content, start, k - 1);
    }
  }

  /** The extracted text is either empty (the object never closes) or runs
      from the opening `{` to the `}` at which the count first returns to
      zero: balanced, with every proper prefix still open. */
  lemma ExtractedBalanced(content: string, start: nat)
    requires start < |content| && content[start] == '{'
    ensures var js := content[start..BraceEnd(content, start)];
      js == [] ||
      (js[0] == '{' && js[|js| - 1] == '}' && Depth(js) == 0 &&
       forall k :: 1 <= k < |js| ==> Depth(js[..k]) >= 1)
  {
    var e := BraceEnd(content, start);
    var js := content[start..e];
    if e > start {
      forall k | 1 <= k < |js| ensures Depth(js[..k]) >= 1 {
        assert js[..k] == content[start..start + k];
        OpenPrefixes(content, start, e, start + k);
      }
    }
  }

  /** The marker, when present, is followed by the `{` the scan starts at. */
  lemma MarkerBrace(content: string)
    requires Find(content, Marker).Some?
    ensures Find(content, Marker).value + 15 < |content|
    ensures content[Find(content, Marker).value + 15] == '{'
  {
    var idx := Find(content, Marker).value;
    assert content[idx..idx + 16][15] == Marker[15];
  }

  /** What the loader returns, with `fallback` for the cases in which the
      script cannot be used: the file cannot be read, the marker is missing
      or parsing raises; otherwise the parsed object text. */
  function LoadedWith(file: Option<string>, parse: string -> Option<Themes>, fallback: Themes): (r: Themes)
    ensures file.None? ==> r == fallback
    ensures file.Some? && Find(file.value, Marker).None? ==> r == fallback
    ensures file.Some? && Find(file.value, Marker).Some? ==>
      var start := Find(file.value, Marker).value + 15;
      start <= |file.value| &&
      r == (match parse(file.value[start..BraceEnd(file.value, start)])
            case None => fallback
            case Some(themes) => themes)
  {
    match file
    case None => fallback
    case Some(content) =>
      match Find(content, Marker)
      case None => fallback
      case Some(idx) =>
        MarkerBrace(content);
        match parse(content[idx + 15..BraceEnd(content, idx + 15)])
        case None => fallback
        case Some(themes) => themes
  }

  /** What `load_themes` returns as written: `get_default_themes()` when
      the script cannot be used. */
  function Loaded(file: Option<string>, parse: string -> Option<Themes>): Themes {
    LoadedWith(file, parse, DefaultThemesAsWritten)
  }

  /** The loader with a fallback whose selectors are under `styles`. */
  function LoadedFixed(file: Option<string>, parse: string -> Option<Themes>): Themes {
    LoadedWith(file, parse, DefaultThemes)
  }

  /** `load_themes`; `file` is the content of the script (`None` when it
      cannot be read), `parse` the object parser (`None` when it raises). */
  method LoadThemes(file: Option<string>, parse: string -> Option<Themes>) returns (themes: Themes)
    ensures themes == Loaded(file, parse)
    ensures file.None? ==> themes == DefaultThemesAsWritten
  {
    if file.None? {
      return DefaultThemesAsWritten;
    }
    var content := file.value;
    var startIdx := Find(content, Marker);
    if startIdx.None? {
      return DefaultThemesAsWritten;
    }
    var startPos := startIdx.value + 15;
    MarkerBrace(content);
    var endIdx := MatchBrace(content, startPos);
    var parsed := parse(content[startPos..endIdx]);
    if parsed.None? {
      return DefaultThemesAsWritten;
    }
    themes := parsed.value;
  }

  /** The two loaders differ only in the fallback: where the script can be
      used they give the same themes. */
  lemma LoadersAgree(file: Option<string>, parse: string -> Option<Themes>)
    ensures Loaded(file, parse) != LoadedFixed(file, parse) ==>
      Loaded(file, parse) == DefaultThemesAsWritten && LoadedFixed(file, parse) == DefaultThemes
  {
  }

  /** A script whose object never closes is parsed from the empty text:
      the result is what the parser makes of nothing, not the built-in
      themes. */
  lemma UnclosedParsesEmpty(content: string, start: nat, parse: string -> Option<Themes>)
    requires Find(content, Marker).Some? && start == Find(content, Marker).value + 15
    requires forall i :: start <= i < |content| ==> !ClosesAt(content, start, i)
    ensures parse("").Some? ==> Loaded(Some(content), parse) == parse("").value
  {
    MarkerBrace(content);
    ExtractedUnique(content, start, start, BraceEnd(content, start));
  }

  // ---------------------------------------------------------------------
  // Built-in themes
  // ---------------------------------------------------------------------

  /** The selectors and declarations of the built-in default theme. */
  const DefaultStyles: StyleMap := [
    ("body",
     "font-family: -apple-system, BlinkMacSystemFont, 'Segoe UI', Roboto, sans-serif; line-height: 1.6; color: #333; max-width: 800px; margin: 0 auto; padding: 20px;"),
    ("h1",
     "color: #2c3e50; border-bottom: 2px solid #3498db; padding-bottom: 10px;"),
    ("h2",
     "color: #34495e; border-bottom: 1px solid #bdc3c7; padding-bottom: 5px;"),
    ("h3",
     "color: #7f8c8d;"),
    ("p",
     "margin: 1em 0; text-align: justify;"),
    ("blockquote",
     "border-left: 4px solid #3498db; margin: 0; padding: 0 0 0 20px; color: #7f8c8d; font-style: italic;"),
    ("code",
     "background: #f8f9fa; padding: 2px 4px; border-radius: 3px; font-family: 'Monaco', 'Consolas', monospace;"),
    ("pre",
     "background: #f8f9fa; padding: 15px; border-radius: 5px; overflow-x: auto; border: 1px solid #e9ecef;"),
    ("table",
     "border-collapse: collapse; width: 100%; margin: 1em 0;"),
    ("th",
     "background: #f8f9fa; padding: 12px; text-align: left; border: 1px solid #dee2e6;"),
    ("td",
     "padding: 12px; border: 1px solid #dee2e6;"),
    ("ul",
     "padding-left: 20px;"),
    ("ol",
     "padding-left: 20px;"),
    ("li",
     "margin: 0.5em 0;"),
    ("img",
     "max-width: 100%; height: auto; border-radius: 5px; box-shadow: 0 2px 8px rgba(0,0,0,0.1);"),
    ("a",
     "color: #3498db; text-decoration: none;"),
    ("strong",
     "color: #e74c3c; font-weight: bold;"),
    ("em",
     "color: #f39c12; font-style: italic;")
  ]

  /** `get_default_themes` as written: the selectors are keys of the theme
      itself, next to its name, and no key `styles` holds them; nothing that
      reads a theme looks at those keys. */
  const DefaultThemesAsWritten: Themes := [("default", Theme(Some("默认样式"), None, None, None))]

  /** The built-in themes with the default selectors under `styles`, where
      the renderer reads them. */
  const DefaultThemes: Themes := [("default", Theme(Some("默认样式"), None, None, Some(DefaultStyles)))]

  /** As written, the built-in default theme renders without any styling:
      an empty container style and a stylesheet holding only the platform's
      fixed block. */
  lemma DefaultThemeUnstyledAsWritten(html: string, mode: string, platform: string)
    ensures StyleSheet.Styled(html, DefaultThemesAsWritten[0].1, mode, platform) ==
      StyleSheet.Head("", StyleSheet.PlatformCss(platform, "")) +
      ImageGrid.ProcessImageGrids(html, ImageGrid.Div) + "</div>"
  {
    StyleSheet.UnstyledTheme(html, DefaultThemesAsWritten[0].1, mode, platform);
  }

  /** With its selectors under `styles`, every one of the default theme's
      18 selectors becomes its rule, in order. */
  lemma DefaultThemeStyled(theme: Theme)
    requires theme == DefaultThemes[0].1
    ensures |StylesOf(theme)| == 18
    ensures |StyleSheet.Rules(StylesOf(theme))| == |StylesOf(theme)|
    ensures forall k :: 0 <= k < |StylesOf(theme)| ==>
      StyleSheet.Rules(StylesOf(theme))[k] == StyleSheet.Rule(StylesOf(theme)[k].0, StylesOf(theme)[k].1)
  {
    DefaultStylesPlain(StylesOf(theme));
    StyleSheet.RulesOfPlain(StylesOf(theme));
  }

  lemma DefaultStylesPlain(styles: StyleMap)
    requires styles == DefaultStyles
    ensures |styles| == 18 && StyleSheet.NoReserved(styles)
  {
  }

  // ---------------------------------------------------------------------
  // Modes
  // ---------------------------------------------------------------------

  /** The fields a mode object was found to have: `None` for a field the
      object lacks. */
  datatype ModeFields = ModeFields(name: Option<string>, id: Option<string>, background: Option<string>)

  function OrElse(o: Option<string>, default: string): string {
    match o
    case Some(v) => v
    case None => default
  }

  /** One mode entry, each missing field defaulted. */
  function ModeOf(f: ModeFields): Mode {
    Mode(OrElse(f.name, "默认"), OrElse(f.id, "light-mode"), OrElse(f.background, "#ffffff"))
  }

  /** The two modes a theme gets when none are found. */
  const FallbackModes: seq<Mode> := [Mode("浅色", "light-mode", "#ffffff"), Mode("深色", "dark-mode", "#1a1a1a")]

  /** The result of `extract_modes`, given the mode objects found. */
  function ModesFrom(found: seq<ModeFields>): (r: seq<Mode>)
    ensures r != []
    ensures found == [] ==> r == FallbackModes
    ensures found != [] ==> |r| == |found|
    ensures found != [] ==> forall k :: 0 <= k < |found| ==>
      r[k].name == (if found[k].name.Some? then found[k].name.value else "默认") &&
      r[k].id == (if found[k].id.Some? then found[k].id.value else "light-mode") &&
      r[k].background == (if found[k].background.Some? then found[k].background.value else "#ffffff")
  {
    if found == [] then FallbackModes
    else seq(|found|, k requires 0 <= k < |found| => ModeOf(found[k]))
  }

  /** `extract_modes`: appends one entry per mode object, then falls back
      to the two defaults when the list stayed empty. */
  method ExtractModes(found: seq<ModeFields>) returns (modes: seq<Mode>)
    ensures modes == ModesFrom(found)
  {
    modes := [];
    var i := 0;
    while i < |found|
      invariant 0 <= i <= |found|
      invariant |modes| == i
      invariant forall k :: 0 <= k < i ==> modes[k] == ModeOf(found[k])
    {
      var f := found[i];
      modes := modes + [Mode(OrElse(f.name, "默认"), OrElse(f.id, "light-mode"), OrElse(f.background, "#ffffff"))];
      i := i + 1;
    }
    if modes == [] {
      modes := FallbackModes;
    }
  }

  /** The ids `/render` accepts for a theme. */
  function ModeIds(modes: seq<Mode>): (r: seq<string>)
    ensures |r| == |modes| && forall k :: 0 <= k < |modes| ==> r[k] == modes[k].id
  {
    seq(|modes|, k requires 0 <= k < |modes| => modes[k].id)
  }

  // ---------------------------------------------------------------------
  // Styles
  // ---------------------------------------------------------------------

  /** The style map built from the selector/value pairs found, in order:
      each value cleaned, a later pair for the same selector overwriting
      the value of the earlier one in its place. */
  function StylesFrom(found: seq<(string, string)>): (r: StyleMap)
    ensures (r == []) == (found == [])
    decreases |found|
  {
    if found == [] then []
    else Dict.Set(StylesFrom(found[..|found| - 1]), found[|found| - 1].0, CssValue.Clean(found[|found| - 1].1))
  }

  /** The result of `extract_styles`: `None` when the script has no styles
      object, which gives the enhanced defaults, as does an object in which
      no entry is found. A theme always ends up with some styles. */
  function ExtractedStyles(found: Option<seq<(string, string)>>): (r: StyleMap)
    ensures r != []
  {
    match found
    case None => EnhancedDefaults
    case Some(pairs) => if pairs == [] then EnhancedDefaults else StylesFrom(pairs)
  }

  /** The loop of `extract_styles`: assigns each cleaned value to its selector. */
  method CollectStyles(pairs: seq<(string, string)>) returns (styles: StyleMap)
    ensures styles == StylesFrom(pairs)
  {
    styles := [];
    var i := 0;
    while i < |pairs|
      invariant 0 <= i <= |pairs|
      invariant styles == StylesFrom(pairs[..i])
    {
      var (selector, cssContent) := pairs[i];
      assert pairs[..i + 1][..i] == pairs[..i];
      cssContent := CssValue.Clean(cssContent);
      styles := Dict.Set(styles, selector, cssContent);
      i := i + 1;
    }
    assert pairs[..i] == pairs;
  }

  /** `extract_styles` */
  method ExtractStyles(found: Option<seq<(string, string)>>) returns (styles: StyleMap)
    ensures styles == ExtractedStyles(found)
  {
    if found.None? {
      return EnhancedDefaults;
    }
    styles := CollectStyles(found.value);
    if styles == [] {
      styles := EnhancedDefaults;
    }
  }

  /** Every value in the style map is clean: stripped, with single plain
      spaces; and no selector occurs twice. */
  lemma {:induction false} StylesFromClean(found: seq<(string, string)>)
    ensures Dict.DistinctKeys(StylesFrom(found))
    ensures forall k :: 0 <= k < |StylesFrom(found)| ==>
      IsStripped(StylesFrom(found)[k].1) &&
      CssValue.NoDoubleSpace(StylesFrom(found)[k].1) && CssValue.OnlyBlank(StylesFrom(found)[k].1)
    decreases |found|
  {
    if found != [] {
      var prev := StylesFrom(found[..|found| - 1]);
      var (key, raw) := found[|found| - 1];
      StylesFromClean(found[..|found| - 1]);
      Dict.SetDistinct(prev, key, CssValue.Clean(raw));
      Dict.SetEntries(prev, key, CssValue.Clean(raw));
      var r := StylesFrom(found);
      forall k | 0 <= k < |r|
        ensures IsStripped(r[k].1) && CssValue.NoDoubleSpace(r[k].1) && CssValue.OnlyBlank(r[k].1)
      {
        assert r[k] in r;
        if r[k] != (key, CssValue.Clean(raw)) {
          var j :| 0 <= j < |prev| && prev[j] == r[k];
        }
      }
    }
  }

  /** The last value given for a selector is the one kept; other selectors
      keep theirs. */
  lemma LaterWins(found: seq<(string, string)>, selector: string, value: string, other: string)
    requires other != selector
    ensures Dict.Get(StylesFrom(found + [(selector, value)]), selector) == Some(CssValue.Clean(value))
    ensures Dict.Get(StylesFrom(found + [(selector, value)]), other) == Dict.Get(StylesFrom(found), other)
  {
    var f := found + [(selector, value)];
    assert f[..|f| - 1] == found;
    Dict.SetGet(StylesFrom(found), selector, CssValue.Clean(value));
    Dict.SetGetOther(StylesFrom(found), selector, CssValue.Clean(value), other);
  }

  /** The enhanced default styles. */
  const EnhancedDefaults: StyleMap := [
    ("container",
     "max-width: 740px; margin: 0 auto; padding: 20px; font-family: 'Helvetica Neue', Helvetica, Arial, 'PingFang SC', 'Hiragino Sans GB', 'Microsoft YaHei', sans-serif; font-size: 16px; line-height: 1.8; color: #333; background-color: #ffffff;"),
    ("h1",
     "font-size: 28px; line-height: 1.4; font-weight: 700; color: #2c3e50; position: relative; padding-bottom: 16px; border-bottom: 2px solid #3498db; margin: 32px 0 24px;"),
    ("h2",
     "display: table; padding: 0.6em 1.5em; margin: 2.8em auto 1.5em; font-size: 1.3em; font-weight: 700; text-align: center; color: #fff; background: linear-gradient(135deg, #3498db, #2980b9); border-radius: 30px; box-shadow: 0 6px 16px rgba(52, 152, 219, 0.25);"),
    ("h3",
     "font-size: 1.2em; font-weight: 600; color: #2c3e50; margin: 2.2em 0 1em; padding-left: 16px; border-left: 4px solid #3498db; line-height: 1.5;"),
    ("h4",
     "font-size: 20px; font-weight: 600; color: #34495e; line-height: 1.4; margin: 24px 0 12px;"),
    ("h5",
     "font-size: 18px; font-weight: 600; color: #34495e; line-height: 1.4; margin: 20px 0 10px;"),
    ("h6",
     "font-size: 16px; font-weight: 600; color: #7f8c8d; margin-top: 1.5em; margin-bottom: 0.8em;"),
    ("p",
     "color: #555555; margin: 20px 0; line-height: 1.8;"),
    ("strong",
     "font-weight: 700; color: #e74c3c; background-color: rgba(231, 76, 60, 0.08); padding: 2px 4px; border-radius: 3px;"),
    ("em",
     "color: #9b59b6; font-style: italic;"),
    ("a",
     "color: #3498db; text-decoration: none; font-weight: 600; border-bottom: 2px solid rgba(52, 152, 219, 0.3); padding: 0 2px;"),
    ("ul",
     "padding: 16px 16px 16px 36px; background: rgba(52, 152, 219, 0.05); border-radius: 12px; margin: 20px 0;"),
    ("ol",
     "padding: 16px 16px 16px 36px; background: rgba(46, 204, 113, 0.05); border-radius: 12px; margin: 20px 0;"),
    ("li",
     "font-size: 16px; line-height: 1.8; color: #555555; margin: 12px 0;"),
    ("blockquote",
     "padding: 20px 25px 20px 30px; background: #ecf0f1; border-left: 5px solid #3498db; border-radius: 0 12px 12px 0; color: #444; margin: 24px 0; font-style: italic;"),
    ("code",
     "font-family: 'Monaco', 'Consolas', monospace; background: rgba(52, 152, 219, 0.08); padding: 4px 8px; border-radius: 6px; font-size: 14px; color: #2980b9;"),
    ("pre",
     "background: #f8f9fa; border-radius: 12px; padding: 20px 24px; overflow-x: auto; border: 1px solid #e9ecef; margin: 24px 0; line-height: 1.6;"),
    ("table",
     "width: 100%; border-collapse: collapse; font-size: 15px; border: 1px solid #bdc3c7; border-radius: 12px; overflow: hidden; margin: 24px 0;"),
    ("th",
     "background: rgba(52, 152, 219, 0.1); font-weight: 600; text-align: left; padding: 16px 20px; color: #2c3e50;"),
    ("td",
     "padding: 16px 20px; border-bottom: 1px solid #ecf0f1; color: #555; line-height: 1.6;"),
    ("img",
     "max-width: 100%; border-radius: 8px; box-shadow: 0 4px 12px rgba(0, 0, 0, 0.1); margin: 24px auto;")
  ]

  // ---------------------------------------------------------------------
  // The /themes listing
  // ---------------------------------------------------------------------

  /** The single mode a theme without modes is listed with. */
  const DefaultMode := Mode("默认", "light-mode", "#ffffff")

  datatype ThemeInfo = ThemeInfo(id: string, name: string, description: string, modes: seq<Mode>)

  /** One listed theme: its name defaults to its id, its description to
      the empty text, its modes to the single default mode. */
  function InfoOf(id: string, t: Theme): (r: ThemeInfo)
    ensures r.id == id
    ensures r.name == (if t.name.Some? then t.name.value else id)
    ensures r.description == (if t.description.Some? then t.description.value else "")
    ensures r.modes != []
    ensures r.modes == (if ModesOf(t) != [] then ModesOf(t) else [DefaultMode])
  {
    ThemeInfo(id, OrElse(t.name, id), OrElse(t.description, ""),
              if ModesOf(t) == [] then [DefaultMode] else ModesOf(t))
  }

  /** The listing of `/themes`, in the order of the themes. */
  function Listing(themes: Themes): (r: seq<ThemeInfo>)
    ensures |r| == |themes|
    ensures forall k :: 0 <= k < |themes| ==> r[k] == InfoOf(themes[k].0, themes[k].1)
  {
    seq(|themes|, k requires 0 <= k < |themes| => InfoOf(themes[k].0, themes[k].1))
  }

  /** `get_themes`: builds the list one theme at a time. */
  method GetThemes(themes: Themes) returns (themeList: seq<ThemeInfo>)
    ensures themeList == Listing(themes)
  {
    themeList := [];
    var i := 0;
    while i < |themes|
      invariant 0 <= i <= |themes|
      invariant |themeList| == i
      invariant forall k :: 0 <= k < i ==> themeList[k] == InfoOf(themes[k].0, themes[k].1)
    {
      var (themeId, themeConfig) := themes[i];
      var modes := ModesOf(themeConfig);
      if modes == [] {
        modes := [DefaultMode];
      }
      var info := ThemeInfo(themeId, OrElse(themeConfig.name, themeId),
                            OrElse(themeConfig.description, ""), modes);
      themeList := themeList + [info];
      i := i + 1;
    }
  }

  /** Every listed theme offers at least one mode, with the ids of the
      theme's own modes when it has any. */
  lemma ListingOffersModes(themes: Themes, k: nat)
    requires k < |themes|
    ensures Listing(themes)[k].id == themes[k].0
    ensures Listing(themes)[k].modes != []
    ensures ModesOf(themes[k].1) != [] ==> ModeIds(Listing(themes)[k].modes) == ModeIds(ModesOf(themes[k].1))
  {
  }

  // ---------------------------------------------------------------------
  // /render
  // ---------------------------------------------------------------------

  /** The theme a request is rendered with: the requested one, else the
      one named `default`, else `fallback`. */
  function ThemeWith(themes: Themes, name: string, fallback: Theme): (t: Theme)
    ensures Dict.Get(themes, name).Some? ==> t == Dict.Get(themes, name).value
    ensures Dict.Get(themes, name).None? && Dict.Get(themes, "default").Some? ==>
      t == Dict.Get(themes, "default").value
    ensures Dict.Get(themes, name).None? && Dict.Get(themes, "default").None? ==> t == fallback
  {
    match Dict.Get(themes, name)
    case Some(t) => t
    case None =>
      match Dict.Get(themes, "default")
      case Some(t) => t
      case None => fallback
  }

  /** `THEMES.get(name, THEMES.get("default", get_default_themes()["default"]))`
      as written. */
  function ThemeFor(themes: Themes, name: string): Theme {
    ThemeWith(themes, name, DefaultThemesAsWritten[0].1)
  }

  /** The same lookup with the styled built-in default. */
  function ThemeForFixed(themes: Themes, name: string): Theme {
    ThemeWith(themes, name, DefaultThemes[0].1)
  }

  /** A request: the converted Markdown, the theme, the mode, the platform. */
  datatype Request = Request(html: string, theme: string, mode: string, platform: string)

  datatype Response = Rendered(html: string) | Failed(status: nat)

  /** The theme is known, and the mode is one of its modes when it lists any. */
  predicate Acceptable(themes: Themes, theme: string, mode: string) {
    Dict.Get(themes, theme).Some? &&
    (ModesOf(Dict.Get(themes, theme).value) == [] || mode in ModeIds(ModesOf(Dict.Get(themes, theme).value)))
  }

  /** The status of `render_markdown` as written: the 400 raised for an
      unknown theme or mode is caught by the handler's own
      `except Exception` and re-raised as a 500. */
  function StatusAsWritten(themes: Themes, theme: string, mode: string): nat {
    if Acceptable(themes, theme, mode) then 200 else 500
  }

  /** The status of `render_markdown` with its validation errors reaching
      the client. */
  function Status(themes: Themes, theme: string, mode: string): nat {
    if Acceptable(themes, theme, mode) then 200 else 400
  }

  /** `render_markdown` as written. */
  function RenderAsWritten(themes: Themes, req: Request): Response {
    var status := StatusAsWritten(themes, req.theme, req.mode);
    if status != 200 then Failed(status)
    else Rendered(StyleSheet.Styled(req.html, ThemeFor(themes, req.theme), req.mode, req.platform))
  }

  /** `render_markdown` with both corrections: validation errors reach the
      client and the built-in default is styled. */
  function RenderMarkdown(themes: Themes, req: Request): Response {
    var status := Status(themes, req.theme, req.mode);
    if status != 200 then Failed(status)
    else Rendered(StyleSheet.Styled(req.html, ThemeForFixed(themes, req.theme), req.mode, req.platform))
  }

  /** When the script cannot be read, a request for the `default` theme is
      accepted and, as written, rendered without any styling. */
  lemma UnreadableScriptUnstyledAsWritten(parse: string -> Option<Themes>, req: Request)
    requires req.theme == "default"
    ensures RenderAsWritten(Loaded(None, parse), req) ==
      Rendered(StyleSheet.Head("", StyleSheet.PlatformCss(req.platform, "")) +
               ImageGrid.ProcessImageGrids(req.html, ImageGrid.Div) + "</div>")
  {
    assert Dict.Get(DefaultThemesAsWritten, "default") == Some(DefaultThemesAsWritten[0].1);
    DefaultThemeUnstyledAsWritten(req.html, req.mode, req.platform);
  }

  /** With the corrected loader the same request is rendered with the 18
      default rules. */
  lemma UnreadableScriptStyled(parse: string -> Option<Themes>, req: Request)
    requires req.theme == "default"
    ensures RenderMarkdown(LoadedFixed(None, parse), req) ==
      Rendered(StyleSheet.Styled(req.html, DefaultThemes[0].1, req.mode, req.platform))
    ensures |StylesOf(DefaultThemes[0].1)| == 18
  {
    var t := DefaultThemes[0].1;
    assert LoadedFixed(None, parse) == DefaultThemes;
    assert Dict.Get(DefaultThemes, "default") == Some(t);
    assert ModesOf(t) == [];
    RenderFound(DefaultThemes, req, t);
    DefaultThemeStyled(t);
  }

  /** A known theme without modes renders any request for it. */
  lemma RenderFound(themes: Themes, req: Request, t: Theme)
    requires Dict.Get(themes, req.theme) == Some(t) && ModesOf(t) == []
    ensures RenderMarkdown(themes, req) == Rendered(StyleSheet.Styled(req.html, t, req.mode, req.platform))
  {
  }

  /** As written, no request ever gets a 400: an unknown theme gets a 500. */
  lemma Never400AsWritten(themes: Themes, theme: string, mode: string)
    ensures StatusAsWritten(themes, theme, mode) != 400
    ensures Dict.Get(themes, theme).None? ==> StatusAsWritten(themes, theme, mode) == 500
  {
  }

  /** A request is refused, with 400, exactly when its theme is unknown or
      its mode is not one the theme lists. */
  lemma StatusValidation(themes: Themes, theme: string, mode: string)
    ensures Status(themes, theme, mode) in {200, 400}
    ensures Status(themes, theme, mode) == 400 <==>
      Dict.Get(themes, theme).None? ||
      (ModesOf(Dict.Get(themes, theme).value) != [] && mode !in ModeIds(ModesOf(Dict.Get(themes, theme).value)))
  {
  }

  /** An accepted request is rendered with the requested theme, never a
      fallback. */
  lemma RenderUsesRequestedTheme(themes: Themes, req: Request)
    requires Status(themes, req.theme, req.mode) == 200
    ensures RenderMarkdown(themes, req) ==
      Rendered(StyleSheet.Styled(req.html, Dict.Get(themes, req.theme).value, req.mode, req.platform))
  {
  }

  /** A known theme that lists no modes accepts every mode. */
  lemma NoModesAcceptsAny(themes: Themes, theme: string, mode: string)
    requires Dict.Get(themes, theme).Some? && ModesOf(Dict.Get(themes, theme).value) == []
    ensures Status(themes, theme, mode) == 200
  {
  }

  /** A theme whose modes were extracted always lists some, so a mode that
      is not among their ids is refused. */
  lemma ExtractedModesRestrict(themes: Themes, theme: string, mode: string, found: seq<ModeFields>)
    requires Dict.Get(themes, theme).Some?
    requires Dict.Get(themes, theme).value.modes == Some(ModesFrom(found))
    requires mode !in ModeIds(ModesFrom(found))
    ensures Status(themes, theme, mode) == 400
  {
  }
}
