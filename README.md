# md2any styling pipeline, modelled in Dafny

md2any turns Markdown into HTML styled for WeChat official accounts, Xiaohongshu
and Zhihu. This project models the part of it that rewrites the converter's
output and the requests around it:

- **Per-selector inline styling** (`renderers/markdown_renderer.py`). Each
  selector of a theme's style map gets dark-mode colour substitution, then the
  platform adjuster: WeChat puts `!important` on every declaration. The result
  is merged into the `style` attribute of every element the selector matches.
  Finally the document is wrapped in a `section.markdown-content` and, when
  present, a `section.inner-container`. Runs of image-only paragraphs become
  `img-grid` sections first.
- **The stylesheet renderer of the standalone API** (`api.py`):
  - one `.markdown-content` rule per selector;
  - the regex `!important` marking and the fixed platform blocks;
  - the brace-counting loader for the theme script's `STYLES` object, with a
    built-in default theme when loading fails;
  - mode defaults and CSS value clean-up;
  - the `/themes` listing and the theme and mode validation of `/render`.
- **Markdown helpers** (`utils/markdown_utils.py`): first-H1 title extraction
  and the four list-normalising substitutions.
- **The HuaEditor server** (`api_server.py`):
  - `var(--x)` resolution;
  - `img://` link rewriting;
  - image grouping and inline styles on an element list;
  - the save-path check and the style list;
  - the field checks, title and article of the draft route.
- **The WeChat service** (`services/wechat_service.py`):
  - request defaults;
  - the error-code message table;
  - `WeChatError`;
  - the draft article with its optional cover image;
  - the control flow of both draft operations around their HTTP calls.

The modules are:

| Module | Contents |
|---|---|
| `Wrappers`, `Text`, `Dict` | Python string methods and insertion-ordered dictionaries. |
| `Theme` | A theme and its style map. |
| `DarkMode`, `InlineAdjust` | The renderer's per-declaration adjusters. |
| `ImageGrid` | The regex image-grid rewrite, with `section` in the renderer and `div` in the API. |
| `ThemeStyling` | The renderer's styling pass. It is a class `Soup` whose element styles the loops overwrite in place. |
| `MarkdownUtils` | Title and preprocessing. |
| `StyleSheet` | The API's stylesheet renderer. |
| `CssValue`, `ThemeConfig` | The API's theme configuration and routes. |
| `CssVars` | `resolve_css_variables`. |
| `HuaEditor` | The HuaEditor server. Its class `HuaDocument` is mutated by grouping and styling. |
| `WeChat` | The WeChat service. |

Several things are parameters rather than modelled:

- HTML that BeautifulSoup parses is an abstract element list. The regex image-grid rewrite works on the HTML text itself.
- CSS selector matching is a function parameter from a selector to the indices it matches. In the renderer it returns `None` when matching raises.
- Markdown conversion, the object parser of the theme script and HTTP replies are parameters too.

Where the documented behaviour and the code differ, the model follows the code:

- The regex grid class is `img-grid img-grid-N`.
- A missing theme falls back to the theme named `default`, not to the first theme.
- `/render` answers 500, not 400, for an unknown theme or mode (see Findings).
- When the theme script cannot be used, the loader and the renderer fall back to `get_default_themes()` as written. That theme renders unstyled (see Findings). `LoadedFixed` and `ThemeForFixed` are the corrected versions, and only the corrected `RenderMarkdown` uses them.

## Model

| member | source | states |
|---|---|---|
| DarkMode.AdjustDark | renderers/markdown_renderer.py:229-250 | The reassigning loop over the eleven-colour table computes `Darken`: each colour replaced in table order, each step working on the previous step's result. |
| DarkMode.ReplaceEach | api.py:413-415 | For any table of non-empty keys, the loop's result is the table's replacements applied one after another in order. |
| DarkMode.ApplyTableAbsent | renderers/markdown_renderer.py:246-248 | A text in which no key of the table occurs comes back exactly as it was. |
| DarkMode.DarkenUnchanged | renderers/markdown_renderer.py:232-248 | A style that contains none of the eleven light colours is returned unchanged. |
| DarkMode.DarkenEmpty | renderers/markdown_renderer.py:246-250 | The empty style stays empty. |
| DarkMode.WhiteBecomesDark | renderers/markdown_renderer.py:232-248 | `#ffffff` becomes `#1a1a1a`, and no later entry touches it. |
| DarkMode.BlackEndsWhite | renderers/markdown_renderer.py:232-248 | `#000` ends as `#ffffff`: the entries that would darken white have already run. |
| DarkMode.DarkenNotIdempotent | renderers/markdown_renderer.py:246-248 | Darkening twice differs from darkening once: `#000` goes to white, then to `#1a1a1a`. |
| DarkMode.ApplyTableSplit | renderers/markdown_renderer.py:247-248 | Applying a table is applying its first n entries and then the rest to that result. |
| InlineAdjust.AdjustForWeChatStyle | renderers/markdown_renderer.py:252-270 | The loop that builds `adjusted_declarations` returns `WeChatStyle(style)`: the pieces between `;`, stripped, those without `:` dropped, `!important` added where absent, joined with `"; "`. |
| InlineAdjust.WeChatEmpty | renderers/markdown_renderer.py:255-256 | An empty style is returned unchanged. |
| InlineAdjust.DeclarationMeaning | renderers/markdown_renderer.py:262-268 | A piece is dropped exactly when it strips to nothing or has no `:`. A kept piece holds `:` and `!important` and starts with the stripped piece. A piece that already has `!important` is kept as it is, with no second one. |
| InlineAdjust.DeclarationsWellFormed | renderers/markdown_renderer.py:259-268 | Every declaration the adjuster keeps carries `:` and `!important`. |
| InlineAdjust.WeChatShape | renderers/markdown_renderer.py:258-270 | The output is its own declarations joined by `"; "`, each with `:` and `!important`, with no trailing `;`. |
| InlineAdjust.WeChatReparse | renderers/markdown_renderer.py:258-270 | Splitting the output at `;` again yields exactly the declarations kept from the input: none lost, none changed. |
| InlineAdjust.WeChatIdempotent | renderers/markdown_renderer.py:252-270 | Applying the WeChat adjuster to its own output changes nothing. |
| InlineAdjust.WeChatTwo | renderers/markdown_renderer.py:258-270 | `a; c;` with two plain declarations becomes `a !important; c !important`: two `!important`, and the empty tail is dropped. |
| InlineAdjust.PlatformStyle | renderers/markdown_renderer.py:102-107 | WeChat gets the WeChat adjuster. Xiaohongshu, Zhihu and every other platform leave the style unchanged, since their adjusters are identities. |
| ImageGrid.RunLength | renderers/markdown_renderer.py:286 | The run the pattern matches is the longest prefix of image paragraphs and whitespace: every piece in it continues the run, and the piece after it cannot. |
| ImageGrid.GroupFlatten | renderers/markdown_renderer.py:286-302 | Cutting the HTML into matches and text loses, adds and reorders nothing: the blocks put back together are the input. |
| ImageGrid.GroupWellGrouped | renderers/markdown_renderer.py:286-302 | The runs are exactly the maximal stretches the pattern matches. Every image paragraph lies in a run, and each run is followed by nothing or by a piece that cannot continue it. |
| ImageGrid.GridWrapped | renderers/markdown_renderer.py:292-300 | A run of one image is emitted exactly as it was. A run of two or more is enclosed in one element (`section`, or `div` in api.py:500-505) whose class is `img-grid img-grid-2` for two images, `img-grid-3` for three and `img-grid-multi` for four or more, with the run's text inside. |
| ImageGrid.NextGt | renderers/markdown_renderer.py:286 | `[^>]*` stops at the first `>` at or after the start, or at the end of the text. |
| ImageGrid.ImgEnd | renderers/markdown_renderer.py:286 | A match of `<p><img[^>]*></p>` at the head of a text is `<p><img`, attributes without `>`, then `></p>`. |
| ImageGrid.LexHtml | renderers/markdown_renderer.py:302 | Cutting the HTML into the pieces the pattern sees loses, adds and reorders nothing: the pieces put back together are the text. |
| ImageGrid.LexCanonical | renderers/markdown_renderer.py:286 | Every image piece has attributes without `>`, every whitespace piece is one whitespace character, and every other piece is one character that is not whitespace. |
| ImageGrid.LexImage | renderers/markdown_renderer.py:286 | An image paragraph whose attributes hold no `>` at the head of the text is one image piece. |
| ImageGrid.LexWs | renderers/markdown_renderer.py:286 | A whitespace character at the head of the text is one whitespace piece. |
| ImageGrid.LexNoImages | renderers/markdown_renderer.py:286 | A text in which `<p><img` never occurs has no image piece. |
| ImageGrid.NoImagePieces | renderers/markdown_renderer.py:302 | Pieces without an image paragraph are emitted as their text. |
| ImageGrid.NoImagesUnchanged | renderers/markdown_renderer.py:302 | HTML in which `<p><img` never occurs is emitted unchanged. |
| ImageGrid.TwoImagesGrid | renderers/markdown_renderer.py:286-296 | Two image paragraphs whose attributes hold no `>`, separated by a newline, become one two-image grid around their text. |
| ImageGrid.LexTwo | renderers/markdown_renderer.py:286 | That text is cut into an image, a newline and an image. |
| ImageGrid.GroupTwo | renderers/markdown_renderer.py:286-290 | Those pieces form one run with two images. |
| ImageGrid.LexParas | renderers/markdown_renderer.py:286 | Any number of image paragraphs whose attributes hold no `>`, one per line, are cut into their image pieces with one newline piece between each two. |
| ImageGrid.ImagesGrid | renderers/markdown_renderer.py:286-302 | Such a text is one run, and the output is that text wrapped for its number of images. |
| ImageGrid.ImagesGridClass | renderers/markdown_renderer.py:288-300 | Such a text with one image is emitted unchanged. With two, three, or four or more images it becomes the text inside `<section class="img-grid img-grid-2">`, `img-grid-3` or `img-grid-multi` (`div` in api.py:500-505), closed after the text. |
| ImageGrid.WrapTable | renderers/markdown_renderer.py:292-300 | The wrapping of a run, written out as the literal tags for one, two, three, and four or more images. |
| ImageGrid.OneImageUnchanged | renderers/markdown_renderer.py:286-294 | A lone image paragraph followed by a newline is left as it was. |
| ThemeStyling.ContainerStyleAgrees | renderers/markdown_renderer.py:126-136 | The container styles get the same adjustments as every other selector, because the Xiaohongshu and Zhihu adjusters change nothing. |
| ThemeStyling.MergeFresh | renderers/markdown_renderer.py:113-117 | An element without a style, or with an empty one, gets the adjusted declarations alone, stripped. |
| ThemeStyling.MergeOnto | renderers/markdown_renderer.py:113-117 | A non-empty existing style gets `;` appended unless it ends in one, then a space and the declarations. There is no space when there is nothing to add. |
| ThemeStyling.MergeContainsNew | renderers/markdown_renderer.py:113-117 | After a merge, the style is non-empty, stripped, and contains the new declarations. |
| ThemeStyling.MergeKeeps | renderers/markdown_renderer.py:113-117 | A merge keeps everything the existing style contained. |
| ThemeStyling.MergeAllOther | renderers/markdown_renderer.py:111-117 | An element the selector does not match keeps its style. |
| ThemeStyling.MergeAllMatched | renderers/markdown_renderer.py:111-117 | Every matched element ends up with the declarations in its style. |
| ThemeStyling.MergeAllAt | renderers/markdown_renderer.py:111-117 | With each element matched once, a matched element's new style is its old style merged with the declarations. |
| ThemeStyling.StyleAllSplit | renderers/markdown_renderer.py:91 | The style map is applied in order: applying a map is applying its first part, then its rest. |
| ThemeStyling.SkipInert | renderers/markdown_renderer.py:91-120 | A `container`/`innerContainer` entry, or an entry whose matching raises, can be removed from the map without changing the result. The other entries are all still applied. |
| ThemeStyling.StyleAllKeeps | renderers/markdown_renderer.py:91-120 | A style that holds some text keeps holding it through any further entries. |
| ThemeStyling.StepMatched | renderers/markdown_renderer.py:110-117 | One entry puts its adjusted declarations on every element it matches. |
| ThemeStyling.StyledContains | renderers/markdown_renderer.py:91-120 | After the whole map, every element matched by a non-reserved selector whose matching does not raise contains that selector's adjusted declarations, whatever later entries did. |
| ThemeStyling.EmptyMapWrapsOnly | renderers/markdown_renderer.py:138-152 | An empty style map gives one unstyled container, with no inner container, around the document as parsed. |
| ThemeStyling.AdjustDeclarations | renderers/markdown_renderer.py:96-107 | Reassigning `adjusted_style` yields the dark-mode substitution in dark mode, then the platform's adjuster. |
| ThemeStyling.AdjustContainer | renderers/markdown_renderer.py:126-136 | The container style gets the dark-mode substitution in dark mode, then the WeChat adjuster on WeChat only. |
| ThemeStyling.Soup.constructor | renderers/markdown_renderer.py:88 | The parsed document holds the parsed elements' styles. |
| ThemeStyling.Soup.MergeInto | renderers/markdown_renderer.py:112-117 | Overwriting each matched element's `style` in turn gives `MergeAll` of the old styles. |
| ThemeStyling.Soup.ApplyStyles | renderers/markdown_renderer.py:91-120 | The selector loop leaves the document with the map's entries applied in order. Reserved entries and those whose matching raises are skipped. |
| ThemeStyling.ApplyThemeStyling | renderers/markdown_renderer.py:76-152 | The result is the theme's styles, or none, applied to the grid-rewritten parsed HTML. The container carries its adjusted style only when non-empty, and the inner container exists only when its adjusted style is non-empty. |
| ThemeStyling.ApplyCustomStyling | renderers/markdown_renderer.py:154-227 | The same pass with a caller's style map. |
| MarkdownUtils.TitleOf | utils/markdown_utils.py:12-15 | A title taken from lines never begins or ends with whitespace. |
| MarkdownUtils.ExtractTitle | utils/markdown_utils.py:9-15 | An extracted title never begins or ends with whitespace. |
| MarkdownUtils.TitleFirstH1 | utils/markdown_utils.py:12-14 | The title is the first line that starts with `#` but not `##`, with its first `#` removed and stripped, whatever lines come before it. |
| MarkdownUtils.TitleNone | utils/markdown_utils.py:15 | Without such a line the title is `默认标题`. |
| MarkdownUtils.TitleOfJoined | utils/markdown_utils.py:11 | For text made of lines without line breaks, the title comes from exactly those lines. |
| MarkdownUtils.TitleOfFirstHeading | utils/markdown_utils.py:13-14 | `#`, whitespace, a title and whitespace on the first line yields the title alone, e.g. `"#   Title with spaces   "`. |
| MarkdownUtils.TitleAfterDeeperHeadings | utils/markdown_utils.py:13 | `### C`, `## B`, `# Main` yields `Main`: deeper headings are passed over even when they come first. |
| MarkdownUtils.TitleOfEmpty | utils/markdown_utils.py:15 | Empty text has the default title. |
| MarkdownUtils.NoItemsUnchanged | utils/markdown_utils.py:18-25 | Text in which no line starts with a list marker followed by whitespace or the end of the line is returned exactly as it is. Every pattern needs such a line. |
| MarkdownUtils.NotItemStart | utils/markdown_utils.py:21-24 | A line that does not start with a marker and whitespace is not an item for any pattern. |
| MarkdownUtils.BlankTextJoined | utils/markdown_utils.py:21 | An item whose text is only whitespace (two characters or more) is still an item: `"-" + w + "\n:" + q` becomes `"-" + w + ": "` and `q` stripped on the left, so `"-  \n: d"` becomes `"-  : d"`. |
| MarkdownUtils.ItemBlankDescription | utils/markdown_utils.py:21 | A `:` line holding only whitespace at the end of the text gives its last whitespace character as the description, e.g. `"- item\n:  "` becomes `"- item:  "`. |
| MarkdownUtils.LabelBlankContinuation | utils/markdown_utils.py:22 | An item ending in `:` followed only by whitespace takes the last whitespace character as its continuation: `"- a:\n  "` becomes `"- a:  "`. |
| MarkdownUtils.PreprocessEmpty | utils/markdown_utils.py:18-25 | The empty text stays empty. |
| MarkdownUtils.OneLineUnchanged | utils/markdown_utils.py:21-24 | A one-line text is never changed by any of the four substitutions, since each spans a line break. |
| MarkdownUtils.PreprocessLines | utils/markdown_utils.py:21-25 | On text given as its lines, preprocessing is the four substitutions on those lines, once each, in the order of lines 21, 22, 23 and 24. |
| MarkdownUtils.SubstituteLines | utils/markdown_utils.py:21 | A multi-line `re.sub` on text given as its lines works on exactly those lines. |
| MarkdownUtils.TermColonTwoLines | utils/markdown_utils.py:21 | An item without `:`, followed by a line that is whitespace, `:` and a description, becomes `item: description`. |
| MarkdownUtils.ItemDescriptionJoined | utils/markdown_utils.py:21-25 | The whole pass turns such an item and description line into the single line `item: description`. |
| MarkdownUtils.TightListQuiet | utils/markdown_utils.py:21-24 | No pattern matches in a list whose items all have text after the marker, follow each other directly and do not end in `:`. A marker line with only whitespace after it breaks this condition. |
| MarkdownUtils.TightListUnchanged | utils/markdown_utils.py:18-25 | Such a list, with text around it that has no lines starting like items, passes unchanged. Running the pass on its own result then changes nothing. |
| MarkdownUtils.PreprocessItemGap | utils/markdown_utils.py:24 | An item with text, an empty line and an indented continuation become `item continuation`. Lines after them that do not start like items stay. |
| MarkdownUtils.JoinedItem | utils/markdown_utils.py:24 | An item joined with its continuation is again an item with text that does not end in `:`. |
| MarkdownUtils.OneShot | utils/markdown_utils.py:18-25 | Each substitution runs once. With two gap-separated continuations, one pass joins only the first and a second pass joins the other, so the pass is not idempotent. |
| StyleSheet.RulesOfPlain | api.py:423-438 | Without reserved selectors there is one rule per selector, in map order. |
| StyleSheet.RulesAppend | api.py:423 | The rules of two parts of a map are the rules of each, in order. |
| StyleSheet.GenerateCss | api.py:419-440 | The loop's result is the rules joined by newlines. |
| StyleSheet.RulesIgnoreReserved | api.py:424-426 | Setting `container` or `innerContainer`, new or existing, leaves the rules unchanged. |
| StyleSheet.InnerContainerIsClass | api.py:429-430 | A selector starting with `inner-container` gets the rule of the class `.inner-container…`. |
| StyleSheet.RulesSingleLine | api.py:427-438 | No rule spans a line break when no selector or value holds one. |
| StyleSheet.CssLines | api.py:440 | Splitting the stylesheet at line breaks gives back its rules. |
| StyleSheet.MarkIsJoin | api.py:445 | The WeChat marking is the `;`-separated pieces joined by ` !important;`. |
| StyleSheet.MarkFixed | api.py:445 | The marking changes a stylesheet exactly when it contains a `;`. |
| StyleSheet.MarkTwice | api.py:445 | Marking twice equals marking once only for a stylesheet without `;`. |
| StyleSheet.MarkDeclaration | api.py:445 | `d;` becomes `d !important;`. |
| StyleSheet.ImportantDoubled | api.py:445 | A declaration already ending in `!important;` gets a second one. |
| StyleSheet.PlatformKeepsCss | api.py:461-483 | Xiaohongshu and Zhihu keep the stylesheet as a prefix and append their fixed block. Any other platform apart from WeChat keeps it unchanged. |
| StyleSheet.WeChatKeepsPlainCss | api.py:442-459 | On WeChat, a stylesheet without `;` is followed by the fixed table and image block. |
| StyleSheet.ApplyThemeStyling | api.py:358-394 | Reassigning the stylesheet through the mode and platform steps, rewriting the grids and wrapping gives `Styled`. |
| StyleSheet.ContainerOnlyInAttribute | api.py:382-392 | The container style only appears in the outer `style` attribute, as given in every mode. The sheet is that of the remaining selectors. |
| StyleSheet.UnstyledTheme | api.py:358-394 | A theme without styles gives an empty container style, a sheet holding only the platform's block, and the grid-rewritten HTML. |
| StyleSheet.EmptySheet | api.py:361-377 | Without styles the stylesheet is only the platform's block. |
| CssValue.Collapse | api.py:203 | The result is empty exactly when the input is, starts with whitespace exactly when the input does, has only single plain spaces, and keeps the non-space characters in order. |
| CssValue.CollapseRun | api.py:203 | A whitespace run in front of text that does not start with whitespace becomes exactly one space. |
| CssValue.CollapseWord | api.py:203 | A character that is not whitespace is kept, in front of the collapse of what follows. |
| CssValue.CollapseAppend | api.py:203 | Text that ends in something other than whitespace collapses on its own, and no run crosses its end. |
| CssValue.CollapseLast | api.py:203 | The collapse ends in whitespace exactly when the text does. |
| CssValue.CollapseJoin | api.py:203 | Two stripped texts with whitespace between them collapse to their collapses joined by one space. |
| CssValue.CleanJoin | api.py:201-203 | Two cleaned values with a whitespace run between them clean to the two values joined by one space. |
| CssValue.CollapseFixed | api.py:203 | Text that already has only single plain spaces is unchanged by collapsing. |
| CssValue.StripSlice | api.py:203 | `strip()` keeps a slice of the text and removes only whitespace. |
| CssValue.StripKeeps | api.py:203 | Stripping keeps single plain spaces single and plain. |
| CssValue.Clean | api.py:201-203 | A cleaned value is stripped and has no doubled or non-plain whitespace. Its non-space characters are those of the unescaped value. |
| CssValue.UnescapePlain | api.py:201-202 | A value without backslashes is left alone by the unescaping. |
| CssValue.CleanIdempotent | api.py:201-203 | Cleaning a cleaned value without backslashes changes nothing. |
| ThemeConfig.FindFrom | api.py:65 | `find`: the first index at or after the start where the pattern occurs, or none when it does not occur. |
| ThemeConfig.BraceEnd | api.py:69-84 | The end of the extracted text satisfies `Extracted`: just past the first `}` at which the count returns to zero, or the start when there is none. |
| ThemeConfig.MatchBrace | api.py:69-84 | The brace-counting loop finds that end. |
| ThemeConfig.ExtractedUnique | api.py:74-81 | There is only one such end. |
| ThemeConfig.ExtractedBalanced | api.py:69-84 | The extracted text is empty or runs from `{` to `}` with balanced braces, and every proper prefix is still open. |
| ThemeConfig.MarkerBrace | api.py:64-71 | When the marker is found, the scan starts at the `{` it ends with. |
| ThemeConfig.LoadedWith | api.py:57-93 | The loader returns the fallback when the file is missing or has no marker. Otherwise it parses the text from the `{` after the marker to the matching brace, and returns the fallback if the parser raises. |
| ThemeConfig.LoadThemes | api.py:57-93 | The loading steps compute `Loaded`, which falls back to `get_default_themes()` as written. An unreadable file gives exactly that theme table. |
| ThemeConfig.LoadersAgree | api.py:88-93 | The as-written and corrected loaders differ only in the fallback. |
| ThemeConfig.UnreadableScriptUnstyledAsWritten | api.py:88-93 | As written, when `styles.js` cannot be read, a `/render` request for `default` is accepted and rendered with an empty container style and no rules. |
| ThemeConfig.UnreadableScriptStyled | api.py:289-313 | With the corrected fallback, the same request is rendered with the 18 default rules. |
| ThemeConfig.UnclosedParsesEmpty | api.py:70-84 | When the braces never close, the parser receives the empty text. |
| ThemeConfig.DefaultThemeStyled | api.py:289-313 | In the corrected default theme, all 18 selectors sit under `styles` and each becomes its rule, in order. |
| ThemeConfig.DefaultThemeUnstyledAsWritten | api.py:289-313 | The default theme as written has no `styles` key, so it renders with an empty container style and no rules. |
| ThemeConfig.ModesFrom | api.py:152-176 | The list is never empty. Without found modes it is the light and dark defaults. Otherwise there is one entry per found mode, missing fields filled with `默认`, `light-mode`, `#ffffff`. |
| ThemeConfig.ExtractModes | api.py:139-178 | The appending loop and the fallback give `ModesFrom`. |
| ThemeConfig.StylesFrom | api.py:196-205 | The style map is empty exactly when no entry is found. |
| ThemeConfig.ExtractedStyles | api.py:181-211 | A theme always ends up with some styles: the enhanced defaults when none are found. |
| ThemeConfig.CollectStyles | api.py:196-205 | The loop assigning each cleaned value to its selector gives `StylesFrom`. |
| ThemeConfig.ExtractStyles | api.py:181-211 | `extract_styles` gives `ExtractedStyles`. |
| ThemeConfig.StylesFromClean | api.py:196-205 | No selector occurs twice, and every value is stripped with single plain spaces. |
| ThemeConfig.LaterWins | api.py:205 | The last value given for a selector is the one kept, cleaned. Other selectors keep theirs. |
| ThemeConfig.InfoOf | api.py:540-553 | A listed theme keeps its id. Its name defaults to the id, its description to empty text, and its modes to the single default mode. |
| ThemeConfig.Listing | api.py:538-557 | One entry per theme, in order. |
| ThemeConfig.GetThemes | api.py:535-557 | The loop building `theme_list` gives `Listing`. |
| ThemeConfig.ListingOffersModes | api.py:547-553 | Every listed theme offers a mode, with the theme's own mode ids when it has any. |
| ThemeConfig.ThemeWith | api.py:345 | The requested theme when known. Otherwise the `default` theme, and otherwise the given fallback. `ThemeFor` passes the as-written built-in default, and `ThemeForFixed` passes the corrected one. |
| ThemeConfig.StatusValidation | api.py:564-581 | Corrected: a request is refused with 400 exactly when its theme is unknown or its mode is not among the theme's non-empty mode list. Otherwise it gets 200. |
| ThemeConfig.Never400AsWritten | api.py:564-602 | As written the handler never answers 400. An unknown theme gets 500. |
| ThemeConfig.RenderUsesRequestedTheme | api.py:574-588 | An accepted request is rendered with the requested theme, never a fallback. |
| ThemeConfig.NoModesAcceptsAny | api.py:575-576 | A known theme listing no modes accepts every mode. |
| ThemeConfig.ExtractedModesRestrict | api.py:575-576 | A theme whose modes were extracted always lists some, so a mode outside their ids is refused. |
| CssVars.TrimTrailing | api_server.py:35 | `rstrip(', ')` removes exactly the trailing commas and spaces and keeps the rest as a prefix. |
| CssVars.DefinedValueTrimmed | api_server.py:33-35 | A recorded value is empty or starts with something other than whitespace and ends with neither `,` nor a space. |
| CssVars.VariablesDistinct | api_server.py:31-36 | Each name is recorded once. |
| CssVars.DefinedIff | api_server.py:31-36 | A name is recorded exactly when the stylesheet defines it. |
| CssVars.LastDefinitionWins | api_server.py:31-36 | A later definition of a name overrides an earlier one. |
| CssVars.Substitute | api_server.py:46-47 | One substitution turns every reference to the name into the value and keeps every other piece. |
| CssVars.RemoveDefinitions | api_server.py:51 | Removing definitions never lengthens the stylesheet. |
| CssVars.ResolveCssVariables | api_server.py:20-53 | The two loops and the final removal give `Resolved`. |
| CssVars.ResolvedIsOnePass | api_server.py:42-51 | Substituting name by name equals one pass that resolves every reference to a defined name and drops the definitions. |
| CssVars.ResolvedPieces | api_server.py:42-51 | After resolution no definition is left. Every remaining reference names a property the stylesheet never defines. |
| CssVars.NoDefinitionsUnchanged | api_server.py:42-51 | A stylesheet without definitions comes back unchanged: its references to undefined names all remain. |
| HuaEditor.ImageLinkAt | api_server.py:198 | What is found is the pattern's match, unique: alt text without `]`, a non-empty id without `)`. |
| HuaEditor.ImageLinkSound | api_server.py:198 | What is found at a position is an image link. |
| HuaEditor.ImageLinkFound | api_server.py:198 | Every image link is found where it starts. |
| HuaEditor.NoLinkUnchanged | api_server.py:177-199 | Text without `](img://` is left as it is. |
| HuaEditor.LinkRewritten | api_server.py:187-198 | `![alt](img://id)` becomes `![alt](https://via.placeholder.com/600x400.png?text=Image+id)`. |
| HuaEditor.ImageIndices | api_server.py:251 | `find_all('img')`: exactly the image positions, in document order. |
| HuaEditor.GridOf | api_server.py:277-302 | A grid exists exactly when there are two or more images. Its count is the number of images and its columns are `1fr 1fr` for 2 or 4 images, `repeat(3, 1fr)` otherwise. |
| HuaEditor.Grouped | api_server.py:305-314 | The grouping keeps the number of elements. |
| HuaEditor.ApartImagesGrouped | api_server.py:260-278 | All images form one group however far apart they are. Two images with other elements between them make a grid of two, and the elements between are untouched. |
| HuaEditor.FewImagesUngrouped | api_server.py:253-254 | With fewer than two images nothing is grouped and no grid is built. |
| HuaEditor.GroupedPointwise | api_server.py:305-314 | Moving exactly the images into the grid, each with the grid image style, is the grouping. |
| HuaEditor.HuaDocument.constructor | api_server.py:211 | A parsed document has no grid and no container. |
| HuaEditor.HuaDocument.GroupConsecutiveImages | api_server.py:246-321 | The loop leaves the elements grouped, records the grid when there is one, and keeps the containers. |
| HuaEditor.Merge | api_server.py:237-241 | With no existing style, the new style is the declarations. Otherwise it is the old style, `"; "`, then the declarations. |
| HuaEditor.HuaDocument.MergeInto | api_server.py:230-242 | Overwriting each matched element's style gives `MergeAll` of the old elements and leaves grid and containers alone. |
| HuaEditor.HuaDocument.ApplyRules | api_server.py:217-242 | The selector loop leaves the elements styled by the map in order and appends one container per `container` entry. |
| HuaEditor.MergeAllAt | api_server.py:230-242 | With each element matched once, a matched element outside the grid gets its old style merged with the declarations. |
| HuaEditor.MergeAllShape | api_server.py:230-242 | Styling never changes an element's tag or grid membership. An unmatched element is unchanged. |
| HuaEditor.StyleAllKeeps | api_server.py:230-234 | Images inside the grid are never restyled, and no element changes its tag or its place in or out of the grid. |
| HuaEditor.CodeSelectorsIgnored | api_server.py:218-219 | `pre`, `code` and `pre code` entries have no effect: styling with the map equals styling without them. |
| HuaEditor.RuleStep | api_server.py:217-228 | The map is processed entry by entry, and each `container` entry adds one container. |
| HuaEditor.StylesForFallback | api_server.py:205-208 | A known style name gets its own styles. An unknown one gets `wechat-default`'s. |
| HuaEditor.GridImagesStyled | api_server.py:201-244 | With two or more images, every image ends up in the grid with exactly the grid image style, whatever the style map says about images. |
| HuaEditor.ApplyInlineStyles | api_server.py:201-244 | Parsing, grouping and styling give the styled elements, the grid of the parsed images, and the containers of the chosen style's map. |
| HuaEditor.GroupingRaisesAsWritten | api_server.py:213-214 | As written, styling raises `Cannot insert a tag into itself.` exactly when a grid is due, i.e. with two or more images. Otherwise it gives the same elements as the corrected styling and no grid (see Findings). |
| HuaEditor.TwoImagesRaiseAsWritten | api_server.py:306-319 | Two images with any elements but images between them make the styling raise, as written. |
| HuaEditor.SaveStatusMeaning | api_server.py:330-336 | A path containing `..` or not ending in `.css` is refused with 400. Every listed style name can be saved. |
| HuaEditor.CssFiles | api_server.py:366 | Only listed files ending in `.css` are kept. |
| HuaEditor.StyleList | api_server.py:366-374 | The list loop gives the `.css` files followed by the built-in style names not already present. |
| HuaEditor.AddStyleNamesMeaning | api_server.py:369-372 | The files stay in front in order, every built-in style's file name is listed, nothing else is added, and no duplicate is added. |
| HuaEditor.GetStylesOffers | api_server.py:362-378 | With the themes directory every built-in style is offered. In the fallback only files that really exist are listed. |
| HuaEditor.DraftCheckExtendsToken | api_server.py:604-611 | The draft route checks appid, then secret, then Markdown, each answered with its own message. It passes exactly when all three are given. |
| HuaEditor.DraftStyleDefault | api_server.py:599 | Without a `style` field the route renders with `wechat-default`. A `style` of `null` gives no style name. A name with `.css` is looked up as the name without it. |
| HuaEditor.DraftRenderMeaning | api_server.py:641-687 | The draft route's rendering fails exactly when `style` is `null` or there are two or more images. It then answers 500 with an `errmsg` starting `渲染Markdown失败: `. A `null` style gives the `endswith` error. Otherwise the elements are those of the corrected styling with the style named. |
| HuaEditor.DraftTitle | api_server.py:632-637 | The title loop gives the same title as `extract_title_from_markdown`. |
| HuaEditor.DraftArticleAgrees | api_server.py:697-709 | The route's article is the service's article with default fields, so it carries `thumb_media_id` exactly when a non-blank one is given. |
| Theme.StyleNameOfFile | api_server.py:410-411 | A style key followed by `.css` is looked up as the key. A name not ending in `.css` is left alone. |
| WeChat.NewDraftRequest | services/wechat_service.py:23-34 | The defaults are style `wechat-default`, empty author, digest, source URL and cover image, and both comment flags 1. |
| WeChat.NewDirectDraftRequest | services/wechat_service.py:37-47 | The direct request defaults to empty optional texts and both comment flags 1. |
| WeChat.ErrorMessageTable | services/wechat_service.py:229-237 | Exactly four codes have friendly messages, all different and non-empty. Every other code, and a code that is not a number, keeps the given message. |
| WeChat.WeChatError.constructor | services/wechat_service.py:243-247 | The code and message are stored as given. A missing reply becomes `{}`. |
| WeChat.WeChatError.ToDict | services/wechat_service.py:249-255 | The dictionary has the keys `errcode`, `errmsg` and `original`, in that order, holding the code, the message and the reply. |
| WeChat.BaseArticle | services/wechat_service.py:138-146 | The seven-field article has no `thumb_media_id`. |
| WeChat.BuildArticle | services/wechat_service.py:196-207 | Building the dictionary and assigning the cover image when there is one gives `ArticleOf`. |
| WeChat.ArticleThumb | services/wechat_service.py:148-150 | The article has a `thumb_media_id` exactly when the value is not blank after stripping. It then holds the value unstripped. |
| WeChat.Guarded | services/wechat_service.py:164-168 | Nothing but a `WeChatError` leaves the operation. Any other exception becomes code 500. |
| WeChat.ReplyErrors | services/wechat_service.py:67-70 | A non-zero `errcode` raises with that code and the reply. Token errors use the mapped message, draft errors WeChat's own `errmsg`. A zero or absent code passes. |
| WeChat.OnlyWeChatErrors | services/wechat_service.py:100-168 | Both draft operations raise only `WeChatError`. A failed token request surfaces as code 500, a token error as itself. |
| WeChat.EmptyTokenRefused | services/wechat_service.py:186-187 | An empty access token is refused with 400 before any request, whatever the upload would do. |
| WeChat.DraftHtmlStyle | services/wechat_service.py:113-128 | A style and its `.css` file name select the same theme. The HTML is always wrapped in `div.markdown-body`. |
| WeChat.DefaultRequestArticle | services/wechat_service.py:138-146 | A request built from its required fields gives the article with empty optional texts, both flags 1, and no cover image. |

## Left out

- HTTP and I/O:
  - Flask and FastAPI routing and response serialisation.
  - The `requests` calls, which are parameters.
  - Reading `styles.js`, where the file contents are a parameter.
  - Writing saved stylesheets and listing directories, where the listings are parameters.
  - Logging.
- Third-party libraries:
  - Markdown conversion is a parameter.
  - BeautifulSoup parsing and CSS selector semantics are a parameter from selector to matched indices.
  - `css_inline` is not modelled.
- `parse_styles_object`, `parse_theme_structure` and the regular expressions that cut theme blocks, mode objects and style entries out of the script (api.py:96-136, 144-155, 186-194). What they find is a parameter of the model. The `str.title()` fallback name relies on Python's Unicode rules.
- The enhanced default style tables (api.py:214-287). They are constant data, so `ExtractedStyles` only states that some styles result.
- `/preview` (api.py:605-694), the token route (api_server.py:543-584), `refresh_styles` (api_server.py:380-400) and the custom-CSS `/render` route of the HuaEditor server (api_server.py:403-529). They are glue around the modelled functions. `refresh_styles` runs the same list loop as `HuaEditor.StyleList`.
- The draft route's token request and upload (api_server.py:613-629, 712-733), and its conversion steps before `apply_inline_styles`.
- HuaEditor.HuaDocument.GroupConsecutiveImages, HuaEditor.GridImagesStyled, HuaEditor.ApplyInlineStyles: these model the intended grid, where the images are moved into the grid and it is recorded beside the elements. As written, the final `insert_after` (api_server.py:316-319) inserts the grid into itself and raises for every document with two or more images (see Findings). `HuaEditor.InlineStyledAsWritten` and `HuaEditor.DraftRenderAsWritten` model that behaviour. Where BeautifulSoup puts the grid in the tree is not modelled.
- HuaEditor.DraftStyle: a `style` that is neither a string nor `null` (a number, a list) also raises at `endswith`. Only `null` is modelled.
- The latin-1 re-encoding of title and content (services/wechat_service.py:135-136, 193-194; api_server.py:693-695). It is a byte-level reinterpretation of the same text, and the model sends the text as is.
- CssVars.ResolveCssVariables: the stylesheet is a sequence of tokens (definition, reference, plain text), not characters. A value that itself contains `var(` is not scanned again, and `re.sub` escape handling in replacement values is not modelled.
- MarkdownUtils.Preprocess: the patterns are modelled line by line. One case is not modelled: the `\s+` after a list marker can carry on across a line break when the marker's line has only whitespace after it, e.g. `"-\n  x\n: d"`. A leading `\s*` that starts on blank lines gives the same result as the match on the item line. The lemmas that promise unchanged text exclude such marker lines in their hypotheses.
- MarkdownUtils.MarkerRest: `\d` also matches non-ASCII decimal digits, and the model accepts only `0`-`9`.
- Python's whitespace is modelled as the ASCII characters `str.isspace()` accepts: space, tab, `\n`, `\v`, `\f`, `\r` and U+001C to U+001F. Non-ASCII whitespace such as U+0085 and U+00A0 is not modelled for `strip()` or `\s`.
- api_server.py:532-540 repeats `preprocess_markdown` verbatim. `MarkdownUtils.Preprocess` models both.
- WeChat.ErrMsg: an `errmsg` that is not a string is treated as absent.
- Concurrent access to the module-level theme tables is not modelled.

## Findings

| source | as written | input that shows it | evidently intended | confidence | as-written member | corrected member |
|---|---|---|---|---|---|---|
| api.py:564-602 | The `HTTPException(400)` for an unknown theme or mode is raised inside the `try` and caught by `except Exception`, which re-raises it as a 500 "Rendering error". | A `/render` request whose `theme` is not a key of the theme table. | An unknown theme or unavailable mode is answered with 400, as the validation says. | not executed | ThemeConfig.Never400AsWritten | ThemeConfig.StatusValidation |
| api.py:289-313 | The built-in default theme puts its selectors (`body`, `h1`, …) at the top level of the theme, not under `styles`. `_apply_theme_styling` reads `theme.get("styles", {})`. | Any render when `styles.js` cannot be loaded: the default theme produces no rules and an empty container style. | The 18 selectors sit under `styles`, so the fallback theme is styled. | not executed | ThemeConfig.DefaultThemeUnstyledAsWritten | ThemeConfig.DefaultThemeStyled |
| api_server.py:306-319 | Each image is moved into a wrapper that is appended to the grid, so `group[0].parent` is that wrapper. `insert_after(grid_container)` then inserts the grid into itself, and BeautifulSoup raises `ValueError`. `apply_inline_styles` does not catch it, and the draft route answers 500 `渲染Markdown失败: Cannot insert a tag into itself.` | Any Markdown with two images, e.g. `![a](x)` and `![b](y)` on separate lines. | The images are grouped into the grid and the grid is placed in the document. | not executed | HuaEditor.GroupingRaisesAsWritten | HuaEditor.GridImagesStyled |
