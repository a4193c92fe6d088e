/**
 * The two Markdown text utilities: the first-H1 title used for WeChat
 * drafts, and the list-normalisation pass run before conversion.
 *
 * `preprocess_markdown` is four multi-line regular-expression
 * substitutions applied once each, in order. Each is modelled on the
 * text's lines: a match starts at a list-item line, takes in the lines the
 * pattern's whitespace runs across, and is replaced by one joined line;
 * scanning resumes at the first line after the match.
 */
module MarkdownUtils {
  import opened Wrappers
  import opened Text

  // ---------------------------------------------------------------------
  // Title

  const DefaultTitle := "默认标题"

  /** A level-one heading line: starts with `#` but not with `##`. */
  predicate IsH1(line: string) {
    StartsWith(line, "#") && !StartsWith(line, "##")
  }

  /** The title from the first heading line among `lines`: the line with its
      first `#` removed, stripped; the default when there is none. */
  function TitleOf(lines: seq<string>): (r: string)
    ensures IsStripped(r)
  {
    if lines == [] then DefaultTitle
    else if IsH1(lines[0]) then Strip(lines[0][1..])
    else TitleOf(lines[1..])
  }

  /** `extract_title_from_markdown` */
  function ExtractTitle(markdown: string): (r: string)
    ensures IsStripped(r)
  {
    TitleOf(Split(markdown, '\n'))
  }

  /** The title comes from the first level-one heading, whatever lines (deeper
      headings included) come before it. */
  lemma {:induction false} TitleFirstH1(lines: seq<string>, i: nat)
    requires i < |lines| && IsH1(lines[i])
    requires forall k :: 0 <= k < i ==> !IsH1(lines[k])
    ensures TitleOf(lines) == Strip(lines[i][1..])
  {
    if i > 0 {
      assert !IsH1(lines[0]);
      TitleFirstH1(lines[1..], i - 1);
    }
  }

  /** Without a level-one heading the title is the default. */
  lemma {:induction false} TitleNone(lines: seq<string>)
    requires forall k :: 0 <= k < |lines| ==> !IsH1(lines[k])
    ensures TitleOf(lines) == DefaultTitle
  {
    if lines != [] {
      assert !IsH1(lines[0]);
      TitleNone(lines[1..]);
    }
  }

  /** For text made of lines without line breaks, the title is taken from
      exactly those lines. */
  lemma TitleOfJoined(lines: seq<string>)
    requires |lines| >= 1 && forall k :: 0 <= k < |lines| ==> '\n' !in lines[k]
    ensures ExtractTitle(Join(lines, "\n")) == TitleOf(lines)
  {
    SplitJoin(lines, '\n');
  }

  /** A line of a `#` and then anything but a second `#`. */
  lemma H1Line(line: string)
    requires |line| >= 1 && line[0] == '#' && (|line| == 1 || line[1] != '#')
    ensures IsH1(line)
  {
    assert line[..1] == "#";
    if |line| >= 2 { assert line[..2][1] != '#'; }
  }

  /** A line starting `##` is a deeper heading. */
  lemma DeeperLine(line: string)
    requires |line| >= 2 && line[0] == '#' && line[1] == '#'
    ensures !IsH1(line)
  {
    assert line[..2] == "##";
  }

  /** A heading line `#`, whitespace, a stripped title, whitespace. */
  lemma {:induction false} HeadingTitle(lines: seq<string>, i: nat, w1: string, word: string, w2: string)
    requires i < |lines| && lines[i] == "#" + w1 + word + w2
    requires forall k :: 0 <= k < i ==> !IsH1(lines[k])
    requires AllSpace(w1) && AllSpace(w2) && word != [] && IsStripped(word) && word[0] != '#'
    ensures TitleOf(lines) == word
  {
    var line := lines[i];
    assert line[1] == if w1 != [] then w1[0] else word[0];
    H1Line(line);
    assert line[1..] == w1 + word + w2;
    StripSurrounded(w1, word, w2);
    TitleFirstH1(lines, i);
  }

  /** A text whose first line is `#`, whitespace, a title and whitespace has
      exactly that title: `"#   Title with spaces   \n\nContent"` has the
      title `"Title with spaces"`. */
  lemma TitleOfFirstHeading(w1: string, word: string, w2: string, rest: string)
    requires AllSpace(w1) && AllSpace(w2) && word != [] && IsStripped(word) && word[0] != '#'
    requires '\n' !in w1 && '\n' !in word && '\n' !in w2
    ensures ExtractTitle("#" + w1 + word + w2 + "\n" + rest) == word
  {
    var line := "#" + w1 + word + w2;
    NoBreakConcat("#", w1);
    NoBreakConcat("#" + w1, word);
    NoBreakConcat("#" + w1 + word, w2);
    assert line + "\n" + rest == line + ['\n'] + rest;
    SplitPrefix(line, rest, '\n');
    HeadingTitle([line] + Split(rest, '\n'), 0, w1, word, w2);
  }

  /** Deeper headings before the first `# ` line are passed over. */
  lemma TitleAfterDeeperHeadings(markdown: string)
    requires markdown == "### C\n## B\n# Main"
    ensures ExtractTitle(markdown) == "Main"
  {
    var lines := ["### C", "## B", "# Main"];
    JoinCons("## B", ["# Main"], "\n");
    JoinCons("### C", ["## B", "# Main"], "\n");
    assert lines == ["### C"] + ["## B", "# Main"] && ["## B", "# Main"] == ["## B"] + ["# Main"];
    assert "### C" + "\n" + ("## B" + "\n" + "# Main") == markdown;
    TitleOfJoined(lines);
    DeeperTitleLines(lines);
  }

  lemma DeeperTitleLines(lines: seq<string>)
    requires lines == ["### C", "## B", "# Main"]
    ensures TitleOf(lines) == "Main"
  {
    DeeperLine(lines[0]);
    DeeperLine(lines[1]);
    HeadingTitle(lines, 2, " ", "Main", "");
  }

  /** Empty input has the default title. */
  lemma TitleOfEmpty()
    ensures ExtractTitle("") == DefaultTitle
  {
    assert Split("", '\n') == [""];
  }

  // ---------------------------------------------------------------------
  // List-item lines

  /** The number of ASCII digits `s` starts with. */
  function DigitRun(s: string): (n: nat)
    ensures n <= |s|
    ensures forall k :: 0 <= k < n ==> '0' <= s[k] <= '9'
    ensures n < |s| ==> !('0' <= s[n] <= '9')
  {
    if s != [] && '0' <= s[0] <= '9' then 1 + DigitRun(s[1..]) else 0
  }

  /** What follows the list marker of a line that, after optional whitespace,
      starts with `-`, `*` or digits and a `.`; `None` for any other line. */
  function MarkerRest(line: string): Option<string> {
    var s := LStrip(line);
    if s != [] && (s[0] == '-' || s[0] == '*') then Some(s[1..])
    else
      var n := DigitRun(s);
      if 0 < n < |s| && s[n] == '.' then Some(s[n + 1..]) else None
  }

  /** An item line as every pattern needs it within one line: the marker is
      followed by whitespace (`\s+`) and then at least one more character,
      which may itself be whitespace. */
  predicate ListItem(line: string) {
    match MarkerRest(line)
    case Some(t) => |t| >= 2 && IsSpace(t[0])
    case None => false
  }

  /** A line that starts the way every pattern starts: a marker followed by
      whitespace or by the end of the line. */
  predicate ItemStart(line: string) {
    match MarkerRest(line)
    case Some(t) => t == [] || IsSpace(t[0])
    case None => false
  }

  /** An item with something other than whitespace after its marker: the
      `\s+` after the marker cannot run on into the next line. */
  predicate FilledItem(line: string) {
    ListItem(line) && !AllSpace(MarkerRest(line).value)
  }

  /** An item without `:` in its text (patterns one and three). */
  predicate TermItem(line: string) {
    ListItem(line) && ':' !in MarkerRest(line).value
  }

  /** An item whose text ends, before trailing whitespace, with `:` after at
      least one more character (pattern two). */
  predicate LabelItem(line: string) {
    ListItem(line) &&
    var t := RStrip(MarkerRest(line).value);
    |t| >= 3 && t[|t| - 1] == ':'
  }

  /** The first line at or after `j` with something other than whitespace. */
  function FirstContent(ls: seq<string>, j: nat): (r: Option<nat>)
    ensures r.Some? ==> j <= r.value < |ls| && !AllSpace(ls[r.value])
    ensures r.Some? ==> forall k :: j <= k < r.value ==> AllSpace(ls[k])
    ensures r.None? ==> forall k :: j <= k < |ls| ==> AllSpace(ls[k])
    decreases |ls| - j
  {
    if j >= |ls| then None
    else if !AllSpace(ls[j]) then Some(j)
    else FirstContent(ls, j + 1)
  }

  /** The last non-empty line at or after `j`. */
  function LastFilled(ls: seq<string>, j: nat): (r: Option<nat>)
    ensures r.Some? ==> j <= r.value < |ls| && ls[r.value] != []
    ensures r.Some? ==> forall k :: r.value < k < |ls| ==> ls[k] == []
    ensures r.None? ==> forall k :: j <= k < |ls| ==> ls[k] == []
    decreases |ls| - j
  {
    if j >= |ls| then None
    else match LastFilled(ls, j + 1)
      case Some(k) => Some(k)
      case None => if ls[j] != [] then Some(j) else None
  }

  /** The last character of a non-empty text, as a text. */
  function LastChar(s: string): string
    requires s != []
  {
    [s[|s| - 1]]
  }

  // ---------------------------------------------------------------------
  // The four substitutions

  /** The substitutions of lines 21, 22, 23 and 24, in that order. */
  datatype Pattern = TermColon | LabelContinued | BareColon | GapContinued

  /** The description `\s*(.+?)$` after a `:` on line `j` whose remaining
      text is `q`: that text without its leading whitespace or, when it is
      blank, the first line with content after it. When no line with
      content follows, `\s*` gives back the last whitespace character
      before a line break or the end, which becomes the description. Gives
      the description and the index of the first line after the match. */
  function Description(ls: seq<string>, j: nat, q: string): (r: Option<(string, nat)>)
    requires j < |ls|
    ensures r.Some? ==> j < r.value.1 <= |ls|
  {
    if !AllSpace(q) then Some((LStrip(q), j + 1))
    else match FirstContent(ls, j + 1)
      case Some(m) => Some((LStrip(ls[m]), m + 1))
      case None =>
        match LastFilled(ls, j + 1)
        case Some(k) => Some((LastChar(ls[k]), k + 1))
        case None => if q != [] then Some((LastChar(q), j + 1)) else None
  }

  /** Line 21, `^(\s*marker\s+[^:\n]+)\n\s*:\s*(.+?)$` replaced by `\1: \2`:
      an item without `:`, then (past blank lines) a line whose first
      non-blank character is `:`. */
  function TermColonAt(ls: seq<string>): (r: Option<(string, nat)>)
    requires ls != []
    ensures r.Some? ==> 1 < r.value.1 <= |ls|
  {
    if !TermItem(ls[0]) then None
    else match FirstContent(ls, 1)
      case None => None
      case Some(j) =>
        var c := LStrip(ls[j]);
        if !StartsWith(c, ":") then None
        else match Description(ls, j, c[1..])
          case Some((d, n)) => Some((ls[0] + ": " + d, n))
          case None => None
  }

  /** Line 22, `^(\s*marker\s+.+?:)\s*\n\s+(.+?)$` replaced by `\1 \2`: an
      item ending in `:`, then the next line with content, provided
      whitespace follows a line break in between. With only blank lines
      after the item, the last whitespace character is the continuation,
      provided some whitespace comes between a line break and it. */
  function LabelContinuedAt(ls: seq<string>): (r: Option<(string, nat)>)
    requires ls != []
    ensures r.Some? ==> 1 < r.value.1 <= |ls|
  {
    if !LabelItem(ls[0]) then None
    else match FirstContent(ls, 1)
      case None =>
        (match LastFilled(ls, 1)
         case Some(k) =>
           if k > 1 || |ls[k]| >= 2 then Some((RStrip(ls[0]) + " " + LastChar(ls[k]), k + 1)) else None
         case None => None)
      case Some(m) =>
        if m > 1 || IsSpace(ls[m][0]) then Some((RStrip(ls[0]) + " " + LStrip(ls[m]), m + 1))
        else None
  }

  /** Line 23, `^(\s*marker\s+[^:\n]+)\n:\s*(.+?)$` replaced by `\1: \2`:
      an item without `:`, then a line that starts with `:`. */
  function BareColonAt(ls: seq<string>): (r: Option<(string, nat)>)
    requires ls != []
    ensures r.Some? ==> 1 < r.value.1 <= |ls|
  {
    if !TermItem(ls[0]) || |ls| < 2 || !StartsWith(ls[1], ":") then None
    else match Description(ls, 1, ls[1][1..])
      case Some((d, n)) => Some((ls[0] + ": " + d, n))
      case None => None
  }

  /** Line 24, `^(\s*marker\s+.+?)\n\n\s+(.+?)$` replaced by `\1 \2`: an
      item, an empty line, then the next line with content, provided
      whitespace follows the empty line. With only blank lines after the
      empty one, the last whitespace character is the continuation,
      provided it is not the first character after the empty line. */
  function GapContinuedAt(ls: seq<string>): (r: Option<(string, nat)>)
    requires ls != []
    ensures r.Some? ==> 2 < r.value.1 <= |ls|
  {
    if !ListItem(ls[0]) || |ls| < 2 || ls[1] != [] then None
    else match FirstContent(ls, 2)
      case None =>
        (match LastFilled(ls, 2)
         case Some(k) =>
           if k > 2 || |ls[k]| >= 2 then Some((ls[0] + " " + LastChar(ls[k]), k + 1)) else None
         case None => None)
      case Some(m) =>
        if m > 2 || IsSpace(ls[m][0]) then Some((ls[0] + " " + LStrip(ls[m]), m + 1))
        else None
  }

  /** A match of `p` at the first line of `ls`: the replacement line and the
      number of lines the match covers. */
  function MatchAt(p: Pattern, ls: seq<string>): (r: Option<(string, nat)>)
    requires ls != []
    ensures r.Some? ==> 1 < r.value.1 <= |ls|
  {
    match p
    case TermColon => TermColonAt(ls)
    case LabelContinued => LabelContinuedAt(ls)
    case BareColon => BareColonAt(ls)
    case GapContinued => GapContinuedAt(ls)
  }

  /** One substitution over all lines, scanning from the top and resuming
      after each match. */
  function SubLines(p: Pattern, ls: seq<string>): seq<string>
    decreases |ls|
  {
    if ls == [] then []
    else match MatchAt(p, ls)
      case Some((line, n)) => [line] + SubLines(p, ls[n..])
      case None => [ls[0]] + SubLines(p, ls[1..])
  }

  /** `re.sub(pattern, replacement, content, flags=re.MULTILINE)` */
  function Substitute(p: Pattern, content: string): string {
    Join(SubLines(p, Split(content, '\n')), "\n")
  }

  /** `preprocess_markdown` */
  function Preprocess(content: string): string {
    Substitute(GapContinued, Substitute(BareColon, Substitute(LabelContinued, Substitute(TermColon, content))))
  }

  // ---------------------------------------------------------------------
  // Properties

  /** Lines none of which is a list item pass through a substitution. */
  lemma {:induction false} SubLinesNoItems(p: Pattern, ls: seq<string>)
    requires forall k :: 0 <= k < |ls| ==> !ListItem(ls[k])
    ensures SubLines(p, ls) == ls
    decreases |ls|
  {
    if ls != [] {
      assert !ListItem(ls[0]);
      SubLinesNoItems(p, ls[1..]);
    }
  }

  /** Text in which no line starts with a list marker followed by whitespace
      or the end of the line is left exactly as it is. */
  lemma NoItemsUnchanged(content: string)
    requires forall k :: 0 <= k < |Split(content, '\n')| ==> !ItemStart(Split(content, '\n')[k])
    ensures Preprocess(content) == content
  {
    forall p: Pattern ensures Substitute(p, content) == content {
      NotItemStart(Split(content, '\n'));
      SubLinesNoItems(p, Split(content, '\n'));
      JoinSplit(content, '\n');
    }
  }

  /** A line that does not start like an item is not an item. */
  lemma NotItemStart(ls: seq<string>)
    requires forall k :: 0 <= k < |ls| ==> !ItemStart(ls[k])
    ensures forall k :: 0 <= k < |ls| ==> !ListItem(ls[k])
  {
  }

  /** The empty text stays empty. */
  lemma PreprocessEmpty()
    ensures Preprocess("") == ""
  {
    assert Split("", '\n') == [""];
    NoItemsUnchanged("");
  }

  /** A one-line text is never changed: every pattern spans a line break. */
  lemma OneLineUnchanged(p: Pattern, line: string)
    requires '\n' !in line
    ensures Substitute(p, line) == line
  {
    SplitNoSep(line, '\n');
    assert MatchAt(p, [line]).None?;
    assert SubLines(p, [line]) == [line] + SubLines(p, []);
  }

  /** Lines without line breaks, joined and split again, are the same lines. */
  lemma SplitJoined(a: string, b: string)
    requires '\n' !in a && '\n' !in b
    ensures Split(a + "\n" + b, '\n') == [a, b]
  {
    assert a + "\n" + b == a + ['\n'] + b;
    SplitPrefix(a, b, '\n');
    SplitNoSep(b, '\n');
  }

  /** Text without a line break, in front of and behind one more piece of
      such text, still has none. */
  lemma NoBreakConcat(a: string, b: string)
    requires '\n' !in a && '\n' !in b
    ensures '\n' !in a + b
  {
    assert forall k :: 0 <= k < |a + b| ==> (a + b)[k] == (if k < |a| then a[k] else b[k - |a|]);
  }

  /** The substitution of line 21 on an item and its description line. */
  lemma TermColonTwoLines(item: string, next: string, q: string)
    requires TermItem(item) && !AllSpace(next) && LStrip(next) == ":" + q && !AllSpace(q)
    ensures SubLines(TermColon, [item, next]) == [item + ": " + LStrip(q)]
  {
    var ls := [item, next];
    assert FirstContent(ls, 1) == Some(1);
    assert StartsWith(LStrip(next), ":");
    assert (":" + q)[1..] == q;
    assert Description(ls, 1, q) == Some((LStrip(q), 2));
    assert MatchAt(TermColon, ls) == Some((item + ": " + LStrip(q), 2));
    assert ls[2..] == [];
  }

  /** A list item followed by a line holding `:` and a description (after
      optional whitespace) becomes one line `item: description`, and the
      remaining passes leave it so. */
  lemma ItemDescriptionJoined(item: string, w: string, q: string)
    requires TermItem(item) && '\n' !in item
    requires AllSpace(w) && '\n' !in w && '\n' !in q && !AllSpace(q)
    ensures Preprocess(item + "\n" + w + ":" + q) == item + ": " + LStrip(q)
  {
    var next := w + (":" + q);
    NoBreakConcat(":", q);
    NoBreakConcat(w, ":" + q);
    assert item + "\n" + w + ":" + q == item + "\n" + next;
    SplitJoined(item, next);
    assert !AllSpace(next) by {
      var k :| 0 <= k < |q| && !IsSpace(q[k]);
      assert next[|w| + 1 + k] == q[k];
    }
    LStripBefore(w, ":" + q);
    assert LStrip(w) == [] by {
      if LStrip(w) != [] { LStripSuffix(w); }
    }
    TermColonTwoLines(item, next, q);
    var joined := item + ": " + LStrip(q);
    assert Substitute(TermColon, item + "\n" + w + ":" + q) == joined;
    LStripSuffix(q);
    assert '\n' !in LStrip(q);
    NoBreakConcat(item, ": ");
    NoBreakConcat(item + ": ", LStrip(q));
    OneLineUnchanged(LabelContinued, joined);
    OneLineUnchanged(BareColon, joined);
    OneLineUnchanged(GapContinued, joined);
  }

  /** An item whose text is only whitespace (two characters or more) is
      still an item: `"-  \n: d"` becomes `"-  : d"`. */
  lemma BlankTextJoined(w: string, q: string)
    requires AllSpace(w) && |w| >= 2 && '\n' !in w
    requires '\n' !in q && !AllSpace(q)
    ensures Preprocess("-" + w + "\n:" + q) == "-" + w + ": " + LStrip(q)
  {
    var item := "-" + w;
    BlankItem(w);
    NoBreakConcat("-", w);
    ItemDescriptionJoined(item, "", q);
    ColonLine(item, q);
  }

  lemma ColonLine(item: string, q: string)
    ensures item + "\n" + "" + ":" + q == item + "\n:" + q
  {
  }

  lemma BlankItem(w: string)
    requires AllSpace(w) && |w| >= 2
    ensures TermItem("-" + w)
  {
    var item := "-" + w;
    assert LStrip(item) == item;
    assert item[1..] == w;
    assert MarkerRest(item) == Some(w);
    assert ':' !in w by { assert forall k :: 0 <= k < |w| ==> w[k] != ':'; }
  }

  /** A `:` line holding only whitespace, with nothing after it, gives its
      last whitespace character as the description: `"- item\n:  "`
      becomes `"- item:  "`. */
  lemma ItemBlankDescription(item: string, q: string)
    requires TermItem(item) && '\n' !in item
    requires AllSpace(q) && q != [] && '\n' !in q
    ensures Preprocess(item + "\n:" + q) == item + ": " + LastChar(q)
  {
    var next := ":" + q;
    NoBreakConcat(":", q);
    assert item + "\n:" + q == item + "\n" + next;
    SplitJoined(item, next);
    var ls := [item, next];
    assert !AllSpace(next) by { assert !IsSpace(next[0]); }
    assert FirstContent(ls, 1) == Some(1);
    assert LStrip(next) == next && StartsWith(next, ":") && next[1..] == q;
    assert FirstContent(ls, 2).None? && LastFilled(ls, 2).None?;
    assert Description(ls, 1, q) == Some((LastChar(q), 2));
    assert MatchAt(TermColon, ls) == Some((item + ": " + LastChar(q), 2));
    assert ls[2..] == [];
    var joined := item + ": " + LastChar(q);
    assert SubLines(TermColon, ls) == [joined];
    assert Substitute(TermColon, item + "\n:" + q) == joined;
    assert '\n' !in LastChar(q);
    NoBreakConcat(item, ": ");
    NoBreakConcat(item + ": ", LastChar(q));
    OneLineUnchanged(LabelContinued, joined);
    OneLineUnchanged(BareColon, joined);
    OneLineUnchanged(GapContinued, joined);
  }

  /** An item ending in `:` followed only by whitespace takes the last
      whitespace character as its continuation: `"- a:\n  "` becomes
      `"- a:  "`. */
  lemma LabelBlankContinuation()
    ensures Preprocess("- a:\n  ") == "- a:  "
  {
    SplitJoined("- a:", "  ");
    assert "- a:" + "\n" + "  " == "- a:\n  ";
    LabelBlankTerm(["- a:", "  "]);
    LabelBlankLabel(["- a:", "  "]);
    assert Substitute(TermColon, "- a:\n  ") == "- a:\n  ";
    assert Substitute(LabelContinued, "- a:\n  ") == "- a:  ";
    OneLineUnchanged(BareColon, "- a:  ");
    OneLineUnchanged(GapContinued, "- a:  ");
  }

  lemma LabelBlankTerm(ls: seq<string>)
    requires ls == ["- a:", "  "]
    ensures SubLines(TermColon, ls) == ls
  {
    assert MarkerRest("- a:") == Some(" a:");
    assert ':' in " a:" by { assert " a:"[2] == ':'; }
    assert MarkerRest("  ").None? by { assert LStrip("  ") == []; }
    assert MatchAt(TermColon, ls).None?;
    assert ls[1..] == ["  "];
    assert MatchAt(TermColon, ["  "]).None?;
    assert ["  "][1..] == [];
  }

  lemma LabelBlankLabel(ls: seq<string>)
    requires ls == ["- a:", "  "]
    ensures SubLines(LabelContinued, ls) == ["- a:  "]
  {
    assert MarkerRest("- a:") == Some(" a:");
    assert LabelItem("- a:");
    assert FirstContent(ls, 1).None? && LastFilled(ls, 1) == Some(1);
    assert "- a:" + " " + " " == "- a:  ";
    assert MatchAt(LabelContinued, ls) == Some(("- a:  ", 2));
    assert ls[2..] == [];
  }

  /** No line of `ls` holds a line break. */
  predicate NoBreaks(ls: seq<string>) {
    forall k :: 0 <= k < |ls| ==> '\n' !in ls[k]
  }

  /** The parts of a line a match keeps hold no line break either. */
  lemma NoBreakParts(s: string)
    requires '\n' !in s
    ensures '\n' !in LStrip(s) && '\n' !in RStrip(s) && (s != [] ==> '\n' !in s[1..])
  {
    LStripSuffix(s);
    RStripPrefix(s);
  }

  /** A replacement line holds no line break. */
  lemma MatchNoBreak(p: Pattern, ls: seq<string>)
    requires ls != [] && NoBreaks(ls) && MatchAt(p, ls).Some?
    ensures '\n' !in MatchAt(p, ls).value.0
  {
    var line := MatchAt(p, ls).value.0;
    NoBreakParts(ls[0]);
    forall k | 0 <= k < |ls| ensures '\n' !in LStrip(ls[k]) {
      NoBreakParts(ls[k]);
    }
    forall k | 0 <= k < |ls| && ls[k] != [] ensures '\n' !in ls[k][1..] && '\n' !in LStrip(ls[k][1..]) {
      NoBreakParts(ls[k]);
      NoBreakParts(ls[k][1..]);
    }
    forall k | 0 <= k < |ls| && LStrip(ls[k]) != [] ensures '\n' !in LStrip(LStrip(ls[k])[1..]) {
      NoBreakParts(ls[k]);
      NoBreakParts(LStrip(ls[k]));
      NoBreakParts(LStrip(ls[k])[1..]);
    }
    NoBreakConcat(ls[0], ": ");
    NoBreakConcat(RStrip(ls[0]), " ");
    NoBreakConcat(ls[0], " ");
    forall x | '\n' !in x
      ensures '\n' !in ls[0] + ": " + x && '\n' !in ls[0] + " " + x && '\n' !in RStrip(ls[0]) + " " + x
    {
      NoBreakConcat(ls[0] + ": ", x);
      NoBreakConcat(ls[0] + " ", x);
      NoBreakConcat(RStrip(ls[0]) + " ", x);
    }
  }

  /** A substitution maps lines without breaks to lines without breaks, and
      never to no lines at all. */
  lemma {:induction false} SubLinesNoBreaks(p: Pattern, ls: seq<string>)
    requires NoBreaks(ls)
    ensures NoBreaks(SubLines(p, ls))
    ensures |ls| >= 1 ==> |SubLines(p, ls)| >= 1
    decreases |ls|
  {
    if ls != [] {
      match MatchAt(p, ls)
      case Some((line, n)) =>
        MatchNoBreak(p, ls);
        SubLinesNoBreaks(p, ls[n..]);
      case None =>
        SubLinesNoBreaks(p, ls[1..]);
    }
  }

  /** On text given as its lines, a substitution works on exactly those
      lines. */
  lemma SubstituteLines(p: Pattern, ls: seq<string>)
    requires |ls| >= 1 && NoBreaks(ls)
    ensures Substitute(p, Join(ls, "\n")) == Join(SubLines(p, ls), "\n")
  {
    SplitJoin(ls, '\n');
  }

  /** `preprocess_markdown` on text given as its lines. */
  lemma PreprocessLines(ls: seq<string>)
    requires |ls| >= 1 && NoBreaks(ls)
    ensures Preprocess(Join(ls, "\n")) ==
      Join(SubLines(GapContinued, SubLines(BareColon, SubLines(LabelContinued, SubLines(TermColon, ls)))), "\n")
  {
    var l1 := SubLines(TermColon, ls);
    SubLinesNoBreaks(TermColon, ls);
    var l2 := SubLines(LabelContinued, l1);
    SubLinesNoBreaks(LabelContinued, l1);
    var l3 := SubLines(BareColon, l2);
    SubLinesNoBreaks(BareColon, l2);
    SubstituteLines(TermColon, ls);
    SubstituteLines(LabelContinued, l1);
    SubstituteLines(BareColon, l2);
    SubstituteLines(GapContinued, l3);
  }

  /** Items each with content after the marker, followed directly by another
      marker line (or ending the text), none ending in `:`: nothing for any
      pattern to join. */
  predicate TightList(ls: seq<string>) {
    forall i :: 0 <= i < |ls| && ItemStart(ls[i]) ==>
      !AllSpace(MarkerRest(ls[i]).value) && !LabelItem(ls[i]) &&
      (i + 1 == |ls| || MarkerRest(ls[i + 1]).Some?)
  }

  /** A line with a list marker, after whitespace, starts with the marker. */
  lemma MarkerNotColon(line: string)
    requires MarkerRest(line).Some?
    ensures !AllSpace(line) && !StartsWith(LStrip(line), ":") && !StartsWith(line, ":")
  {
    var s := LStrip(line);
    var c := MarkerChar(line);
    LStripSuffix(line);
    assert line[|line| - |s|] == c;
    assert s[..1] == [c];
    if line != [] && !IsSpace(line[0]) {
      assert s == line;
    }
  }

  /** The first character of a marker line, after whitespace, is `-`, `*`
      or a digit. */
  lemma MarkerChar(line: string) returns (c: char)
    requires MarkerRest(line).Some?
    ensures LStrip(line) != [] && c == LStrip(line)[0]
    ensures c == '-' || c == '*' || '0' <= c <= '9'
  {
    var s := LStrip(line);
    c := s[0];
    if c != '-' && c != '*' {
      assert DigitRun(s) > 0;
    }
  }

  /** No pattern matches at an item of a tight list. */
  lemma {:induction false} TightListQuiet(p: Pattern, ls: seq<string>)
    requires TightList(ls)
    ensures SubLines(p, ls) == ls
    decreases |ls|
  {
    if ls != [] {
      if ListItem(ls[0]) && |ls| > 1 {
        MarkerNotColon(ls[1]);
        assert FirstContent(ls, 1) == Some(1);
        assert ls[1] != [];
      }
      assert MatchAt(p, ls).None?;
      assert TightList(ls[1..]) by {
        forall i | 0 <= i < |ls| - 1 && ItemStart(ls[1..][i])
          ensures !AllSpace(MarkerRest(ls[1..][i]).value) && !LabelItem(ls[1..][i]) &&
            (i + 1 == |ls[1..]| || MarkerRest(ls[1..][i + 1]).Some?)
        {
          assert ls[1..][i] == ls[i + 1];
        }
      }
      TightListQuiet(p, ls[1..]);
    }
  }

  /** A tight list, and text around it without list items, passes
      unchanged; so running the pass on its own result changes nothing. */
  lemma TightListUnchanged(ls: seq<string>)
    requires |ls| >= 1 && NoBreaks(ls) && TightList(ls)
    ensures Preprocess(Join(ls, "\n")) == Join(ls, "\n")
    ensures Preprocess(Preprocess(Join(ls, "\n"))) == Preprocess(Join(ls, "\n"))
  {
    PreprocessLines(ls);
    TightListQuiet(TermColon, ls);
    TightListQuiet(LabelContinued, ls);
    TightListQuiet(BareColon, ls);
    TightListQuiet(GapContinued, ls);
  }

  /** Left-stripping text that has content stops inside it. */
  lemma {:induction false} LStripAppend(u: string, v: string)
    requires !AllSpace(u)
    ensures LStrip(u + v) == LStrip(u) + v
    decreases |u|
  {
    if IsSpace(u[0]) {
      assert (u + v)[1..] == u[1..] + v;
      assert !AllSpace(u[1..]) by {
        var k :| 0 <= k < |u| && !IsSpace(u[k]);
        assert u[1..][k - 1] == u[k];
      }
      LStripAppend(u[1..], v);
    }
  }

  /** The digits a marker starts with are not lengthened by what is appended
      after its `.`. */
  lemma {:induction false} DigitRunAppend(s: string, v: string)
    requires DigitRun(s) < |s|
    ensures DigitRun(s + v) == DigitRun(s)
    decreases |s|
  {
    if '0' <= s[0] <= '9' {
      assert (s + v)[1..] == s[1..] + v;
      DigitRunAppend(s[1..], v);
    }
  }

  /** Appending to a list-item line appends to its text. */
  lemma MarkerRestAppend(line: string, v: string)
    requires MarkerRest(line).Some?
    ensures MarkerRest(line + v) == Some(MarkerRest(line).value + v)
  {
    MarkerNotColon(line);
    LStripAppend(line, v);
    var s := LStrip(line);
    if s[0] != '-' && s[0] != '*' {
      DigitRunAppend(s, v);
      assert (s + v)[DigitRun(s) + 1..] == s[DigitRun(s) + 1..] + v;
    } else {
      assert (s + v)[1..] == s[1..] + v;
    }
  }

  /** A line that continues an item after an empty line: indented, with
      content that is not a list marker or `:`, ending in neither whitespace
      nor `:`. */
  predicate Continuation(line: string) {
    line != [] && IsSpace(line[0]) && '\n' !in line &&
    !IsSpace(line[|line| - 1]) && line[|line| - 1] != ':' &&
    MarkerRest(line).None? && !StartsWith(LStrip(line), ":")
  }

  /** An item, an empty line and a continuation: only the substitution of
      line 24 joins them, into the item, a space and the continuation's
      text; lines without items after them stay. */
  lemma ItemGapLines(p: Pattern, ls: seq<string>, item: string, b: string, rest: seq<string>)
    requires ls == [item, "", b] + rest
    requires FilledItem(item) && !LabelItem(item) && Continuation(b)
    requires forall k :: 0 <= k < |rest| ==> !ItemStart(rest[k])
    ensures SubLines(p, ls) == if p == GapContinued then [item + " " + LStrip(b)] + rest else ls
  {
    ItemGapMatch(p, ls, item, b, rest);
    NotItemStart(rest);
    if p == GapContinued {
      assert ls[3..] == rest;
      SubLinesNoItems(p, rest);
    } else {
      var tail := ls[1..];
      assert tail == ["", b] + rest;
      assert !ListItem("") && !ListItem(b);
      assert forall k :: 0 <= k < |tail| ==> !ListItem(tail[k]);
      SubLinesNoItems(p, tail);
      assert [ls[0]] + tail == ls;
    }
  }

  /** Only the pattern of line 24 matches at an item followed by an empty
      line and a continuation. */
  lemma ItemGapMatch(p: Pattern, ls: seq<string>, item: string, b: string, rest: seq<string>)
    requires ls == [item, "", b] + rest
    requires FilledItem(item) && !LabelItem(item) && Continuation(b)
    ensures MatchAt(p, ls) == if p == GapContinued then Some((item + " " + LStrip(b), 3)) else None
  {
    assert !AllSpace(b) by { assert !IsSpace(b[|b| - 1]); }
    assert AllSpace(ls[1]);
    assert FirstContent(ls, 2) == Some(2);
    assert FirstContent(ls, 1) == Some(2);
    assert !ListItem(b);
  }

  /** The whole pass on an item, an empty line, a continuation and lines
      without items. */
  lemma PreprocessItemGap(ls: seq<string>, item: string, b: string, rest: seq<string>)
    requires ls == [item, "", b] + rest && NoBreaks(ls)
    requires FilledItem(item) && !LabelItem(item) && Continuation(b)
    requires forall k :: 0 <= k < |rest| ==> !ItemStart(rest[k])
    ensures Preprocess(Join(ls, "\n")) == Join([item + " " + LStrip(b)] + rest, "\n")
  {
    PreprocessLines(ls);
    ItemGapLines(TermColon, ls, item, b, rest);
    ItemGapLines(LabelContinued, ls, item, b, rest);
    ItemGapLines(BareColon, ls, item, b, rest);
    ItemGapLines(GapContinued, ls, item, b, rest);
  }

  /** An item joined with a continuation is again an item that does not end
      in `:`, and holds no line break. */
  lemma JoinedItem(item: string, b: string)
    requires ListItem(item) && '\n' !in item && Continuation(b)
    ensures var joined := item + " " + LStrip(b);
      FilledItem(joined) && !LabelItem(joined) && '\n' !in joined
  {
    var x := LStrip(b);
    ContinuationText(b);
    assert item + " " + x == item + (" " + x);
    ItemAppend(item, " " + x);
    NoBreakConcat(" ", x);
    NoBreakConcat(item, " " + x);
  }

  /** Text that ends in something other than whitespace or `:`, appended
      to an item, leaves an item that is not a label. */
  lemma ItemAppend(item: string, v: string)
    requires ListItem(item) && v != [] && !IsSpace(v[|v| - 1]) && v[|v| - 1] != ':'
    ensures FilledItem(item + v) && !LabelItem(item + v)
  {
    MarkerRestAppend(item, v);
    var t := MarkerRest(item).value;
    var t' := t + v;
    assert t'[0] == t[0];
    assert t'[|t'| - 1] == v[|v| - 1];
    RStripOfStripped(t');
  }

  /** The text of a continuation line: what is left after its indentation
      is non-empty, ends where the line ends and holds no line break. */
  lemma ContinuationText(b: string)
    requires Continuation(b)
    ensures var x := LStrip(b); x != [] && x[|x| - 1] == b[|b| - 1] && '\n' !in x
  {
    var x := LStrip(b);
    assert !IsSpace(b[|b| - 1]);
    LStripNonBlank(b);
    LStripSuffix(b);
    assert x == b[|b| - |x|..];
    NoBreakParts(b);
  }

  /** Text with something other than whitespace keeps it after `lstrip()`. */
  lemma {:induction false} LStripNonBlank(s: string)
    requires !AllSpace(s)
    ensures LStrip(s) != []
    decreases |s|
  {
    if IsSpace(s[0]) {
      assert !AllSpace(s[1..]) by {
        var k :| 0 <= k < |s| && !IsSpace(s[k]);
        assert s[1..][k - 1] == s[k];
      }
      LStripNonBlank(s[1..]);
    }
  }

  /** Each substitution runs once, over the text as it stood before it:
      an item, an empty line and two indented paragraphs become the item
      joined with the first paragraph, the empty line and the second
      paragraph; a second run joins that too, so running the whole pass
      twice is not the same as running it once. */
  lemma OneShot(item: string, b: string, c: string)
    requires FilledItem(item) && !LabelItem(item) && '\n' !in item
    requires Continuation(b) && Continuation(c)
    ensures var once := [item + " " + LStrip(b)] + ["", c];
      Preprocess(Join([item, "", b] + ["", c], "\n")) == Join(once, "\n") &&
      Preprocess(Join(once, "\n")) == item + " " + LStrip(b) + " " + LStrip(c) &&
      Preprocess(Preprocess(Join([item, "", b] + ["", c], "\n"))) != Preprocess(Join([item, "", b] + ["", c], "\n"))
  {
    var first := item + " " + LStrip(b);
    OneShotFirst(item, b, c);
    JoinedItem(item, b);
    OneShotSecond(first, c);
    JoinedItem(first, c);
    ThreeLinesBreak(first, c);
  }

  /** Three lines joined hold a line break. */
  lemma ThreeLinesBreak(first: string, c: string)
    ensures '\n' in Join([first] + ["", c], "\n")
  {
    JoinCons("", [c], "\n");
    JoinCons(first, ["", c], "\n");
    assert Join([first] + ["", c], "\n")[|first|] == '\n';
  }

  lemma OneShotFirst(item: string, b: string, c: string)
    requires FilledItem(item) && !LabelItem(item) && '\n' !in item
    requires Continuation(b) && Continuation(c)
    ensures Preprocess(Join([item, "", b] + ["", c], "\n")) == Join([item + " " + LStrip(b)] + ["", c], "\n")
  {
    var rest := ["", c];
    assert !ItemStart(rest[0]) && !ItemStart(rest[1]);
    NoBreaksLines(item, b, rest);
    PreprocessItemGap([item, "", b] + rest, item, b, rest);
  }

  /** An item, an empty line, a continuation and more lines without breaks. */
  lemma NoBreaksLines(item: string, b: string, rest: seq<string>)
    requires '\n' !in item && Continuation(b) && NoBreaks(rest)
    ensures NoBreaks([item, "", b] + rest)
  {
    var ls := [item, "", b] + rest;
    forall k | 0 <= k < |ls| ensures '\n' !in ls[k] {
      if k >= 3 { assert ls[k] == rest[k - 3]; }
    }
  }

  lemma OneShotSecond(first: string, c: string)
    requires FilledItem(first) && !LabelItem(first) && '\n' !in first && Continuation(c)
    ensures Preprocess(Join([first] + ["", c], "\n")) == first + " " + LStrip(c)
  {
    var once := [first] + ["", c];
    assert once == [first, "", c] + [];
    assert NoBreaks(once);
    PreprocessItemGap(once, first, c, []);
    assert [first + " " + LStrip(c)] + [] == [first + " " + LStrip(c)];
  }
}
