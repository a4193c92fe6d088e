/**
 * A theme as the services hold it: a display name, optionally a
 * description, optionally a list of modes (light/dark variants), and
 * optionally a style map from CSS selector to a declaration string. A
 * theme dictionary may lack any of these keys; the code reads each with a
 * default, so each is an `Option` here.
 */
module Theme {
  import opened Wrappers
  import opened Text

  /** A selector and its declarations, e.g. `("h1", "color: #333;")`. */
  type StyleMap = seq<(string, string)>

  /** A mode entry: `{"name": …, "id": …, "background": …}`. */
  datatype Mode = Mode(name: string, id: string, background: string)

  datatype Theme = Theme(
    name: Option<string>,
    description: Option<string>,
    modes: Option<seq<Mode>>,
    styles: Option<StyleMap>)

  /** `theme.get("styles", {})` */
  function StylesOf(t: Theme): StyleMap {
    match t.styles
    case Some(s) => s
    case None => []
  }

  /** `theme.get("modes", [])` */
  function ModesOf(t: Theme): seq<Mode> {
    match t.modes
    case Some(m) => m
    case None => []
  }

  /** The selectors that configure the wrapping element rather than content. */
  predicate Reserved(selector: string) {
    selector == "container" || selector == "innerContainer"
  }

  /** The name a style is looked up by: when it ends with `.css`, every
      `.css` in it is removed (`name.replace('.css', '')`). */
  function StyleName(name: string): string {
    if EndsWith(name, ".css") then Replace(name, ".css", "") else name
  }

  /** A file name built from a name without dots is looked up by that
      name again, and a name that does not end with `.css` is used as it
      is. */
  lemma StyleNameOfFile(key: string, name: string)
    requires '.' !in key
    ensures StyleName(key + ".css") == key
    ensures !EndsWith(name, ".css") ==> StyleName(name) == name
  {
    ReplaceTrailing(key, ".css", "");
    assert (key + ".css")[|key + ".css"| - 4..] == ".css";
    assert key + "" == key;
  }
}
