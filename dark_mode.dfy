/**
 * Dark-mode colour substitution. One fixed table of light-to-dark colour
 * pairs, applied with `str.replace` one pair after the other, each step
 * working on the result of the previous one. The inline-style renderer
 * applies it to one declaration string, the stylesheet renderer to a whole
 * generated stylesheet; both use this same table in this same order.
 */
module DarkMode {
  import opened Text

  /** The table, in the order of its dict literal. */
  const Table: seq<(string, string)> := [
    ("#ffffff", "#1a1a1a"),
    ("#fff", "#1a1a1a"),
    ("#333333", "#e8e8e8"),
    ("#333", "#e8e8e8"),
    ("#555555", "#b0b0b0"),
    ("#555", "#b0b0b0"),
    ("#000000", "#ffffff"),
    ("#000", "#ffffff"),
    ("#f8f9fa", "#2c3e50"),
    ("#ecf0f1", "#2c3e50"),
    ("#f7f7f7", "#2c3e50")
  ]

  predicate NonEmptyKeys(t: seq<(string, string)>) {
    forall k :: 0 <= k < |t| ==> t[k].0 != []
  }

  lemma NonEmptyKeysSlice(t: seq<(string, string)>, i: nat, j: nat)
    requires NonEmptyKeys(t) && i <= j <= |t|
    ensures NonEmptyKeys(t[i..j]) && NonEmptyKeys(t[i..]) && NonEmptyKeys(t[..j])
  {
    assert forall k :: 0 <= k < j - i ==> t[i..j][k] == t[i + k];
    assert forall k :: 0 <= k < |t| - i ==> t[i..][k] == t[i + k];
    assert forall k :: 0 <= k < j ==> t[..j][k] == t[k];
  }

  /** Replace each pair of `t` in turn, each on the previous result. */
  function ApplyTable(s: string, t: seq<(string, string)>): string
    requires NonEmptyKeys(t)
    decreases |t|
  {
    if t == [] then s else ApplyTable(Replace(s, t[0].0, t[0].1), t[1..])
  }

  /** The specification of the dark-mode adjustment. */
  function Darken(s: string): string {
    ApplyTable(s, Table)
  }

  /** The loop of the dark-mode adjustment: reassigns the working string
      once per table entry, in table order. */
  method ReplaceEach(style: string, t: seq<(string, string)>) returns (adjusted: string)
    requires NonEmptyKeys(t)
    ensures adjusted == ApplyTable(style, t)
  {
    adjusted := style;
    var i := 0;
    while i < |t|
      invariant 0 <= i <= |t|
      invariant NonEmptyKeys(t[i..])
      invariant ApplyTable(adjusted, t[i..]) == ApplyTable(style, t)
    {
      assert t[i..][0] == t[i] && t[i..][1..] == t[i + 1..];
      adjusted := Replace(adjusted, t[i].0, t[i].1);
      i := i + 1;
    }
  }

  /** `_apply_dark_mode_adjustments_to_style` (and `_apply_dark_mode_adjustments`). */
  method AdjustDark(style: string) returns (adjusted: string)
    ensures adjusted == Darken(style)
  {
    TableKeys();
    adjusted := ReplaceEach(style, Table);
  }

  /** A text in which no key of the table occurs is left exactly as it was. */
  lemma {:induction false} ApplyTableAbsent(s: string, t: seq<(string, string)>)
    requires NonEmptyKeys(t)
    requires forall k :: 0 <= k < |t| ==> !Contains(s, t[k].0)
    ensures ApplyTable(s, t) == s
  {
    if t != [] {
      ReplaceAbsent(s, t[0].0, t[0].1);
      ApplyTableAbsent(s, t[1..]);
    }
  }

  /** A style with none of the eleven colours is returned unchanged. */
  lemma DarkenUnchanged(s: string)
    requires forall k :: 0 <= k < |Table| ==> !Contains(s, Table[k].0)
    ensures Darken(s) == s
  {
    ApplyTableAbsent(s, Table);
  }

  /** The empty style stays empty. */
  lemma DarkenEmpty()
    ensures Darken("") == ""
  {
    forall k | 0 <= k < |Table| ensures !Contains("", Table[k].0) {
      TableKeys();
    }
    DarkenUnchanged("");
  }

  /** Every key is a `#` colour of at least four characters; none has `1` as
      its second character, and none of the first six has `0` there. */
  lemma TableKeys()
    ensures forall k :: 0 <= k < |Table| ==>
      |Table[k].0| >= 4 && Table[k].0[0] == '#' && Table[k].0[1] != '1' && (k < 6 ==> Table[k].0[1] != '0')
  {
  }

  /** A key starting with `#` can occur in a text whose only `#` is its
      first character only at the head. */
  lemma ShortColourContains(s: string, key: string)
    requires s != [] && key != [] && key[0] == '#' && '#' !in s[1..]
    ensures Contains(s, key) <==> StartsWith(s, key)
  {
    FirstCharAbsent(s[1..], key);
  }

  /** `#ffffff` is turned into `#1a1a1a` by the first entry and then left alone. */
  lemma WhiteBecomesDark()
    ensures Darken("#ffffff") == "#1a1a1a"
  {
    var d := "#1a1a1a";
    NonEmptyKeysSlice(Table, 1, |Table|);
    ReplaceHead("#ffffff", "#ffffff", d, "");
    assert Replace("#ffffff", "#ffffff", d) == d;
    TableKeys();
    forall k | 1 <= k < |Table| ensures !Contains(d, Table[k].0) {
      ShortColourContains(d, Table[k].0);
      assert d[1] != Table[k].0[1];
    }
    ApplyTableAbsent(d, Table[1..]);
  }

  /** None of the first seven keys occurs in `#000`. */
  lemma BlackSkipsFirstSeven()
    ensures NonEmptyKeys(Table[..7])
    ensures ApplyTable("#000", Table[..7]) == "#000"
  {
    var b := "#000";
    NonEmptyKeysSlice(Table, 0, 7);
    var t := Table[..7];
    TableKeys();
    forall k | 0 <= k < 7 ensures !Contains(b, t[k].0) {
      if |t[k].0| > 4 {
        NotContainsLonger(b, t[k].0);
      } else {
        assert b[1] != t[k].0[1];
        assert !OccursAt(b, 0, t[k].0);
      }
    }
    ApplyTableAbsent(b, t);
  }

  /** None of the last three keys occurs in `#ffffff`. */
  lemma WhiteSkipsLastThree()
    ensures NonEmptyKeys(Table[8..])
    ensures ApplyTable("#ffffff", Table[8..]) == "#ffffff"
  {
    NonEmptyKeysSlice(Table, 8, |Table|);
    var w := "#ffffff";
    var t := Table[8..];
    assert t == [("#f8f9fa", "#2c3e50"), ("#ecf0f1", "#2c3e50"), ("#f7f7f7", "#2c3e50")];
    forall k | 0 <= k < 3 ensures !Contains(w, t[k].0) {
      ShortColourContains(w, t[k].0);
      assert t[k].0[2] != 'f';
    }
    ApplyTableAbsent(w, t);
  }

  /** Only the last four entries can touch `#000`. */
  lemma BlackReachesEighth()
    ensures NonEmptyKeys(Table[7..]) && Darken("#000") == ApplyTable("#000", Table[7..])
  {
    NonEmptyKeysSlice(Table, 7, |Table|);
    ApplyTableSplit("#000", Table, 7);
    BlackSkipsFirstSeven();
  }

  /** The eighth entry turns `#000` white and the last three leave it so. */
  lemma BlackFromEighth()
    ensures NonEmptyKeys(Table[7..]) && ApplyTable("#000", Table[7..]) == "#ffffff"
  {
    var b := "#000";
    var w := "#ffffff";
    NonEmptyKeysSlice(Table, 7, |Table|);
    var t := Table[7..];
    assert t[0] == ("#000", w) && t[1..] == Table[8..];
    ReplaceHead(b, "#000", w, "");
    assert Replace(b, "#000", w) == w;
    ApplyTableCons(b, t);
    WhiteSkipsLastThree();
  }

  /** The order of the table is observable: `#000` is rewritten by the eighth
      entry to `#ffffff`, and the `#ffffff` entry, which came first, has
      already been applied, so the result stays white. */
  lemma BlackEndsWhite()
    ensures Darken("#000") == "#ffffff"
  {
    BlackReachesEighth();
    BlackFromEighth();
  }

  /** Darkening twice is not darkening once: the substitution is not idempotent. */
  lemma DarkenNotIdempotent()
    ensures Darken(Darken("#000")) != Darken("#000")
  {
    BlackEndsWhite();
    WhiteBecomesDark();
  }

  lemma ApplyTableCons(s: string, t: seq<(string, string)>)
    requires NonEmptyKeys(t) && t != []
    ensures NonEmptyKeys(t[1..])
    ensures ApplyTable(s, t) == ApplyTable(Replace(s, t[0].0, t[0].1), t[1..])
  {
    NonEmptyKeysSlice(t, 1, |t|);
  }

  /** Applying a table is applying its first `n` entries and then the rest. */
  lemma {:induction false} ApplyTableSplit(s: string, t: seq<(string, string)>, n: nat)
    requires NonEmptyKeys(t) && n <= |t|
    ensures ApplyTable(s, t) == ApplyTable(ApplyTable(s, t[..n]), t[n..])
    decreases n
  {
    NonEmptyKeysSlice(t, 0, n);
    NonEmptyKeysSlice(t, n, |t|);
    if n > 0 {
      NonEmptyKeysSlice(t, 1, |t|);
      NonEmptyKeysSlice(t[1..], 0, n - 1);
      NonEmptyKeysSlice(t[1..], n - 1, |t| - 1);
      assert t[..n][0] == t[0];
      assert t[..n][1..] == t[1..][..n - 1];
      assert t[n..] == t[1..][n - 1..];
      ApplyTableSplit(Replace(s, t[0].0, t[0].1), t[1..], n - 1);
    } else {
      assert t[n..] == t;
    }
  }
}
