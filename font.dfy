/**
  The attribute side of `resolve_font`: keyword tables for style, weight
  and stretch, the font-family fallback list and the font-size guard. The
  system font lookup itself is a parameter.
 */
module Font {
  import opened Wrappers
  import opened Dom

  datatype Style = Normal | Italic | Oblique

  /** A font-kit weight on the CSS 100..900 scale. */
  datatype Weight = Weight(value: nat) {
    static const THIN: Weight := Weight(100)
    static const EXTRA_LIGHT: Weight := Weight(200)
    static const LIGHT: Weight := Weight(300)
    static const NORMAL: Weight := Weight(400)
    static const MEDIUM: Weight := Weight(500)
    static const SEMIBOLD: Weight := Weight(600)
    static const BOLD: Weight := Weight(700)
    static const EXTRA_BOLD: Weight := Weight(800)
    static const BLACK: Weight := Weight(900)
  }

  /** A font-kit stretch: the width relative to normal, in thousandths. */
  datatype Stretch = Stretch(permille: nat) {
    static const ULTRA_CONDENSED: Stretch := Stretch(500)
    static const EXTRA_CONDENSED: Stretch := Stretch(625)
    static const CONDENSED: Stretch := Stretch(750)
    static const SEMI_CONDENSED: Stretch := Stretch(875)
    static const NORMAL: Stretch := Stretch(1000)
    static const SEMI_EXPANDED: Stretch := Stretch(1125)
    static const EXPANDED: Stretch := Stretch(1250)
    static const EXTRA_EXPANDED: Stretch := Stretch(1500)
    static const ULTRA_EXPANDED: Stretch := Stretch(2000)
  }

  datatype FamilyName = Serif | SansSerif | Monospace | Cursive | Fantasy | Title(name: string)

  datatype Properties = Properties(style: Style, weight: Weight, stretch: Stretch)

  /** What is handed to the system font lookup: the families in fallback order and the properties. */
  datatype FontRequest = FontRequest(families: seq<FamilyName>, properties: Properties)

  /**
    A resolved font. The metrics font-kit reports (units per em, ascent,
    underline position and thickness, scaled by size / units-per-em) are
    not part of this model.
   */
  datatype Font<H> = Font(font: H, size: F64, letterSpacing: F64, wordSpacing: F64)

  /** The `font-style` table; anything unknown is normal. */
  function ParseStyle(s: string): (r: Style)
    ensures r == Italic <==> s == "italic"
    ensures r == Oblique <==> s == "oblique"
    ensures r == Normal <==> s != "italic" && s != "oblique"
  {
    if s == "normal" then Normal
    else if s == "italic" then Italic
    else if s == "oblique" then Oblique
    else Normal
  }

  /** One of `"100"`, `"200"`, ..., `"900"`. */
  predicate IsNumericWeight(s: string) {
    |s| == 3 && '1' <= s[0] <= '9' && s[1] == '0' && s[2] == '0'
  }

  /** The value of a string of decimal digits. */
  function DecimalValue(s: string): nat
    requires forall i :: 0 <= i < |s| ==> '0' <= s[i] <= '9'
  {
    if s == [] then 0 else DecimalValue(s[..|s| - 1]) * 10 + (s[|s| - 1] as int - '0' as int)
  }

  /**
    The `font-weight` table: the nine numeric steps stand for their own
    value, `bold` for 700, and everything else, including `normal`,
    `bolder` and `lighter`, for 400.
   */
  function ParseWeight(s: string): (r: Weight)
    ensures 100 <= r.value <= 900 && r.value % 100 == 0
    ensures IsNumericWeight(s) ==> r.value == DecimalValue(s)
    ensures s == "bold" ==> r == Weight.BOLD
    ensures !IsNumericWeight(s) && s != "bold" ==> r == Weight.NORMAL
  {
    NumericWeightValue(s);
    if s == "normal" then Weight.NORMAL
    else if s == "bold" then Weight.BOLD
    else if s == "100" then Weight.THIN
    else if s == "200" then Weight.EXTRA_LIGHT
    else if s == "300" then Weight.LIGHT
    else if s == "400" then Weight.NORMAL
    else if s == "500" then Weight.MEDIUM
    else if s == "600" then Weight.SEMIBOLD
    else if s == "700" then Weight.BOLD
    else if s == "800" then Weight.EXTRA_BOLD
    else if s == "900" then Weight.BLACK
    // `bolder` and `lighter` must have been resolved before; they fall back with a warning.
    else if s == "bolder" || s == "lighter" then Weight.NORMAL
    else Weight.NORMAL
  }

  /** A numeric weight is its leading digit times 100. */
  lemma NumericWeightValue(s: string)
    ensures IsNumericWeight(s) ==> s == [s[0]] + "00" && DecimalValue(s) == (s[0] as int - '0' as int) * 100
  {
    if IsNumericWeight(s) {
      assert s == [s[0]] + "00";
      var d := s[0] as int - '0' as int;
      assert [s[0]][..0] == [];
      assert DecimalValue([s[0]]) == d;
      assert s[..2][..1] == [s[0]];
      assert DecimalValue(s[..2]) == d * 10;
      assert DecimalValue(s) == d * 100;
    }
  }

  /** The stretch keywords narrower than normal. */
  const CONDENSING: set<string> := {"ultra-condensed", "extra-condensed", "narrower", "condensed", "semi-condensed"}

  /** The stretch keywords wider than normal. */
  const EXPANDING: set<string> := {"semi-expanded", "wider", "expanded", "extra-expanded", "ultra-expanded"}

  /**
    The `font-stretch` table: exactly the condensing keywords give a width
    below normal and exactly the expanding ones a width above it; `narrower`
    is `condensed`, `wider` is `expanded`, anything unknown is normal.
   */
  function ParseStretch(s: string): (r: Stretch)
    ensures r.permille < 1000 <==> s in CONDENSING
    ensures r.permille > 1000 <==> s in EXPANDING
    ensures r == Stretch.ULTRA_CONDENSED <==> s == "ultra-condensed"
    ensures r == Stretch.EXTRA_CONDENSED <==> s == "extra-condensed"
    ensures r == Stretch.CONDENSED <==> s == "narrower" || s == "condensed"
    ensures r == Stretch.SEMI_CONDENSED <==> s == "semi-condensed"
    ensures r == Stretch.SEMI_EXPANDED <==> s == "semi-expanded"
    ensures r == Stretch.EXPANDED <==> s == "wider" || s == "expanded"
    ensures r == Stretch.EXTRA_EXPANDED <==> s == "extra-expanded"
    ensures r == Stretch.ULTRA_EXPANDED <==> s == "ultra-expanded"
    ensures r == Stretch.NORMAL <==> s !in CONDENSING && s !in EXPANDING
  {
    if s == "normal" then Stretch.NORMAL
    else if s == "ultra-condensed" then Stretch.ULTRA_CONDENSED
    else if s == "extra-condensed" then Stretch.EXTRA_CONDENSED
    else if s == "narrower" || s == "condensed" then Stretch.CONDENSED
    else if s == "semi-condensed" then Stretch.SEMI_CONDENSED
    else if s == "semi-expanded" then Stretch.SEMI_EXPANDED
    else if s == "wider" || s == "expanded" then Stretch.EXPANDED
    else if s == "extra-expanded" then Stretch.EXTRA_EXPANDED
    else if s == "ultra-expanded" then Stretch.ULTRA_EXPANDED
    else Stretch.NORMAL
  }

  /** The keyword equivalences of the weight and stretch tables. */
  lemma KeywordEquivalences()
    ensures ParseWeight("700") == ParseWeight("bold") && ParseWeight("400") == ParseWeight("normal")
    ensures ParseWeight("bolder") == Weight.NORMAL && ParseWeight("lighter") == Weight.NORMAL
    ensures ParseStretch("narrower") == ParseStretch("condensed") && ParseStretch("wider") == ParseStretch("expanded")
  {
  }

  /** The stretch keywords from narrowest to widest. */
  const STRETCH_LADDER: seq<string> := ["ultra-condensed", "extra-condensed", "condensed", "semi-condensed", "normal",
                                        "semi-expanded", "expanded", "extra-expanded", "ultra-expanded"]

  /** Along the ladder the widths strictly increase, so no two keywords of it share a width. */
  lemma StretchLadderIncreases()
    ensures forall i, j :: 0 <= i < j < |STRETCH_LADDER| ==>
      ParseStretch(STRETCH_LADDER[i]).permille < ParseStretch(STRETCH_LADDER[j]).permille
  {
    var widths := [500, 625, 750, 875, 1000, 1125, 1250, 1500, 2000];
    forall k | 0 <= k < |STRETCH_LADDER| ensures ParseStretch(STRETCH_LADDER[k]).permille == widths[k] {
    }
  }

  /** Number of occurrences of `c` in `s`. */
  function Occurrences(s: string, c: char): nat {
    if s == [] then 0 else (if s[0] == c then 1 else 0) + Occurrences(s[1..], c)
  }

  /** The pieces joined back with `sep` between them. */
  function Join(parts: seq<string>, sep: char): string
    requires |parts| > 0
  {
    if |parts| == 1 then parts[0] else parts[0] + [sep] + Join(parts[1..], sep)
  }

  /**
    `str::split` on one character: the pieces between the separators, one
    more than there are separators; joining them back gives the input.
   */
  function Split(s: string, sep: char): (r: seq<string>)
    ensures |r| == Occurrences(s, sep) + 1
    ensures forall i :: 0 <= i < |r| ==> sep !in r[i]
    ensures Join(r, sep) == s
  {
    if s == [] then [""]
    else if s[0] == sep then [""] + Split(s[1..], sep)
    else
      var rest := Split(s[1..], sep);
      [[s[0]] + rest[0]] + rest[1..]
  }

  /** Splitting what Join produced gives the pieces back. */
  lemma {:induction false} SplitJoin(parts: seq<string>, sep: char)
    requires |parts| > 0 && forall i :: 0 <= i < |parts| ==> sep !in parts[i]
    ensures Split(Join(parts, sep), sep) == parts
    decreases parts
  {
    if |parts| == 1 {
      SplitPiece(parts[0], sep, []);
    } else {
      SplitJoin(parts[1..], sep);
      SplitPiece(parts[0], sep, parts[1..]);
    }
  }

  lemma {:induction false} SplitPiece(piece: string, sep: char, rest: seq<string>)
    requires sep !in piece
    requires rest != [] ==> Split(Join(rest, sep), sep) == rest
    ensures rest == [] ==> Split(piece, sep) == [piece]
    ensures rest != [] ==> Split(piece + [sep] + Join(rest, sep), sep) == [piece] + rest
    decreases |piece|
  {
    if piece == [] {
      if rest != [] {
        assert piece + [sep] + Join(rest, sep) == [sep] + Join(rest, sep);
        assert ([sep] + Join(rest, sep))[1..] == Join(rest, sep);
      }
    } else {
      SplitPiece(piece[1..], sep, rest);
      if rest == [] {
        assert piece == [piece[0]] + piece[1..];
      } else {
        var s := piece + [sep] + Join(rest, sep);
        assert s[1..] == piece[1..] + [sep] + Join(rest, sep);
        assert s[0] == piece[0];
        assert [piece[0]] + piece[1..] == piece;
      }
    }
  }

  /** `str::replace(c, "")`: `s` with every `c` removed and every other character kept in order. */
  function RemoveAll(s: string, c: char): (r: string)
    ensures c !in r
    ensures c !in s ==> r == s
  {
    if s == [] then []
    else if s[0] == c then RemoveAll(s[1..], c)
    else
      var rest := RemoveAll(s[1..], c);
      assert ([s[0]] + rest)[1..] == rest;
      [s[0]] + rest
  }

  /** Removal drops exactly the occurrences of `c` and keeps the count of every other character. */
  lemma {:induction false} RemoveAllCounts(s: string, c: char)
    ensures |RemoveAll(s, c)| + Occurrences(s, c) == |s|
    ensures forall d :: d != c ==> Occurrences(RemoveAll(s, c), d) == Occurrences(s, d)
    decreases |s|
  {
    if s != [] {
      RemoveAllCounts(s[1..], c);
      if s[0] != c {
        assert ([s[0]] + RemoveAll(s[1..], c))[1..] == RemoveAll(s[1..], c);
      }
    }
  }

  /**
    Removal works piece by piece: removing from a concatenation is removing
    from each part, so the kept characters stay in their order.
   */
  lemma {:induction false} RemoveAllAppend(a: string, b: string, c: char)
    ensures RemoveAll(a + b, c) == RemoveAll(a, c) + RemoveAll(b, c)
    decreases |a|
  {
    if a != [] {
      assert (a + b)[0] == a[0];
      assert (a + b)[1..] == a[1..] + b;
      RemoveAllAppend(a[1..], b, c);
    } else {
      assert a + b == b;
    }
  }

  /** The generic family keywords. */
  const GENERIC_FAMILIES: set<string> := {"serif", "sans-serif", "monospace", "cursive", "fantasy"}

  /** A family name: one of the five generic keywords, or a named family. */
  function ParseFamily(name: string): (r: FamilyName)
    ensures r == Serif <==> name == "serif"
    ensures r == SansSerif <==> name == "sans-serif"
    ensures r == Monospace <==> name == "monospace"
    ensures r == Cursive <==> name == "cursive"
    ensures r == Fantasy <==> name == "fantasy"
    ensures r.Title? <==> name !in GENERIC_FAMILIES
    ensures r.Title? ==> r.name == name
  {
    if name == "serif" then Serif
    else if name == "sans-serif" then SansSerif
    else if name == "monospace" then Monospace
    else if name == "cursive" then Cursive
    else if name == "fantasy" then Fantasy
    else Title(name)
  }

  /** The family one comma-separated piece names: its `'` characters removed, the generic keywords mapped. */
  function FamilyOf(piece: string): FamilyName {
    ParseFamily(RemoveAll(piece, '\''))
  }

  /** The family list of a `font-family` value: one entry per comma-separated piece, quotes removed. */
  function Families(fontFamily: string): (r: seq<FamilyName>)
    ensures |r| == Occurrences(fontFamily, ',') + 1
  {
    var pieces := Split(fontFamily, ',');
    seq(|pieces|, i requires 0 <= i < |pieces| => FamilyOf(pieces[i]))
  }

  /**
    The family-list loop of `resolve_font`: one entry per comma-separated
    piece in declared order, each with its `'` characters removed (no
    whitespace trimming, no `"` stripping) and the generic keywords mapped.
   */
  method FamilyList(fontFamily: string) returns (fontList: seq<FamilyName>)
    ensures |fontList| == Occurrences(fontFamily, ',') + 1
    ensures forall i :: 0 <= i < |fontList| ==>
      fontList[i] == ParseFamily(RemoveAll(Split(fontFamily, ',')[i], '\''))
    ensures fontList == Families(fontFamily)
  {
    var pieces := Split(fontFamily, ',');
    fontList := [];
    for i := 0 to |pieces|
      invariant fontList == Families(fontFamily)[..i]
    {
      var family := RemoveAll(pieces[i], '\'');
      var name := ParseFamily(family);
      fontList := fontList + [name];
    }
    assert fontList == Families(fontFamily);
    forall i | 0 <= i < |fontList| ensures fontList[i] == ParseFamily(RemoveAll(pieces[i], '\'')) {
      assert fontList[i] == FamilyOf(pieces[i]);
    }
  }

  /** The request `resolve_font` hands to the font lookup. */
  function RequestOf(attrs: Attrs): FontRequest {
    FontRequest(
      Families(GetStrOr(attrs, FontFamily, "")),
      Properties(
        ParseStyle(GetStrOr(attrs, FontStyle, "normal")),
        ParseWeight(GetStrOr(attrs, FontWeight, "normal")),
        ParseStretch(GetStrOr(attrs, FontStretch, "normal"))))
  }

  /**
    `resolve_font`: builds the request from the attributes; a font size that
    is not greater than 0.0 (zero, negative, NaN, or absent) gives no font
    before any lookup. `lookup` stands for font-kit's best-match selection
    followed by loading, either of which may fail and give no font.
   */
  method ResolveFont<H>(attrs: Attrs, lookup: FontRequest -> Option<H>) returns (r: Option<Font<H>>)
    ensures !IsPositive(GetNumberOr(attrs, FontSize, ZERO)) ==> r == None
    ensures IsNaN(GetNumberOr(attrs, FontSize, ZERO)) ==> r == None
    ensures r.Some? <==> IsPositive(GetNumberOr(attrs, FontSize, ZERO)) && lookup(RequestOf(attrs)).Some?
    ensures r.Some? ==> r.value == Font(lookup(RequestOf(attrs)).value, GetNumberOr(attrs, FontSize, ZERO),
                                        GetNumberOr(attrs, LetterSpacing, ZERO), GetNumberOr(attrs, WordSpacing, ZERO))
  {
    var style := ParseStyle(GetStrOr(attrs, FontStyle, "normal"));
    var weight := ParseWeight(GetStrOr(attrs, FontWeight, "normal"));
    var stretch := ParseStretch(GetStrOr(attrs, FontStretch, "normal"));
    var fontFamily := GetStrOr(attrs, FontFamily, "");
    var fontList := FamilyList(fontFamily);

    var size := GetNumberOr(attrs, FontSize, ZERO);
    if !IsPositive(size) {
      return None;
    }

    var letterSpacing := GetNumberOr(attrs, LetterSpacing, ZERO);
    var wordSpacing := GetNumberOr(attrs, WordSpacing, ZERO);

    var properties := Properties(style, weight, stretch);
    var handle := lookup(FontRequest(fontList, properties));
    if handle.None? {
      return None;
    }
    r := Some(Font(handle.value, size, letterSpacing, wordSpacing));
  }
}
