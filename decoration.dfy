/**
  `resolve_decoration`: which of underline, overline and line-through a text
  run draws, and from whose paint attributes.
 */
module Decoration {
  import opened Wrappers
  import opened Dom

  /** The three decoration flags of one node. */
  datatype TextDecoTypes = TextDecoTypes(hasUnderline: bool, hasOverline: bool, hasLineThrough: bool)

  /** Fill and stroke of one decoration line, as converted from the chosen node's attributes. */
  datatype TextDecorationStyle<F, S> = TextDecorationStyle(fill: F, stroke: S)

  datatype TextDecoration<F, S> = TextDecoration(
    underline: Option<TextDecorationStyle<F, S>>,
    overline: Option<TextDecorationStyle<F, S>>,
    lineThrough: Option<TextDecorationStyle<F, S>>)

  /** `word` occurs in `text` starting at index `i`. */
  predicate OccursAt(text: string, word: string, i: nat) {
    i + |word| <= |text| && forall j :: 0 <= j < |word| ==> text[i + j] == word[j]
  }

  /** `text.contains(word)`: `word` occurs somewhere in `text`. */
  function Contains(text: string, word: string): (r: bool)
    ensures r <==> exists i: nat :: OccursAt(text, word, i)
  {
    ContainsFrom(text, word, 0)
  }

  /** The search from index `from` on: `word` occurs at some index at or after `from`. */
  function ContainsFrom(text: string, word: string, from: nat): (r: bool)
    ensures r <==> exists i: nat :: from <= i && OccursAt(text, word, i)
    decreases |text| - from
  {
    if |text| < from + |word| then false
    else if OccursAt(text, word, from) then true
    else
      var r := ContainsFrom(text, word, from + 1);
      assert r ==> exists i: nat :: from <= i && OccursAt(text, word, i);
      r
  }

  /** A word containing `c` cannot occur in a text without `c`. */
  lemma AbsentCharNotContained(text: string, word: string, c: char)
    requires c in word && c !in text
    ensures !Contains(text, word)
  {
    var k :| 0 <= k < |word| && word[k] == c;
    forall i: nat ensures !OccursAt(text, word, i) {
      if i + |word| <= |text| {
        assert text[i + k] != word[k];
      }
    }
  }

  /**
    `conv_text_decoration`: the root `text` element's `text-decoration`
    (empty when absent) is searched for each keyword as a substring, so
    several kinds can be on at once.
   */
  function ConvTextDecoration(attrs: Attrs): (r: TextDecoTypes)
    ensures r.hasUnderline <==> Contains(GetStrOr(attrs, AId.TextDecoration, ""), "underline")
    ensures r.hasOverline <==> Contains(GetStrOr(attrs, AId.TextDecoration, ""), "overline")
    ensures r.hasLineThrough <==> Contains(GetStrOr(attrs, AId.TextDecoration, ""), "line-through")
    ensures AId.TextDecoration !in attrs ==> r == TextDecoTypes(false, false, false)
  {
    var text := GetStrOr(attrs, AId.TextDecoration, "");
    TextDecoTypes(Contains(text, "underline"), Contains(text, "overline"), Contains(text, "line-through"))
  }

  /**
    `conv_tspan_decoration`: the run's own `text-decoration` must equal a
    keyword exactly, so at most one kind is on.
   */
  function ConvTspanDecoration(attrs: Attrs): (r: TextDecoTypes)
    ensures r.hasUnderline <==> GetStr(attrs, AId.TextDecoration) == Some("underline")
    ensures r.hasOverline <==> GetStr(attrs, AId.TextDecoration) == Some("overline")
    ensures r.hasLineThrough <==> GetStr(attrs, AId.TextDecoration) == Some("line-through")
    ensures !(r.hasUnderline && r.hasOverline) && !(r.hasUnderline && r.hasLineThrough) && !(r.hasOverline && r.hasLineThrough)
  {
    var hasAttr := (id: string) =>
      match GetStr(attrs, AId.TextDecoration)
      case Some(s) => s == id
      case None => false;
    TextDecoTypes(hasAttr("underline"), hasAttr("overline"), hasAttr("line-through"))
  }

  /** The style `resolve_decoration` draws a kind with when it is taken from node `n`. */
  function StyleOf<F, S>(n: Attrs, fillOf: Attrs -> F, strokeOf: Attrs -> S): TextDecorationStyle<F, S> {
    TextDecorationStyle(fillOf(n), strokeOf(n))
  }

  /**
    The `gen_style` closure: the run's style when the run has the kind, else
    the root's when the root has it, else none. `fillOf` and `strokeOf`
    stand for the paint conversion of the chosen node's attributes.
   */
  function GenStyle<F, S>(inTspan: bool, inText: bool, root: Attrs, tspan: Attrs,
                          fillOf: Attrs -> F, strokeOf: Attrs -> S): (r: Option<TextDecorationStyle<F, S>>)
    ensures r.Some? <==> inTspan || inText
    ensures inTspan ==> r == Some(StyleOf(tspan, fillOf, strokeOf))
    ensures !inTspan && inText ==> r == Some(StyleOf(root, fillOf, strokeOf))
  {
    if inTspan then Some(StyleOf(tspan, fillOf, strokeOf))
    else if inText then Some(StyleOf(root, fillOf, strokeOf))
    else None
  }

  /**
    `resolve_decoration`: each kind independently is drawn with the run's
    style if the run's attribute is exactly that keyword, else with the root
    `text` element's style if the root's attribute contains the keyword,
    else not at all.
   */
  function ResolveDecoration<F, S>(root: Attrs, tspan: Attrs, fillOf: Attrs -> F, strokeOf: Attrs -> S): (r: TextDecoration<F, S>)
    ensures r.underline ==
      if GetStr(tspan, AId.TextDecoration) == Some("underline") then Some(StyleOf(tspan, fillOf, strokeOf))
      else if Contains(GetStrOr(root, AId.TextDecoration, ""), "underline") then Some(StyleOf(root, fillOf, strokeOf))
      else None
    ensures r.overline ==
      if GetStr(tspan, AId.TextDecoration) == Some("overline") then Some(StyleOf(tspan, fillOf, strokeOf))
      else if Contains(GetStrOr(root, AId.TextDecoration, ""), "overline") then Some(StyleOf(root, fillOf, strokeOf))
      else None
    ensures r.lineThrough ==
      if GetStr(tspan, AId.TextDecoration) == Some("line-through") then Some(StyleOf(tspan, fillOf, strokeOf))
      else if Contains(GetStrOr(root, AId.TextDecoration, ""), "line-through") then Some(StyleOf(root, fillOf, strokeOf))
      else None
  {
    var textDec := ConvTextDecoration(root);
    var tspanDec := ConvTspanDecoration(tspan);
    TextDecoration.TextDecoration(
      GenStyle(tspanDec.hasUnderline, textDec.hasUnderline, root, tspan, fillOf, strokeOf),
      GenStyle(tspanDec.hasOverline, textDec.hasOverline, root, tspan, fillOf, strokeOf),
      GenStyle(tspanDec.hasLineThrough, textDec.hasLineThrough, root, tspan, fillOf, strokeOf))
  }

  /** The characters that tell the three keywords apart in the examples below. */
  lemma KeywordLetters()
    ensures 'd' in "underline" && 'v' in "overline"
    ensures 'v' !in "underline line-through" && 'd' !in "line-through" && 'v' !in "line-through"
  {
  }

  /** A root declaring `"underline line-through"` turns on both of those kinds and not overline. */
  lemma RootDeclaresSeveral()
    ensures ConvTextDecoration(map[AId.TextDecoration := Str("underline line-through")]) == TextDecoTypes(true, false, true)
  {
    var text := "underline line-through";
    KeywordLetters();
    assert OccursAt(text, "underline", 0);
    assert OccursAt(text, "line-through", 10);
    AbsentCharNotContained(text, "overline", 'v');
  }

  /** A root declaring only `"line-through"` turns on line-through alone. */
  lemma RootDeclaresLineThrough()
    ensures ConvTextDecoration(map[AId.TextDecoration := Str("line-through")]) == TextDecoTypes(false, false, true)
  {
    var text := "line-through";
    KeywordLetters();
    assert OccursAt(text, "line-through", 0);
    AbsentCharNotContained(text, "underline", 'd');
    AbsentCharNotContained(text, "overline", 'v');
  }

  /**
    A run with `"underline"` under a root with `"line-through"`: underline
    comes from the run, and line-through still comes from the root, because
    each kind falls back to the root on its own.
   */
  lemma RunAndRootCombine<F, S>(fillOf: Attrs -> F, strokeOf: Attrs -> S)
    ensures var root := map[AId.TextDecoration := Str("line-through")];
      var tspan := map[AId.TextDecoration := Str("underline")];
      ResolveDecoration(root, tspan, fillOf, strokeOf) ==
        TextDecoration.TextDecoration(Some(StyleOf(tspan, fillOf, strokeOf)), None, Some(StyleOf(root, fillOf, strokeOf)))
  {
    RootDeclaresLineThrough();
  }

  /** A run that names no decoration keyword exactly inherits every kind from the root. */
  lemma RunWithoutKeywordInheritsRoot<F, S>(root: Attrs, tspan: Attrs, fillOf: Attrs -> F, strokeOf: Attrs -> S)
    requires GetStr(tspan, AId.TextDecoration) !in {Some("underline"), Some("overline"), Some("line-through")}
    ensures var r := ResolveDecoration(root, tspan, fillOf, strokeOf);
      var flags := ConvTextDecoration(root);
      && (r.underline.Some? <==> flags.hasUnderline)
      && (r.overline.Some? <==> flags.hasOverline)
      && (r.lineThrough.Some? <==> flags.hasLineThrough)
      && (r.underline.Some? ==> r.underline.value == StyleOf(root, fillOf, strokeOf))
      && (r.overline.Some? ==> r.overline.value == StyleOf(root, fillOf, strokeOf))
      && (r.lineThrough.Some? ==> r.lineThrough.value == StyleOf(root, fillOf, strokeOf))
  {
  }
}
