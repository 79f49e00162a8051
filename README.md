# Text attribute resolution of usvg, modelled in Dafny

Before usvg lays out an SVG `text` element, it resolves the element's text
attributes into plain per-character data. That step lives in
`usvg/src/convert/text/convert.rs`, and this project models it:

- **Positions.** `resolve_positions_list` and `count_chars` build one slot
  per Unicode code point of the element's text, each with optional x, y, dx
  and dy. The function walks the descendants in document order with a
  running offset:
  - each element lays its declared number lists over the table at the
    offset, clipped to the element's own character count;
  - each text leaf moves the offset by its code points.
- **Rotation.** `resolve_rotate` walks the same tree recursively and appends
  one angle per character to a list.
  - A text leaf takes its angles from the nearest ancestor carrying
    `rotate`. Past the end of that list it repeats the last angle, and it
    uses 0.0 when no ancestor carries `rotate`.
  - An element child restarts at offset 0 only when it declares `rotate`
    itself.
  - Each element child moves its parent's offset by exactly one, whatever
    its length.
- **Decoration.** `resolve_decoration`, `conv_text_decoration` and
  `conv_tspan_decoration` decide, for each of underline, overline and
  line-through, whether it is drawn and with whose paint.
  - The root `text` element's attribute is searched by substring.
  - A run's own attribute must equal the keyword exactly.
  - The run wins over the root, kind by kind.
- **Font.** The attribute side of `resolve_font`: the `font-style`,
  `font-weight` and `font-stretch` keyword tables, the comma-separated
  `font-family` fallback list, and the `font-size > 0` guard.
- **Anchor.** `resolve_text_anchor`: the `text-anchor` keyword table.

The model is spread over these files:

- `dom.dfy` holds the document tree (`Element(attrs, children)` or
  `Text(text)`), the typed attribute getters and the character counts. A
  Dafny `char` is a Unicode scalar value, so `|text|` is the code-point count
  of `chars().count()`.
- f64 values are only copied, so they are kept as their 64-bit pattern.
  `IsPositive` is `v > 0.0` on that pattern: zeros, negatives and NaN are
  not positive.
- `positions.dfy`:
  - the specification is `Walk`, a fold over the document-order listing;
  - the in-place method `ResolvePositionsList` fills an `array` and is
    proved equal to that fold.
- `rotation.dfy`:
  - the specification is `RotateKids`;
  - `ResolveRotate` is a recursive method that appends to a `RotateList`
    object.
- `decoration.dfy`, `font.dfy` and `anchor.dfy` hold the pure tables and
  choices.
- `alignment.dfy` ties the two per-character lists together.

Points where the model follows the code as written:

- The ancestor search for `rotate` (`find_node_with_attribute`) does not stop
  at the `text` element. It continues up to the document root, as a TODO in
  the code notes. `FindNodeWithAttribute` therefore searches a chain of
  ancestors that may extend above the `text` element. A text leaf has no
  attributes, so the chain starts at its parent.
- When the nearest `rotate` carrier holds a value that is not a number list,
  the text leaf appends nothing and the offset does not move.
- Each decoration kind falls back to the root on its own, so a run's
  `underline` does not switch off the root's `line-through`: the run is
  drawn with its own underline and the root's line-through
  (`Decoration.RunAndRootCombine`).

## Model

| member | source | states |
|---|---|---|
| `Dom.CountChars` | usvg/src/convert/text/convert.rs:246-253 | the loop total is the number of code points of all text leaves in the subtree |
| `Dom.CharCount` | usvg/src/convert/text/convert.rs:246-253 | the reference count: a text leaf counts its code points and an element the sum over its children; `CountChars` and `DescendantsTextCount` are proved equal to it |
| `Dom.Descendants` | usvg/src/convert/text/convert.rs:178 | the document-order listing of a subtree, the node itself first; so the text element's own lists are the first visited and land at offset 0 |
| `Dom.DescendantsTextCount` | usvg/src/convert/text/convert.rs:248-250 | adding up text along the document-order listing gives the tree's character count |
| `Dom.DescendantFits` | usvg/src/convert/text/convert.rs:177-188 | a node reached at position k of the listing has the text before it plus its own text within the total, so no write goes out of bounds |
| `Dom.DescendantsOfAppend` | usvg/src/convert/text/convert.rs:178 | the listing of a concatenation of sibling lists is the concatenation of their listings |
| `Dom.ChildListed` | usvg/src/convert/text/convert.rs:177-201 | child j of an element is listed right after the element and the subtrees of the children before it, and the text before it is exactly those children's code points |
| `Positions.Unset` | usvg/src/convert/text/convert.rs:170-175 | the initial table has one slot per character, with x, y, dx and dy all unset |
| `Positions.Overlay` | usvg/src/convert/text/convert.rs:187-189 | exactly slots o..o+n take the n values on the given axis; other slots are unchanged |
| `Positions.OverlayAxis` | usvg/src/convert/text/convert.rs:183-192 | with a list L for the axis, exactly slots o..o+min(len L, count) get L[i-o]; other axes, other slots, and every slot when no list is declared keep their value |
| `Positions.OverlayElement` | usvg/src/convert/text/convert.rs:179-197 | the four overlays of one element: per axis and slot, the declared value inside the clipped range, the prior value elsewhere |
| `Positions.Walk` | usvg/src/convert/text/convert.rs:177-201 | the traversal keeps the table length, and the offset moves by exactly the text of the visited nodes (elements never move it) |
| `Positions.ResolvedPositions` | usvg/src/convert/text/convert.rs:167-204 | the reference table: the document-order fold started from an all-unset table of one slot per character; it has exactly that many slots |
| `Positions.DescendantsInBounds` | usvg/src/convert/text/convert.rs:177-188 | each element of the listing, reached at its offset, has its whole subtree inside the table |
| `Positions.WalkReachesTotal` | usvg/src/convert/text/convert.rs:177-201 | after the traversal of the text element the offset equals the total character count |
| `Positions.WalkUncovered` | usvg/src/convert/text/convert.rs:177-201 | a slot no element's clipped list reaches on an axis keeps its value there |
| `Positions.WalkLastWriter` | usvg/src/convert/text/convert.rs:177-201 | a slot gets the value of the last element, in document order, whose clipped list reaches it |
| `Positions.LastDeclarationWins` | usvg/src/convert/text/convert.rs:167-204 | in the returned table, slot i holds the value of the last node whose list reaches it, so a nested run overrides its ancestors |
| `Positions.UndeclaredAxisUnset` | usvg/src/convert/text/convert.rs:170-197 | an axis no node of the text element declares is unset in every slot |
| `Positions.NestedRunOverridesRoot` | usvg/src/convert/text/convert.rs:177-201 | the root's list lands at offset 0: with x="1 2 3" on the root and x="9" on a run holding the third character, the result is x = 1, 2, 9 |
| `Positions.PushList` | usvg/src/convert/text/convert.rs:183-192 | the in-place loop leaves the array equal to the overlay of the clipped list |
| `Positions.PushLists` | usvg/src/convert/text/convert.rs:194-197 | the four in-place expansions leave the array equal to the element's overlay |
| `Positions.ResolvePositionsList` | usvg/src/convert/text/convert.rs:167-204 | the returned table has exactly one slot per character and equals the document-order traversal |
| `Rotation.FindNodeWithAttributeInnermost` | usvg/src/convert/text/convert.rs:211-212 | returns the innermost entry of the chain carrying the attribute, or none exactly when no entry carries it |
| `Rotation.TextAngles` | usvg/src/convert/text/convert.rs:209-233 | with no carrier: n zeros and the offset unchanged; with a number list R: angle i is R[offset+i], else the last of R, else 0.0, and the offset moves by n; with a non-list carrier: nothing |
| `Rotation.RotateKids` | usvg/src/convert/text/convert.rs:207-244 | the reference definition of the angles appended for a list of children: each text child's `TextAngles`, each element child's own angles from offset 0 when it declares `rotate` and from the inherited offset otherwise, the offset moving by one per element child |
| `Rotation.RotateKidsOffset` | usvg/src/convert/text/convert.rs:207-244 | the final offset is the start plus one per element child, plus the text children's length when they consume a list |
| `Rotation.NoRotateAllZeros` | usvg/src/convert/text/convert.rs:229-233 | without any `rotate` above or below, the angles are one 0.0 per character |
| `Rotation.RotateKidsLength` | usvg/src/convert/text/convert.rs:212-242 | when every `rotate` found is a number list, exactly one angle is appended per character of the subtree |
| `Rotation.RotateKidsSplit` | usvg/src/convert/text/convert.rs:234-243 | walking a list of children is walking its first j children and then the rest from the offset the first part left |
| `Rotation.ChildAngles` | usvg/src/convert/text/convert.rs:207-244 | when every `rotate` found is a number list, child j's angles sit at exactly the indexes of its code points: from the code points of the children before it, one per code point of the child |
| `Rotation.SpanCountsAsOneCharacter` | usvg/src/convert/text/convert.rs:234-242 | under rotate="1 2 3 4", the text a, then a span holding bb, then c, gets angles 1, 2, 3, 3: the span moves its parent's offset by one |
| `Rotation.RotateList.Push` | usvg/src/convert/text/convert.rs:224 | pushing appends exactly one angle at the end |
| `Rotation.PushTextAngles` | usvg/src/convert/text/convert.rs:209-233 | the text branch appends exactly the angles of `TextAngles` and returns its moved offset |
| `Rotation.ResolveRotate` | usvg/src/convert/text/convert.rs:207-244 | append-only: the list on exit is the list on entry followed by the angles of the subtree |
| `Alignment.RotationAlignsWithPositions` | usvg/src/convert/text/convert.rs:167-244 | for a `text` element under any chain of ancestors, when every `rotate` on it, below it or above it is a number list, the rotation list and the position table have the same length, the character count |
| `Alignment.ChildSlotsAlign` | usvg/src/convert/text/convert.rs:167-244 | each direct child of a `text` element gets the same index range in both lists: its position lists land from the offset of the children before it, and its angles fill exactly that many indexes from the same index |
| `Decoration.Contains` | usvg/src/convert/text/convert.rs:319-321 | true exactly when the word occurs at some index of the text |
| `Decoration.ConvTextDecoration` | usvg/src/convert/text/convert.rs:311-323 | each root flag holds exactly when the root's attribute contains the keyword; all are off when the attribute is absent |
| `Decoration.ConvTspanDecoration` | usvg/src/convert/text/convert.rs:326-344 | each run flag holds exactly when the run's attribute equals the keyword, so at most one is on |
| `Decoration.GenStyle` | usvg/src/convert/text/convert.rs:277-294 | a style exactly when the run or the root has the kind; the run's paint when the run has it, else the root's |
| `Decoration.ResolveDecoration` | usvg/src/convert/text/convert.rs:269-301 | per kind: the run's style if its flag is on, else the root's if its flag is on, else none |
| `Decoration.RootDeclaresSeveral` | usvg/src/convert/text/convert.rs:316-322 | the root value "underline line-through" turns on underline and line-through but not overline |
| `Decoration.RunAndRootCombine` | usvg/src/convert/text/convert.rs:296-300 | a run's underline under a root's line-through gives underline from the run and line-through from the root |
| `Decoration.RunWithoutKeywordInheritsRoot` | usvg/src/convert/text/convert.rs:277-300 | a run whose attribute is no exact keyword inherits every kind, with the root's style, from the root |
| `Font.ParseStyle` | usvg/src/convert/text/convert.rs:53-59 | italic and oblique exactly for those keywords, normal for everything else |
| `Font.ParseWeight` | usvg/src/convert/text/convert.rs:61-79 | always a multiple of 100 in 100..900; "100".."900" give their value, "bold" gives 700, anything else gives 400 |
| `Font.ParseStretch` | usvg/src/convert/text/convert.rs:81-93 | each of the nine widths exactly for its keywords ("narrower" with "condensed", "wider" with "expanded"), normal for everything else; narrower than normal exactly for the condensing keywords and wider exactly for the expanding ones |
| `Font.StretchLadderIncreases` | usvg/src/convert/text/convert.rs:83-91 | from ultra-condensed through normal to ultra-expanded the widths strictly increase |
| `Font.KeywordEquivalences` | usvg/src/convert/text/convert.rs:61-93 | "700" is "bold", "400" is "normal", "bolder" and "lighter" give normal, "narrower" is "condensed", "wider" is "expanded" |
| `Font.Split` | usvg/src/convert/text/convert.rs:97 | one piece more than there are separators, no piece holds the separator, and joining the pieces gives the input back |
| `Font.SplitJoin` | usvg/src/convert/text/convert.rs:97 | splitting joined separator-free pieces gives the pieces back |
| `Font.RemoveAll` | usvg/src/convert/text/convert.rs:98 | the character is gone and a string without it is unchanged |
| `Font.RemoveAllCounts` | usvg/src/convert/text/convert.rs:98 | the length drops by exactly the occurrences removed and every other character keeps its count |
| `Font.RemoveAllAppend` | usvg/src/convert/text/convert.rs:98 | removing from a concatenation is removing from each part, so the kept characters stay in order |
| `Font.ParseFamily` | usvg/src/convert/text/convert.rs:100-107 | each of the five generic markers exactly for its keyword; a named family, carrying the name unchanged, for everything else |
| `Font.Families` | usvg/src/convert/text/convert.rs:95-110 | one family per comma-separated piece |
| `Font.FamilyList` | usvg/src/convert/text/convert.rs:95-110 | entry i is piece i of the comma split, with every `'` removed and the generic keywords mapped, in declared order |
| `Font.ResolveFont` | usvg/src/convert/text/convert.rs:50-152 | no font when the size is not greater than 0.0 (absent, zero, negative or NaN); otherwise a font exactly when the lookup succeeds, carrying the size, letter spacing and word spacing |
| `Anchor.ResolveTextAnchor` | usvg/src/convert/text/convert.rs:154-162 | middle and end exactly for those keywords; start for "start", an absent attribute and anything else |

## Left out

- `src/backend_cairo/mask.rs` is not modelled. It is a sequence of cairo calls into rendering code outside this model.
- Font matching and loading (`select_best_match`, `handle.load`) are foreign calls. They are the `lookup` parameter of `ResolveFont`, and either one failing gives no font.
- Font.ResolveFont: the font metrics are not modelled. The returned font carries no units per em, ascent, or underline position and thickness, because their scaling by `size / units_per_em` is floating-point arithmetic.
- The fill and stroke conversion inside `gen_style` is external paint resolution. It is the pair of function parameters `fillOf` and `strokeOf`.
- The `warn!` diagnostics for unresolved `bolder`/`lighter`, an unmatched family and a failed load are logging side channels.
- The `debug_assert!` that the decoration root is a `text` element is not modelled. `ConvTextDecoration` accepts the attributes of any node.
- f64 values are opaque bit patterns that are only copied. `IsPositive` is the one comparison made on them, and a NaN size fails it (`IsNaN`).
- svgdom's typed attribute getters are modelled as reads of a tagged value, with the default when the value is absent or of another kind. Attribute parsing is not part of this model.
- `usize` overflow of the offsets is not modelled. Offsets are unbounded naturals.
