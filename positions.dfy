/**
  `resolve_positions_list`: the per-character x/y/dx/dy table of a text
  element, indexed by code point in document order.
 */
module Positions {
  import opened Wrappers
  import opened Dom

  /** Four independent optional offsets of one character. */
  datatype CharacterPosition = CharacterPosition(x: Option<F64>, y: Option<F64>, dx: Option<F64>, dy: Option<F64>)

  const UNSET: CharacterPosition := CharacterPosition(None, None, None, None)

  /** The four position attributes, one per field of a CharacterPosition. */
  datatype Axis = AxisX | AxisY | AxisDx | AxisDy

  function AxisAttr(axis: Axis): AId {
    match axis
    case AxisX => X
    case AxisY => Y
    case AxisDx => Dx
    case AxisDy => Dy
  }

  function Get(p: CharacterPosition, axis: Axis): Option<F64> {
    match axis
    case AxisX => p.x
    case AxisY => p.y
    case AxisDx => p.dx
    case AxisDy => p.dy
  }

  /** `p` with the field of `axis` set to `Some(v)`. */
  function With(p: CharacterPosition, axis: Axis, v: F64): (r: CharacterPosition)
    ensures Get(r, axis) == Some(v)
    ensures forall b :: b != axis ==> Get(r, b) == Get(p, b)
  {
    match axis
    case AxisX => p.(x := Some(v))
    case AxisY => p.(y := Some(v))
    case AxisDx => p.(dx := Some(v))
    case AxisDy => p.(dy := Some(v))
  }

  function Min(a: nat, b: nat): nat {
    if a <= b then a else b
  }

  /** A list of `n` slots with every axis unset. */
  function Unset(n: nat): (r: seq<CharacterPosition>)
    ensures |r| == n && forall i :: 0 <= i < n ==> r[i] == UNSET
  {
    seq(n, _ => UNSET)
  }

  /** Writes `vals[j]` into slot `o + j` on `axis`, for each `j` in turn. */
  function Overlay(list: seq<CharacterPosition>, axis: Axis, o: nat, vals: seq<F64>): (r: seq<CharacterPosition>)
    requires o + |vals| <= |list|
    ensures |r| == |list|
    ensures forall i :: 0 <= i < |list| ==>
      r[i] == if o <= i < o + |vals| then With(list[i], axis, vals[i - o]) else list[i]
    decreases |vals|
  {
    if vals == [] then list
    else Overlay(list[o := With(list[o], axis, vals[0])], axis, o + 1, vals[1..])
  }

  /**
    What slot `i` holds on `axis` after an element whose subtree has `count`
    characters, visited at offset `o`, has laid its declared list over
    `prior`: the declared value inside the overlaid range, `prior` elsewhere
    and when the element declares no list for that axis.
   */
  function Declared(attrs: Attrs, axis: Axis, count: nat, o: nat, i: nat, prior: Option<F64>): Option<F64> {
    match GetNumberList(attrs, AxisAttr(axis))
    case Some(nums) => if o <= i < o + Min(|nums|, count) then Some(nums[i - o]) else prior
    case None => prior
  }

  /** One `push_list!` expansion: the element's list for `axis`, clipped to its own character count. */
  function OverlayAxis(list: seq<CharacterPosition>, offset: nat, attrs: Attrs, count: nat, axis: Axis): (r: seq<CharacterPosition>)
    requires offset + count <= |list|
    ensures |r| == |list|
    ensures forall i, b :: 0 <= i < |list| ==>
      Get(r[i], b) == if b == axis then Declared(attrs, axis, count, offset, i, Get(list[i], axis)) else Get(list[i], b)
  {
    match GetNumberList(attrs, AxisAttr(axis))
    case Some(nums) => Overlay(list, axis, offset, nums[..Min(|nums|, count)])
    case None => list
  }

  /**
    The four overlays of one element visited at `offset`: on every axis,
    exactly the slots `offset .. offset + min(|L|, count)` take the declared
    list `L`, and every other slot and every axis without a list keeps its
    value.
   */
  function OverlayElement(list: seq<CharacterPosition>, offset: nat, e: Node): (r: seq<CharacterPosition>)
    requires e.Element? && offset + CharCount(e) <= |list|
    ensures |r| == |list|
    ensures forall i, axis :: 0 <= i < |list| ==>
      Get(r[i], axis) == Declared(e.attrs, axis, CharCount(e), offset, i, Get(list[i], axis))
  {
    var count := CharCount(e);
    var l1 := OverlayAxis(list, offset, e.attrs, count, AxisX);
    var l2 := OverlayAxis(l1, offset, e.attrs, count, AxisY);
    var l3 := OverlayAxis(l2, offset, e.attrs, count, AxisDx);
    OverlayAxis(l3, offset, e.attrs, count, AxisDy)
  }

  /**
    Every element of `ds`, reached at `offset` plus the text before it, has
    its whole subtree inside a list of `n` slots.
   */
  ghost predicate InBounds(n: nat, offset: nat, ds: seq<Node>) {
    forall k :: 0 <= k < |ds| && ds[k].Element? ==> offset + TextCount(ds[..k]) + CharCount(ds[k]) <= n
  }

  lemma InBoundsTail(n: nat, offset: nat, ds: seq<Node>)
    requires ds != [] && InBounds(n, offset, ds)
    ensures ds[0].Element? ==> offset + CharCount(ds[0]) <= n
    ensures InBounds(n, offset + TextLen(ds[0]), ds[1..])
    ensures TextCount(ds) == TextLen(ds[0]) + TextCount(ds[1..])
  {
    assert ds[..0] == [];
    assert TextCount([ds[0]]) == TextCount([]) + TextLen(ds[0]);
    forall k | 0 <= k < |ds[1..]| && ds[1..][k].Element?
      ensures offset + TextLen(ds[0]) + TextCount(ds[1..][..k]) + CharCount(ds[1..][k]) <= n
    {
      assert ds[..k + 1] == [ds[0]] + ds[1..][..k];
      TextCountAppend([ds[0]], ds[1..][..k]);
    }
    assert ds == [ds[0]] + ds[1..];
    TextCountAppend([ds[0]], ds[1..]);
  }

  /** The document-order listing of a node is in bounds of its own character count. */
  lemma DescendantsInBounds(root: Node)
    ensures InBounds(CharCount(root), 0, Descendants(root))
  {
    var ds := Descendants(root);
    forall k | 0 <= k < |ds| && ds[k].Element?
      ensures 0 + TextCount(ds[..k]) + CharCount(ds[k]) <= CharCount(root)
    {
      DescendantFits(root, k);
    }
  }

  /**
    The traversal of `resolve_positions_list` over `ds` from `offset`:
    an element lays its lists over the table, a text leaf advances the
    offset by its code points. Returns the table and the final offset,
    which moves by exactly the text of `ds`.
   */
  function Walk(list: seq<CharacterPosition>, offset: nat, ds: seq<Node>): (r: (seq<CharacterPosition>, nat))
    requires InBounds(|list|, offset, ds)
    ensures |r.0| == |list|
    ensures r.1 == offset + TextCount(ds)
    decreases |ds|
  {
    if ds == [] then (list, offset)
    else
      InBoundsTail(|list|, offset, ds);
      var child := ds[0];
      if child.Element? then Walk(OverlayElement(list, offset, child), offset, ds[1..])
      else Walk(list, offset + |child.text|, ds[1..])
  }

  /** One step of the traversal, unfolded for the loop of ResolvePositionsList. */
  lemma WalkStep(list: seq<CharacterPosition>, offset: nat, ds: seq<Node>)
    requires ds != [] && InBounds(|list|, offset, ds)
    ensures ds[0].Element? ==> offset + CharCount(ds[0]) <= |list|
    ensures ds[0].Element? ==> InBounds(|list|, offset, ds[1..])
    ensures ds[0].Element? ==> Walk(list, offset, ds) == Walk(OverlayElement(list, offset, ds[0]), offset, ds[1..])
    ensures ds[0].Text? ==> InBounds(|list|, offset + |ds[0].text|, ds[1..])
    ensures ds[0].Text? ==> Walk(list, offset, ds) == Walk(list, offset + |ds[0].text|, ds[1..])
  {
    InBoundsTail(|list|, offset, ds);
  }

  /** The table `resolve_positions_list` returns for `textElem`. */
  function ResolvedPositions(textElem: Node): (r: seq<CharacterPosition>)
    ensures |r| == CharCount(textElem)
  {
    DescendantsInBounds(textElem);
    Walk(Unset(CharCount(textElem)), 0, Descendants(textElem)).0
  }

  /** After the whole traversal the running offset is exactly the character count. */
  lemma WalkReachesTotal(textElem: Node)
    ensures InBounds(CharCount(textElem), 0, Descendants(textElem))
    ensures Walk(Unset(CharCount(textElem)), 0, Descendants(textElem)).1 == CharCount(textElem)
  {
    DescendantsInBounds(textElem);
    DescendantsTextCount(textElem);
  }

  /** The table after visiting node `n` at `offset`. */
  function Visit(list: seq<CharacterPosition>, offset: nat, n: Node): (r: seq<CharacterPosition>)
    requires n.Element? ==> offset + CharCount(n) <= |list|
    ensures |r| == |list|
  {
    if n.Element? then OverlayElement(list, offset, n) else list
  }

  /** The traversal visits the first node, then goes on from the moved offset. */
  lemma WalkVisit(list: seq<CharacterPosition>, offset: nat, ds: seq<Node>)
    requires ds != [] && InBounds(|list|, offset, ds)
    ensures ds[0].Element? ==> offset + CharCount(ds[0]) <= |list|
    ensures InBounds(|list|, offset + TextLen(ds[0]), ds[1..])
    ensures Walk(list, offset, ds) == Walk(Visit(list, offset, ds[0]), offset + TextLen(ds[0]), ds[1..])
  {
    WalkStep(list, offset, ds);
  }

  /** The running offset at which the traversal of `ds` from `offset` visits `ds[k]`. */
  function OffsetAt(offset: nat, ds: seq<Node>, k: nat): nat
    requires k <= |ds|
  {
    offset + TextCount(ds[..k])
  }

  lemma OffsetAtTail(offset: nat, ds: seq<Node>, k: nat)
    requires 0 < k <= |ds|
    ensures OffsetAt(offset, ds, k) == OffsetAt(offset + TextLen(ds[0]), ds[1..], k - 1)
  {
    assert ds[..k] == [ds[0]] + ds[1..][..k - 1];
    TextCountAppend([ds[0]], ds[1..][..k - 1]);
    assert TextCount([ds[0]]) == TextCount([]) + TextLen(ds[0]);
  }

  /** Element `e`, visited at offset `o`, declares a value for slot `i` on `axis`. */
  predicate Covers(e: Node, o: nat, axis: Axis, i: nat) {
    e.Element? &&
    match GetNumberList(e.attrs, AxisAttr(axis))
    case Some(nums) => o <= i < o + Min(|nums|, CharCount(e))
    case None => false
  }

  /** The value element `e`, visited at `o`, declares for slot `i`. */
  function CoveredValue(e: Node, o: nat, axis: Axis, i: nat): F64
    requires Covers(e, o, axis, i)
  {
    GetNumberList(e.attrs, AxisAttr(axis)).value[i - o]
  }

  /** A slot no element of `ds` covers on `axis` keeps its value there. */
  lemma {:induction false} WalkUncovered(list: seq<CharacterPosition>, offset: nat, ds: seq<Node>, axis: Axis, i: nat)
    requires InBounds(|list|, offset, ds) && i < |list|
    requires forall k :: 0 <= k < |ds| ==> !Covers(ds[k], OffsetAt(offset, ds, k), axis, i)
    ensures Get(Walk(list, offset, ds).0[i], axis) == Get(list[i], axis)
    decreases |ds|
  {
    if ds != [] {
      InBoundsTail(|list|, offset, ds);
      var next := offset + TextLen(ds[0]);
      assert Get(Walk(Visit(list, offset, ds[0]), next, ds[1..]).0[i], axis) == Get(list[i], axis) by {
        NoLaterCoverTail(offset, ds, axis, i, 0);
        assert ds[..0] == [];
        VisitUncovered(list, offset, ds[0], axis, i);
        WalkUncovered(Visit(list, offset, ds[0]), next, ds[1..], axis, i);
      }
      WalkValueAfterFirst(list, offset, ds, axis, i, Get(list[i], axis));
    }
  }

  /** Visiting a node that does not cover slot `i` on `axis` leaves it there. */
  lemma VisitUncovered(list: seq<CharacterPosition>, offset: nat, n: Node, axis: Axis, i: nat)
    requires n.Element? ==> offset + CharCount(n) <= |list|
    requires i < |list| && !Covers(n, offset, axis, i)
    ensures Get(Visit(list, offset, n)[i], axis) == Get(list[i], axis)
  {
  }

  /** The first element of `ds` covers the slot and nothing after it does. */
  lemma LastWriterFirst(list: seq<CharacterPosition>, offset: nat, ds: seq<Node>, axis: Axis, i: nat)
    requires InBounds(|list|, offset, ds) && i < |list| && ds != []
    requires Covers(ds[0], offset, axis, i)
    requires forall k :: 0 <= k < |ds[1..]| ==> !Covers(ds[1..][k], OffsetAt(offset, ds[1..], k), axis, i)
    ensures Get(Walk(list, offset, ds).0[i], axis) == Some(CoveredValue(ds[0], offset, axis, i))
  {
    WalkStep(list, offset, ds);
    var after := OverlayElement(list, offset, ds[0]);
    assert Get(after[i], axis) == Some(CoveredValue(ds[0], offset, axis, i));
    WalkUncovered(after, offset, ds[1..], axis, i);
  }

  /**
    Last writer wins: a slot covered on `axis` by `ds[k]` and by no later
    element ends up with the value `ds[k]` declares for it. As an element
    is visited before its descendants, a nested run overrides its
    ancestors on the slots it covers.
   */
  lemma {:induction false} WalkLastWriter(list: seq<CharacterPosition>, offset: nat, ds: seq<Node>, axis: Axis, i: nat, k: nat)
    requires InBounds(|list|, offset, ds) && i < |list| && k < |ds|
    requires Covers(ds[k], OffsetAt(offset, ds, k), axis, i)
    requires forall k' :: k < k' < |ds| ==> !Covers(ds[k'], OffsetAt(offset, ds, k'), axis, i)
    ensures Get(Walk(list, offset, ds).0[i], axis) == Some(CoveredValue(ds[k], OffsetAt(offset, ds, k), axis, i))
    decreases |ds|
  {
    NoLaterCoverTail(offset, ds, axis, i, k);
    if k == 0 {
      assert ds[..0] == [];
      LastWriterFirst(list, offset, ds, axis, i);
    } else {
      var next := offset + TextLen(ds[0]);
      var v := Some(CoveredValue(ds[k], OffsetAt(offset, ds, k), axis, i));
      CoveredValueTail(offset, ds, axis, i, k);
      assert Some(CoveredValue(ds[1..][k - 1], OffsetAt(next, ds[1..], k - 1), axis, i)) == v;
      WalkVisit(list, offset, ds);
      WalkLastWriter(Visit(list, offset, ds[0]), next, ds[1..], axis, i, k - 1);
      WalkValueAfterFirst(list, offset, ds, axis, i, v);
    }
  }

  /** The element `ds[k]` covers the same slot with the same value when counted from `ds[1..]`. */
  lemma CoveredValueTail(offset: nat, ds: seq<Node>, axis: Axis, i: nat, k: nat)
    requires 0 < k < |ds| && Covers(ds[k], OffsetAt(offset, ds, k), axis, i)
    ensures Covers(ds[1..][k - 1], OffsetAt(offset + TextLen(ds[0]), ds[1..], k - 1), axis, i)
    ensures CoveredValue(ds[1..][k - 1], OffsetAt(offset + TextLen(ds[0]), ds[1..], k - 1), axis, i)
         == CoveredValue(ds[k], OffsetAt(offset, ds, k), axis, i)
  {
    OffsetAtTail(offset, ds, k);
    assert ds[1..][k - 1] == ds[k];
  }

  /** No element after `ds[k]` covering the slot carries over to the traversal of `ds[1..]`. */
  lemma NoLaterCoverTail(offset: nat, ds: seq<Node>, axis: Axis, i: nat, k: nat)
    requires k < |ds|
    requires forall k' :: k < k' < |ds| ==> !Covers(ds[k'], OffsetAt(offset, ds, k'), axis, i)
    ensures forall k' :: k <= k' < |ds| - 1 ==> !Covers(ds[1..][k'], OffsetAt(offset + TextLen(ds[0]), ds[1..], k'), axis, i)
  {
    forall k' | k <= k' < |ds| - 1 ensures !Covers(ds[1..][k'], OffsetAt(offset + TextLen(ds[0]), ds[1..], k'), axis, i) {
      OffsetAtTail(offset, ds, k' + 1);
    }
  }

  /** A value the traversal of `ds[1..]` leaves in slot `i` is what the traversal of `ds` leaves there. */
  lemma WalkValueAfterFirst(list: seq<CharacterPosition>, offset: nat, ds: seq<Node>, axis: Axis, i: nat, v: Option<F64>)
    requires ds != [] && InBounds(|list|, offset, ds) && i < |list|
    requires ds[0].Element? ==> offset + CharCount(ds[0]) <= |list|
    requires InBounds(|list|, offset + TextLen(ds[0]), ds[1..])
    requires Get(Walk(Visit(list, offset, ds[0]), offset + TextLen(ds[0]), ds[1..]).0[i], axis) == v
    ensures Get(Walk(list, offset, ds).0[i], axis) == v
  {
    WalkVisit(list, offset, ds);
  }

  /**
    Over a whole `text` element: slot `i` gets the value declared by the
    last node, in document order, whose list reaches it.
   */
  lemma LastDeclarationWins(textElem: Node, axis: Axis, i: nat, k: nat)
    requires i < CharCount(textElem) && k < |Descendants(textElem)|
    requires Covers(Descendants(textElem)[k], TextCount(Descendants(textElem)[..k]), axis, i)
    requires forall k' :: k < k' < |Descendants(textElem)| ==>
      !Covers(Descendants(textElem)[k'], TextCount(Descendants(textElem)[..k']), axis, i)
    ensures Get(ResolvedPositions(textElem)[i], axis) ==
      Some(CoveredValue(Descendants(textElem)[k], TextCount(Descendants(textElem)[..k]), axis, i))
  {
    DescendantsInBounds(textElem);
    var ds := Descendants(textElem);
    forall k' | k < k' < |ds| ensures !Covers(ds[k'], OffsetAt(0, ds, k'), axis, i) {
      assert OffsetAt(0, ds, k') == TextCount(ds[..k']);
    }
    WalkLastWriter(Unset(CharCount(textElem)), 0, ds, axis, i, k);
  }

  /** A text element none of whose nodes declares `axis` resolves to a table with that axis unset everywhere. */
  lemma UndeclaredAxisUnset(textElem: Node, axis: Axis)
    requires forall k :: 0 <= k < |Descendants(textElem)| && Descendants(textElem)[k].Element? ==>
      AxisAttr(axis) !in Descendants(textElem)[k].attrs
    ensures forall i :: 0 <= i < |ResolvedPositions(textElem)| ==> Get(ResolvedPositions(textElem)[i], axis) == None
  {
    DescendantsInBounds(textElem);
    var ds := Descendants(textElem);
    forall i | 0 <= i < CharCount(textElem) ensures Get(ResolvedPositions(textElem)[i], axis) == None {
      WalkUncovered(Unset(CharCount(textElem)), 0, ds, axis, i);
    }
  }

  /**
    The root's list lands at offset 0 and a nested run overrides it on its
    own characters: `<text x="1 2 3">ab<tspan x="9">c</tspan></text>` gets
    x = 1, 2, 9.
   */
  lemma NestedRunOverridesRoot()
    ensures var span := Element(map[X := NumberList([F64(9)])], [Text("c")]);
      var text := Element(map[X := NumberList([F64(1), F64(2), F64(3)])], [Text("ab"), span]);
      ResolvedPositions(text) == [UNSET.(x := Some(F64(1))), UNSET.(x := Some(F64(2))), UNSET.(x := Some(F64(9)))]
  {
    var span := Element(map[X := NumberList([F64(9)])], [Text("c")]);
    var text := Element(map[X := NumberList([F64(1), F64(2), F64(3)])], [Text("ab"), span]);
    ExampleShape(text, span);
    var ds := Descendants(text);
    DescendantsInBounds(text);
    var l0 := Unset(3);
    WalkVisit(l0, 0, ds);
    var l1 := OverlayElement(l0, 0, text);
    WalkVisit(l1, 0, ds[1..]);
    assert ds[1..][1..] == [span, Text("c")];
    WalkVisit(l1, 2, [span, Text("c")]);
    var l2 := OverlayElement(l1, 2, span);
    WalkVisit(l2, 2, [Text("c")]);
    assert [Text("c")][1..] == [];
    assert ResolvedPositions(text) == l2;
    ExampleSlots(l0, l1, l2, text, span);
  }

  /** The listing and the character count of the example. */
  lemma ExampleShape(text: Node, span: Node)
    requires span == Element(map[X := NumberList([F64(9)])], [Text("c")])
    requires text == Element(map[X := NumberList([F64(1), F64(2), F64(3)])], [Text("ab"), span])
    ensures Descendants(text) == [text, Text("ab"), span, Text("c")]
    ensures CharCount(span) == 1 && CharCount(text) == 3
  {
    assert Descendants(span) == [span, Text("c")] by {
      assert DescendantsOf([Text("c")]) == [Text("c")] + DescendantsOf([]);
    }
    assert DescendantsOf([span]) == [span, Text("c")] + DescendantsOf([]);
    assert DescendantsOf([Text("ab"), span]) == [Text("ab")] + DescendantsOf([span]);
    assert CharCount(span) == 1 by {
      assert CharCountOf([Text("c")]) == 1 + CharCountOf([]);
    }
    assert CharCountOf([span]) == 1 + CharCountOf([]);
    assert [Text("ab"), span][1..] == [span];
    assert CharCountOf([Text("ab"), span]) == CharCount(Text("ab")) + CharCountOf([span]);
  }

  /** The slots of the example after its two overlays. */
  lemma ExampleSlots(l0: seq<CharacterPosition>, l1: seq<CharacterPosition>, l2: seq<CharacterPosition>, text: Node, span: Node)
    requires span == Element(map[X := NumberList([F64(9)])], [Text("c")]) && CharCount(span) == 1
    requires text == Element(map[X := NumberList([F64(1), F64(2), F64(3)])], [Text("ab"), span]) && CharCount(text) == 3
    requires l0 == Unset(3) && l1 == OverlayElement(l0, 0, text) && l2 == OverlayElement(l1, 2, span)
    ensures l2 == [UNSET.(x := Some(F64(1))), UNSET.(x := Some(F64(2))), UNSET.(x := Some(F64(9)))]
  {
    var want := [UNSET.(x := Some(F64(1))), UNSET.(x := Some(F64(2))), UNSET.(x := Some(F64(9)))];
    forall i | 0 <= i < 3 ensures l2[i] == want[i] {
      forall b ensures Get(l2[i], b) == Get(want[i], b) {
        assert Get(l1[i], b) == Declared(text.attrs, b, 3, 0, i, None);
        assert Get(l2[i], b) == Declared(span.attrs, b, 1, 2, i, Get(l1[i], b));
      }
      SameAxesSame(l2[i], want[i]);
    }
  }

  /** Two positions that agree on every axis are equal. */
  lemma SameAxesSame(p: CharacterPosition, q: CharacterPosition)
    requires forall b :: Get(p, b) == Get(q, b)
    ensures p == q
  {
    assert Get(p, AxisX) == Get(q, AxisX) && Get(p, AxisY) == Get(q, AxisY);
    assert Get(p, AxisDx) == Get(q, AxisDx) && Get(p, AxisDy) == Get(q, AxisDy);
  }

  /** One `push_list!` expansion, in place: copies the clipped list into the table. */
  method PushList(list: array<CharacterPosition>, offset: nat, attrs: Attrs, total: nat, axis: Axis)
    requires offset + total <= list.Length
    modifies list
    ensures list[..] == OverlayAxis(old(list[..]), offset, attrs, total, axis)
  {
    match GetNumberList(attrs, AxisAttr(axis)) {
      case Some(nums) =>
        var len := Min(|nums|, total);
        for i := 0 to len
          invariant forall k :: 0 <= k < list.Length ==>
            list[k] == if offset <= k < offset + i then With(old(list[k]), axis, nums[k - offset]) else old(list[k])
        {
          list[offset + i] := With(list[offset + i], axis, nums[i]);
        }
      case None =>
    }
  }

  /** The four `push_list!` expansions of one element, in place. */
  method PushLists(list: array<CharacterPosition>, offset: nat, e: Node, count: nat)
    requires e.Element? && count == CharCount(e) && offset + count <= list.Length
    modifies list
    ensures list[..] == OverlayElement(old(list[..]), offset, e)
  {
    PushList(list, offset, e.attrs, count, AxisX);
    PushList(list, offset, e.attrs, count, AxisY);
    PushList(list, offset, e.attrs, count, AxisDx);
    PushList(list, offset, e.attrs, count, AxisDy);
  }

  /**
    `resolve_positions_list`: allocates one unset slot per code point, then
    walks the descendants in document order, overlaying each element's
    x/y/dx/dy lists at the running offset and advancing the offset over text.
   */
  method ResolvePositionsList(textElem: Node) returns (list: seq<CharacterPosition>)
    ensures |list| == CharCount(textElem)
    ensures list == ResolvedPositions(textElem)
  {
    var total := CountChars(textElem);
    var a := new CharacterPosition[total](_ => UNSET);
    var ds := Descendants(textElem);
    DescendantsInBounds(textElem);
    ghost var init := a[..];
    assert init == Unset(total);
    var offset: nat := 0;
    var rest := ds;
    while rest != []
      invariant a.Length == total
      invariant InBounds(total, offset, rest)
      invariant Walk(a[..], offset, rest) == Walk(init, 0, ds)
      decreases |rest|
    {
      WalkStep(a[..], offset, rest);
      var child := rest[0];
      if child.Element? {
        var count := CountChars(child);
        PushLists(a, offset, child, count);
      } else {
        offset := offset + |child.text|;
      }
      rest := rest[1..];
    }
    list := a[..];
  }
}
