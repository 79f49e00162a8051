/**
  `resolve_rotate`: the per-character rotation angles of a text element,
  appended to a list in document order.
 */
module Rotation {
  import opened Wrappers
  import opened Dom

  /**
    The attributes of the first node of `chain` that has attribute `id`.
    `chain` lists a node's ancestors innermost first, up to the document
    root: the search does not stop at the `text` element.
   */
  function FindNodeWithAttribute(chain: seq<Attrs>, id: AId): Option<Attrs> {
    if chain == [] then None
    else if id in chain[0] then Some(chain[0])
    else FindNodeWithAttribute(chain[1..], id)
  }

  /**
    The search finds nothing exactly when no entry carries the attribute,
    and otherwise the innermost entry that carries it.
   */
  lemma {:induction false} FindNodeWithAttributeInnermost(chain: seq<Attrs>, id: AId)
    ensures var r := FindNodeWithAttribute(chain, id);
      && (r.None? <==> forall j :: 0 <= j < |chain| ==> id !in chain[j])
      && (r.Some? ==> exists j :: 0 <= j < |chain| && chain[j] == r.value && id in chain[j] &&
                                  forall k :: 0 <= k < j ==> id !in chain[k])
  {
    if chain != [] && id !in chain[0] {
      FindNodeWithAttributeInnermost(chain[1..], id);
      assert forall j :: 0 <= j < |chain[1..]| ==> chain[1..][j] == chain[j + 1];
      var r := FindNodeWithAttribute(chain, id);
      if r.Some? {
        var j :| 0 <= j < |chain[1..]| && chain[1..][j] == r.value && id in chain[1..][j] &&
                 forall k :: 0 <= k < j ==> id !in chain[1..][k];
        assert chain[j + 1] == r.value && forall k :: 0 <= k < j + 1 ==> id !in chain[k];
      }
    }
  }

  /** Angle `j` of a declared list: in bounds, else the last angle, else 0.0. */
  function AngleAt(angles: seq<F64>, j: nat): F64 {
    if j < |angles| then angles[j]
    else if |angles| > 0 then angles[|angles| - 1]
    else ZERO
  }

  /**
    What a text leaf of `n` characters contributes, given the nearest
    `rotate` carrier found above it: the angles from `offset` on (and the
    offset moved by `n`) when the carrier holds a number list, `n` zeros
    when there is no carrier, and nothing at all when the carrier's value is
    not a number list. Returns the angles and the new offset.
   */
  function TextAngles(found: Option<Attrs>, offset: nat, n: nat): (r: (seq<F64>, nat))
    ensures found.None? ==> r.0 == seq(n, _ => ZERO) && r.1 == offset
    ensures found.Some? && GetNumberList(found.value, Rotate).Some? ==>
      var angles := GetNumberList(found.value, Rotate).value;
      |r.0| == n && r.1 == offset + n &&
      forall i :: 0 <= i < n ==> r.0[i] == AngleAt(angles, offset + i)
    ensures found.Some? && GetNumberList(found.value, Rotate).None? ==> r == ([], offset)
  {
    match found
    case None => (seq(n, _ => ZERO), offset)
    case Some(p) =>
      match GetNumberList(p, Rotate)
      case Some(angles) =>
        var next: nat := offset + n;
        (seq(n, i requires 0 <= i < n => AngleAt(angles, offset + i)), next)
      case None => ([], offset)
  }

  /** Number of element children in `cs`. */
  function ElementChildren(cs: seq<Node>): nat {
    if cs == [] then 0 else (if cs[0].Element? then 1 else 0) + ElementChildren(cs[1..])
  }

  /** Code points of the text children in `cs` (not of deeper text). */
  function TextChildren(cs: seq<Node>): nat {
    if cs == [] then 0 else TextLen(cs[0]) + TextChildren(cs[1..])
  }

  /** True when the nearest `rotate` carrier of `chain` holds a number list. */
  predicate ConsumesList(chain: seq<Attrs>) {
    var found := FindNodeWithAttribute(chain, Rotate);
    found.Some? && GetNumberList(found.value, Rotate).Some?
  }

  /**
    The angles `resolve_rotate` appends for the children `cs` of a node whose
    ancestors-or-self are `chain`, starting at `offset`, and the final value
    of that offset. The offset moves by exactly one per element child and by
    the text children's code points when they consume a number list.
   */
  function RotateKids(cs: seq<Node>, chain: seq<Attrs>, offset: nat): (seq<F64>, nat)
    decreases cs
  {
    if cs == [] then ([], offset)
    else
      var child := cs[0];
      var (out, next) :=
        match child
        case Text(t) => TextAngles(FindNodeWithAttribute(chain, Rotate), offset, |t|)
        case Element(attrs, children) =>
          var sub := if HasAttribute(attrs, Rotate) then 0 else offset;
          (RotateKids(children, [attrs] + chain, sub).0, offset + 1);
      var rest := RotateKids(cs[1..], chain, next);
      (out + rest.0, rest.1)
  }

  /**
    The offset moves by exactly one per element child, whatever the child
    holds, and by the text children's length when they consume a list.
   */
  lemma {:induction false} RotateKidsOffset(cs: seq<Node>, chain: seq<Attrs>, offset: nat)
    ensures RotateKids(cs, chain, offset).1 == offset + ElementChildren(cs) + (if ConsumesList(chain) then TextChildren(cs) else 0)
    decreases cs
  {
    if cs != [] {
      var next := if cs[0].Element? then offset + 1 else TextAngles(FindNodeWithAttribute(chain, Rotate), offset, TextLen(cs[0])).1;
      RotateKidsOffset(cs[1..], chain, next);
    }
  }

  /** The angles `resolve_rotate(parent, offset, list)` appends, `above` being the ancestors of `parent`. */
  function RotateOf(parent: Node, above: seq<Attrs>, offset: nat): seq<F64>
    requires parent.Element?
  {
    RotateKids(parent.children, [parent.attrs] + above, offset).0
  }

  /** No node of `cs` or below it carries `rotate`. */
  predicate NoRotate(cs: seq<Node>) decreases cs {
    forall i :: 0 <= i < |cs| ==> match cs[i]
      case Text(_) => true
      case Element(attrs, children) => Rotate !in attrs && NoRotate(children)
  }

  /** Every `rotate` carried in `cs` or below it is a number list. */
  predicate RotateListsBelow(cs: seq<Node>) decreases cs {
    forall i :: 0 <= i < |cs| ==> match cs[i]
      case Text(_) => true
      case Element(attrs, children) =>
        (Rotate in attrs ==> attrs[Rotate].NumberList?) && RotateListsBelow(children)
  }

  /** Every `rotate` carried in `chain` is a number list. */
  predicate RotateListsAbove(chain: seq<Attrs>) {
    forall j :: 0 <= j < |chain| && Rotate in chain[j] ==> chain[j][Rotate].NumberList?
  }

  /** Without any `rotate` above or below, every character gets the angle 0.0. */
  lemma {:induction false} NoRotateAllZeros(cs: seq<Node>, chain: seq<Attrs>, offset: nat)
    requires forall j :: 0 <= j < |chain| ==> Rotate !in chain[j]
    requires NoRotate(cs)
    ensures RotateKids(cs, chain, offset).0 == seq(CharCountOf(cs), _ => ZERO)
    decreases cs
  {
    if cs != [] {
      var child := cs[0];
      assert NoRotate(cs[1..]) by {
        forall i | 0 <= i < |cs[1..]| ensures cs[1..][i] == cs[i + 1] { }
      }
      var next := if child.Text? then offset else offset + 1;
      NoRotateAllZeros(cs[1..], chain, next);
      match child
      case Text(t) =>
        FindNodeWithAttributeInnermost(chain, Rotate);
      case Element(attrs, children) =>
        assert NoRotate(children) && Rotate !in attrs;
        forall j | 0 <= j < |[attrs] + chain| ensures Rotate !in ([attrs] + chain)[j] {
          if j > 0 { assert ([attrs] + chain)[j] == chain[j - 1]; }
        }
        NoRotateAllZeros(children, [attrs] + chain, offset);
    }
  }

  /**
    When every `rotate` found is a number list, the angles line up with the
    characters: exactly one angle per code point.
   */
  lemma {:induction false} RotateKidsLength(cs: seq<Node>, chain: seq<Attrs>, offset: nat)
    requires RotateListsAbove(chain) && RotateListsBelow(cs)
    ensures |RotateKids(cs, chain, offset).0| == CharCountOf(cs)
    decreases cs
  {
    if cs != [] {
      var child := cs[0];
      assert RotateListsBelow(cs[1..]) by {
        forall i | 0 <= i < |cs[1..]| ensures cs[1..][i] == cs[i + 1] { }
      }
      match child
      case Text(t) =>
        var found := FindNodeWithAttribute(chain, Rotate);
        FindNodeWithAttributeInnermost(chain, Rotate);
        assert found.Some? ==> GetNumberList(found.value, Rotate).Some?;
        RotateKidsLength(cs[1..], chain, TextAngles(found, offset, |t|).1);
      case Element(attrs, children) =>
        assert RotateListsBelow(children);
        assert RotateListsAbove([attrs] + chain) by {
          forall j | 0 <= j < |[attrs] + chain| && Rotate in ([attrs] + chain)[j]
            ensures ([attrs] + chain)[j][Rotate].NumberList?
          {
            if j > 0 { assert ([attrs] + chain)[j] == chain[j - 1]; }
          }
        }
        RotateKidsLength(children, [attrs] + chain, if Rotate in attrs then 0 else offset);
        RotateKidsLength(cs[1..], chain, offset + 1);
    }
  }

  /**
    The walk over `cs` is the walk over its first `j` children followed by
    the walk over the rest, started from the offset the first part left.
   */
  lemma {:induction false} RotateKidsSplit(cs: seq<Node>, chain: seq<Attrs>, offset: nat, j: nat)
    requires j <= |cs|
    ensures var front := RotateKids(cs[..j], chain, offset);
      var back := RotateKids(cs[j..], chain, front.1);
      RotateKids(cs, chain, offset) == (front.0 + back.0, back.1)
    decreases j
  {
    if j == 0 {
      assert cs[..0] == [] && cs[0..] == cs;
      assert [] + RotateKids(cs, chain, offset).0 == RotateKids(cs, chain, offset).0;
    } else {
      var child := cs[0];
      var next := if child.Element? then offset + 1 else TextAngles(FindNodeWithAttribute(chain, Rotate), offset, TextLen(child)).1;
      var out := RotateKids([child], chain, offset).0;
      var own := match child
        case Text(t) => TextAngles(FindNodeWithAttribute(chain, Rotate), offset, |t|).0
        case Element(attrs, children) =>
          RotateKids(children, [attrs] + chain, if HasAttribute(attrs, Rotate) then 0 else offset).0;
      assert [child][1..] == [];
      assert RotateKids([child], chain, offset) == (own + [], next);
      assert own + [] == own;
      assert RotateKids(cs, chain, offset).0 == own + RotateKids(cs[1..], chain, next).0;
      assert cs[..j][0] == child && cs[..j][1..] == cs[1..][..j - 1];
      assert cs[1..][j - 1..] == cs[j..];
      RotateKidsSplit(cs[1..], chain, next, j - 1);
      var front := RotateKids(cs[1..][..j - 1], chain, next);
      var back := RotateKids(cs[j..], chain, front.1);
      assert RotateKids(cs, chain, offset).0 == out + (front.0 + back.0);
      assert RotateKids(cs[..j], chain, offset).0 == out + front.0;
      AppendAssoc(out, front.0, back.0);
    }
  }

  /** Every `rotate` carried in a slice of `cs` or below it is a number list when that holds of `cs`. */
  lemma RotateListsBelowSlice(cs: seq<Node>, lo: nat, hi: nat)
    requires lo <= hi <= |cs| && RotateListsBelow(cs)
    ensures RotateListsBelow(cs[lo..hi])
  {
    forall i | 0 <= i < hi - lo ensures cs[lo..hi][i] == cs[lo + i] { }
  }

  /**
    When every `rotate` found is a number list, the angles of child `j` sit
    at exactly the indexes of its code points: they start after the code
    points of the children before it and there is one per code point of
    the child.
   */
  lemma ChildAngles(cs: seq<Node>, chain: seq<Attrs>, offset: nat, j: nat)
    requires RotateListsAbove(chain) && RotateListsBelow(cs) && j < |cs|
    ensures var start := CharCountOf(cs[..j]);
      var own := RotateKids([cs[j]], chain, RotateKids(cs[..j], chain, offset).1).0;
      && |own| == CharCount(cs[j])
      && start + |own| <= |RotateKids(cs, chain, offset).0|
      && RotateKids(cs, chain, offset).0[start .. start + |own|] == own
  {
    var front := RotateKids(cs[..j], chain, offset);
    var rest := cs[j..];
    assert rest[..1] == [cs[j]];
    RotateKidsSplit(cs, chain, offset, j);
    RotateKidsSplit(rest, chain, front.1, 1);
    RotateListsBelowSlice(cs, 0, j);
    RotateListsBelowSlice(cs, j, j + 1);
    assert cs[j..j + 1] == [cs[j]];
    RotateKidsLength(cs[..j], chain, offset);
    RotateKidsLength([cs[j]], chain, front.1);
    assert CharCountOf([cs[j]]) == CharCount(cs[j]) + CharCountOf([]);
  }

  /**
    The one-per-element offset step: under `rotate="1 2 3 4"`, the text
    `a<tspan>bb</tspan>c` gets angles 1, 2, 3 and then 3 again, because the
    span moves its parent's offset by one although it holds two characters.
   */
  lemma SpanCountsAsOneCharacter()
    ensures var angles := [F64(1), F64(2), F64(3), F64(4)];
      var span := Element(map[], [Text("bb")]);
      var text := Element(map[Rotate := NumberList(angles)], [Text("a"), span, Text("c")]);
      RotateOf(text, [], 0) == [F64(1), F64(2), F64(3), F64(3)]
  {
    var angles := [F64(1), F64(2), F64(3), F64(4)];
    var attrs := map[Rotate := NumberList(angles)];
    var span := Element(map[], [Text("bb")]);
    var chain := [attrs];
    assert FindNodeWithAttribute(chain, Rotate) == Some(attrs);
    assert FindNodeWithAttribute([map[]] + chain, Rotate) == Some(attrs);
    assert RotateKids([Text("c")], chain, 2).0 == [F64(3)];
    assert RotateKids([span, Text("c")], chain, 1).0 == [F64(2), F64(3), F64(3)];
  }

  /** The list `resolve_rotate` appends to. */
  class RotateList {
    var angles: seq<F64>

    constructor ()
      ensures angles == []
    {
      angles := [];
    }

    method Push(r: F64)
      modifies this
      ensures angles == old(angles) + [r]
    {
      angles := angles + [r];
    }
  }

  /** One child of `resolve_rotate`'s loop, unfolded. */
  lemma RotateKidsStep(cs: seq<Node>, chain: seq<Attrs>, offset: nat)
    requires cs != []
    ensures cs[0].Text? ==>
      RotateKids(cs, chain, offset).0 ==
        TextAngles(FindNodeWithAttribute(chain, Rotate), offset, |cs[0].text|).0 +
        RotateKids(cs[1..], chain, TextAngles(FindNodeWithAttribute(chain, Rotate), offset, |cs[0].text|).1).0
    ensures cs[0].Element? ==>
      RotateKids(cs, chain, offset).0 ==
        RotateKids(cs[0].children, [cs[0].attrs] + chain, if HasAttribute(cs[0].attrs, Rotate) then 0 else offset).0 +
        RotateKids(cs[1..], chain, offset + 1).0
  {
  }

  /**
    The text-child branch of `resolve_rotate`: pushes one angle per
    character and returns the moved offset.
   */
  method PushTextAngles(chain: seq<Attrs>, offset: nat, charsCount: nat, list: RotateList) returns (next: nat)
    modifies list
    ensures list.angles == old(list.angles) + TextAngles(FindNodeWithAttribute(chain, Rotate), offset, charsCount).0
    ensures next == TextAngles(FindNodeWithAttribute(chain, Rotate), offset, charsCount).1
  {
    ghost var before := list.angles;
    next := offset;
    var p := FindNodeWithAttribute(chain, Rotate);
    if p.Some? {
      var rotateList := GetNumberList(p.value, Rotate);
      if rotateList.Some? {
        var angles := rotateList.value;
        for i := 0 to charsCount
          invariant list.angles == before + TextAngles(p, offset, charsCount).0[..i]
        {
          var r;
          if i + offset < |angles| {
            r := angles[i + offset];
          } else {
            // Past the end of the list the last angle repeats; an empty list gives 0.0.
            r := if |angles| > 0 then angles[|angles| - 1] else ZERO;
          }
          list.Push(r);
        }
        assert TextAngles(p, offset, charsCount).0[..charsCount] == TextAngles(p, offset, charsCount).0;
        next := offset + charsCount;
      }
    } else {
      for i := 0 to charsCount
        invariant list.angles == before + seq(i, _ => ZERO)
      {
        list.Push(ZERO);
      }
    }
  }

  lemma AppendAssoc(a: seq<F64>, b: seq<F64>, c: seq<F64>)
    ensures (a + b) + c == a + (b + c)
  {
  }

  /**
    `resolve_rotate`: walks the children of `parent` in order, appending one
    angle per character of each text child and recursing into element
    children; `above` holds the attributes of the ancestors of `parent`.
    The list only grows: what it held on entry is kept as its prefix.
   */
  method ResolveRotate(parent: Node, above: seq<Attrs>, offset: nat, list: RotateList)
    requires parent.Element?
    modifies list
    ensures list.angles == old(list.angles) + RotateOf(parent, above, offset)
    decreases parent
  {
    var chain := [parent.attrs] + above;
    ghost var goal := old(list.angles) + RotateOf(parent, above, offset);
    var children := parent.children;
    var off: nat := offset;
    var i := 0;
    while i < |children|
      invariant i <= |children|
      invariant list.angles + RotateKids(children[i..], chain, off).0 == goal
    {
      var child := children[i];
      RotateKidsStep(children[i..], chain, off);
      assert children[i..][1..] == children[i + 1..];
      ghost var before := list.angles;
      ghost var prev := off;
      if child.Text? {
        off := PushTextAngles(chain, off, |child.text|, list);
      } else {
        // An element child restarts at 0 only when it carries its own list.
        var subOffset := if HasAttribute(child.attrs, Rotate) then 0 else off;
        ResolveRotate(child, chain, subOffset, list);
        off := off + 1;
      }
      ghost var added := list.angles[|before|..];
      assert list.angles == before + added;
      assert RotateKids(children[i..], chain, prev).0 == added + RotateKids(children[i + 1..], chain, off).0;
      AppendAssoc(before, added, RotateKids(children[i + 1..], chain, off).0);
      i := i + 1;
    }
  }
}
