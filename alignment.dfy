/** The position table and the rotation list give each child of a `text` element the same indexes. */
module Alignment {
  import opened Dom
  import Positions
  import Rotation

  /**
    For a `text` element whose ancestors carry the attributes `above`
    (innermost first), and whose every `rotate`, on it, below it or above
    it, is a number list, the rotation list has one angle per slot of the
    position table.
   */
  lemma RotationAlignsWithPositions(textElem: Node, above: seq<Attrs>)
    requires textElem.Element?
    requires Rotation.RotateListsAbove([textElem.attrs] + above) && Rotation.RotateListsBelow(textElem.children)
    ensures |Rotation.RotateOf(textElem, above, 0)| == |Positions.ResolvedPositions(textElem)| == CharCount(textElem)
  {
    Rotation.RotateKidsLength(textElem.children, [textElem.attrs] + above, 0);
  }

  /**
    Under the same conditions, child `j` of the `text` element is node `k`
    of the document-order listing and is visited by the position walk at
    offset `start`, the code points of the children before it: that is the
    offset `Positions.LastDeclarationWins` gives its lists, so they land on
    the slots from `start` on. The angles the rotation walk appends for
    that child fill exactly the indexes `start .. start + CharCount(child)`
    of the rotation list. Each direct child thus gets the same index range
    in both lists; for a text child, slot `i` and angle `i` name the same
    code point.
   */
  lemma ChildSlotsAlign(textElem: Node, above: seq<Attrs>, j: nat)
    requires textElem.Element? && j < |textElem.children|
    requires Rotation.RotateListsAbove([textElem.attrs] + above) && Rotation.RotateListsBelow(textElem.children)
    ensures var cs := textElem.children;
      var chain := [textElem.attrs] + above;
      var ds := Descendants(textElem);
      var k := 1 + |DescendantsOf(cs[..j])|;
      var start := CharCountOf(cs[..j]);
      var own := Rotation.RotateKids([cs[j]], chain, Rotation.RotateKids(cs[..j], chain, 0).1).0;
      && k < |ds| && ds[k] == cs[j]
      && TextCount(ds[..k]) == start
      && |own| == CharCount(cs[j])
      && start + |own| <= CharCount(textElem) == |Rotation.RotateOf(textElem, above, 0)|
      && Rotation.RotateOf(textElem, above, 0)[start .. start + |own|] == own
  {
    var cs := textElem.children;
    var chain := [textElem.attrs] + above;
    ChildListed(textElem, j);
    Rotation.RotateKidsLength(cs, chain, 0);
    Rotation.ChildAngles(cs, chain, 0, j);
  }
}
