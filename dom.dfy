/** Option, as used by the attribute getters and the resolved records. */
module Wrappers {
  datatype Option<+T> = None | Some(value: T)
}

/**
  The read-only document tree that text attribute resolution works on:
  elements carrying typed attributes, and text leaves.
 */
module Dom {
  import opened Wrappers

  /** The bit pattern of an IEEE 754 binary64 value. */
  newtype Bits64 = x: int | 0 <= x < 0x1_0000_0000_0000_0000

  /**
    An f64 attribute value. Text attribute resolution only copies these
    values around, so they are kept as their bit pattern.
   */
  datatype F64 = F64(bits: Bits64)

  /** `0.0` */
  const ZERO: F64 := F64(0)

  /**
    `v > 0.0` on f64: true exactly for the positive subnormals, the positive
    normals and +infinity (sign bit clear, not zero, not NaN).
   */
  predicate IsPositive(v: F64) {
    0 < v.bits <= 0x7FF0_0000_0000_0000
  }

  /** NaN: all exponent bits set and a non-zero mantissa, either sign. */
  predicate IsNaN(v: F64) {
    var magnitude := v.bits as int % 0x8000_0000_0000_0000;
    0x7FF0_0000_0000_0000 < magnitude
  }

  /** Attribute identifiers used by text attribute resolution. */
  datatype AId =
    | X | Y | Dx | Dy | Rotate
    | FontStyle | FontWeight | FontStretch | FontFamily | FontSize
    | LetterSpacing | WordSpacing | TextAnchor | TextDecoration

  /** A parsed attribute value, tagged by its kind. */
  datatype AttrValue =
    | Str(str: string)
    | Number(num: F64)
    | NumberList(nums: seq<F64>)
    | OtherValue

  type Attrs = map<AId, AttrValue>

  /** A node is an element with attributes and children, or a text leaf. */
  datatype Node =
    | Element(attrs: Attrs, children: seq<Node>)
    | Text(text: string)

  predicate HasAttribute(attrs: Attrs, id: AId) {
    id in attrs
  }

  /** The attribute as a string, if it is present and holds one. */
  function GetStr(attrs: Attrs, id: AId): (r: Option<string>)
    ensures r.Some? <==> id in attrs && attrs[id].Str?
    ensures r.Some? ==> attrs[id] == Str(r.value)
  {
    if id in attrs && attrs[id].Str? then Some(attrs[id].str) else None
  }

  /** The attribute as a string, or `default` when it is absent or not a string. */
  function GetStrOr(attrs: Attrs, id: AId, default: string): (r: string)
    ensures GetStr(attrs, id).Some? ==> r == GetStr(attrs, id).value
    ensures GetStr(attrs, id).None? ==> r == default
  {
    match GetStr(attrs, id)
    case Some(s) => s
    case None => default
  }

  /** The attribute as a number, or `default` when it is absent or not a number. */
  function GetNumberOr(attrs: Attrs, id: AId, default: F64): (r: F64)
    ensures id in attrs && attrs[id].Number? ==> r == attrs[id].num
    ensures !(id in attrs && attrs[id].Number?) ==> r == default
  {
    if id in attrs && attrs[id].Number? then attrs[id].num else default
  }

  /** The attribute as a number list, if it is present and holds one. */
  function GetNumberList(attrs: Attrs, id: AId): (r: Option<seq<F64>>)
    ensures r.Some? <==> id in attrs && attrs[id].NumberList?
    ensures r.Some? ==> attrs[id] == NumberList(r.value)
  {
    if id in attrs && attrs[id].NumberList? then Some(attrs[id].nums) else None
  }

  /** Number of Unicode code points of a text leaf; 0 for an element. */
  function TextLen(n: Node): nat {
    if n.Text? then |n.text| else 0
  }

  /** Code points of all the text leaves below `n` (and `n` itself if it is one). */
  function CharCount(n: Node): nat
    decreases n, 1
  {
    match n
    case Text(t) => |t|
    case Element(_, children) => CharCountOf(children)
  }

  function CharCountOf(cs: seq<Node>): nat
    decreases cs, 0
  {
    if cs == [] then 0 else CharCount(cs[0]) + CharCountOf(cs[1..])
  }

  /** All nodes of the subtree of `n` in document order, `n` itself first. */
  function Descendants(n: Node): (r: seq<Node>)
    ensures |r| > 0 && r[0] == n
    decreases n, 1
  {
    match n
    case Text(_) => [n]
    case Element(_, children) => [n] + DescendantsOf(children)
  }

  function DescendantsOf(cs: seq<Node>): seq<Node>
    decreases cs, 0
  {
    if cs == [] then [] else Descendants(cs[0]) + DescendantsOf(cs[1..])
  }

  /** Sum of the code-point counts of the text leaves in `ds`. */
  function TextCount(ds: seq<Node>): nat {
    if ds == [] then 0 else TextCount(ds[..|ds| - 1]) + TextLen(ds[|ds| - 1])
  }

  lemma {:induction false} TextCountAppend(a: seq<Node>, b: seq<Node>)
    ensures TextCount(a + b) == TextCount(a) + TextCount(b)
    decreases |b|
  {
    if b == [] {
      assert a + b == a;
    } else {
      var b' := b[..|b| - 1];
      assert (a + b)[..|a + b| - 1] == a + b';
      TextCountAppend(a, b');
    }
  }

  /** Counting text along the document-order listing gives the tree count. */
  lemma {:induction false} DescendantsTextCount(n: Node)
    ensures TextCount(Descendants(n)) == CharCount(n)
    decreases n, 1
  {
    match n
    case Text(t) =>
      assert TextCount([n]) == TextCount([]) + TextLen(n);
    case Element(_, children) =>
      TextCountAppend([n], DescendantsOf(children));
      assert TextCount([n]) == TextCount([]) + TextLen(n);
      DescendantsOfTextCount(children);
  }

  lemma {:induction false} DescendantsOfTextCount(cs: seq<Node>)
    ensures TextCount(DescendantsOf(cs)) == CharCountOf(cs)
    decreases cs, 0
  {
    if cs != [] {
      TextCountAppend(Descendants(cs[0]), DescendantsOf(cs[1..]));
      DescendantsTextCount(cs[0]);
      DescendantsOfTextCount(cs[1..]);
    }
  }

  /** The listing of a concatenation is the concatenation of the listings. */
  lemma {:induction false} DescendantsOfAppend(a: seq<Node>, b: seq<Node>)
    ensures DescendantsOf(a + b) == DescendantsOf(a) + DescendantsOf(b)
    decreases |a|
  {
    if a == [] {
      assert a + b == b;
    } else {
      assert (a + b)[0] == a[0] && (a + b)[1..] == a[1..] + b;
      DescendantsOfAppend(a[1..], b);
    }
  }

  /**
    Child `j` of an element is listed in document order right after the
    element and the subtrees of the children before it, so its text starts
    after exactly the code points of those children.
   */
  lemma ChildListed(n: Node, j: nat)
    requires n.Element? && j < |n.children|
    ensures var k := 1 + |DescendantsOf(n.children[..j])|;
      && k < |Descendants(n)|
      && Descendants(n)[k] == n.children[j]
      && TextCount(Descendants(n)[..k]) == CharCountOf(n.children[..j])
  {
    var cs := n.children;
    var before := DescendantsOf(cs[..j]);
    var from := DescendantsOf(cs[j..]);
    assert cs == cs[..j] + cs[j..];
    DescendantsOfAppend(cs[..j], cs[j..]);
    assert from == Descendants(cs[j]) + DescendantsOf(cs[j..][1..]);
    var ds := Descendants(n);
    assert ds == [n] + before + from;
    assert ds[..1 + |before|] == [n] + before;
    TextCountAppend([n], before);
    assert TextCount([n]) == TextCount([]) + TextLen(n);
    DescendantsOfTextCount(cs[..j]);
  }

  /**
    The subtree of a node reached at position `k` of the document-order
    listing never reaches past the end of the text: the characters before it
    plus its own characters are at most the whole count.
   */
  lemma {:induction false} DescendantFits(n: Node, k: nat)
    requires k < |Descendants(n)|
    ensures TextCount(Descendants(n)[..k]) + CharCount(Descendants(n)[k]) <= CharCount(n)
    decreases n, 1
  {
    var ds := Descendants(n);
    if k == 0 {
      assert ds[..0] == [];
    } else {
      var children := n.children;
      var rest := DescendantsOf(children);
      assert ds == [n] + rest;
      assert ds[..k] == [n] + rest[..k - 1];
      assert ds[k] == rest[k - 1];
      TextCountAppend([n], rest[..k - 1]);
      assert TextCount([n]) == TextCount([]) + TextLen(n);
      DescendantOfFits(children, k - 1);
    }
  }

  lemma {:induction false} DescendantOfFits(cs: seq<Node>, k: nat)
    requires k < |DescendantsOf(cs)|
    ensures TextCount(DescendantsOf(cs)[..k]) + CharCount(DescendantsOf(cs)[k]) <= CharCountOf(cs)
    decreases cs, 0
  {
    var head := Descendants(cs[0]);
    var tail := DescendantsOf(cs[1..]);
    assert DescendantsOf(cs) == head + tail;
    if k < |head| {
      assert (head + tail)[..k] == head[..k];
      DescendantFits(cs[0], k);
    } else {
      var j := k - |head|;
      assert (head + tail)[..k] == head + tail[..j];
      TextCountAppend(head, tail[..j]);
      DescendantsTextCount(cs[0]);
      DescendantOfFits(cs[1..], j);
    }
  }

  /**
    `count_chars`: walks the descendants in document order and adds up the
    code points of the text leaves.
   */
  method CountChars(node: Node) returns (total: nat)
    ensures total == CharCount(node)
  {
    var ds := Descendants(node);
    total := 0;
    var i := 0;
    while i < |ds|
      invariant i <= |ds|
      invariant total == TextCount(ds[..i])
    {
      assert ds[..i + 1][..i] == ds[..i];
      if ds[i].Text? {
        total := total + |ds[i].text|;
      }
      i := i + 1;
    }
    assert ds[..|ds|] == ds;
    DescendantsTextCount(node);
  }
}
