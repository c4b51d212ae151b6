/**
 * The part of Python's xml.etree.ElementTree that the record generator and the
 * record extractor rely on, over abstract trees instead of bytes: elements with
 * ordered attributes and children, `Element.get`, the two ElementPath forms
 * used by `findall` (any element with a given attribute value, and elements with
 * a given tag, both searched at every depth below the root with `.//`), and
 * `SubElement`, which appends a new child to an element in place.
 */
module Xml {
  import opened Wrappers

  /** One attribute of an element, as (name, value). */
  type Attribute = (string, string)

  /** An element: its tag, its attributes in document order, its children in document order. */
  datatype Element = Element(tag: string, attrs: seq<Attribute>, children: seq<Element>)

  /** The value of the first attribute named `key`, or None (a parsed document never repeats a name). */
  function Lookup(attrs: seq<Attribute>, key: string): (r: Option<string>)
    ensures r.None? <==> forall a :: a in attrs ==> a.0 != key
    ensures r.Some? ==> (key, r.value) in attrs
  {
    if attrs == [] then None
    else if attrs[0].0 == key then Some(attrs[0].1)
    else
      assert attrs == [attrs[0]] + attrs[1..];
      Lookup(attrs[1..], key)
  }

  /** `e.get(key)`. */
  function Get(e: Element, key: string): Option<string> {
    Lookup(e.attrs, key)
  }

  /**
   * An ElementPath expression evaluated from the root with `.//`: every element
   * strictly below the root, at any depth, that the final step selects.
   * `AnyWithAttr(a, v)` is the step `*[@a="v"]` (any tag), `Tagged(t)` is the step `t`.
   */
  datatype Path = AnyWithAttr(attr: string, value: string) | Tagged(tag: string)

  predicate Selects(p: Path, e: Element) {
    match p
    case AnyWithAttr(a, v) => Get(e, a) == Some(v)
    case Tagged(t) => e.tag == t
  }

  /** `e` followed by all its descendants, in document order (what `e.iter()` yields). */
  function Subtree(e: Element): (r: seq<Element>)
    ensures |r| >= 1 && r[0] == e
    decreases e, 1
  {
    [e] + Subtrees(e.children)
  }

  /** The subtrees of `es`, one after the other, in document order. */
  function Subtrees(es: seq<Element>): seq<Element>
    decreases es, 0
  {
    if es == [] then [] else Subtree(es[0]) + Subtrees(es[1..])
  }

  /** Every element strictly below `root`, in document order. */
  function Descendants(root: Element): seq<Element> {
    Subtrees(root.children)
  }

  /** The elements of `es` that `p` selects, in their order in `es`. */
  function Select(p: Path, es: seq<Element>): (r: seq<Element>)
    ensures |r| <= |es|
  {
    if es == [] then []
    else (if Selects(p, es[0]) then [es[0]] else []) + Select(p, es[1..])
  }

  /** `Select` keeps exactly the elements the path selects. */
  lemma {:induction false} SelectMember(p: Path, es: seq<Element>, x: Element)
    ensures x in Select(p, es) <==> x in es && Selects(p, x)
  {
    if es != [] {
      assert es == [es[0]] + es[1..];
      SelectMember(p, es[1..], x);
    }
  }

  /** `root.findall(path)`. */
  function FindAll(root: Element, p: Path): (r: seq<Element>)
    ensures forall x :: x in r <==> x in Descendants(root) && Selects(p, x)
  {
    assert forall x :: x in Select(p, Descendants(root)) <==> x in Descendants(root) && Selects(p, x) by {
      forall x
        ensures x in Select(p, Descendants(root)) <==> x in Descendants(root) && Selects(p, x)
      {
        SelectMember(p, Descendants(root), x);
      }
    }
    Select(p, Descendants(root))
  }

  lemma {:induction false} SelectAppend(p: Path, a: seq<Element>, b: seq<Element>)
    ensures Select(p, a + b) == Select(p, a) + Select(p, b)
  {
    if a == [] {
      assert a + b == b;
    } else {
      var ab := a + b;
      assert ab[0] == a[0] && ab[1..] == a[1..] + b;
      SelectAppend(p, a[1..], b);
      var h := if Selects(p, a[0]) then [a[0]] else [];
      calc {
        Select(p, ab);
        h + Select(p, a[1..] + b);
        h + (Select(p, a[1..]) + Select(p, b));
        (h + Select(p, a[1..])) + Select(p, b);
      }
    }
  }

  /** How many elements of the subtree of `e`, `e` included, `p` selects. */
  function CountIn(e: Element, p: Path): nat
    decreases e, 1
  {
    (if Selects(p, e) then 1 else 0) + CountInAll(e.children, p)
  }

  function CountInAll(es: seq<Element>, p: Path): nat
    decreases es, 0
  {
    if es == [] then 0 else CountIn(es[0], p) + CountInAll(es[1..], p)
  }

  /** How many elements strictly below `root` `p` selects. */
  function CountBelow(root: Element, p: Path): nat {
    CountInAll(root.children, p)
  }

  lemma {:induction false} SubtreeCount(e: Element, p: Path)
    ensures |Select(p, Subtree(e))| == CountIn(e, p)
    decreases e, 1
  {
    SelectAppend(p, [e], Subtrees(e.children));
    SubtreesCount(e.children, p);
  }

  lemma {:induction false} SubtreesCount(es: seq<Element>, p: Path)
    ensures |Select(p, Subtrees(es))| == CountInAll(es, p)
    decreases es, 0
  {
    if es != [] {
      SelectAppend(p, Subtree(es[0]), Subtrees(es[1..]));
      SubtreeCount(es[0], p);
      SubtreesCount(es[1..], p);
    }
  }

  /** `findall` returns exactly as many elements as the path selects below the root. */
  lemma FindAllCount(root: Element, p: Path)
    ensures |FindAll(root, p)| == CountBelow(root, p)
  {
    SubtreesCount(root.children, p);
  }

  /** When the path selects exactly one element below the root, `findall` returns that element alone. */
  lemma FindAllUnique(root: Element, p: Path, x: Element)
    requires CountBelow(root, p) == 1
    requires x in Descendants(root) && Selects(p, x)
    ensures FindAll(root, p) == [x]
  {
    FindAllCount(root, p);
    SelectMember(p, Descendants(root), x);
  }

  /**
   * A mutable element (`ET.Element`), changed in place by `SubElement`.
   * `Repr` is the set of nodes the element reaches; `Value` is the tree it stands for.
   */
  class Node {
    var tag: string
    var attrib: seq<Attribute>
    var children: seq<Node>
    ghost var Repr: set<object>

    ghost predicate Valid()
      reads this, Repr
      decreases Repr
    {
      this in Repr &&
      forall i :: 0 <= i < |children| ==>
        children[i] in Repr && children[i].Repr <= Repr && this !in children[i].Repr &&
        children[i].Valid()
    }

    /** `ET.Element(tag, attrib)`: a new element without children. */
    constructor (tag: string, attrib: seq<Attribute>)
      ensures Valid() && Repr == {this}
      ensures Value() == Element(tag, attrib, [])
    {
      this.tag := tag;
      this.attrib := attrib;
      this.children := [];
      Repr := {this};
    }

    /** The tree this element stands for (what serialising it and parsing it back yields). */
    function Value(): Element
      requires Valid()
      reads this, Repr
      decreases Repr, 1
    {
      Element(tag, attrib, ChildValues(|children|))
    }

    /** The values of the first `k` children. */
    function ChildValues(k: nat): (es: seq<Element>)
      requires Valid() && k <= |children|
      reads this, Repr
      ensures |es| == k
      decreases Repr, 0, k
    {
      if k == 0 then [] else ChildValues(k - 1) + [children[k - 1].Value()]
    }

    lemma {:induction false} ChildValuesAt(k: nat, i: nat)
      requires Valid() && i < k <= |children|
      ensures ChildValues(k)[i] == children[i].Value()
      decreases k
    {
      if i < k - 1 {
        ChildValuesAt(k - 1, i);
      }
    }

    /** The value of an element with three children is built from theirs. */
    lemma ThreeChildValues()
      requires Valid() && |children| == 3
      ensures Value() == Element(tag, attrib, [children[0].Value(), children[1].Value(), children[2].Value()])
    {
      ChildValuesAt(3, 0);
      ChildValuesAt(3, 1);
      ChildValuesAt(3, 2);
    }

    /** `ET.SubElement(this, tag, attrib)`: appends a new, childless element and returns it. */
    method SubElement(tag: string, attrib: seq<Attribute>) returns (child: Node)
      requires Valid()
      modifies this
      ensures Valid() && fresh(child) && child.Valid() && child.Repr == {child} && child.children == []
      ensures child.Value() == Element(tag, attrib, [])
      ensures this.tag == old(this.tag) && this.attrib == old(this.attrib)
      ensures children == old(children) + [child] && Repr == old(Repr) + {child}
      ensures Value() == old(Value()).(children := old(Value()).children + [child.Value()])
    {
      ghost var before := Value();
      ghost var oldChildren := children;
      forall i | 0 <= i < |children|
        ensures children[i].Value() == before.children[i]
      {
        ChildValuesAt(|children|, i);
      }
      child := new Node(tag, attrib);
      children := children + [child];
      Repr := Repr + {child};
      assert Valid();
      ghost var after := Value();
      forall i | 0 <= i < |children|
        ensures after.children[i] == (before.children + [child.Value()])[i]
      {
        ChildValuesAt(|children|, i);
      }
    }
  }
}
