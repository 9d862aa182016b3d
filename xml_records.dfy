/**
 * A parsed definition document, as the loaders see it through tinyxml2:
 * elements in document order, each with its tag, its attributes, the value
 * of its first child node (the text of an identity field) and its child
 * elements.
 */
module XmlRecords {
  import opened Options
  import CStrings

  datatype Element = Element(
    tag: string,
    attrs: map<string, string>,
    text: Option<string>,
    children: seq<Element>)

  /**
   * The children of a node that `FirstChildElement(tag)` followed by
   * `NextSiblingElement(tag)` visit, in document order. Defined from the
   * end so that a loop over a prefix extends it by one element.
   */
  function ChildElements(children: seq<Element>, tag: string): (r: seq<Element>)
    ensures |r| <= |children|
    ensures forall i :: 0 <= i < |r| ==> r[i].tag == tag
  {
    if children == [] then []
    else
      var last := children[|children| - 1];
      ChildElements(children[..|children| - 1], tag) + (if last.tag == tag then [last] else [])
  }

  /** The first child `FirstChildElement(tag)` returns, if there is one. */
  function FirstChildElement(e: Element, tag: string): (r: Option<Element>)
    ensures r.Some? <==> |ChildElements(e.children, tag)| > 0
    ensures r.Some? ==> r.value == ChildElements(e.children, tag)[0]
  {
    var all := ChildElements(e.children, tag);
    if |all| > 0 then Some(all[0]) else None
  }

  /** The index of the first child that carries the tag, if any. */
  function FirstTagged(children: seq<Element>, tag: string): (r: Option<nat>)
    ensures r.Some? ==> r.value < |children| && children[r.value].tag == tag
    ensures r.Some? ==> forall j :: 0 <= j < r.value ==> children[j].tag != tag
    ensures r.None? ==> forall j :: 0 <= j < |children| ==> children[j].tag != tag
  {
    if children == [] then None
    else if children[0].tag == tag then Some(0)
    else
      match FirstTagged(children[1..], tag)
      case None => None
      case Some(k) => Some(k + 1)
  }

  /** A walk that meets no child with the tag visits nothing. */
  lemma {:induction false} NoneTagged(children: seq<Element>, tag: string)
    requires forall j :: 0 <= j < |children| ==> children[j].tag != tag
    ensures ChildElements(children, tag) == []
  {
    if children != [] {
      NoneTagged(children[..|children| - 1], tag);
    }
  }

  /**
   * `FirstChildElement(tag)` is the first child that carries the tag, and
   * NULL exactly when no child does.
   */
  lemma FirstChildElementIsFirstTagged(e: Element, tag: string)
    ensures var i := FirstTagged(e.children, tag);
      FirstChildElement(e, tag) == if i.Some? then Some(e.children[i.value]) else None
  {
    var i := FirstTagged(e.children, tag);
    if i.Some? {
      var k := i.value;
      var before, rest := e.children[..k], e.children[k + 1..];
      assert e.children == before + ([e.children[k]] + rest);
      ChildElementsAppend(before, [e.children[k]] + rest, tag);
      NoneTagged(before, tag);
      ChildElementsAppend([e.children[k]], rest, tag);
      assert ChildElements([e.children[k]], tag) == [e.children[k]] by {
        assert [e.children[k]][..0] == [];
      }
    } else {
      NoneTagged(e.children, tag);
    }
  }

  /** `Attribute(key)`: the attribute's text, or NULL when it is missing. */
  function Attribute(e: Element, key: string): (r: Option<string>)
    ensures r.Some? <==> key in e.attrs
    ensures r.Some? ==> r.value == e.attrs[key]
  {
    if key in e.attrs then Some(e.attrs[key]) else None
  }

  /**
   * `IntAttribute(key)`: the decimal value the attribute's text starts
   * with, limited to the range of `int`; 0 when it is missing or has no
   * digits.
   */
  function IntAttribute(e: Element, key: string): (r: int)
    ensures CStrings.INT_MIN <= r <= CStrings.INT_MAX
    ensures key !in e.attrs ==> r == 0
  {
    if key in e.attrs then CStrings.StrToInteger(e.attrs[key], 10, CStrings.INT_MIN, CStrings.INT_MAX).value else 0
  }

  /** Filtering the children of a whole list: a matching element is kept and the order is that of the document. */
  lemma {:induction false} ChildElementsAppend(children: seq<Element>, more: seq<Element>, tag: string)
    ensures ChildElements(children + more, tag) == ChildElements(children, tag) + ChildElements(more, tag)
  {
    if more == [] {
      assert children + more == children;
    } else {
      assert (children + more)[..|children + more| - 1] == children + more[..|more| - 1];
      ChildElementsAppend(children, more[..|more| - 1], tag);
    }
  }

  /** Every child with the tag is visited, and nothing else is. */
  lemma {:induction false} ChildElementsComplete(children: seq<Element>, tag: string)
    ensures forall e :: e in ChildElements(children, tag) <==> e in children && e.tag == tag
  {
    if children != [] {
      ChildElementsComplete(children[..|children| - 1], tag);
      assert children == children[..|children| - 1] + [children[|children| - 1]];
    }
  }

  /**
   * The loop `for (e = node->FirstChildElement(tag); e; e =
   * e->NextSiblingElement(tag)) n += 1;`: the number of children it visits.
   */
  method CountElements(children: seq<Element>, tag: string) returns (n: nat)
    ensures n == |ChildElements(children, tag)|
  {
    n := 0;
    var i := 0;
    while i < |children|
      invariant 0 <= i <= |children|
      invariant n == |ChildElements(children[..i], tag)|
    {
      assert children[..i + 1][..i] == children[..i];
      if children[i].tag == tag {
        n := n + 1;
      }
      i := i + 1;
    }
    assert children[..|children|] == children;
  }
}
