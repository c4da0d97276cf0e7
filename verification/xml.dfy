/**
 * The parsed ICD-10-CM tabular XML document, as the two catalog scripts
 * see it through lxml: an element has a tag, the text directly inside it,
 * its attributes and its child elements in document order.  lxml reports
 * an element without text as `None`; both scripts only ever test that text
 * for truthiness, so a missing text and an empty one are both `""` here.
 */
module Xml {
  import opened Base
  import opened Text

  datatype Element = Element(tag: string, text: string, attrs: map<string, string>, children: seq<Element>)

  /** The elements of `cs` carrying `tag`, in order. */
  function Tagged(cs: seq<Element>, tag: string): seq<Element> {
    if cs == [] then []
    else (if cs[0].tag == tag then [cs[0]] else []) + Tagged(cs[1..], tag)
  }

  /** `element.findall(tag)`: the direct children with that tag, in document order. */
  function FindAll(e: Element, tag: string): seq<Element> {
    Tagged(e.children, tag)
  }

  lemma {:induction false} TaggedMembers(cs: seq<Element>, tag: string)
    ensures |Tagged(cs, tag)| <= |cs|
    ensures forall x :: x in Tagged(cs, tag) <==> x in cs && x.tag == tag
  {
    if cs != [] {
      TaggedMembers(cs[1..], tag);
      assert cs == [cs[0]] + cs[1..];
    }
  }

  /** `findall` returns exactly the direct children carrying the tag. */
  lemma FindAllMembers(e: Element, tag: string)
    ensures forall x :: x in FindAll(e, tag) <==> x in e.children && x.tag == tag
  {
    TaggedMembers(e.children, tag);
  }

  /** Each element `findall` returns is a direct child carrying the tag. */
  lemma FindAllChild(e: Element, tag: string, i: nat)
    requires i < |FindAll(e, tag)|
    ensures FindAll(e, tag)[i] in e.children && FindAll(e, tag)[i].tag == tag
  {
    FindAllMembers(e, tag);
    assert FindAll(e, tag)[i] in FindAll(e, tag);
  }

  /** Index of the first element of `cs` at or after `i` carrying `tag` (`|cs|` if none). */
  function FirstTagged(cs: seq<Element>, i: nat, tag: string): (j: nat)
    requires i <= |cs|
    ensures i <= j <= |cs|
    ensures j < |cs| ==> cs[j].tag == tag
    ensures forall k :: i <= k < j ==> cs[k].tag != tag
    decreases |cs| - i
  {
    if i == |cs| || cs[i].tag == tag then i else FirstTagged(cs, i + 1, tag)
  }

  /** `element.find(tag)`: the first direct child with that tag. */
  function Find(e: Element, tag: string): Option<Element> {
    var j := FirstTagged(e.children, 0, tag);
    if j < |e.children| then Some(e.children[j]) else None
  }

  /** `element.get(name)`: an attribute value, if present. */
  function Attr(e: Element, name: string): Option<string> {
    if name in e.attrs then Some(e.attrs[name]) else None
  }

  /**
   * `get_text(element, tag)`: the stripped text of the first direct child
   * with that tag; `None` when there is no such child or its text is empty.
   * The stripped text itself may be empty (a child holding only spaces).
   */
  function GetText(e: Element, tag: string): Option<string> {
    match Find(e, tag)
    case Some(c) => if c.text != "" then Some(Strip(c.text)) else None
    case None => None
  }

  /** `element.xpath('.//' + tag)`: every element below `e` with that tag, in document order. */
  function Descendants(e: Element, tag: string): seq<Element>
    decreases e, 1
  {
    DescendantsFrom(e, 0, tag)
  }

  /** The matches below the children `i..` of `e`, each child before its own descendants. */
  function DescendantsFrom(e: Element, i: nat, tag: string): seq<Element>
    requires i <= |e.children|
    decreases e, 0, |e.children| - i
  {
    if i == |e.children| then []
    else
      var c := e.children[i];
      (if c.tag == tag then [c] else []) + Descendants(c, tag) + DescendantsFrom(e, i + 1, tag)
  }

  /** `find` picks the first element of `findall`. */
  lemma FindIsFirst(e: Element, tag: string)
    ensures Find(e, tag) == if FindAll(e, tag) == [] then None else Some(FindAll(e, tag)[0])
  {
    FirstTaggedIsFirst(e.children, 0, tag);
    assert e.children == e.children[0..];
  }

  lemma {:induction false} FirstTaggedIsFirst(cs: seq<Element>, i: nat, tag: string)
    requires i <= |cs|
    ensures FirstTagged(cs, i, tag) == |cs| <==> Tagged(cs[i..], tag) == []
    ensures FirstTagged(cs, i, tag) < |cs| ==> Tagged(cs[i..], tag)[0] == cs[FirstTagged(cs, i, tag)]
    decreases |cs| - i
  {
    if i < |cs| {
      assert cs[i..][1..] == cs[i + 1..];
      if cs[i].tag != tag {
        FirstTaggedIsFirst(cs, i + 1, tag);
      }
    }
  }

  /** `get_text` is the stripped, non-empty-text case of `find`. */
  lemma GetTextFound(e: Element, tag: string)
    ensures GetText(e, tag).Some? <==> FindAll(e, tag) != [] && FindAll(e, tag)[0].text != ""
    ensures GetText(e, tag).Some? ==> GetText(e, tag).value == Strip(FindAll(e, tag)[0].text)
  {
    FindIsFirst(e, tag);
  }

  /** Every element `.//tag` returns carries the tag. */
  lemma {:induction false} DescendantsTagged(e: Element, tag: string)
    ensures forall x :: x in Descendants(e, tag) ==> x.tag == tag
    decreases e, 1
  {
    DescendantsFromTagged(e, 0, tag);
  }

  lemma {:induction false} DescendantsFromTagged(e: Element, i: nat, tag: string)
    requires i <= |e.children|
    ensures forall x :: x in DescendantsFrom(e, i, tag) ==> x.tag == tag
    decreases e, 0, |e.children| - i
  {
    if i < |e.children| {
      DescendantsTagged(e.children[i], tag);
      DescendantsFromTagged(e, i + 1, tag);
    }
  }

  /**
   * `.//tag` reaches every depth: a child carrying the tag is found, and so
   * is everything found below any child.
   */
  lemma {:induction false} DescendantsReach(e: Element, i: nat, tag: string)
    requires i < |e.children|
    ensures e.children[i].tag == tag ==> e.children[i] in Descendants(e, tag)
    ensures forall x :: x in Descendants(e.children[i], tag) ==> x in Descendants(e, tag)
  {
    DescendantsFromReach(e, 0, i, tag);
  }

  lemma {:induction false} DescendantsFromReach(e: Element, j: nat, i: nat, tag: string)
    requires j <= i < |e.children|
    ensures e.children[i].tag == tag ==> e.children[i] in DescendantsFrom(e, j, tag)
    ensures forall x :: x in Descendants(e.children[i], tag) ==> x in DescendantsFrom(e, j, tag)
    decreases i - j
  {
    var c := e.children[j];
    var here := if c.tag == tag then [c] else [];
    assert DescendantsFrom(e, j, tag) == here + Descendants(c, tag) + DescendantsFrom(e, j + 1, tag);
    if j < i {
      DescendantsFromReach(e, j + 1, i, tag);
    }
  }
}
