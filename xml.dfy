/**
 * The parsed document: an ElementTree element with its tag, attributes, text, tail and
 * ordered children, and the lookups the validator performs on it.
 */
module Xml {
  import opened Wrappers
  import opened Text

  datatype Element = Element(
    tag: string,
    attrs: map<string, string>,
    text: Option<string>,
    tail: Option<string>,
    children: seq<Element>)

  /** `elem.get(key)`. */
  function Get(e: Element, key: string): Option<string> {
    if key in e.attrs then Some(e.attrs[key]) else None
  }

  /** `elem.get(key, default)`. */
  function GetOr(e: Element, key: string, default: string): string {
    if key in e.attrs then e.attrs[key] else default
  }

  /** Python truthiness of an optional string: present and non-empty. */
  predicate Present(o: Option<string>) {
    o.Some? && o.value != ""
  }

  /** `not t or not t.strip()` for an element's text or tail. */
  predicate BlankText(t: Option<string>) {
    t.None? || IsBlank(t.value)
  }

  /** The elements of `es` whose tag is `tag`, in order. */
  function WithTag(es: seq<Element>, tag: string): (r: seq<Element>)
    ensures |r| <= |es|
  {
    if es == [] then []
    else (if es[0].tag == tag then [es[0]] else []) + WithTag(es[1..], tag)
  }

  /** `elem.findall(tag)`: the direct children with that tag. */
  function FindAll(e: Element, tag: string): seq<Element> {
    WithTag(e.children, tag)
  }

  /** `elem.find(tag)`: the first direct child with that tag. */
  function Find(e: Element, tag: string): Option<Element> {
    var all := FindAll(e, tag);
    if all == [] then None else Some(all[0])
  }

  /** Every element of the forest `es`, in document (pre-)order. */
  function Subtree(es: seq<Element>): seq<Element>
    decreases es
  {
    if es == [] then [] else [es[0]] + Subtree(es[0].children) + Subtree(es[1..])
  }

  /** `elem.findall(".//" + tag)`: every proper descendant with that tag, in document order. */
  function IterFind(e: Element, tag: string): seq<Element> {
    WithTag(Subtree(e.children), tag)
  }

  /** `WithTag` keeps exactly the elements with that tag. */
  lemma {:induction false} WithTagMember(es: seq<Element>, tag: string, x: Element)
    ensures x in WithTag(es, tag) <==> x in es && x.tag == tag
  {
    if es != [] {
      WithTagMember(es[1..], tag, x);
      assert es == [es[0]] + es[1..];
    }
  }

  /** Every element of a forest is in its subtree. */
  lemma {:induction false} RootsInSubtree(es: seq<Element>, x: Element)
    requires x in es
    ensures x in Subtree(es)
    decreases es
  {
    if x != es[0] {
      assert x in es[1..];
      RootsInSubtree(es[1..], x);
    }
  }

  /** The subtree of a forest is closed under taking children. */
  lemma {:induction false} SubtreeHasChildren(es: seq<Element>, c: Element, x: Element)
    requires c in Subtree(es) && x in c.children
    ensures x in Subtree(es)
    decreases es
  {
    var head, rest := Subtree(es[0].children), Subtree(es[1..]);
    assert Subtree(es) == [es[0]] + head + rest;
    if c == es[0] {
      RootsInSubtree(es[0].children, x);
    } else if c in head {
      SubtreeHasChildren(es[0].children, c, x);
    } else {
      SubtreeHasChildren(es[1..], c, x);
    }
  }
}
