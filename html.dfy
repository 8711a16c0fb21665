/** The part of a pugixml document tree that the chapter builder creates:
    elements with attributes, a text value and child elements, in order. */
module Html {

  datatype Attr = Attr(name: string, value: string)

  /** `text` is the element's character data, set through `text()`; `attrs`
      and `children` keep the order of `append_attribute` and `append_child`. */
  datatype Element = Element(name: string, attrs: seq<Attr>, text: string, children: seq<Element>)

  /** The position of the first attribute called `name`; `|attrs|` when there is none. */
  function FirstAttr(attrs: seq<Attr>, name: string): (k: nat)
    ensures k <= |attrs|
    ensures forall j :: 0 <= j < k ==> attrs[j].name != name
    ensures k < |attrs| ==> attrs[k].name == name
  {
    if attrs == [] || attrs[0].name == name then 0
    else 1 + FirstAttr(attrs[1..], name)
  }

  /** The value of the first attribute called `name`, if there is one. */
  function AttrValue(attrs: seq<Attr>, name: string): (v: Option<string>)
    ensures v.Some? <==> exists k :: 0 <= k < |attrs| && attrs[k].name == name
    ensures v.Some? ==> exists k :: 0 <= k < |attrs| && attrs[k].name == name && attrs[k].value == v.value
                                    && forall j :: 0 <= j < k ==> attrs[j].name != name
  {
    var k := FirstAttr(attrs, name);
    if k < |attrs| then Some(attrs[k].value) else None
  }

  datatype Option<T> = None | Some(value: T)
}
