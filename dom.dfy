/** The parsed markup tree as the build sees it. The parser produces element, text and document
    nodes; comments, CDATA sections, processing instructions and doctypes are carried through
    untouched by the build and are collapsed into `Other`. */
module Dom {

  /** One attribute: its qualified name and its current value. */
  datatype Attr = Attr(name: string, value: string)

  datatype Node =
    | Element(tag: string, attrs: seq<Attr>, children: seq<Node>)
    | Text(data: string)
    | Document(children: seq<Node>)
    | Other(raw: string)

  /** No attribute before position `k` has the name of the one at `k`. */
  ghost predicate FirstNamed(attrs: seq<Attr>, k: nat)
    requires k < |attrs|
  {
    forall j :: 0 <= j < k ==> attrs[j].name != attrs[k].name
  }

  /** `el.getAttribute(name)`, read from the first attribute with that name. xmldom looks the
      name up from the last attribute; the two agree because its parser keeps attribute names
      unique within an element. */
  function GetAttribute(attrs: seq<Attr>, name: string): string {
    if |attrs| == 0 then ""
    else if attrs[0].name == name then attrs[0].value
    else GetAttribute(attrs[1..], name)
  }

  /** `getAttribute` gives the value of the first attribute with that name, and the empty
      string when there is none. */
  lemma {:induction false} GetAttributeFirst(attrs: seq<Attr>, name: string)
    ensures (forall k :: 0 <= k < |attrs| ==> attrs[k].name != name) ==> GetAttribute(attrs, name) == ""
    ensures forall k :: 0 <= k < |attrs| && attrs[k].name == name && FirstNamed(attrs, k) ==>
              GetAttribute(attrs, name) == attrs[k].value
  {
    if |attrs| > 0 {
      GetAttributeFirst(attrs[1..], name);
      assert forall k :: 1 <= k < |attrs| ==> attrs[1..][k - 1] == attrs[k];
    }
  }

  /** JavaScript's `a || b` on strings: the empty string is falsy. */
  function OrElse(a: string, b: string): string {
    if a != "" then a else b
  }
}
