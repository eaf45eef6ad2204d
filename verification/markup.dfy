/** The XML tree the Rust engine walks (what roxmltree hands it) and the
    token stream the engine writes (what XmlWriter receives). */
module Markup {

  datatype Attr = Attr(name: string, value: string)

  datatype Node =
    | Text(text: string)
    | Comment(text: string)
    | ProcessingInstruction(target: string, content: string)
    | Element(name: string, attrs: seq<Attr>, children: seq<Node>)

  /** One call on the XML writer: `start_element`, `write_attribute`,
      `write_text` or `end_element`. */
  datatype XmlToken =
    | StartElement(name: string)
    | Attribute(name: string, value: string)
    | TextOut(text: string)
    | EndElement

  function Names(attrs: seq<Attr>): set<string> {
    set a | a in attrs :: a.name
  }

  /** `attrs[i]` is the last attribute carrying its name. */
  predicate IsLastWithName(attrs: seq<Attr>, i: int)
    requires 0 <= i < |attrs|
  {
    forall j :: i < j < |attrs| ==> attrs[j].name != attrs[i].name
  }
}
