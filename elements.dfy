/**
  The document as the enhancement script sees it: a sequence of elements,
  each with a tag name, an attribute map, a class set and an opaque content
  string (its inner markup).
 */
module Elements {

  datatype Option<+T> = None | Some(value: T)

  /** One element of the rendered document. Tag names are lower-case, as the
      HTML parser reports them; the class list is a set because adding a class
      that is already present leaves the list as it was. */
  datatype Element = Element(
    tag: string,
    attrs: map<string, string>,
    classes: set<string>,
    content: string)

  // Tag names of the custom vocabulary
  const CommentStartTag := "commentstartref"
  const CommentEndTag := "commentendref"
  const SuggestedDeleteTag := "suggesteddelete"
  const SuggestedInsertTag := "suggestedinsert"
  const NoteRefTag := "noteref"
  const FootnoteTag := "footnote"
  const ParagraphTag := "p"

  // Attribute names read by the script
  const BidAttr := "bid"
  const ByAttr := "by"
  const DatedAttr := "dated"
  const TitleAttr := "title"
  const ListParaNumAttr := "listParaNum"
  const PlainTextViewAttr := "plainTextView"

  /** getAttribute: the value, or None where the DOM returns null. */
  function GetAttr(e: Element, name: string): Option<string>
  {
    if name in e.attrs then Some(e.attrs[name]) else None
  }

  /** setAttribute stringifies its value: a null argument is stored as the text
      "null". Reading the text back recovers the value, except that an absent
      value and the value "null" leave the same text. */
  function AttrText(v: Option<string>): (r: string)
    ensures r != "null" ==> v == Some(r)
    ensures r == "null" <==> v == None || v == Some("null")
  {
    match v
    case Some(s) => s
    case None => "null"
  }

  /** JavaScript truthiness of an attribute read: present and not empty. */
  predicate Truthy(v: Option<string>)
  {
    v.Some? && v.value != ""
  }

  function SetAttr(e: Element, name: string, value: string): Element
  {
    e.(attrs := e.attrs[name := value])
  }

  function AddClass(e: Element, c: string): Element
  {
    e.(classes := e.classes + {c})
  }

  function RemoveClass(e: Element, c: string): Element
  {
    e.(classes := e.classes - {c})
  }

  /** r differs from e at most in the attribute `name` and in the class `c`. */
  ghost predicate OnlyTouches(e: Element, r: Element, name: string, c: string)
  {
    && r.tag == e.tag
    && r.content == e.content
    && r.classes - {c} == e.classes - {c}
    && forall a :: a != name ==> GetAttr(r, a) == GetAttr(e, a)
  }
}
