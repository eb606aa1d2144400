/**
  The whole-document passes, stated per element: the three attribute-mirroring
  passes run at start-up and the comment-visibility toggle. Each pass leaves
  the elements it does not select exactly as they were.
 */
module Passes {
  import opened Elements

  /** An attribute-mirroring pass: the elements it selects (an optional tag and a
      required attribute), the attribute it reads, the data-* attribute it writes
      and the class it adds. */
  datatype Pass = Pass(tag: Option<string>, source: string, target: string, marker: string)

  /** enhanceListParagraphs (lines 114-121): `p[listParaNum]`. */
  const ListParagraphs := Pass(Some(ParagraphTag), ListParaNumAttr, "data-list-num", "list-paragraph")
  /** enhanceBidElements (lines 124-130): `[bid]`. */
  const BidElements := Pass(None, BidAttr, "data-bid", "semantic-element")
  /** handlePlainTextView (lines 133-140): `[plainTextView]`. */
  const PlainTextView := Pass(None, PlainTextViewAttr, "data-plain-text", "has-plain-text")

  predicate Selects(p: Pass, e: Element)
  {
    (p.tag.None? || e.tag == p.tag.value) && p.source in e.attrs
  }

  /** The body of a pass's forEach, applied to one element if the pass's
      selector matches it. */
  function Mirror(e: Element, p: Pass): (r: Element)
    ensures Selects(p, e) ==> GetAttr(r, p.target) == GetAttr(e, p.source) && p.marker in r.classes
    ensures Selects(p, e) ==> r.classes == e.classes + {p.marker} && OnlyTouches(e, r, p.target, p.marker)
    ensures !Selects(p, e) ==> r == e
  {
    if Selects(p, e) then AddClass(SetAttr(e, p.target, e.attrs[p.source]), p.marker) else e
  }

  /** Running a pass a second time changes nothing. */
  lemma MirrorIdempotent(e: Element, p: Pass)
    ensures Mirror(Mirror(e, p), p) == Mirror(e, p)
  {
  }

  /** Two passes that neither read nor write each other's attributes. */
  predicate Independent(p: Pass, q: Pass)
  {
    p.target != q.source && q.target != p.source && p.target != q.target
  }

  /** Independent passes can run in either order. */
  lemma MirrorCommute(e: Element, p: Pass, q: Pass)
    requires Independent(p, q)
    ensures Mirror(Mirror(e, p), q) == Mirror(Mirror(e, q), p)
  {
  }

  /** The three start-up passes in the order lines 143-145 call them. */
  function Enhanced(e: Element): Element
  {
    Mirror(Mirror(Mirror(e, ListParagraphs), BidElements), PlainTextView)
  }

  /** After start-up every selected element carries its mirror attribute and its
      class, and an element no pass selects is untouched. */
  lemma EnhancedEstablishes(e: Element)
    ensures var r := Enhanced(e);
            BidAttr in e.attrs ==>
              GetAttr(r, "data-bid") == GetAttr(e, BidAttr) && "semantic-element" in r.classes
    ensures var r := Enhanced(e);
            e.tag == ParagraphTag && ListParaNumAttr in e.attrs ==>
              GetAttr(r, "data-list-num") == GetAttr(e, ListParaNumAttr) && "list-paragraph" in r.classes
    ensures var r := Enhanced(e);
            PlainTextViewAttr in e.attrs ==>
              GetAttr(r, "data-plain-text") == GetAttr(e, PlainTextViewAttr) && "has-plain-text" in r.classes
    ensures !Selects(ListParagraphs, e) && !Selects(BidElements, e) && !Selects(PlainTextView, e) ==>
              Enhanced(e) == e
  {
  }

  /** The three passes commute, so the order of lines 143-145 does not matter. */
  lemma EnhancedOrderIrrelevant(e: Element)
    ensures Enhanced(e) == Mirror(Mirror(Mirror(e, BidElements), ListParagraphs), PlainTextView)
    ensures Enhanced(e) == Mirror(Mirror(Mirror(e, ListParagraphs), PlainTextView), BidElements)
    ensures Enhanced(e) == Mirror(Mirror(Mirror(e, PlainTextView), ListParagraphs), BidElements)
    ensures Enhanced(e) == Mirror(Mirror(Mirror(e, BidElements), PlainTextView), ListParagraphs)
    ensures Enhanced(e) == Mirror(Mirror(Mirror(e, PlainTextView), BidElements), ListParagraphs)
  {
    var L, B, P := ListParagraphs, BidElements, PlainTextView;
    MirrorCommute(e, L, B);
    MirrorCommute(Mirror(e, L), B, P);
    MirrorCommute(Mirror(e, B), L, P);
    MirrorCommute(e, L, P);
    MirrorCommute(Mirror(e, P), L, B);
    MirrorCommute(e, B, P);
  }

  /** Running all three passes again changes nothing. */
  lemma EnhancedIdempotent(e: Element)
    ensures Enhanced(Enhanced(e)) == Enhanced(e)
  {
  }

  const CommentsVisibleClass := "comments-visible"

  /** The elements `commentstartref, commentendref` selects. */
  predicate IsCommentMarker(e: Element)
  {
    e.tag == CommentStartTag || e.tag == CommentEndTag
  }

  /** The body of toggleComments' forEach (lines 152-158), applied to one element. */
  function Toggle(e: Element, show: bool): (r: Element)
    ensures IsCommentMarker(e) ==> (CommentsVisibleClass in r.classes <==> show)
    ensures r.classes - {CommentsVisibleClass} == e.classes - {CommentsVisibleClass}
    ensures r.tag == e.tag && r.attrs == e.attrs && r.content == e.content
    ensures !IsCommentMarker(e) ==> r == e
  {
    if !IsCommentMarker(e) then e
    else if show then AddClass(e, CommentsVisibleClass)
    else RemoveClass(e, CommentsVisibleClass)
  }

  /** Only the last toggle counts. */
  lemma ToggleLastWins(e: Element, first: bool, second: bool)
    ensures Toggle(Toggle(e, first), second) == Toggle(e, second)
  {
  }

  /** Showing then hiding gives back the element exactly when the marker did not
      already carry the class. */
  lemma ToggleShowHide(e: Element)
    ensures Toggle(Toggle(e, true), false) == e <==> !(IsCommentMarker(e) && CommentsVisibleClass in e.classes)
  {
  }
}
