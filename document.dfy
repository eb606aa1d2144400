/**
  The page's elements as an array updated in place: the start-up passes and
  toggleComments walk it with a loop, a connectedCallback rewrites one
  element, and the navigation helpers highlight the element a lookup finds.
 */
module SemanticDocument {
  import opened Elements
  import opened Callbacks
  import opened Passes
  import opened Queries

  const NavigationTargetClass := "navigation-target"
  const FootnoteHighlightedClass := "footnote-highlighted"

  class Document {
    /** The elements in document order. */
    const elems: array<Element>

    constructor (init: seq<Element>)
      ensures fresh(elems) && elems[..] == init
    {
      elems := new Element[|init|](i requires 0 <= i < |init| => init[i]);
    }

    /** The forEach of one mirroring pass: every selected element gets its class
        and its data-* attribute, every other element is left as it was. */
    method RunPass(p: Pass)
      modifies elems
      ensures forall i :: 0 <= i < elems.Length ==> elems[i] == Mirror(old(elems[i]), p)
    {
      var i := 0;
      while i < elems.Length
        invariant 0 <= i <= elems.Length
        invariant forall j :: 0 <= j < i ==> elems[j] == Mirror(old(elems[j]), p)
        invariant forall j :: i <= j < elems.Length ==> elems[j] == old(elems[j])
      {
        var e := elems[i];
        if Selects(p, e) {
          var value := e.attrs[p.source];
          e := SetAttr(e, p.target, value);
          e := AddClass(e, p.marker);
          elems[i] := e;
        }
        i := i + 1;
      }
    }

    /** enhanceListParagraphs (lines 114-121). */
    method EnhanceListParagraphs()
      modifies elems
      ensures forall i :: 0 <= i < elems.Length ==> elems[i] == Mirror(old(elems[i]), ListParagraphs)
    {
      RunPass(ListParagraphs);
    }

    /** enhanceBidElements (lines 124-130). */
    method EnhanceBidElements()
      modifies elems
      ensures forall i :: 0 <= i < elems.Length ==> elems[i] == Mirror(old(elems[i]), BidElements)
    {
      RunPass(BidElements);
    }

    /** handlePlainTextView (lines 133-140). */
    method HandlePlainTextView()
      modifies elems
      ensures forall i :: 0 <= i < elems.Length ==> elems[i] == Mirror(old(elems[i]), PlainTextView)
    {
      RunPass(PlainTextView);
    }

    /** The start-up sequence of lines 143-145. */
    method Initialize()
      modifies elems
      ensures forall i :: 0 <= i < elems.Length ==> elems[i] == Enhanced(old(elems[i]))
      ensures forall i :: 0 <= i < elems.Length && BidAttr in old(elems[i]).attrs ==>
                GetAttr(elems[i], "data-bid") == GetAttr(old(elems[i]), BidAttr) && "semantic-element" in elems[i].classes
      ensures forall i :: 0 <= i < elems.Length && old(elems[i]).tag == ParagraphTag && ListParaNumAttr in old(elems[i]).attrs ==>
                GetAttr(elems[i], "data-list-num") == GetAttr(old(elems[i]), ListParaNumAttr) && "list-paragraph" in elems[i].classes
      ensures forall i :: 0 <= i < elems.Length && PlainTextViewAttr in old(elems[i]).attrs ==>
                GetAttr(elems[i], "data-plain-text") == GetAttr(old(elems[i]), PlainTextViewAttr) && "has-plain-text" in elems[i].classes
    {
      EnhanceListParagraphs();
      EnhanceBidElements();
      HandlePlainTextView();
      forall i | 0 <= i < elems.Length {
        EnhancedEstablishes(old(elems[i]));
      }
    }

    /** SemanticDoc.toggleComments (lines 150-159); `show` defaults to true in the
        source. Only comment markers change, and only in the class comments-visible. */
    method ToggleComments(show: bool)
      modifies elems
      ensures forall i :: 0 <= i < elems.Length ==> elems[i] == Toggle(old(elems[i]), show)
    {
      var i := 0;
      while i < elems.Length
        invariant 0 <= i <= elems.Length
        invariant forall j :: 0 <= j < i ==> elems[j] == Toggle(old(elems[j]), show)
        invariant forall j :: i <= j < elems.Length ==> elems[j] == old(elems[j])
      {
        var e := elems[i];
        if IsCommentMarker(e) {
          if show {
            elems[i] := AddClass(e, CommentsVisibleClass);
          } else {
            elems[i] := RemoveClass(e, CommentsVisibleClass);
          }
        }
        i := i + 1;
      }
    }

    /** The registry running the connectedCallback of the element at `i`; `fmt`
        stands for the host's date formatting. */
    method Connect(i: nat, fmt: string -> string)
      requires i < elems.Length
      modifies elems
      ensures elems[..] == old(elems[..])[i := Connected(old(elems[i]), fmt)]
    {
      elems[i] := Connected(elems[i], fmt);
    }

    /** SemanticDoc.navigateToBid (lines 180-192), up to the immediate highlight:
        a miss changes nothing, a hit marks only the first element with bid `b`. */
    method NavigateToBid(b: string)
      modifies elems
      ensures GetByBid(old(elems[..]), b).None? ==> elems[..] == old(elems[..])
      ensures GetByBid(old(elems[..]), b).Some? ==>
                var k := GetByBid(old(elems[..]), b).value;
                elems[..] == old(elems[..])[k := AddClass(old(elems[k]), NavigationTargetClass)]
    {
      var found := GetByBid(elems[..], b);
      if found.Some? {
        var k := found.value;
        elems[k] := AddClass(elems[k], NavigationTargetClass);
      }
    }

    /** The click listener of a noteref (lines 70-83), up to the immediate
        highlight. `bid` is the value the listener captured when the noteref was
        connected; when it was absent the selector reads `footnote[bid="null"]`. */
    method ClickNoteRef(bid: Option<string>)
      modifies elems
      ensures var found := FindByBid(old(elems[..]), Some(FootnoteTag), AttrText(bid));
              found.None? ==> elems[..] == old(elems[..])
      ensures var found := FindByBid(old(elems[..]), Some(FootnoteTag), AttrText(bid));
              found.Some? ==>
                elems[..] == old(elems[..])[found.value := AddClass(old(elems[found.value]), FootnoteHighlightedClass)]
    {
      var found := FindByBid(elems[..], Some(FootnoteTag), AttrText(bid));
      if found.Some? {
        var k := found.value;
        elems[k] := AddClass(elems[k], FootnoteHighlightedClass);
      }
    }
  }
}
