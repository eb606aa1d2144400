/**
  The connectedCallback bodies of the six custom elements, each as the
  update it makes to the one element it runs on, and the tag dispatch the
  custom element registry performs.
 */
module Callbacks {
  import opened Elements
  import opened RefLabels

  /** Which end of a comment span a marker stands for. */
  datatype Side = Start | End

  function CommentAttr(side: Side): string
  {
    match side
    case Start => "data-comment-start"
    case End => "data-comment-end"
  }

  function CommentClass(side: Side): string
  {
    match side
    case Start => "comment-start-ref"
    case End => "comment-end-ref"
  }

  function SuggestionClass(k: Suggestion): string
  {
    match k
    case Deletion => "suggested-delete"
    case Insertion => "suggested-insert"
  }

  const NoteRefClass := "note-ref"
  const FootnoteClass := "footnote"

  /** CommentStartRef / CommentEndRef (lines 11-15 and 20-24): mirror `bid` and
      mark the element. An absent `bid` is written as the text "null". */
  function ConnectCommentRef(e: Element, side: Side): (r: Element)
    ensures GetAttr(e, BidAttr).Some? ==> GetAttr(r, CommentAttr(side)) == GetAttr(e, BidAttr)
    ensures GetAttr(e, BidAttr).None? ==> GetAttr(r, CommentAttr(side)) == Some("null")
    ensures r.classes == e.classes + {CommentClass(side)}
    ensures OnlyTouches(e, r, CommentAttr(side), CommentClass(side))
  {
    var bid := GetAttr(e, BidAttr);
    AddClass(SetAttr(e, CommentAttr(side), AttrText(bid)), CommentClass(side))
  }

  /** SuggestedDelete / SuggestedInsert (lines 30-39 and 46-55): mark the element
      and set its `title` to the tooltip built from `by` and `dated`. */
  function ConnectSuggestion(e: Element, k: Suggestion, fmt: string -> string): (r: Element)
    ensures GetAttr(r, TitleAttr) == Some(Tooltip(k, GetAttr(e, ByAttr), GetAttr(e, DatedAttr), fmt))
    ensures r.classes == e.classes + {SuggestionClass(k)}
    ensures OnlyTouches(e, r, TitleAttr, SuggestionClass(k))
  {
    var title := Tooltip(k, GetAttr(e, ByAttr), GetAttr(e, DatedAttr), fmt);
    SetAttr(AddClass(e, SuggestionClass(k)), TitleAttr, title)
  }

  /** NoteRef (lines 62-67): mark the element and replace its content by the
      superscript reference number. The click listener is modelled by
      Document.ClickNoteRef. */
  function ConnectNoteRef(e: Element): (r: Element)
    ensures r.content == NoteRefLabel(RefNum(GetAttr(e, BidAttr)))
    ensures r.classes == e.classes + {NoteRefClass}
    ensures r.tag == e.tag && r.attrs == e.attrs
  {
    var refNum := RefNum(GetAttr(e, BidAttr));
    AddClass(e, NoteRefClass).(content := NoteRefLabel(refNum))
  }

  /** Footnote (lines 90-95): mark the element and put the bold reference number
      in front of its content. */
  function ConnectFootnote(e: Element): (r: Element)
    ensures |r.content| > |e.content| && r.content[|r.content| - |e.content|..] == e.content
    ensures r.content[..|r.content| - |e.content|] == FootnoteLabel(RefNum(GetAttr(e, BidAttr)))
    ensures r.classes == e.classes + {FootnoteClass}
    ensures r.tag == e.tag && r.attrs == e.attrs
  {
    var refNum := RefNum(GetAttr(e, BidAttr));
    AddClass(e, FootnoteClass).(content := FootnoteLabel(refNum) + e.content)
  }

  /** A noteref's new content depends on its bid only, so connecting it again
      changes nothing. */
  lemma ConnectNoteRefIdempotent(e: Element)
    ensures ConnectNoteRef(ConnectNoteRef(e)) == ConnectNoteRef(e)
  {
  }

  /** Whatever the noteref held before is discarded. */
  lemma ConnectNoteRefDiscardsContent(e: Element, c1: string, c2: string)
    ensures ConnectNoteRef(e.(content := c1)) == ConnectNoteRef(e.(content := c2))
  {
  }

  /** Connecting a footnote twice puts the label in front twice: the step is not
      idempotent. */
  lemma ConnectFootnoteTwice(e: Element)
    ensures var prefix := FootnoteLabel(RefNum(GetAttr(e, BidAttr)));
            ConnectFootnote(ConnectFootnote(e)).content == prefix + prefix + e.content
    ensures ConnectFootnote(ConnectFootnote(e)) != ConnectFootnote(e)
  {
  }

  /** The labelled content of a footnote determines its number and the content it
      had before the label was added. */
  lemma ConnectFootnoteRecoverable(e1: Element, e2: Element)
    requires ConnectFootnote(e1).content == ConnectFootnote(e2).content
    ensures e1.content == e2.content
    ensures RefNum(GetAttr(e1, BidAttr)) == RefNum(GetAttr(e2, BidAttr))
  {
    var n1, n2 := RefNum(GetAttr(e1, BidAttr)), RefNum(GetAttr(e2, BidAttr));
    assert ConnectFootnote(e1).content == FootnoteLabel(n1) + e1.content;
    assert ConnectFootnote(e2).content == FootnoteLabel(n2) + e2.content;
    FootnoteLabelUnambiguous(n1, e1.content, n2, e2.content);
  }

  predicate IsCustomTag(tag: string)
  {
    tag in {CommentStartTag, CommentEndTag, SuggestedDeleteTag, SuggestedInsertTag, NoteRefTag, FootnoteTag}
  }

  /** The callback the registry runs for an element of a defined tag (lines 101-106);
      elements of any other tag are left alone. */
  function Connected(e: Element, fmt: string -> string): (r: Element)
    ensures r.tag == e.tag
    ensures !IsCustomTag(e.tag) ==> r == e
    ensures e.tag == CommentStartTag ==> r == ConnectCommentRef(e, Start)
    ensures e.tag == CommentEndTag ==> r == ConnectCommentRef(e, End)
    ensures e.tag == SuggestedDeleteTag ==> r == ConnectSuggestion(e, Deletion, fmt)
    ensures e.tag == SuggestedInsertTag ==> r == ConnectSuggestion(e, Insertion, fmt)
    ensures e.tag == NoteRefTag ==> r == ConnectNoteRef(e)
    ensures e.tag == FootnoteTag ==> r == ConnectFootnote(e)
  {
    if e.tag == CommentStartTag then ConnectCommentRef(e, Start)
    else if e.tag == CommentEndTag then ConnectCommentRef(e, End)
    else if e.tag == SuggestedDeleteTag then ConnectSuggestion(e, Deletion, fmt)
    else if e.tag == SuggestedInsertTag then ConnectSuggestion(e, Insertion, fmt)
    else if e.tag == NoteRefTag then ConnectNoteRef(e)
    else if e.tag == FootnoteTag then ConnectFootnote(e)
    else e
  }
}
