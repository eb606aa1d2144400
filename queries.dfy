/**
  The read-only helpers of the SemanticDoc namespace, as functions of the
  document's elements in document order. An element is identified by its
  position, which is what `querySelector` hands back a reference to.
 */
module Queries {
  import opened Elements

  /** The selector `[bid="b"]`, or `tag[bid="b"]` when a tag is given, taken as
      plain equality of the attribute with `b`. A CSS string would also read
      backslash escapes and end at a quote inside `b`; neither is modelled. */
  predicate HasBid(e: Element, tag: Option<string>, b: string)
  {
    (tag.None? || e.tag == tag.value) && GetAttr(e, BidAttr) == Some(b)
  }

  /** querySelector with a bid selector: the first match in document order. */
  function FindByBid(doc: seq<Element>, tag: Option<string>, b: string): (r: Option<nat>)
    ensures r.Some? ==> r.value < |doc| && HasBid(doc[r.value], tag, b)
    ensures r.Some? ==> forall j :: 0 <= j < r.value ==> !HasBid(doc[j], tag, b)
    ensures r.None? ==> forall j :: 0 <= j < |doc| ==> !HasBid(doc[j], tag, b)
  {
    if doc == [] then None
    else if HasBid(doc[0], tag, b) then Some(0)
    else
      match FindByBid(doc[1..], tag, b)
      case None => None
      case Some(i) => Some(i + 1)
  }

  /** getByBid (lines 162-164): the first element whose bid is `b`, of any tag. */
  function GetByBid(doc: seq<Element>, b: string): (r: Option<nat>)
    ensures r.Some? ==> r.value < |doc| && GetAttr(doc[r.value], BidAttr) == Some(b)
    ensures r.Some? ==> forall j :: 0 <= j < r.value ==> GetAttr(doc[j], BidAttr) != Some(b)
    ensures r.None? <==> forall j :: 0 <= j < |doc| ==> GetAttr(doc[j], BidAttr) != Some(b)
  {
    FindByBid(doc, None, b)
  }

  predicate StrictlyIncreasing(s: seq<nat>)
  {
    forall k, l :: 0 <= k < l < |s| ==> s[k] < s[l]
  }

  /** querySelectorAll with a tag selector: the positions of the elements with
      tag `t`, each once, in document order. */
  function TagIndices(doc: seq<Element>, t: string): (r: seq<nat>)
    ensures forall i: nat :: i in r <==> i < |doc| && doc[i].tag == t
    ensures StrictlyIncreasing(r)
    decreases |doc|
  {
    if doc == [] then []
    else
      var n := |doc| - 1;
      var front := TagIndices(doc[..n], t);
      assert forall i: nat :: i < n ==> doc[..n][i] == doc[i];
      assert forall k :: 0 <= k < |front| ==> front[k] < n by {
        forall k | 0 <= k < |front| ensures front[k] < n {
          var i: nat := front[k];
          assert i in front;
        }
      }
      if doc[n].tag == t then front + [n] else front
  }

  /** getFootnotes (lines 167-169). */
  function GetFootnotes(doc: seq<Element>): (r: seq<nat>)
    ensures forall i: nat :: i in r <==> i < |doc| && doc[i].tag == FootnoteTag
    ensures StrictlyIncreasing(r)
  {
    TagIndices(doc, FootnoteTag)
  }

  datatype SuggestedChanges = SuggestedChanges(deletions: seq<nat>, insertions: seq<nat>)

  /** getSuggestedChanges (lines 172-177): the deletion markers and the insertion
      markers, each in document order. */
  function GetSuggestedChanges(doc: seq<Element>): (r: SuggestedChanges)
    ensures forall i: nat :: i in r.deletions <==> i < |doc| && doc[i].tag == SuggestedDeleteTag
    ensures forall i: nat :: i in r.insertions <==> i < |doc| && doc[i].tag == SuggestedInsertTag
    ensures StrictlyIncreasing(r.deletions) && StrictlyIncreasing(r.insertions)
  {
    SuggestedChanges(TagIndices(doc, SuggestedDeleteTag), TagIndices(doc, SuggestedInsertTag))
  }

  /** No element is both a deletion and an insertion, and every suggestion marker
      is one of the two. */
  lemma SuggestedChangesPartition(doc: seq<Element>, i: nat)
    requires i < |doc|
    ensures var r := GetSuggestedChanges(doc);
            !(i in r.deletions && i in r.insertions)
    ensures var r := GetSuggestedChanges(doc);
            doc[i].tag in {SuggestedDeleteTag, SuggestedInsertTag} <==> i in r.deletions || i in r.insertions
  {
  }
}
