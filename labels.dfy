/**
  The strings the custom elements derive from their attributes: the
  reference number of a note reference or footnote, the labels built from
  it, and the tooltip of a suggested change.
 */
module RefLabels {
  import opened Elements

  predicate IsDigit(c: char)
  {
    '0' <= c <= '9'
  }

  predicate AllDigits(s: string)
  {
    forall i :: 0 <= i < |s| ==> IsDigit(s[i])
  }

  predicate HasDigit(s: string)
  {
    exists i :: 0 <= i < |s| && IsDigit(s[i])
  }

  /** The characters of `s` matched by [0-9], in order: `s.replace(/[^0-9]/g, '')`. */
  function DigitsOf(s: string): (r: string)
    ensures AllDigits(r)
    ensures |r| <= |s|
    ensures r == [] <==> !HasDigit(s)
    decreases |s|
  {
    if s == [] then []
    else
      var rest := DigitsOf(s[1..]);
      assert HasDigit(s) <==> IsDigit(s[0]) || HasDigit(s[1..]) by {
        if HasDigit(s[1..]) {
          var i :| 0 <= i < |s[1..]| && IsDigit(s[1..][i]);
          assert IsDigit(s[i + 1]);
        }
        if HasDigit(s) && !IsDigit(s[0]) {
          var i :| 0 <= i < |s| && IsDigit(s[i]);
          assert i > 0 && IsDigit(s[1..][i - 1]);
        }
      }
      if IsDigit(s[0]) then [s[0]] + rest else rest
  }

  /** Filtering distributes over concatenation: the digits are kept in order. */
  lemma {:induction false} DigitsOfAppend(a: string, b: string)
    ensures DigitsOf(a + b) == DigitsOf(a) + DigitsOf(b)
    decreases |a|
  {
    if a == [] {
      assert a + b == b;
    } else {
      assert (a + b)[1..] == a[1..] + b;
      DigitsOfAppend(a[1..], b);
    }
  }

  /** A string of digits only is left as it is. */
  lemma {:induction false} DigitsOfAllDigits(s: string)
    requires AllDigits(s)
    ensures DigitsOf(s) == s
    decreases |s|
  {
    if s != [] {
      DigitsOfAllDigits(s[1..]);
    }
  }

  /** The reference number of a noteref or footnote (semantic-doc.js lines 66 and 94):
      the digits of `bid`, or "1" when `bid` is absent, empty or holds no digit. */
  function RefNum(bid: Option<string>): (r: string)
    ensures r != [] && AllDigits(r)
    ensures bid.Some? && HasDigit(bid.value) ==> r == DigitsOf(bid.value)
    ensures !(bid.Some? && HasDigit(bid.value)) ==> r == "1"
  {
    if Truthy(bid) then
      var digits := DigitsOf(bid.value);
      if digits != "" then digits else "1"
    else "1"
  }

  /** A reference number used as a bid gives itself back. */
  lemma RefNumFixpoint(bid: Option<string>)
    ensures RefNum(Some(RefNum(bid))) == RefNum(bid)
  {
    var n := RefNum(bid);
    assert IsDigit(n[0]);
    DigitsOfAllDigits(n);
  }

  /** Two bids with the same digits give the same number. */
  lemma RefNumDependsOnDigits(a: string, b: string)
    requires DigitsOf(a) == DigitsOf(b)
    ensures RefNum(Some(a)) == RefNum(Some(b))
  {
  }

  /** A digit-free prefix of the bid (such as "note") never shows in the number. */
  lemma RefNumIgnoresNonDigits(prefix: string, bid: string)
    requires !HasDigit(prefix)
    ensures RefNum(Some(prefix + bid)) == RefNum(Some(bid))
  {
    DigitsOfAppend(prefix, bid);
    RefNumDependsOnDigits(prefix + bid, bid);
  }

  lemma RefNumExamples()
    ensures RefNum(Some("note3")) == "3"
    ensures RefNum(Some("abc")) == "1"
    ensures RefNum(Some("")) == "1"
    ensures RefNum(None) == "1"
  {
  }

  const NoteRefOpen := "<sup>["
  const NoteRefClose := "]</sup>"
  const FootnoteOpen := "<strong>["
  const FootnoteClose := "]</strong> "

  /** The whole content of a connected noteref (line 67). */
  function NoteRefLabel(n: string): (r: string)
    ensures |r| == |n| + 13
    ensures r[..6] == NoteRefOpen && r[6..6 + |n|] == n && r[6 + |n|..] == NoteRefClose
  {
    NoteRefOpen + n + NoteRefClose
  }

  /** The prefix a connected footnote puts before its content (line 95). */
  function FootnoteLabel(n: string): (r: string)
    ensures |r| == |n| + 20
    ensures r[..9] == FootnoteOpen && r[9..9 + |n|] == n && r[9 + |n|..] == FootnoteClose
  {
    FootnoteOpen + n + FootnoteClose
  }

  /** Distinct numbers give distinct noteref contents. */
  lemma NoteRefLabelInjective(n1: string, n2: string)
    requires NoteRefLabel(n1) == NoteRefLabel(n2)
    ensures n1 == n2
  {
  }

  /** In a labelled footnote the first ']' after the opening bracket is the one
      that closes the number, because the number is made of digits. */
  lemma FootnoteCloseBracket(n: string, c: string)
    requires AllDigits(n)
    ensures var s := FootnoteLabel(n) + c;
            && |s| > 9 + |n| && s[9 + |n|] == ']'
            && forall j :: 9 <= j < 9 + |n| ==> s[j] != ']'
  {
  }

  /** A footnote's labelled content determines both its number and the content
      it had before: the number holds no ']' so the label cannot be misread. */
  lemma FootnoteLabelUnambiguous(n1: string, c1: string, n2: string, c2: string)
    requires AllDigits(n1) && AllDigits(n2)
    requires FootnoteLabel(n1) + c1 == FootnoteLabel(n2) + c2
    ensures n1 == n2 && c1 == c2
  {
    var s := FootnoteLabel(n1) + c1;
    FootnoteCloseBracket(n1, c1);
    FootnoteCloseBracket(n2, c2);
    assert |n1| == |n2|;
    assert n1 == s[9..9 + |n1|] == n2;
    assert c1 == s[|n1| + 20..] == c2;
  }

  /** Which suggested change an element marks. */
  datatype Suggestion = Deletion | Insertion

  function SuggestionLabel(k: Suggestion): (r: string)
    ensures |r| >= 11 && r[..10] == "Suggested "
    ensures r[10] == (if k == Deletion then 'd' else 'i')
  {
    match k
    case Deletion => "Suggested deletion"
    case Insertion => "Suggested insertion"
  }

  /** The tooltip of a suggested change (lines 36-39 and 52-55): the label, then
      " by " and the author when `author` is truthy, then " on " and the formatted
      date when `dated` is truthy. `fmt` stands for `new Date(d).toLocaleDateString()`. */
  function Tooltip(k: Suggestion, author: Option<string>, dated: Option<string>, fmt: string -> string): (r: string)
    ensures var n := |SuggestionLabel(k)|;
            |r| >= n && r[..n] == SuggestionLabel(k)
    ensures var n := |SuggestionLabel(k)|;
            Truthy(author) ==> |r| >= n + 4 + |author.value| && r[n..n + 4 + |author.value|] == " by " + author.value
    ensures Truthy(dated) ==> var on := " on " + fmt(dated.value);
                              |r| >= |on| && r[|r| - |on|..] == on
    ensures !Truthy(dated) && Truthy(author) ==> r == SuggestionLabel(k) + " by " + author.value
    ensures !Truthy(dated) && !Truthy(author) ==> r == SuggestionLabel(k)
    ensures Truthy(dated) && !Truthy(author) ==> r == SuggestionLabel(k) + " on " + fmt(dated.value)
    ensures Truthy(dated) && Truthy(author) ==> r == SuggestionLabel(k) + " by " + author.value + " on " + fmt(dated.value)
  {
    var title := SuggestionLabel(k);
    var title := if Truthy(author) then title + " by " + author.value else title;
    if Truthy(dated) then title + " on " + fmt(dated.value) else title
  }

  /** The author part is there exactly when `author` is truthy: without it the
      label is followed by nothing or by " on ", never by " by ". */
  lemma TooltipHasAuthorIff(k: Suggestion, author: Option<string>, dated: Option<string>, fmt: string -> string)
    ensures var r := Tooltip(k, author, dated, fmt);
            var n := |SuggestionLabel(k)|;
            Truthy(author) <==> |r| >= n + 4 && r[n..n + 4] == " by "
  {
  }

  /** The date part is there exactly when `dated` is truthy. */
  lemma TooltipHasDateIff(k: Suggestion, author: Option<string>, dated: Option<string>, fmt: string -> string)
    ensures var r := Tooltip(k, author, dated, fmt);
            Truthy(dated) <==> |r| > |SuggestionLabel(k)| + (if Truthy(author) then 4 + |author.value| else 0)
  {
  }

  /** Deletion and insertion tooltips never coincide. */
  lemma TooltipKindDistinct(author1: Option<string>, dated1: Option<string>, author2: Option<string>, dated2: Option<string>, fmt: string -> string)
    ensures Tooltip(Deletion, author1, dated1, fmt) != Tooltip(Insertion, author2, dated2, fmt)
  {
  }
}
