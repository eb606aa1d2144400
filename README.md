# semantic-doc: a Dafny model of the semantic document enhancer

`semantic-doc.js` decorates a server-rendered "semantic document". This is HTML with custom tags for comment boundaries, suggested edits, footnotes and list paragraphs. The script adds CSS classes, mirrored `data-*` attributes, tooltips and reference labels. It also exposes a few query and navigation helpers on `window.SemanticDoc`.

This project models the deterministic rules under that browser plumbing. The document is a sequence of elements. Each element has a lower-case tag, an attribute map from string to string, a class set and an opaque content string (its inner markup).

- `Elements` (elements.dfy): the element value, `getAttribute` as an `Option`, and how `setAttribute` stringifies a null value to the text `"null"`. It also holds JavaScript truthiness of an attribute read.
- `RefLabels` (labels.dfy): the reference number derived from `bid`, the `<sup>[n]</sup>` and `<strong>[n]</strong> ` labels, and the suggestion tooltip.
- `Callbacks` (callbacks.dfy): the six `connectedCallback` bodies, each as the update it makes to its element, and the dispatch by tag name.
- `Passes` (passes.dfy): the three attribute-mirroring passes and the comment toggle, stated per element. This module also holds the lemmas on idempotence, commutation and what start-up establishes.
- `Queries` (queries.dfy): `getByBid`, `getFootnotes`, `getSuggestedChanges` and the footnote lookup of the noteref click handler. Each is a function of the element sequence and returns positions in document order.
- `SemanticDocument` (document.dfy): a `Document` class over an `array<Element>`, updated in place. Its loop methods carry the forEach passes and `toggleComments`. `Connect` runs one callback, and `NavigateToBid` and `ClickNoteRef` apply their immediate highlight.

The date part of a tooltip is appended whenever `dated` is non-empty, even when the date does not parse (semantic-doc.js:38, :54); `toLocaleDateString` then gives "Invalid Date", which is one of the values of the formatter parameter `fmt`.

## Model

| member | source | states |
|---|---|---|
| `Elements.AttrText` | semantic-doc.js:12-13 | the stored text reads back as the `bid` it came from, except that an absent `bid` and the `bid` "null" leave the same text "null" |
| `RefLabels.DigitsOf` | semantic-doc.js:66 | the result holds digits only, is no longer than the input, and is empty exactly when the input has no digit |
| `RefLabels.DigitsOfAppend` | semantic-doc.js:66 | removing non-digits distributes over concatenation, so the digits keep their order |
| `RefLabels.DigitsOfAllDigits` | semantic-doc.js:66 | a string made only of digits is left unchanged |
| `RefLabels.RefNum` | semantic-doc.js:94 | the reference number is never empty and holds digits only; it is the digits of `bid` when `bid` has one, otherwise "1" (absent or empty `bid` included) |
| `RefLabels.RefNumFixpoint` | semantic-doc.js:66 | a reference number used as a `bid` gives itself back |
| `RefLabels.RefNumDependsOnDigits` | semantic-doc.js:66 | two bids with the same digits give the same number |
| `RefLabels.RefNumIgnoresNonDigits` | semantic-doc.js:94 | a digit-free prefix of `bid` does not change the number |
| `RefLabels.RefNumExamples` | semantic-doc.js:66 | `note3` gives "3"; `abc`, the empty string and an absent bid give "1" |
| `RefLabels.NoteRefLabel` | semantic-doc.js:67 | the noteref content is `<sup>[`, the number, then `]</sup>`, located by position |
| `RefLabels.FootnoteLabel` | semantic-doc.js:95 | the footnote prefix is `<strong>[`, the number, then `]</strong> `, located by position |
| `RefLabels.NoteRefLabelInjective` | semantic-doc.js:67 | distinct numbers give distinct noteref contents |
| `RefLabels.FootnoteCloseBracket` | semantic-doc.js:95 | in labelled footnote content, the first `]` after the opening bracket is the one that closes the number |
| `RefLabels.FootnoteLabelUnambiguous` | semantic-doc.js:95 | labelled footnote content determines both the number and the earlier content |
| `RefLabels.SuggestionLabel` | semantic-doc.js:52 | the label starts with "Suggested " and its 11th character tells deletion from insertion |
| `RefLabels.Tooltip` | semantic-doc.js:36-39 | the tooltip starts with the label; ` by <author>` follows it when `by` is truthy; it ends with ` on <fmt(dated)>` when `dated` is truthy; in each of the four cases its exact value is the parts present, in the order label, by, on |
| `RefLabels.TooltipHasAuthorIff` | semantic-doc.js:37 | ` by ` follows the label if and only if `by` is truthy |
| `RefLabels.TooltipHasDateIff` | semantic-doc.js:38 | the date part is present if and only if `dated` is truthy |
| `RefLabels.TooltipKindDistinct` | semantic-doc.js:52-55 | a deletion tooltip never equals an insertion tooltip |
| `Callbacks.ConnectCommentRef` | semantic-doc.js:11-15 | `data-comment-start`/`-end` equals `bid`, or "null" when `bid` is absent; the class is added; no other attribute, class, tag or content changes |
| `Callbacks.ConnectSuggestion` | semantic-doc.js:44-56 | `title` is the tooltip built from `by` and `dated`; the class is added; nothing else changes |
| `Callbacks.ConnectNoteRef` | semantic-doc.js:61-68 | the content becomes the noteref label of the reference number, whatever it held; `note-ref` is added; the attributes are unchanged |
| `Callbacks.ConnectFootnote` | semantic-doc.js:89-96 | the old content is a proper suffix of the new one; the part before it is the footnote label; `footnote` is added |
| `Callbacks.ConnectNoteRefIdempotent` | semantic-doc.js:67 | connecting a noteref twice gives the same element as connecting it once |
| `Callbacks.ConnectNoteRefDiscardsContent` | semantic-doc.js:67 | the result does not depend on the noteref's earlier content |
| `Callbacks.ConnectFootnoteTwice` | semantic-doc.js:95 | connecting a footnote twice prefixes the label twice, so the step is not idempotent |
| `Callbacks.ConnectFootnoteRecoverable` | semantic-doc.js:95 | equal labelled contents come from equal earlier contents and equal reference numbers |
| `Callbacks.Connected` | semantic-doc.js:100-106 | each defined tag's element becomes that tag's callback result (comment start/end, deletion/insertion, noteref, footnote); elements of other tags are untouched; the tag never changes |
| `Passes.Mirror` | semantic-doc.js:124-130 | a selected element gets the target attribute equal to the source attribute, plus the class, and nothing else; an element that is not selected is unchanged |
| `Passes.MirrorIdempotent` | semantic-doc.js:114-140 | running a mirroring pass twice equals running it once |
| `Passes.MirrorCommute` | semantic-doc.js:143-145 | two passes that do not read or write each other's attributes commute |
| `Passes.EnhancedEstablishes` | semantic-doc.js:114-140 | after start-up, each `[bid]` element has `data-bid` = `bid` and `semantic-element`, each `p[listParaNum]` has `data-list-num` and `list-paragraph`, and each `[plainTextView]` has `data-plain-text` and `has-plain-text`; an element no pass selects is unchanged |
| `Passes.EnhancedOrderIrrelevant` | semantic-doc.js:143-145 | all six orders of the three start-up passes give the same element |
| `Passes.EnhancedIdempotent` | semantic-doc.js:143-145 | running start-up twice equals running it once |
| `Passes.Toggle` | semantic-doc.js:152-158 | a comment marker carries `comments-visible` exactly when `show`; no other class and no other element changes |
| `Passes.ToggleLastWins` | semantic-doc.js:150-159 | two toggles in a row equal the second one alone |
| `Passes.ToggleShowHide` | semantic-doc.js:153-157 | showing then hiding restores an element if and only if it is not a marker that already carried the class |
| `Queries.FindByBid` | semantic-doc.js:71 | the result is the first position whose element matches the tag and has that `bid`, or none when no element matches |
| `Queries.GetByBid` | semantic-doc.js:162-164 | the result is the first element in document order whose `bid` equals `b`; it is none if and only if no element has that `bid` |
| `Queries.TagIndices` | semantic-doc.js:168 | a position is in the result if and only if its element has the tag; the positions are strictly increasing |
| `Queries.GetFootnotes` | semantic-doc.js:167-169 | the result holds exactly the `footnote` positions, in document order |
| `Queries.GetSuggestedChanges` | semantic-doc.js:172-177 | deletions are exactly the `suggesteddelete` positions and insertions exactly the `suggestedinsert` positions, each in document order |
| `Queries.SuggestedChangesPartition` | semantic-doc.js:174-175 | no position is in both lists, and a position is in one of them exactly when its element is a suggestion marker |
| `SemanticDocument.Document.RunPass` | semantic-doc.js:116-120 | every array element becomes the pass applied to its old value |
| `SemanticDocument.Document.EnhanceListParagraphs` | semantic-doc.js:114-121 | every element becomes the list-paragraph pass applied to its old value |
| `SemanticDocument.Document.EnhanceBidElements` | semantic-doc.js:124-130 | every element becomes the bid pass applied to its old value |
| `SemanticDocument.Document.HandlePlainTextView` | semantic-doc.js:133-140 | every element becomes the plain-text pass applied to its old value |
| `SemanticDocument.Document.Initialize` | semantic-doc.js:143-145 | every element is enhanced; every `[bid]`, `p[listParaNum]` and `[plainTextView]` element carries its mirror attribute and class |
| `SemanticDocument.Document.ToggleComments` | semantic-doc.js:150-159 | every element becomes its toggled old value |
| `SemanticDocument.Document.Connect` | semantic-doc.js:100-106 | only the element at `i` changes, and it becomes its connected value |
| `SemanticDocument.Document.NavigateToBid` | semantic-doc.js:180-192 | a miss leaves the document unchanged; a hit adds `navigation-target` to the first element with that `bid` and changes nothing else |
| `SemanticDocument.Document.ClickNoteRef` | semantic-doc.js:70-83 | adds `footnote-highlighted` to the first `footnote` whose `bid` equals the captured `bid` (`"null"` when it was absent); changes nothing when there is none |

## Left out

- Custom-element registration is not modelled: the `customElements.define` calls, their try/catch and the console logging (semantic-doc.js:100-111). `Connect` stands for the registry running one callback. Browsers require a hyphen in custom element names, so these hyphen-less names would be refused at the first `define`. The model assumes the callbacks run.
- `DOMContentLoaded` wiring and the global `window.SemanticDoc` object: lifecycle and namespace plumbing.
- `scrollIntoView` and the `setTimeout` that removes the highlight after 2000 ms: they depend on layout and the event loop. Only the immediate `classList.add` is modelled.
- Date parsing and `toLocaleDateString`: they depend on the host locale. They appear as the uninterpreted parameter `fmt`.
- CSS selector matching and HTML parsing of `innerHTML`. Content is an opaque string. A selector with an interpolated `bid` (semantic-doc.js:71, :163) is modelled as plain equality: the source escapes neither quotes nor backslashes in `bid`, so a `bid` holding a quote breaks the selector and one holding a backslash escape such as `a\62` selects `bid="ab"`; neither case is modelled.
- Nesting of elements: the document is a flat sequence. Assigning `innerHTML` (semantic-doc.js:67, :95) replaces an element's descendants, so elements nested in a noteref leave the page and those in a footnote are rebuilt from their markup. In the model such elements stay in the sequence, so `GetByBid` can still find a `[bid]` element nested in a noteref that the page no longer has.
- Click-listener registration: `ClickNoteRef` takes the `bid` the listener captured as its argument.
- Element identity: elements are values at array positions, and the query helpers return positions rather than live references. Aliasing between DOM nodes is not modelled.
- HTML case folding of attribute and tag names: the model uses one spelling per name. The class list is a set, so its order is not modelled.
- `SemanticDocument.Document.ToggleComments`: takes a `bool`; JavaScript truthiness of other `show` values is not modelled, and the default `true` is left to the caller.
