# partners-slider, modelled in Dafny

The partners-slider block keeps an ordered list of partner records. Each record
has a display position (`index`) and an image URL. It renders the list as a
carousel. This project models the block's list handling as pure functions over
`seq<Partner>`:

- the add button (`PartnerList.Append`);
- the remove button of a slide, which filters out the clicked position and
  moves every record above it down by one (`PartnerList.DropIndex`,
  `PartnerList.Reindex`, `PartnerList.Remove`);
- the media picker of a slide, which drops the slide and stores a copy with
  the new image at the end (`PartnerList.SetImage`, `PartnerList.OnSelect`);
- the editor's display order, a sort by position (`Display.SortByIndex`);
- the saved markup: nothing for an empty list, otherwise a carousel with a
  fixed options template and one slide per record (`Markup.Save`);
- the block's attribute sources, which read the slides back out of the saved
  markup (`Markup.LoadPartners`), and the id source (`Markup.LoadId`). As
  written, the id source looks for class `slide`, which nothing in the saved
  markup has, so the id is not read back; `Markup.IdSourceClassCorrected` is
  the carousel's own class, under which it is (second finding below).

The central invariant is density. The positions of the n records should be a
permutation of 0 .. n-1. `Partners.Dense` states it as "distinct and below n".
`Partners.DenseIsRangePermutation` proves that this is the same as the
positions, counted with repeats, being exactly 0 .. n-1. Adding, removing a
present position and picking an image all keep a dense list dense.

Modules, one per file: `Wrappers` (option type), `Partners` (record, density,
subsequences), `Decimal` (position text), `PartnerList` (the editing
handlers), `Display` (sort), `Markup` (save and reload), `Findings` (two
defects, modelled as written).

Modelling choices:

- A record is `Partner(index: nat, image: string)`. The empty string stands for
  "no image". The block treats a missing image and an empty one alike, because
  both are falsy.
- Positions are natural numbers. After a reload the code holds them as the text
  of a hidden element. Only `Findings` models the consequence of that.
- `autoPlay` is kept as the text spliced into the carousel options.
- The random id is an input. `Markup.EnsureId` takes the random draw as a
  parameter below 100.

Behaviour the code has that a reader might not expect (the model follows the code):

- Removing a position that no record holds is not a no-op in general: records
  above it still move down (`PartnerList.RemoveAbsentShifts`). On a dense list
  it is a no-op (`PartnerList.RemoveAbsentIsNoop`).
- Pressing remove twice with the same position removes two records, because
  the record above moves into the emptied position
  (`PartnerList.RemoveTwiceTakesNeighbour`).
- Picking an image for a record whose position is absent appends a new record
  rather than dropping the update (`PartnerList.SetImageAbsentAppends`).
- Picking an image moves the record to the end of storage. Only the display
  sort restores its place (`Display.SetImageDisplay`).
- `save` writes slides in storage order, not sorted order. Because the edit
  view sorts the stored array in place (block.js:90-91), `save` normally sees
  position order. `Display.SortSortedIsIdentity` shows that sorting such a
  list again changes nothing.

## Model

| member | source | states |
|---|---|---|
| PartnerList.Append | src/block/block.js:174-184 | The result is one longer, the old records are unchanged as a prefix, and the new last record has position equal to the old length and no image. |
| PartnerList.AppendKeepsDense | src/block/block.js:174-184 | Adding a slide to a dense list keeps it dense. |
| PartnerList.AppendThenRemove | src/block/block.js:174-184 | If every position is below the length, removing the slide just added gives back the original list. |
| PartnerList.DropIndex | src/block/block.js:98-99 | The filter drops exactly the records at the target position: no kept record is at the target, the kept records are an in-order subsequence of the input, and the length falls by the number of records at the target. |
| PartnerList.DropIndexKeeps | src/block/block.js:98-99 | The filter keeps only input records, so distinct positions stay distinct and a list sorted by position stays sorted. |
| PartnerList.DropIndexIsUnique | src/block/block.js:98-99 | Any in-order selection that avoids the target and has that length equals the filter's result, so the filter's contract determines it. |
| PartnerList.DropAbsent | src/block/block.js:98-99 | Filtering out a position no record holds returns the list unchanged. |
| PartnerList.DropUniqueAt | src/block/block.js:98-99 | With distinct positions, filtering out record k's position removes exactly record k and keeps the rest in order. |
| PartnerList.Reindex | src/block/block.js:100-106 | Each record above the target moves down by exactly one, each record at or below it keeps its position, and no image changes. |
| PartnerList.Remove | src/block/block.js:97-111 | Removal shortens the list by the number of records at the target, and by at least one when the target is present. |
| PartnerList.RemoveKeepsDense | src/block/block.js:97-106 | If the positions are a permutation of 0..n-1 and the clicked position is among them, the result has n-1 records whose positions are a permutation of 0..n-2. |
| PartnerList.RemoveKeepsSorted | src/block/block.js:98-106 | If storage order agrees with position order before removal, it still agrees afterwards. |
| PartnerList.RemoveAbsentIsNoop | src/block/block.js:98-106 | On a dense list, removing a position that no record holds changes nothing. |
| PartnerList.RemoveAbsentShifts | src/block/block.js:100-104 | On a list with a gap, removing the missing position still moves the record above it down. |
| PartnerList.RemoveMiddleOfThree | src/block/block.js:97-106 | Removing position 1 from the list a, b, c at positions 0, 1, 2 gives a at 0 and c at 1. |
| PartnerList.RemoveTwiceTakesNeighbour | src/block/block.js:97-106 | Removing position 1 twice from the list a, b, c leaves only a. |
| PartnerList.SetImage | src/block/block.js:124-134 | The result's last record has the target's position and the new image. Every other record is an input record not at the target, kept in input order. The length is the input length minus the records at the target, plus one. |
| PartnerList.SetImageMovesLast | src/block/block.js:124-134 | With distinct positions, picking an image for record k keeps the length, stores the other records in their old order with identical fields, and puts record k last with the new image. |
| PartnerList.SetImageKeepsIndices | src/block/block.js:128-133 | Picking an image keeps the multiset of positions, so a dense list stays dense. |
| PartnerList.SetImageAbsentAppends | src/block/block.js:128-133 | If no record holds the target's position, the update is appended as a new record and not dropped. |
| PartnerList.PreferredUrl | src/block/block.js:121-123 | The stored URL is the medium rendition's when the media has one, and the original URL otherwise. |
| PartnerList.OnSelect | src/block/block.js:120-135 | The picker's completion stores a copy of the slide, carrying the preferred URL, as the last record. |
| Display.Insert | src/block/block.js:91 | Inserting into a sorted list gives a sorted list holding the same records plus the new one. |
| Display.SortByIndex | src/block/block.js:90-91 | The display order is non-decreasing by position and is a permutation of the stored records. |
| Display.SortKeepsDense | src/block/block.js:91 | Sorting a dense list gives a dense list. |
| Display.DenseSortedPositions | src/block/block.js:91 | In the display of a dense list, slot j holds the record at position j. |
| Display.SortSortedIsIdentity | src/block/block.js:91 | A list already in position order is left as it is by the sort. |
| Display.SetImageDisplay | src/block/block.js:124-134 | On a dense list, sorting after picking an image gives the old display with only that slide's image replaced. |
| Partners.DenseIsRangePermutation | src/block/block.js:178 | Distinct positions below n are the same thing as positions that form the multiset 0..n-1. |
| Markup.ConfigFlags | src/block/block.js:250 | In the carousel options, `prevNextButtons` and `pageDots` both equal `showButtons` and `autoPlay` is the given text. `groupCells`, `freeScroll`, `draggable` and `contain` are true, and `pauseAutoPlayOnHover` is false. |
| Markup.ConfigIsTemplate | src/block/block.js:250 | The options text is the block's fixed template, with the autoplay text and the button flag spliced in. |
| Markup.RenderCell | src/block/block.js:229-247 | A saved slide's hidden text reads back as its position, and it has an image element exactly when the record has an image, pointing at that image. |
| Markup.Save | src/block/block.js:227-258 | An empty list saves nothing. A non-empty list saves one carousel with the block's id, class `carousel` and the options text, and one slide per record in storage order. Each slide carries the record's position and has an image element exactly when the record has an image. |
| Markup.LoadPartners | src/block/block.js:51-63 | Reading the slides back gives one record per saved slide, with the position read from the hidden text and the image from the image element. The position text is read as a number (the corrected reading; see Left out), so it fails exactly when some position text is not a numeral. |
| Markup.LoadId | src/block/block.js:44-48 | The id is read exactly when the carousel carries the class the source looks for. |
| Markup.SaveLoadRoundTrip | src/block/block.js:51-63 | Saving a non-empty list and reading it back gives the same records in the same order. With the corrected id source (`IdSourceClassCorrected`, not the code's `div.slide`), it also gives the same id. |
| Markup.EnsureId | src/block/block.js:83-88 | An existing id is kept. A block without one gets `partner` followed by the decimal text of the draw. |
| Markup.SaveOneSlide | src/block/block.js:249-256 | One slide with image x.jpg, buttons off and autoplay 3000 saves as one carousel, with the options for 3000 and false and a single slide at position 0 showing x.jpg. |
| Decimal.NatToDecimal | src/block/block.js:235-237 | A position is written as a non-empty run of decimal digits, one digit long exactly when it is below ten. |
| Decimal.ParseDecimal | src/block/block.js:56 | Reading a position's text as a number succeeds exactly on a numeral. The code keeps the text itself; see `Markup.LoadPartners` under Left out. |
| Decimal.DecimalRoundTrip | src/block/block.js:56 | Reading back the written text of a position gives the position. |
| Findings.ShiftLoaded | src/block/block.js:100-104 | As written, after reload a record moves down by one exactly when its position text is lexicographically above the target's, and its image is unchanged. |
| Findings.RemoveLoaded | src/block/block.js:98-106 | The as-written removal after reload has the same length and the same images, slot by slot, as the corrected removal. A record lands where the corrected removal puts it exactly when comparing its position text with the target's text agrees with comparing the positions as numbers. |
| Findings.RemoveLoadedAgreesBelowTen | src/block/block.js:101 | With all positions and the target below ten, the as-written removal agrees with the corrected one. |
| Findings.LoadedRemoveKeepsTen | src/block/block.js:101-102 | After the as-written removal of slide 9 of eleven, the record at position 10 is still at position 10. |
| Findings.LoadedRemoveBreaksDensity | src/block/block.js:97-106 | On eleven reloaded slides, removing slide 9 as written leaves a list that is not dense, and the next add duplicates position 10. The corrected removal leaves a dense list. |
| Findings.IdLostOnReload | src/block/block.js:44-48 | As written, the id source finds nothing in saved markup, so the edit view draws a fresh `partner` id. With the carousel's own class, the saved id is read back. |

## Findings

| source | as written | input that shows it | evidently intended | confidence | as-written member | corrected member |
|---|---|---|---|---|---|---|
| src/block/block.js:101 | After a reload, each position is the text of the hidden `span.partner-index` (line 56), so `t.index > partner.index` compares strings. | Eleven slides at positions 0..10 read back from markup; remove position 9. "10" > "9" is false, so slide 10 stays at 10 and the next add creates a second 10. | Compare the positions as numbers, so slide 10 moves to 9. | medium, not executed | Findings.RemoveLoaded | PartnerList.Remove |
| src/block/block.js:46 | The `id` attribute is read from `div.slide`, but `save` writes the id on `div.carousel` (line 253). | Any saved non-empty block: on reload the id is absent, and the edit view assigns a new random id (lines 83-88). | Read the id from the carousel element, so it stays stable. | medium, not executed | Findings.IdLostOnReload | Markup.SaveLoadRoundTrip |

## Left out

- Markup.LoadPartners: the code keeps each position as the text of the hidden span (block.js:56) and never fails. The model reads that text as a number, which is the corrected reading of the first finding, and fails on text that is not a numeral. On every text `save` writes (`Markup.RenderCell`) the two agree. Hand-edited markup, such as an empty span or `007`, is not modelled as the code sees it.

- JSX rendering, the CSS imports and the block registration (`registerBlockType`, title, icon, keywords). They are UI and host-editor glue.
- The media picker components and the timing of their asynchronous callback. Only the URL choice (`PartnerList.PreferredUrl`) and the resulting list update are modelled.
- `Math.random`. The draw is the `roll` parameter of `Markup.EnsureId`.
- The host attribute store and `setAttributes`. Each handler returns the new list instead of storing it.
- The checkbox toggle of `showButtons` (line 166) and the autoplay text field (line 209). Both are plain attribute writes; their effect on the output is captured by the parameters of `Markup.Save`.
- The attribute defaults (`showButtons` true, `autoPlay` 5000, no partners). The host editor applies them.
- JavaScript coercions other than the one in the first finding. A position is a `nat` throughout; the mix of text and number positions after partial edits is not modelled.
- In-place mutation and aliasing. `t.index -= 1` mutates shared record objects, and `Array.prototype.sort` sorts the stored array in place. Both are modelled as functions returning new sequences.
- The type of `autoPlay`. It is declared as a number but written from free text, so it is modelled as the text spliced into the options.
- The legacy record fields `url`, `title`, `content` and `author` set by the add handler. Nothing reads them, and the attribute query does not restore them.
- Stability of the sort among equal positions is not stated. Dense lists have no equal positions.
- The carousel script that consumes the options attribute.
