# Bill OCR extractor: the text-to-line-item pipeline in Dafny

The extractor reads the OCR text of each page of a hospital or pharmacy bill
and turns it into line items: a name, a quantity, a rate and an amount. This
project models everything it does between the OCR text and the JSON reply:

- `clean_num`, which turns a token such as `"1,234.56"` into a number;
- the two line patterns, `numeric_suffix_re` (a full item line) and
  `amount_only_re` (the amount that completes a name wrapped onto the line
  before). They are modelled as conditions on the whitespace-separated tokens
  at the end of a line. Lemmas prove that these conditions are exactly what the
  patterns accept on a stripped line;
- `parse_page_text`, the one-slot state machine over the lines of a page;
- `is_junk_page` and `normalize_name`;
- the body of `extract_bill_data` after OCR:
  - the loop over the pages, which skips junk pages, tags the items of each
    page with its 1-based number and keeps a record per page;
  - the de-duplication loop, keyed on the normalized name and the amount;
  - the count and the total.

Modules follow the program's structure.

| module | file | models |
|---|---|---|
| `Text` | `text.dfy` | `isspace`/`\s`, `lower`, `strip`, `in`, `splitlines`, `str(i)` |
| `Numbers` | `numbers.dfy` | `clean_num` |
| `Shapes` | `shapes.dfy` | the two regexes |
| `Classify` | `classify.dfy` | the header test and `is_junk_page` |
| `Names` | `names.dfy` | `normalize_name` |
| `Parser` | `parser.dfy` | `parse_page_text` |
| `Collections` | `collections.dfy` | keeping the pages a test does not reject, and keeping the first entry of each key, stated for any element type |
| `Extract` | `extract.dfy` | the page loop, de-duplication, count and total |

The loops of `parse_page_text` and `extract_bill_data` are methods with loop
invariants, and each method is proved equal to a specification function:

- `ParsePageText`, the loop over the lines of a page, computes `Parse(PageLines(text))`;
- `CollectPages`, the loop over the pages, computes `Pagewise(texts)` and
  `PageItems(Pagewise(texts))`. Its inner loop over the items of a page is the
  method `TagPage`, which computes `Tag(items, no)` and appends it;
- `Deduplicate`, the de-duplication loop, computes `Dedup(collected)`.

The properties the program promises are lemmas about those functions. The
OCR output becomes the method's input: a sequence of page texts.

The model follows the code where the code and its documentation could be read
differently. A name on one line followed by a bare amount such as `"500.00"` on
the next gives no item. The bare amount has no whitespace, so `amount_only_re`
does not match it, and it replaces the buffered name
(`Parser.WrappedBareAmountIsLost`). The items inside each page record carry
`_page_no` too, because the code writes that field into the same dictionaries
that the record lists.

## Model

| member | source | states |
|---|---|---|
| Text.NatToStringRoundTrip | app/main.py:170 | `str(i)` is a string of decimal digits, has no leading zero unless `i` is 0, and reads back as `i` |
| Text.NatToStringInjective | app/main.py:170-174 | distinct page numbers give distinct `str(i)` strings |
| Text.LowerCases | app/main.py:63 | `lower` keeps the length, turns each capital `A`-`Z` into the small letter 32 code points on, leaves every other character as it is, and leaves no capital behind |
| Text.LowerIdempotent | app/main.py:63 | lowercasing twice is lowercasing once |
| Text.LowerAppend | app/main.py:63 | lowercasing works character by character: the lowercase of a concatenation is the concatenation of the lowercase parts |
| Text.Strip | app/main.py:58 | `strip()` returns a stripped slice of the input, with only whitespace before and after it |
| Text.ContainsSpec | app/main.py:64 | `x in low` holds exactly when `x` occurs at some index of `low` |
| Text.ContainsLower | app/main.py:104-105 | a substring of a text is, lowercased, a substring of the lowercased text |
| Text.SplitAtBreaks | app/main.py:58 | the text is split at every line-break character: no piece holds a break, and joining the pieces with the breaks gives back the text |
| Text.SplitAtBreaksNoBreak | app/main.py:58 | a text with no line break is a single piece |
| Text.StripNoBreak | app/main.py:58 | stripping a piece without line breaks leaves none |
| Numbers.RemoveCharSpec | app/main.py:41 | `replace(c, "")` leaves no `c`, adds no character, and keeps the digits when `c` is not a digit |
| Numbers.RemoveCharOne | app/main.py:41 | a single character is dropped when it is `c` and kept otherwise |
| Numbers.RemoveCharAppend | app/main.py:41 | removing `c` from a concatenation removes it from each part. With `RemoveCharOne`, this fixes the result on every string: every other character stays, in order |
| Numbers.RemoveAllSpec | app/main.py:41 | `replace("â‚¹", "")` adds no character and keeps the digits |
| Numbers.RemoveAllNone | app/main.py:41 | a text in which the removed string does not occur is left unchanged |
| Numbers.RemoveAllFirst | app/main.py:41 | when the leftmost occurrence starts at `i`, the result is the text before `i` followed by the removal applied afresh to the text after the occurrence |
| Numbers.MojibakeMayRemain | app/main.py:41 | `replace` does not remove occurrences that form only once an earlier one is removed: the mojibake rupee with another one inside it cleans to one mojibake rupee |
| Numbers.Clean | app/main.py:41 | the cleaned string is the three removals in the source's order: commas, then the mojibake rupee, then dollar signs. It has no `,` and no `$`, and the same digits in the same order |
| Numbers.CleanNumNone | app/main.py:38-43 | `clean_num(s)` is `None` exactly when `s` is empty or holds no digit |
| Numbers.CleanNumFirstNumeral | app/main.py:41-43 | otherwise `clean_num(s)` is the value of the leftmost match of `[-+]?\d*\.\d+\|\d+` in the cleaned string, taken as long as possible |
| Numbers.FirstMatchSpec | app/main.py:42 | the scan finds no match exactly when no digit is left; a match it finds is a numeral, no numeral starts earlier, and none from the same start is longer |
| Numbers.MatchEndExact | app/main.py:42 | the match at a position ends at the end of the longest numeral starting there |
| Numbers.DecimalExact | app/main.py:42 | the `\d*\.\d+` alternative at a position matches exactly the slices between its shortest and longest end |
| Numbers.DigitEndExact | app/main.py:42 | the `\d+` alternative ends at the first non-digit |
| Numbers.LeadDigitsUnique | app/main.py:42 | the run of leading digits has exactly one length |
| Numbers.CleanNumWhole | app/main.py:41-43 | a numeral with nothing to remove converts to its own value |
| Numbers.CleanNumEmpty | app/main.py:39-43 | `clean_num("")` and `clean_num("N/A")` are `None` |
| Numbers.CleanNumThousands | app/main.py:41-43 | `clean_num("1,234")` is 1234.0 (the comma is dropped) |
| Numbers.CleanNumRupeeSign | app/main.py:41-43 | a real `₹` is not removed (only its mojibake is), but the number after it is still found: `clean_num("₹1,234")` is 1234.0 |
| Numbers.CleanNumLeadingDot | app/main.py:42-43 | `clean_num(".5")` is 0.5 |
| Numbers.CleanNumSignOnlyOnDecimals | app/main.py:42-43 | the sign belongs only to the decimal alternative: `clean_num("-5")` is 5.0 and `clean_num("-5.5")` is -5.5 |
| Numbers.CleanNumThreeHundred | app/main.py:41-43 | `clean_num("300.00")` is 300.0 |
| Numbers.CleanNumFiveHundred | app/main.py:41-43 | `clean_num("500.00")` is 500.0 |
| Numbers.CleanNumDecimalThousands | app/main.py:41-43 | `clean_num("1,234.56")` is 1234.56 |
| Numbers.CleanNumMojibakeRupee | app/main.py:41-43 | the mojibake `â‚¹` is removed together with the separator: `clean_num("â‚¹1,234.56")` is 1234.56 |
| Numbers.CleanNumOne | app/main.py:41-43 | `clean_num("1")` is 1.0 |
| Shapes.QuantityTokenIsNumeral | app/main.py:48 | a `qty` group is a numeral with nothing for `clean_num` to remove |
| Shapes.SplitLastSpec | app/main.py:47 | the line splits into `(p, w)` exactly when it is `p`, a whitespace run and a non-space token `w`, with `p` non-empty and ending in a non-space character, as the greedy `(.*\S)\s+` before the last group does |
| Shapes.OneTokenNoSplit | app/main.py:47 | a line without whitespace has no such split |
| Shapes.AmountOnlySpec | app/main.py:54 | `amount_only_re` gives `(prefix, net)` exactly when the line is a prefix, a gap and a `[-\d,\.]+` token |
| Shapes.FullItemSpec | app/main.py:46-52 | `numeric_suffix_re` gives `(prefix, qty, rate, discount, net)` exactly when the line is a prefix and four gap-separated tokens of the right shapes |
| Shapes.FullItemComplete | app/main.py:46-52 | every line built from a prefix, four gaps and four well-shaped tokens matches, with those groups |
| Shapes.BareAmountNoMatch | app/main.py:54 | a line without whitespace never matches `amount_only_re` |
| Shapes.BareAmountExample | app/main.py:54 | `"500.00"` on its own does not match `amount_only_re` |
| Shapes.OneTokenNoFullItem | app/main.py:46-52 | a line without whitespace never matches `numeric_suffix_re` |
| Shapes.TwoTokensNoFullItem | app/main.py:46-52 | a line of two tokens never matches `numeric_suffix_re` |
| Shapes.NoAmountAtEnd | app/main.py:46-54 | a line that does not end in `-`, a digit, `,` or `.` matches neither pattern |
| Shapes.FullItemEnds | app/main.py:51 | a full item line ends in a `[-\d,\.]` character |
| Shapes.AmountOnlyEnds | app/main.py:54 | an amount line ends in a `[-\d,\.]` character |
| Classify.HeaderLineExactly | app/main.py:63-64 | a line is a header exactly when one of the six words occurs at some index of its lowercase form |
| Classify.HeaderWordMakesHeader | app/main.py:63-64 | a line that contains one of the six header words is a header, whatever the case of its other letters |
| Classify.NotHeaderLine | app/main.py:64 | a line with no `q`, `r` or `t` in its lowercase form is not a header |
| Classify.CorporateIsHeader | app/main.py:64 | `"Corporate Ward"` is a header, because it contains `rate` |
| Classify.GrandTotalIsHeader | app/main.py:64 | `"Grand Total 525.00"` is a header |
| Classify.JunkPageExactly | app/main.py:95-105 | a page is junk exactly when one of the five phrases occurs at some index of its lowercased text |
| Classify.JunkPhraseMakesJunk | app/main.py:95-105 | a page whose text contains one of the five phrases is junk, whatever the case of its other letters |
| Names.ReplaceUnkeptKeeps | app/main.py:109 | after the first substitution only `[a-zA-Z0-9 ]` is left |
| Names.ReplaceUnkeptFixes | app/main.py:109 | the substitution leaves a string of kept characters unchanged |
| Names.LowerKept | app/main.py:109 | lowercasing it leaves only `[a-z0-9 ]` |
| Names.CollapseKeeps | app/main.py:110 | collapsing whitespace keeps those characters and leaves no two spaces in a row |
| Names.StripKeeps | app/main.py:111 | stripping then leaves no space at either end |
| Names.NormalizeNameIsKey | app/main.py:108-111 | every normalized name is lowercase letters, digits and single inner spaces, with no space at either end |
| Names.NormalizeKey | app/main.py:108-111 | such a key normalizes to itself |
| Names.NormalizeNameIdempotent | app/main.py:108-111 | normalizing twice is normalizing once |
| Names.NormalizeTwoWords | app/main.py:108-111 | two words separated by punctuation, with punctuation after, normalize to the two lowercased words and one space |
| Names.NormalizeNameExample | app/main.py:108-111 | `"Paracetamol-500MG!!"` normalizes to `"paracetamol 500mg"` |
| Parser.StrippedLines | app/main.py:58 | the pieces that survive are non-empty, stripped and free of line breaks, and there are no more of them than pieces |
| Parser.StrippedLinesKept | app/main.py:58 | the lines are the generic keep-filter over the pieces: a blank piece is dropped, any other gives its strip, in order |
| Parser.StrippedLinesSpec | app/main.py:58 | line `j` is the strip of the piece at the `j`-th kept position; these positions increase; a piece is kept exactly when its strip is non-empty |
| Parser.PageLines | app/main.py:58 | every line handed to the loop is non-empty, stripped and free of line breaks |
| Parser.PageLinesKept | app/main.py:58 | the lines of a page are the strips of its non-blank pieces, in order |
| Parser.PageLinesOne | app/main.py:58 | a text with no line break gives its own strip, or no line when that strip is empty |
| Parser.ParsePageText | app/main.py:57-92 | the loop returns `Parse(PageLines(text))`, the items produced by running the state machine over the classified lines |
| Parser.ParseLine | app/main.py:63-90 | one pass of the loop body: the new buffer and the items found are those of one state-machine step on the line's kind (header, full item line, amount line, or other) |
| Parser.StepHeader | app/main.py:63-66 | a header line empties the buffer and emits nothing (one unfolding of `Advance`, used by the loop proof; `HeaderSplit` is its partner) |
| Parser.StepFull | app/main.py:68-77 | a non-header full item line emits its item and empties the buffer (one unfolding step; `FullLineSplit` is its partner) |
| Parser.StepJoined | app/main.py:79-88 | an amount line after a set buffer emits the joined item and empties the buffer (one unfolding step; `WrappedPair` is its partner) |
| Parser.StepBuffered | app/main.py:90 | any other line becomes the buffer and emits nothing (one unfolding step; `OverwriteLoss` is its partner) |
| Parser.RunBuffer | app/main.py:60-90 | the buffer is empty or holds the last line read |
| Parser.HeaderSplit | app/main.py:63-66 | a header line contributes no item and cuts the page in two independent halves |
| Parser.FullLineSplit | app/main.py:68-77 | a full item line contributes exactly its item, whatever the buffer, and cuts the page in two |
| Parser.WrappedPair | app/main.py:79-88 | a plain line followed by an amount line contributes exactly the joined item, and cuts the page in two |
| Parser.OverwriteLoss | app/main.py:90 | of two plain lines in a row the first is lost: it changes nothing |
| Parser.OtherPair | app/main.py:90 | two plain lines alone give no item |
| Parser.WrappedAlone | app/main.py:79-88 | a plain line and an amount line alone give the one joined item |
| Parser.FullAlone | app/main.py:68-77 | a full item line alone gives its item |
| Parser.AdvanceGrows | app/main.py:62-90 | one line either adds nothing or appends exactly one entry, which that line gives |
| Parser.ParseOrigin | app/main.py:62-92 | there are no more items than lines, and each item comes from one line: its full item match, or its amount match joined to the line before |
| Parser.FullLineName | app/main.py:71 | a full item's name is the stripped prefix and is never empty |
| Parser.JoinedName | app/main.py:82 | a joined item's name is never empty |
| Parser.ParseNames | app/main.py:70-86 | every parsed item has a non-empty name and no page number yet |
| Parser.FullLineQuantity | app/main.py:72 | the quantity of a full item is the value of its `qty` token |
| Parser.WrappedBareAmountIsLost | app/main.py:54-90 | the lines `"Ambulance Fee"` and `"500.00"` give no item |
| Parser.WrappedNameExample | app/main.py:79-88 | the lines `"Ambulance"` and `"Fee 500.00"` give one item, `"Ambulance Fee"` with quantity 1.0, no rate and amount 500.0 |
| Parser.FullLineExample | app/main.py:68-77 | the line `"ECG 1 300.00 0 300.00"` gives `"ECG"` with quantity 1.0, rate 300.0 and amount 300.0 |
| Parser.ParacetamolItem | app/main.py:68-75 | the line `"Paracetamol 500mg 10 2.50 0 25.00"` matches, and its item is `"Paracetamol 500mg"` with quantity 10.0, rate 2.5 and amount 25.0: the greedy prefix keeps the strength in the name |
| Collections.KeptBySnoc | app/main.py:161-177 | one more page adds nothing when it is rejected, and its record otherwise (one unfolding step; `KeptBySpec` is its partner) |
| Collections.KeptByEntry | app/main.py:161-177 | record `j` is `f` applied to the position and the entry of the `j`-th kept entry |
| Collections.KeptBySpec | app/main.py:161-177 | the records are those of the pages not rejected, in increasing page order, each built from its own page number and text; a page is among them exactly when it is not rejected |
| Collections.KeptByNone | app/main.py:164-165 | when every page is rejected nothing is kept |
| Collections.DedupBySnoc | app/main.py:182-186 | one more item is kept exactly when no kept item has its key (one unfolding step; `DedupByPicksFirsts` is its partner) |
| Collections.DedupByKeys | app/main.py:180-186 | the kept items have exactly the keys of all the items |
| Collections.DedupByDistinct | app/main.py:180-186 | no two kept items share a key |
| Collections.DedupByPicksFirsts | app/main.py:180-186 | the kept items are, in order, exactly the items that come first with their key |
| Collections.DedupByOfDistinct | app/main.py:180-186 | items with distinct keys are all kept |
| Collections.DistinctKeysCount | app/main.py:195 | items with distinct keys have as many keys as items |
| Collections.SameKeyTwice | app/main.py:183-184 | of two items with one key only the first is kept |
| Extract.CollectPages | app/main.py:158-177 | the page loop returns `Pagewise(texts)` and the page items concatenated in page order |
| Extract.TagPage | app/main.py:169-171 | the inner loop tags every item of the page with its number and appends them, in order, to the collected items |
| Extract.Deduplicate | app/main.py:179-186 | the de-duplication loop returns `Dedup(collected)`, with `seen` equal to the keys kept so far |
| Extract.ExtractBillData | app/main.py:158-197 | the reply holds the page records, the de-duplicated items, their count and the sum of their amounts counting `None` as 0 |
| Extract.PagewiseStep | app/main.py:164-177 | reading a page adds nothing when it is junk, and otherwise its record at the end (one loop step; `PagewiseEntry` and `KeptNumbersExact` are its partners) |
| Extract.DedupStep | app/main.py:182-186 | reading an item keeps it exactly when its key is not yet seen (one loop step; `DedupPicksFirsts` is its partner) |
| Extract.PagewiseLength | app/main.py:164-177 | there is one record per page that is not junk |
| Extract.PagewiseEntry | app/main.py:161-177 | record `j` is the record of the `j`-th page that is not junk, built from its 1-based number and its text |
| Extract.KeptNumbersExact | app/main.py:161-165 | the numbers of the recorded pages increase, and a page is recorded exactly when it is not junk |
| Extract.PageOfTagged | app/main.py:167-177 | a record is a `"Bill Detail"` record numbered `str(i)`, whose items are the page's parsed items in order, each tagged `str(i)` and named |
| Extract.ItemsCarryPageNumbers | app/main.py:169-176 | every item of every record carries that record's page number |
| Extract.PagewiseDistinctNumbers | app/main.py:161-174 | no two records carry the same page number |
| Extract.NextPage | app/main.py:161-177 | a junk page adds no record and no item; any other page adds its record, and its tagged items after all earlier items (one loop step; `PageOfTagged` and `ItemsCarryPageNumbers` are its partners) |
| Extract.AllJunk | app/main.py:164-165 | a document of junk pages gives no record |
| Extract.JunkThenBill | app/main.py:161-177 | a junk page before a bill page gives only the bill page's record, and it keeps its own number `"2"` |
| Extract.DedupKeys | app/main.py:180-186 | every key of the collected items is the key of a kept item, and conversely |
| Extract.DedupDistinct | app/main.py:180-186 | no two kept items share a `(normalize_name(name), amount)` key |
| Extract.DedupPicksFirsts | app/main.py:180-186 | the kept items are the subsequence of the collected items made of the first item of each key |
| Extract.UniqueCount | app/main.py:183-195 | `total_items_count` is the number of distinct keys among the collected items |
| Extract.DedupIdempotent | app/main.py:180-186 | de-duplicating the kept items again changes nothing |
| Extract.RepeatedItemKeptOnce | app/main.py:169-186 | the same item read on two pages is kept once, with the first page's tag, because the tag is not part of the key |
| Extract.SumAppend | app/main.py:188 | the total of two runs of items is the sum of their totals |
| Extract.SumSkipsMissing | app/main.py:188 | a missing amount counts as zero: the total equals the total of the items that have an amount |
| Extract.SumExample | app/main.py:188 | amounts 25.0, `None` and 500.0 add up to 525.0 |

## Left out

- `app/ocr_demo.py`: it only prints, checks the filesystem and calls the PDF and OCR tools.
- `download_pdf` (app/main.py:22-35) and the URL or local-path branch of `extract_bill_data` (app/main.py:126-150): network and temporary-file I/O, with HTTP error replies.
- PDF rendering and OCR (app/main.py:154, 162): the page texts are the input of `ExtractBillData`.
- The environment configuration (app/main.py:13-17), the FastAPI and pydantic wrapper (app/main.py:117-125) and the constant `is_success` (app/main.py:191).
- ExtractBillData: `sum_total` is the exact sum over reals. Binary floating point and `round(..., 2)` (app/main.py:188) are left out. So are the rounding errors of `float()` in `clean_num` (app/main.py:43) and its other edge cases:
  - a numeral too large for a double becomes `inf`;
  - a sum holding `inf` and `-inf` becomes `nan`;
  - an error `float()` might raise on an extremely long numeral would end the request.

  The model gives every numeral its exact value.
- Text.Lower: only `A`-`Z` are lowercased. Python's `str.lower` also maps other capitals, but that changes no header test and no junk test. The header words and junk phrases are ASCII lowercase. A non-ASCII capital lowercases to a non-ASCII letter, which no pattern contains, except two:
  - U+212A (Kelvin sign) becomes `k`, and no pattern contains `k`;
  - U+0130 becomes `i` followed by U+0307. No pattern ends in `i`, and none has U+0307 after an `i`, so no occurrence of a pattern can use either character.

  `normalize_name` lowercases only after replacing every character outside `[a-zA-Z0-9 ]`, so it is exact.
- Text.IsDigit: only `0`-`9` are digits. Python's `\d` in `clean_num` and in `numeric_suffix_re` also matches other Unicode decimal digits, and `float` reads them. A token written in such digits is not modelled.
- Shapes.SplitLastSpec: `$` before a final newline is not modelled. The lines reaching the patterns are stripped and hold no line break, so the difference never arises.
- Parser.PageLines: `splitlines` is modelled as a split at every line-break character. A `\r\n` pair therefore gives an extra empty piece, which the filter for non-empty lines drops anyway. A final break also gives an extra empty piece, and it is dropped the same way.
- Extract.CollectPages: the in-place update of the item dictionaries, shared between `collected` and the page's `bill_items`, is modelled on values. Both lists hold the tagged items, as the sharing makes them.
