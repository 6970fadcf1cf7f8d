# PC parts recommender: the decision logic, in Dafny

miniDKU/pc recommends PC parts. Its FastAPI back end runs one shopping search per part
category. It turns the raw search items into `{name, price, link}` products, substitutes
an example product for any part whose search failed or found nothing, and builds a text
block of candidates for the recommendation prompt. Its React front end reads the
recommendation JSON the assistant returns in one of four shapes, and rewrites each
candidate's link to the best-matching catalog product. It also parses the bracketed plain-text
recommendation format, extracts table specs from product names, and groups and orders
the product table.

This project models that logic in Dafny, one module per concern:

- `Text`: the string primitives the source relies on. These are JavaScript's `\s`,
  `trim`, ASCII case mapping, substring search and decimal text.
- `Json`: a parsed JSON value, plus the JavaScript property access, truthiness and `String()` the
  view applies to it.
- `Uri`: `encodeURIComponent` (UTF-8 percent-encoding) and the shopping-search URL.
- `Similarity`: `getSimilarity`, as a score function and as the source's counting loop.
- `ChatMessage`: the shape dispatch, the best-match loop and the link rewrite of the
  assistant bubble, plus the card's link fallback.
- `ChatResult`: `formatRecommendation`, the bracketed-text parser. Each rendered card
  becomes an `Entry(part, product, reason?, link?)`.
- `SpecExtract`: the label and maker tables and `extractSpecs`. Each regular expression is a
  hand-written scanner, and the function fills a `"-"`-initialised array in place.
- `ProductTable`: grouping by part, the required-first ordering and the optional badge,
  and the rows of each section.
- `NaverService`: the credential check and the item-to-product loop of
  `fetch_naver_products`. This covers tag stripping, the comma-grouped price and the defaults.
- `Recommend`: the part loop of `recommend_pc`, covering stand-ins, part tagging, `product_block`
  and the response projection.

Loops in the source are `method`s with loop invariants. Each is proved equal to a
function that states the result. The properties are proved as lemmas about those functions.

## Model

| member | source | states |
|---|---|---|
| Similarity.CommonPrefix | frontend/src/components/ChatMessage.tsx:32-36 | the common leading run: its length is at most the shorter length, the two prefixes agree, and the next characters differ |
| Similarity.CommonPrefixUnique | frontend/src/components/ChatMessage.tsx:32-36 | any length with those properties is the common run, so the loop's count is determined |
| Similarity.GetSimilarity | frontend/src/components/ChatMessage.tsx:26-38 | the loop with `break` returns the specified score |
| Similarity.CommonPrefixSymmetric | frontend/src/components/ChatMessage.tsx:32-36 | the common run does not depend on the argument order |
| Similarity.ScoreSymmetric | frontend/src/components/ChatMessage.tsx:26-38 | swapping the arguments never changes the score |
| Similarity.ScoreBands | frontend/src/components/ChatMessage.tsx:27-37 | equal normalised names score 100; containment either way scores 80; otherwise the score is a common run strictly shorter than both normalised names |
| ChatMessage.PartValues | frontend/src/components/ChatMessage.tsx:102-104 | the selected values are exactly the field values that are objects with an array `candidates`, in field order |
| ChatMessage.PartValuesAppend | frontend/src/components/ChatMessage.tsx:102-104 | selecting from a concatenation selects from each half in order |
| ChatMessage.KeyedPartsFollowValues | frontend/src/components/ChatMessage.tsx:102-114 | the key-labelled fallback finds exactly as many parts as the values filter, so it only runs when both are empty |
| ChatMessage.DictionaryValuesAreParts | frontend/src/components/ChatMessage.tsx:102-106 | when every value has a candidates array, the parts are the values in key order |
| ChatMessage.AllShapesAgree | frontend/src/components/ChatMessage.tsx:86-117 | the same parts are read from a bare array, from a `parts` field and from a dictionary, and a single part object becomes a one-part list |
| ChatMessage.Dispatch | frontend/src/components/ChatMessage.tsx:84-118 | the statement-by-statement dispatch sets the error flag exactly when the parsed value is `null`, and otherwise selects the specified parts and warning |
| ChatMessage.BestMatch | frontend/src/components/ChatMessage.tsx:123-133 | the chosen index, if any, lies within the catalog |
| ChatMessage.BestMatchIsEarliestBest | frontend/src/components/ChatMessage.tsx:123-133 | the choice is a same-part product with the highest score, the earliest among equals, and there is none only when no same-part product exists |
| ChatMessage.LastBecomesBest | frontend/src/components/ChatMessage.tsx:126-131 | a same-part product scoring strictly more than the best so far becomes the best |
| ChatMessage.BestSoFarStays | frontend/src/components/ChatMessage.tsx:126-131 | any other product leaves the best so far in place |
| ChatMessage.FindBestMatch | frontend/src/components/ChatMessage.tsx:123-133 | the `forEach` loop finds the earliest best same-part product, and finds one iff some same-part product exists |
| ChatMessage.MapAllPointwise | frontend/src/components/ChatMessage.tsx:120-143 | a `map` whose callback may throw succeeds iff every element succeeds, and then yields each element's result in order |
| ChatMessage.ResolveCandidate | frontend/src/components/ChatMessage.tsx:122-141 | one candidate callback computes the specified link or throws |
| ChatMessage.LinkCandidatesPointwise | frontend/src/components/ChatMessage.tsx:122-142 | a part's candidates are rewritten one by one, in order |
| ChatMessage.LinkPartsPointwise | frontend/src/components/ChatMessage.tsx:120-143 | the parts are rewritten one by one, in order |
| ChatMessage.ResolveCandidates | frontend/src/components/ChatMessage.tsx:122-142 | the candidate loop returns the specified rewrite, stopping at the first exception |
| ChatMessage.RewriteLinks | frontend/src/components/ChatMessage.tsx:120-143 | the part loop returns the specified rewrite, stopping at the first exception |
| ChatMessage.Render | frontend/src/components/ChatMessage.tsx:73-147 | the component's statements produce the specified view |
| ChatMessage.LinkCandidateFacts | frontend/src/components/ChatMessage.tsx:134-141 | a rewritten candidate keeps every other field, and its link is non-empty: either a same-part product's link or the search URL of the name |
| ChatMessage.RewriteResolvesEveryLink | frontend/src/components/ChatMessage.tsx:120-143 | after a rewrite, parts and candidates keep their number and order and come from the input, and every link is non-empty and comes from a same-part product or the search URL |
| ChatMessage.FailedExactly | frontend/src/components/ChatMessage.tsx:78-146 | the error text is shown iff the message is an assistant reply other than the loading text, and the reply is not JSON, is JSON `null`, or has a selected part that throws in the rewrite |
| ChatMessage.CardUsesRewrittenLink | frontend/src/components/ChatMessage.tsx:49-55 | the card's own fallback link is never used, because every rewritten link is already non-empty |
| ChatResult.HeaderAt | frontend/src/components/ChatResult.tsx:21 | a header starts at `p` iff a `[` there is closed by the first `]` after it with at least one character between; the returned index is that `]` |
| ChatResult.FindHeader | frontend/src/components/ChatResult.tsx:21 | the scan returns the leftmost position from `from` where a header starts; it returns none iff no header starts at or after `from` |
| ChatResult.SplitHeaders | frontend/src/components/ChatResult.tsx:21 | splitting on a capturing pattern yields text, name, text, ..., an odd number of pieces (what the pieces are: `SplitHeadersCuts`, `SplitIsUnique`) |
| ChatResult.CloseFrom | frontend/src/components/ChatResult.tsx:21 | `[^\]]+\]` closes a header at the first `]` after the name starts, and there is none iff no `]` follows |
| ChatResult.SplitHeadersCuts | frontend/src/components/ChatResult.tsx:21 | the split pieces put back together with their brackets give the text: before each header every `[` is closed at once, each name is a non-empty `]`-free text, and the last piece holds no header |
| ChatResult.SplitIsUnique | frontend/src/components/ChatResult.tsx:21 | conversely, any cut of the text into such pieces is the split, so the split is determined by the text |
| ChatResult.CutHeader | frontend/src/components/ChatResult.tsx:21 | when the text starts with a closed piece and a `[name]`, that is the leftmost header |
| ChatResult.Sections | frontend/src/components/ChatResult.tsx:21 | the kept sections are all non-empty, and each non-empty piece of the split is kept exactly as often as it occurs (in order: `NonEmptyAppend`) |
| ChatResult.NonEmpty | frontend/src/components/ChatResult.tsx:21 | `.filter(Boolean)` keeps exactly the non-empty pieces, each as often as it occurs |
| ChatResult.NonEmptyAppend | frontend/src/components/ChatResult.tsx:21 | the filter keeps order: filtering a concatenation filters each half |
| Text.SpaceEnd | frontend/src/components/ChatResult.tsx:30-32 | the `\s*` after a tag (and inside the certification and chipset patterns) stops at the first non-space |
| ChatResult.LineEnd | frontend/src/components/ChatResult.tsx:30-32 | `[^\n]+` stops at the first line break |
| ChatResult.ParagraphEnd | frontend/src/components/ChatResult.tsx:31 | the reason pattern stops only at a blank line or the end of the body, taking every single line break before it |
| ChatResult.LastNonNewline | frontend/src/components/ChatResult.tsx:31 | backtracking finds the last character of the capture that is not a line break |
| ChatResult.Capture | frontend/src/components/ChatResult.tsx:30-32 | a field matches iff its tag occurs and something other than a line break follows it; a capture is non-empty and holds a line break only in the reason, never two in a row |
| ChatResult.CaptureStops | frontend/src/components/ChatResult.tsx:30-32 | a capture runs from the first non-space after the first occurrence of the tag to the end of that line (for the reason: to the first blank line) or the end of the body |
| ChatResult.EmptyBodyNoEntry | frontend/src/components/ChatResult.tsx:27 | an empty body yields nothing |
| ChatResult.FormatSection | frontend/src/components/ChatResult.tsx:25-66 | one iteration pushes at most one entry, the specified one |
| ChatResult.FormatSections | frontend/src/components/ChatResult.tsx:22-69 | the index-by-two loop returns the entries of the positional pairs, in header order |
| ChatResult.FormatRecommendation | frontend/src/components/ChatResult.tsx:19-70 | the whole function: split, drop empty pieces, pair, extract |
| ChatResult.PairIsPositional | frontend/src/components/ChatResult.tsx:21-27 | the entries are those of pieces (0,1), (2,3), ... that have a product, so an extra piece shifts every later pairing; a last header without a body is skipped |
| ChatResult.TrimKeepsLines | frontend/src/components/ChatResult.tsx:38-54 | trimming removes no inner line break and adds no blank line |
| ChatResult.SliceKeepsLines | frontend/src/components/ChatResult.tsx:38-54 | a slice not ending in white space keeps every line break followed by a non-blank line, and adds no line break |
| ChatResult.EntryFields | frontend/src/components/ChatResult.tsx:30-54 | every field is trimmed; the product and the link are single lines; the reason has no blank line inside; the part name may span lines, as `[^\]]+` lets line breaks through |
| ChatResult.EmptyTextNoEntries | frontend/src/components/ChatResult.tsx:19-27 | an empty recommendation renders nothing |
| ChatResult.ReasonTakesLinkLine | frontend/src/components/ChatResult.tsx:31-48 | for every body, when a line starting with `링크:` directly follows the first reason line, that link line is part of the trimmed reason |
| ChatResult.ParagraphTakesLinkLine | frontend/src/components/ChatResult.tsx:31 | a paragraph whose first line is followed by a line starting with `링크:` runs past that tag |
| ChatResult.ParagraphSliceTakesLinkLine | frontend/src/components/ChatResult.tsx:31 | the untrimmed paragraph capture is the slice up to the paragraph end, and it holds the link line |
| ChatResult.ParagraphCaptureTakesLinkLine | frontend/src/components/ChatResult.tsx:31-48 | for any tag read as a paragraph, a `링크:` line directly under its first line is part of the capture, trimmed or not |
| SpecExtract.CategoryOf | frontend/src/components/ProductTable.tsx:18-26 | the seven categories are looked up by their exact names; any other name has none |
| SpecExtract.CategoryLabels | frontend/src/components/ProductTable.tsx:18-26 | every label list has 4 or 5 labels and starts with the maker label |
| SpecExtract.CategoryMakers | frontend/src/components/ProductTable.tsx:29-37 | every maker list is non-empty and holds neither empty names nor `"-"` |
| SpecExtract.KeyRoundTrip | frontend/src/components/ProductTable.tsx:18-37 | a category's name looks up that category |
| SpecExtract.FindMaker | frontend/src/components/ProductTable.tsx:45-47 | a found maker is in the list and its upper-cased form occurs in the upper-cased name |
| SpecExtract.FindMakerIsFirst | frontend/src/components/ProductTable.tsx:45-47 | the found maker is the first in list order that occurs; none is found only when none occurs |
| SpecExtract.SearchIsLeftmost | frontend/src/components/ProductTable.tsx:52-111 | a regex without `g` yields its leftmost match |
| SpecExtract.FirstIsLeftmost | frontend/src/components/ProductTable.tsx:52-111 | a rule finds nothing iff no position matches, and otherwise yields the leftmost match |
| SpecExtract.RunEnd | frontend/src/components/ProductTable.tsx:52-111 | `\d+` takes the longest digit run |
| SpecExtract.FirstWordAt | frontend/src/components/ProductTable.tsx:56-83 | an alternation matches iff one of its alternatives occurs at the position, and the match is the first such alternative in list order |
| SpecExtract.SameTextIsSameUpper | frontend/src/components/ProductTable.tsx:73-107 | a case-insensitive comparison is equality after upper-casing |
| SpecExtract.FirstWordAtIgnoringCase | frontend/src/components/ProductTable.tsx:101-107 | the same for a case-insensitive alternation: the first alternative in list order found at the position, ignoring case |
| SpecExtract.DigitsUnitShape | frontend/src/components/ProductTable.tsx:52-112 | a digits-then-unit match is the whole digit run followed by a unit |
| SpecExtract.DigitsUnitExact | frontend/src/components/ProductTable.tsx:52-111 | the scanner matches at a position iff the pattern does |
| SpecExtract.DigitsUnitRuleNone | frontend/src/components/ProductTable.tsx:52-112 | a digits-then-unit rule finds nothing iff no position matches |
| SpecExtract.DigitsUnitRuleSome | frontend/src/components/ProductTable.tsx:52-112 | otherwise it yields the leftmost match: the digit run there plus its unit |
| SpecExtract.NumberEnd | frontend/src/components/ProductTable.tsx:56 | `\d+\.?\d*` read greedily: the text read is digits, an optional dot and digits, and what follows is no digit, and no dot unless one was read |
| SpecExtract.NumberEndsAt | frontend/src/components/ProductTable.tsx:56 | a `\d+\.?\d*` number followed by neither a digit nor a dot is exactly what the scanner reads |
| SpecExtract.ClockShape | frontend/src/components/ProductTable.tsx:56-60 | a clock match starts with a digit, occurs at its position, and is the greedy number followed by `GHz` or `MHz`, verbatim |
| SpecExtract.ClockExact | frontend/src/components/ProductTable.tsx:56-60 | the clock scanner matches at a position iff `\d+\.?\d*(?:GHz|MHz)` does |
| SpecExtract.DecimalEnd | frontend/src/components/ProductTable.tsx:83 | `\d+(?:\.\d+)?` read greedily: digits with an optional dot-and-digits fraction, and the fraction is not left unread when a digit follows the dot |
| SpecExtract.DecimalEndsAt | frontend/src/components/ProductTable.tsx:83 | a `\d+(?:\.\d+)?` number followed by neither a digit nor a dot is exactly what the scanner reads |
| SpecExtract.CapacityShape | frontend/src/components/ProductTable.tsx:83-84 | an SSD capacity is a `\d+(?:\.\d+)?` number followed by `TB` or `GB`, verbatim |
| SpecExtract.CapacityExact | frontend/src/components/ProductTable.tsx:83-84 | the capacity scanner matches at a position iff `(\d+(?:\.\d+)?)(TB|GB)` does, backtracking included |
| SpecExtract.CertShape | frontend/src/components/ProductTable.tsx:101-102 | a certification is `80 PLUS ` followed by the tier exactly as written |
| SpecExtract.CertSound | frontend/src/components/ProductTable.tsx:101-102 | a certification the scanner finds is a match of `80\s*PLUS\s*(Bronze|Silver|Gold|Platinum|Titanium)` with the `i` flag |
| SpecExtract.CertComplete | frontend/src/components/ProductTable.tsx:101-102 | every match of that pattern is found by the scanner |
| SpecExtract.CertExact | frontend/src/components/ProductTable.tsx:101-102 | the certification scanner matches at a position iff the pattern does |
| SpecExtract.ChipsetShape | frontend/src/components/ProductTable.tsx:107-108 | a chipset is the upper-cased match, ending in four digits |
| SpecExtract.ChipsExclusive | frontend/src/components/ProductTable.tsx:107-108 | `RTX`, `GTX` and `RX` never overlap at one position, whatever the case |
| SpecExtract.ChipsetSound | frontend/src/components/ProductTable.tsx:107-108 | a chipset the scanner finds is a match of `(RTX|GTX|RX)\s*\d{4}` with the `i` flag |
| SpecExtract.ChipsetComplete | frontend/src/components/ProductTable.tsx:107-108 | every match of that pattern is found by the scanner |
| SpecExtract.ChipsetExact | frontend/src/components/ProductTable.tsx:107-108 | the chipset scanner matches at a position iff the pattern does |
| SpecExtract.AllMatchesEmpty | frontend/src/components/ProductTable.tsx:56-57 | the global clock match is empty iff no position matches |
| SpecExtract.AllMatchesHead | frontend/src/components/ProductTable.tsx:56-60 | the global match starts with the leftmost match and resumes after it |
| SpecExtract.AllMatchesAreMatches | frontend/src/components/ProductTable.tsx:56 | every listed clock is a match at some position |
| SpecExtract.Specs | frontend/src/components/ProductTable.tsx:40-42 | the vector is as long as the category's label list, and empty for an unknown category |
| SpecExtract.Fill | frontend/src/components/ProductTable.tsx:47-64 | one `if (m) result[k] = ...` changes slot `k` alone |
| SpecExtract.FillsOverwrite | frontend/src/components/ProductTable.tsx:67-114 | three rules applied one after another overwrite the specified slots |
| SpecExtract.FillsOverwriteFive | frontend/src/components/ProductTable.tsx:50-66 | the same for the four CPU rules |
| SpecExtract.Put | frontend/src/components/ProductTable.tsx:47-64 | the in-place assignment to one array slot |
| SpecExtract.ApplyCpuRules | frontend/src/components/ProductTable.tsx:50-66 | the CPU case overwrites slots 1-4 with its rules |
| SpecExtract.ApplyMemoryRules | frontend/src/components/ProductTable.tsx:67-80 | the memory case overwrites slots 1-3 with its rules |
| SpecExtract.ApplyDriveRules | frontend/src/components/ProductTable.tsx:81-94 | the SSD case overwrites slots 1-3 with its rules |
| SpecExtract.ApplyPowerRules | frontend/src/components/ProductTable.tsx:95-104 | the power-supply case overwrites slots 1-2 with its rules |
| SpecExtract.ApplyGraphicsRules | frontend/src/components/ProductTable.tsx:105-114 | the graphics case overwrites slots 1-2 with its rules |
| SpecExtract.ApplyRules | frontend/src/components/ProductTable.tsx:49-115 | the `switch` applies the category's rules; mainboard and case have none |
| SpecExtract.ExtractSpecs | frontend/src/components/ProductTable.tsx:40-118 | the array-filling function returns the specified vector |
| SpecExtract.UnfilledSlots | frontend/src/components/ProductTable.tsx:42 | every slot after the first that no rule fills is `"-"` |
| SpecExtract.SlotOf | frontend/src/components/ProductTable.tsx:42-115 | slot 0 is the found maker or `"-"`; each other slot is its rule's value or `"-"` |
| SpecExtract.NeverFilled | frontend/src/components/ProductTable.tsx:49-115 | mainboard and case slots 1-3 are always `"-"` |
| SpecExtract.RuleFreeSlots | frontend/src/components/ProductTable.tsx:49-115 | a category with no rules keeps `"-"` in slots 1-3 whatever the name |
| SpecExtract.NoRuleSlots | frontend/src/components/ProductTable.tsx:95-114 | power-supply slot 3 and graphics slot 3 are always `"-"` |
| SpecExtract.MakerSlot | frontend/src/components/ProductTable.tsx:45-47 | slot 0 is `"-"` iff no maker occurs, and otherwise holds the first maker in list order that occurs |
| SpecExtract.CpuVector | frontend/src/components/ProductTable.tsx:50-66 | the CPU slots are the cores, the first and second clocks, and the wattage, each `"-"` when absent |
| SpecExtract.CpuCoresSlot | frontend/src/components/ProductTable.tsx:52-53 | the core slot is `"-"` iff no digit run is followed by `코어` |
| SpecExtract.CpuTdpSlot | frontend/src/components/ProductTable.tsx:63-64 | the TDP slot is `"-"` iff no digit run is followed by `W` |
| SpecExtract.CpuClockSlots | frontend/src/components/ProductTable.tsx:56-60 | the base clock is `"-"` iff no clock occurs, and a maximum clock implies a base clock |
| SpecExtract.DigitsSlot | frontend/src/components/ProductTable.tsx:52-112 | a digits-then-unit rule finds nothing iff no position matches, and never yields `"-"` |
| SpecExtract.MemoryVector | frontend/src/components/ProductTable.tsx:67-80 | the memory slots are the capacity, the DDR type and the four-digit clock |
| SpecExtract.MemoryCapacitySlot | frontend/src/components/ProductTable.tsx:69-70 | the capacity slot is `"-"` iff no digit run is followed by `GB` or `TB` |
| SpecExtract.MemoryTypeSlot | frontend/src/components/ProductTable.tsx:73-74 | the type slot is the leftmost case-insensitive `DDR` plus digit, upper-cased, or `"-"` when there is none |
| SpecExtract.MemoryClockSlot | frontend/src/components/ProductTable.tsx:77-78 | the clock slot is the leftmost four consecutive digits with `MHz` appended, or `"-"` |
| SpecExtract.DriveVector | frontend/src/components/ProductTable.tsx:81-94 | the SSD slots are the capacity, the type and the interface |
| SpecExtract.DriveCapacitySlot | frontend/src/components/ProductTable.tsx:83-84 | the capacity slot is `"-"` iff no capacity occurs, and otherwise a number with an optional fraction and its unit |
| SpecExtract.DriveSlots | frontend/src/components/ProductTable.tsx:87-92 | SSD is preferred over HDD and NVMe over SATA, each slot `"-"` when neither occurs |
| SpecExtract.PowerVector | frontend/src/components/ProductTable.tsx:95-104 | the power-supply slots are the wattage and the certification |
| SpecExtract.CertificationSlot | frontend/src/components/ProductTable.tsx:101-102 | the certification slot is `"-"` iff no certification matches, and otherwise `80 PLUS ` and the tier as written |
| SpecExtract.GraphicsVector | frontend/src/components/ProductTable.tsx:105-114 | the graphics slots are the chipset and the memory size |
| SpecExtract.GraphicsChipsetSlot | frontend/src/components/ProductTable.tsx:107-108 | the chipset slot is `"-"` iff no chipset matches, and otherwise an upper-cased match ending in four digits |
| SpecExtract.GraphicsMemorySlot | frontend/src/components/ProductTable.tsx:111-112 | the memory slot is `"-"` iff no digit run is followed by `GB` |
| ProductTable.GroupKey | frontend/src/components/ProductTable.tsx:123 | a product is filed under its part, or under `기타` when the part is absent, empty or `기타` itself |
| ProductTable.KeysDistinct | frontend/src/components/ProductTable.tsx:122-132 | the group keys are distinct |
| ProductTable.KeysAreGroupKeys | frontend/src/components/ProductTable.tsx:122-132 | a key is listed iff some product is filed under it |
| ProductTable.GroupMembers | frontend/src/components/ProductTable.tsx:122-129 | a group holds exactly the products filed under its key |
| ProductTable.GroupAppend | frontend/src/components/ProductTable.tsx:122-129 | grouping more products appends to each group, so input order is kept within a group |
| ProductTable.GroupEmptyIff | frontend/src/components/ProductTable.tsx:122-129 | a group is empty iff its key is not listed |
| ProductTable.GatherPush | frontend/src/components/ProductTable.tsx:127 | pushing one product adds it to exactly the group of its key |
| ProductTable.GroupsPartition | frontend/src/components/ProductTable.tsx:122-129 | the groups together hold every product exactly once |
| ProductTable.GroupProducts | frontend/src/components/ProductTable.tsx:122-129 | the `reduce` builds a record whose keys are the listed keys and whose entries are the groups |
| ProductTable.BadgeAndSortDisagree | frontend/src/components/ProductTable.tsx:133-146 | when the first product has no `required`, the group sorts as required but still shows the optional badge; otherwise badge and sort agree |
| ProductTable.LocaleCompare | frontend/src/components/ProductTable.tsx:137 | the comparison is negative, zero or positive |
| ProductTable.LocaleCompareAntisymmetric | frontend/src/components/ProductTable.tsx:137 | swapping the arguments negates the result, and zero means equal |
| ProductTable.LocaleCompareTransitive | frontend/src/components/ProductTable.tsx:137 | the comparison is transitive |
| ProductTable.Compare | frontend/src/components/ProductTable.tsx:132-138 | the comparator returns -1, 0 or 1 |
| ProductTable.CompareIsTotalOrder | frontend/src/components/ProductTable.tsx:132-138 | the comparator is antisymmetric, zero only on equal keys, and transitive |
| ProductTable.InsertPermutes | frontend/src/components/ProductTable.tsx:132-138 | inserting adds exactly one element |
| ProductTable.InsertSorted | frontend/src/components/ProductTable.tsx:132-138 | inserting into a sorted list keeps it sorted |
| ProductTable.SortIsSortedPermutation | frontend/src/components/ProductTable.tsx:132-138 | the reference sort is a sorted permutation |
| ProductTable.SortedUnique | frontend/src/components/ProductTable.tsx:132-138 | two sorted permutations of the same keys are equal, so any correct sort gives the same order |
| ProductTable.RankedKeys | frontend/src/components/ProductTable.tsx:132-134 | each key is paired with its group's required flag, in key order |
| ProductTable.OrderPermutesKeys | frontend/src/components/ProductTable.tsx:132-138 | the displayed order is a permutation of the group keys |
| ProductTable.OrderRequiredFirst | frontend/src/components/ProductTable.tsx:132-138 | required groups precede optional ones, and groups with equal flags are in label order |
| ProductTable.RowOf | frontend/src/components/ProductTable.tsx:176-210 | a row has one spec cell per label of its section |
| ProductTable.TableSections | frontend/src/components/ProductTable.tsx:142-176 | one section per sorted part, each with its badge, its labels and exactly that part's products as rows, in order; every product appears in exactly one section, as often as it occurs |
| ProductTable.GroupCount | frontend/src/components/ProductTable.tsx:122-129 | a part's group holds each product of that part as often as the list does, and nothing else |
| ProductTable.GatherCount | frontend/src/components/ProductTable.tsx:142-176 | gathering the groups of distinct parts holds each product of those parts as often as the list does, and nothing else |
| ProductTable.ShownOnce | frontend/src/components/ProductTable.tsx:142-176 | every product is shown in the table exactly as often as it occurs in the list |
| ProductTable.RowsMatchColumns | frontend/src/components/ProductTable.tsx:159-202 | every row has as many spec cells as its section has spec headers |
| NaverService.SplitJoin | backend/naver_service.py:33 | splitting on a pattern and joining with it gives the text back |
| NaverService.RemoveAllIsJoin | backend/naver_service.py:33 | `replace(p, "")` is the split pieces joined with nothing |
| NaverService.RemoveAllAbsent | backend/naver_service.py:33 | a text with no occurrence is unchanged |
| NaverService.RemoveCharAppend | backend/naver_service.py:34 | deleting a character distributes over concatenation |
| NaverService.UngroupGrouped | backend/naver_service.py:34 | deleting the commas of a grouped digit string gives the digits back |
| NaverService.ParseDigits | backend/naver_service.py:34 | integer parsing reads a digit string as its value |
| NaverService.ParseNegative | backend/naver_service.py:34 | a minus sign then digits reads as the negated value |
| NaverService.ThousandsRoundTrip | backend/naver_service.py:34 | every integer's comma-grouped text, with the commas deleted, parses back to the integer |
| NaverService.PriceRoundTrip | backend/naver_service.py:34 | every price text ends in `원`, and the number before it reads back as the price |
| NaverService.PriceExample | backend/naver_service.py:34 | 1234 becomes `1,234원` and 0 becomes `0원` |
| NaverService.NormalizeItem | backend/naver_service.py:33-40 | an item fails iff it has a price that is not an integer; otherwise the name is the title with tags deleted or `이름 없음`, the price is the grouped number with `원` or `0원` when absent, and the link is the item's or `#` |
| NaverService.TagsCanSurvive | backend/naver_service.py:33 | `<<b>b>` becomes `<b>`, so single-pass deletion can leave a tag |
| NaverService.PlainTitleKept | backend/naver_service.py:33 | a title without `<` is kept as it is |
| NaverService.Head | backend/naver_service.py:32 | the slice is a prefix: `limit` items, or all when there are fewer; for a negative limit, all but the last `-limit` items, or none |
| NaverService.NormalizeAllOk | backend/naver_service.py:31-40 | the loop completes iff every visited item normalises |
| NaverService.NormalizeAllValues | backend/naver_service.py:31-40 | then it holds each item's product in item order |
| NaverService.CredentialsFirst | backend/naver_service.py:12-13 | an empty client id or secret fails before any reply is looked at |
| NaverService.FetchBound | backend/naver_service.py:31-42 | a successful fetch returns at most `limit` products, one per visited item in order |
| NaverService.FetchNaverProducts | backend/naver_service.py:8-42 | the credential check and the loop return the specified result |
| Recommend.ExamplesCoverParts | backend/main.py:31-52 | every part has an example product |
| Recommend.PartProducts | backend/main.py:59-81 | a part keeps a non-empty search result, and otherwise gets its stand-in alone |
| Recommend.CatalogCoversParts | backend/main.py:55-81 | all seven parts are present in order, each with between one and four products |
| Recommend.NoCredentialsAllStandIns | backend/main.py:73-81 | without credentials every part gets exactly its stand-in |
| Recommend.ExamplesHaveSpaces | backend/main.py:44-52 | every example name contains a space |
| Recommend.RawLinkNotEncoded | backend/main.py:65-79 | a name with a space appended raw differs from its percent-encoded search URL |
| Recommend.StandInLinksNotEncoded | backend/main.py:62-80 | no stand-in link equals the search URL the front end would build for the same name |
| Recommend.TaggedAppend | backend/main.py:55-84 | tagging two runs of parts concatenates their copies |
| Recommend.TaggedLayout | backend/main.py:55-84 | `all_products` is the earlier parts' copies, then part `k`'s in order, then the later parts' |
| Recommend.Lines | backend/main.py:89-91 | one line per product |
| Recommend.LineNumbering | backend/main.py:90-91 | line `i` starts with the number `i + 1` and then names the product, its price and its link |
| Recommend.ProductBlockStart | backend/main.py:87-94 | the text opens with the first part's header and its first product as line 1 |
| Recommend.ProductBlockStartsWithCpu | backend/main.py:87-94 | the handler's text opens with `[CPU 후보]` and the first CPU product |
| Recommend.ResponseLosesParts | backend/main.py:108-114 | response products copy only name, price and link, so a table built from them files every product under `기타` as one required group |
| Recommend.AllOther | frontend/src/components/ProductTable.tsx:122-129 | products without a part form the single group `기타`, in order |
| Recommend.SearchPart | backend/main.py:56-81 | one search, or the stand-in when it raised or found nothing |
| Recommend.TagProducts | backend/main.py:69-72 | the inner loop appends one tagged copy per product |
| Recommend.SearchStep | backend/main.py:55-84 | one turn of the part loop appends the part to `part_products` and its copies to `all_products` |
| Recommend.CollectProducts | backend/main.py:55-84 | the part loop builds the specified `part_products` and `all_products` |
| Recommend.BlockText | backend/main.py:89-93 | one part's block is its header and its numbered lines |
| Recommend.BuildProductBlock | backend/main.py:87-94 | the block loop builds the specified `product_block` |
| Recommend.RecommendPc | backend/main.py:29-114 | the handler's catalog, tagged products, prompt block and response products, the response being `all_products` projected one for one |
| Uri.EncodeComponent | frontend/src/components/ChatMessage.tsx:52-140 | every character of the encoding is unreserved or `%`, every `%` is followed by two hex digits, and an unreserved name is unchanged |
| Uri.SearchUrl | frontend/src/components/ChatMessage.tsx:138-140 | the search URL starts with the fixed base, every character after it is unreserved or `%` with every `%` opening a two-hex-digit escape, and a name of unreserved characters only is appended unchanged |
| Text.NatText | backend/main.py:90-91 | a line number is written as decimal digits that read back as the number |

## Left out

- The network is not part of this model. The httpx request, `raise_for_status` and the JSON decoding of the reply (backend/naver_service.py:15-29) are replaced by a `Reply` input. That input is a failure, or a reply with or without an item list. A failed request is one way the `except` branch is reached.
- The per-part search is a function from the query to a `Reply`. So the model assumes each query's reply does not depend on earlier requests.
- backend/openai_service.py is not part of this model. The recommendation call and the HTTP 500 it maps to are left out (backend/main.py:96-105), and so is the recommendation text it returns.
- FastAPI, CORS and uvicorn are left out, and so are the `print` logging and the environment lookup of the credentials. The credentials are parameters.
- React rendering is left out: JSX, CSS classes, `key` props, ChatInput and the App state hooks.
- `ChatResult`'s cards are the `Entry` records.
- `ProductTable`'s markup is reduced to sections and rows.
- `JSON.parse` is not modelled; its result (or a syntax error) is an input.
- JavaScript puts integer-like object keys first. That order is part of the input's field order.
- Prototype keys and getters are not modelled.
- Object keys are taken to be distinct, as `JSON.parse` leaves them. `Value` can hold a repeated key; `Json.Lookup` then reads the first field where JavaScript would keep the last, while `ChatMessage.PartValues` lists every field.
- JSON numbers are integers. Only their truthiness and `String()` matter to the view.
- Similarity.CommonPrefix, Similarity.Score and Similarity.GetSimilarity count Dafny characters (code points), while JavaScript's `length` and indexing count UTF-16 code units. The two agree except for characters outside the Basic Multilingual Plane (emoji, for example), where a score and therefore the best match can differ.
- `toUpperCase`/`toLowerCase` are ASCII case mappings. Non-ASCII characters are unchanged, and Unicode special casings are not modelled.
- `localeCompare` is code-point order. The ICU collation is not modelled, and nor is any locale.
- JavaScript's `\s` and `trim` are modelled by the same explicit code-point set.
- Python's `int()` is modelled over an ASCII sign, ASCII digits and that whitespace set. Underscores, non-ASCII digits and Python's slightly different whitespace set are not modelled.
- A float `lprice` is not modelled, and neither is a non-string title or link.
- `encodeURIComponent` on a lone surrogate throws. Dafny's `char` here has no lone surrogates, so that case does not arise.
- Regular expressions are hand-written scanners for the patterns the source uses. There is no general regex engine.
- Recommend.ResponseLosesParts: it states what a product table would show for the response products. The front end shown never passes them to `ProductTable`.
- Where the repository's own description and its code differ, the model follows the code:
  - In the dictionary shape, the parts are the object's values, labelled by their own `part` field. Their keys are dropped, and the key-labelled branch never contributes.
  - In the bracketed text, only the product line is required. Reason and link are optional, and the reason runs to a blank line, taking a `링크:` line directly under it.
