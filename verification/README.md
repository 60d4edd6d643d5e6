# Tenyo wish list: catalog logic in Dafny

A model of the logic behind the Tenyo magic wish list, a single-page catalog of magic tricks.
It covers four pieces:

- **View derivation.** The catalog page narrows the loaded items with one of four filters
  (all, rare, popular, classic) and orders them with one of five sorts (combined score,
  popularity, rarity, year newest first, name). The model has a `Derive` function and proofs
  that its result is the order-preserving filtering of the items, stably sorted. Stable
  sorting is characterised independently of any algorithm: the result is sorted, is a
  permutation, and keeps every group of ties in input order. `Sorting.StableSortUnique`
  proves that only one sequence meets that description. So for the combined, popularity,
  rarity and name sorts, the insertion sort used here returns exactly what the engine's
  stable `Array.prototype.sort` returns. For the year sort this holds when every kept
  item's year parses (`Home.DeriveYearAsWritten`), which the classic filter always
  ensures (`Home.ClassicYearsReadable`). An unparsable year is handled
  differently (see "Left out").
- **Load status.** The page starts loading, settles once on the single request's outcome,
  and never retries. A response that is not ok becomes the message "Failed to load data".
  `HomeLoad` models this as a three-state machine (`Loading`, `Ready`, `Failed`). It also
  models the page's three pieces of state and the screen chosen from them, and proves that
  the machine and the page state agree.
- **Trick card.** The card shows a Rare badge and a Popular badge, two ten-slot star
  ratings (full, half or empty stars), score bars, the consensus block, and the non-empty
  reviews. The badges are proved to agree with the page's filters.
- **Image repair script.** `fix_images.py` maps each product code to the first image file
  filed under it, then points each record at its code's image. `FixImages` models both
  steps. It proves which names enter the map, what each key is, that the first file wins,
  that only the image name of a record changes, and that running the update twice is the
  same as running it once.

Scores are integer tenths: a score of 7.5 is `75`. The model assumes every score has at
most one decimal place, so that tenths are exact; the dataset itself is not part of this
model. Score 8 becomes 80, `Math.floor(score)` becomes `t / 10`, and
`score % 1 >= 0.5` becomes `t % 10 >= 5`.

`parseInt`, as the year filter and year sort use it, is modelled in `Numerals` after
section 19.2.5 of ECMA-262 (ECMAScript). It skips leading white space, reads an optional
sign, switches to radix 16 after `0x`, and reads the longest run of digits. `None` stands
for `NaN`. `localeCompare` is a parameter `collate`, required only to be a consistent
comparator.

Files:

| file | contents |
|---|---|
| `options.dfy` | `Option` |
| `seqs.dfy` | `Filter` (order-preserving selection) and its laws |
| `sorting.dfy` | comparator consistency, stable sort specification, insertion sort, uniqueness |
| `trick.dfy` | the `Item` record and the `SortOption` / `FilterOption` enumerations |
| `numerals.dfy` | `parseInt` |
| `home.dfy` | filters, comparators, `Derive` and its properties |
| `home_load.dfy` | the load state machine and the page's render choice |
| `trick_card.dfy` | badges, stars, bars, consensus and reviews |
| `fix_images.dfy` | the image map and the record update |

## Model

| member | source | states |
|---|---|---|
| Home.Derive | client/src/pages/Home.tsx:37-73 | the view is a stable sort, under the selected comparator, of the order-preserving filtering of the items; an item is in the view iff it was loaded and the filter keeps it; the view is never longer than the input |
| Home.FilterKeepsOrder | client/src/pages/Home.tsx:41-51 | the filtered list is a subsequence of the loaded items, and holds each kept item exactly as often as it was loaded and each dropped item not at all |
| Home.DeriveAllIsPermutation | client/src/pages/Home.tsx:38-51 | with the "all" filter the view has the same length and the same multiset as the items |
| Home.ClassicBoundary | client/src/pages/Home.tsx:48-49 | the classic filter keeps a year of "1989", drops "1990", and drops any year text without a decimal digit (NaN < 1990 is false) |
| Home.RareExample | client/src/pages/Home.tsx:42-43 | of items with rarity 9 and 2, the rare view is just the first |
| Home.ComparatorConsistent | client/src/pages/Home.tsx:54-70 | each of the five comparators is antisymmetric and transitive, given a consistent collation, so the sort's result is well defined |
| Home.CompareYearsTransitive | client/src/pages/Home.tsx:65 | the year comparator (unparsable years last) is transitive |
| Home.DeriveOrder | client/src/pages/Home.tsx:54-70 | combined, popularity and rarity views are non-increasing in that score; the year view is non-increasing in parsed year, with unparsable years after all others; the name view is non-decreasing under the collation |
| Home.DeriveIsStable | client/src/pages/Home.tsx:56-68 | items the comparator ties keep their relative order from the filtered list |
| Home.DeriveIsTheStableSort | client/src/pages/Home.tsx:53-70 | any stable sort of the filtered items under the model's comparator equals the view; for every sort but the year sort that comparator is the page's own |
| Home.UnfilteredIsStableSort | client/src/pages/Home.tsx:38-70 | with the "all" filter, any stable sort of the items equals the view |
| Home.PairSwaps | client/src/pages/Home.tsx:54-70 | with no filter, two items that the selected comparator orders the other way round come out swapped |
| Home.DeriveIdempotent | client/src/pages/Home.tsx:38-72 | deriving the view again from the view, with the same selections, returns the view unchanged |
| Home.NewerFirst | client/src/pages/Home.tsx:64-65 | of two items with readable years, the year view puts the newer first |
| Home.YearComparatorNewerFirst | client/src/pages/Home.tsx:65 | of two readable years, the year comparator ranks the newer first |
| Home.YearExample | client/src/pages/Home.tsx:64-65 | items from "1985" and "1995", sorted by year, come out with the 1995 item first |
| Home.NumeralYear | client/src/pages/Home.tsx:49 | a year written as a decimal numeral parses to that number |
| Home.FourDigitYear | client/src/pages/Home.tsx:49 | a year written as four decimal digits parses to that number |
| Home.YearComparatorAsWrittenInconsistent | client/src/pages/Home.tsx:65 | for years "1990", "" and "2000" the comparator as written ties the blank year with both others but orders 2000 before 1990, so it is not consistent |
| Home.NotTransitive | client/src/pages/Home.tsx:65 | items whose years read 1990, NaN and 2000 break transitivity of the comparator as written: the NaN year ties with both, yet 2000 sorts before 1990 |
| Home.CompareYearsAgreesWhereDefined | client/src/pages/Home.tsx:65 | where both years parse, the modelled comparator equals the one as written |
| Home.DeriveYearAsWritten | client/src/pages/Home.tsx:64-65 | where every kept item's year parses, the year view is sorted under `parseInt(b) - parseInt(a)`, is a permutation of the filtered items, and keeps the ties of every readable year in their filtered order |
| Home.ClassicYearsReadable | client/src/pages/Home.tsx:48-49 | every item the classic filter keeps has a year that parses, since `parseInt(...) < 1990` is false for NaN; so the classic year view always matches the page's order |
| Home.RunsAgreeWhereYearsRead | client/src/pages/Home.tsx:65 | among items with readable years, the comparator as written and the modelled one tie the same items |
| Home.SortedAsWritten | client/src/pages/Home.tsx:65 | among readable years, a list sorted by the modelled comparator is sorted by the one as written |
| Home.BlankYearMovesBack | client/src/pages/Home.tsx:65 | with years "" and "1990" the comparator as written ties the two, so the pair in loaded order is already its stable sort, but the view swaps them |
| Home.UnreadableMovesBack | client/src/pages/Home.tsx:65 | for any unreadable year before a readable one, the pair in loaded order is a stable sort as written, but the view swaps them |
| Home.BlankTiesAsWritten | client/src/pages/Home.tsx:65 | as written, an item whose year does not parse ties with any other, so a pair starting with it is its own stable sort |
| Home.UnreadableLast | client/src/pages/Home.tsx:65 | the modelled year comparator ranks a readable year before an unreadable one |
| HomeLoad.Settle | client/src/pages/Home.tsx:21-35 | from `Loading` the status settles to a non-loading state, `Ready(items)` exactly for an ok response whose body parsed, `Failed("Failed to load data")` for any non-ok response; a settled status never moves |
| HomeLoad.SettleMatchesPage | client/src/pages/Home.tsx:15-35 | the machine's initial state encodes the page's initial state (no items, loading, no error, combined sort, all filter), and its transition encodes the effect's success and error handlers |
| HomeLoad.SettleOnce | client/src/pages/Home.tsx:21-35 | a second completion after settling changes nothing: there is no retry |
| HomeLoad.Render | client/src/pages/Home.tsx:75-124 | spinner iff loading; an error screen showing the error text iff not loading and the error is a non-empty string; otherwise the grid of the derived view, with the loaded count as the total |
| HomeLoad.RenderStatus | client/src/pages/Home.tsx:75-124 | loading shows the spinner, ready shows the derived view of the items, a failure with a message shows it, and a failure with an empty message shows an empty grid |
| HomeLoad.NotOkFails | client/src/pages/Home.tsx:23-34 | a non-ok response, whatever its body, ends on the screen showing "Failed to load data" |
| TrickCard.RareBadgeMatchesFilter | client/src/components/TrickCard.tsx:50 | the items of the rare view are exactly the loaded items that wear the Rare badge |
| TrickCard.PopularBadgeMatchesFilter | client/src/components/TrickCard.tsx:51 | the items of the popular view are exactly the loaded items that wear the Popular badge |
| TrickCard.StarRating | client/src/components/TrickCard.tsx:20-39 | ten slots, non-increasing in brightness, and a half star is followed only by empty ones |
| TrickCard.Slots | client/src/components/TrickCard.tsx:28-39 | the star slots from index `i` on number `10 - i` |
| TrickCard.SlotsAt | client/src/components/TrickCard.tsx:31-37 | slot `k` of the rating is classified by its index alone |
| TrickCard.StarSlots | client/src/components/TrickCard.tsx:21-37 | for a score in [0, 10]: exactly floor(score) full stars, filling slots 0 to floor(score) - 1 and no other, a half star at index floor(score) iff the fraction is at least one half, and at most one half star |
| TrickCard.RatingShowsScore | client/src/components/TrickCard.tsx:21-37 | the ten stars of a score in [0, 10] show full stars in exactly the first floor(score) slots, then a half star exactly when the fraction is at least one half |
| TrickCard.AtMostOneHalf | client/src/components/TrickCard.tsx:34-35 | every rating, in range or not, holds at most one half star |
| TrickCard.HalfSlots | client/src/components/TrickCard.tsx:31-37 | the slots from index `i` on hold one half star exactly when the score's half star falls among them |
| TrickCard.FullSlots | client/src/components/TrickCard.tsx:21-33 | the full stars from index `i` on are those below floor(score), clamped to the ten slots |
| TrickCard.SlotsHalfStars | client/src/components/TrickCard.tsx:21-37 | the brightness of the slots from `i` on is the score's half stars clamped to those slots |
| TrickCard.StarsRoundDownToHalf | client/src/components/TrickCard.tsx:21-37 | for a score in [0, 10] the stars show it rounded down to a half star; below 0 no star lights, from 10 on all do |
| TrickCard.BarWidth | client/src/components/TrickCard.tsx:183-195 | for a score in [0, 10], the bar's width lies in [0, 100] percent and, in tens of percent, equals the number of full stars the same score's rating shows |
| TrickCard.ShownReviews | client/src/components/TrickCard.tsx:231 | the shown reviews are a subsequence of the reviews holding each non-empty review exactly as often as it occurs, and no empty one |
| TrickCard.NoReviewsShown | client/src/components/TrickCard.tsx:231 | no review is listed exactly when every review is empty |
| TrickCard.CardOf | client/src/components/TrickCard.tsx:50-231 | the badges agree with the rare and popular filters; for scores in [0, 10] each rating shows full stars in exactly the first floor(score) slots and a half star after them exactly when the fraction is at least one half; each bar is score×10 percent; the listed reviews are a subsequence of the reviews with every non-empty review as often as it occurs and no empty one; the consensus shows iff it is non-empty |
| FixImages.CodeOf | fix_images.py:18 | the key is the longest prefix of the name without `_`, followed by `_` when shorter than the name |
| FixImages.FirstImageFor | fix_images.py:14-20 | a found image is a listed product image filed under the code; none found means no listed product image is filed under it |
| FixImages.FirstImageForIsFirst | fix_images.py:15-20 | the image found sits at an index before which no product image is filed under the code: it is the first one |
| FixImages.FirstImageForSnoc | fix_images.py:15-20 | a file listed later only fills a code that no earlier file filled |
| FixImages.BuildImageMap | fix_images.py:14-20 | a code is a key iff some product image is filed under it, and maps to the first such image; every key starts with "T-" and every value starts with its key |
| FixImages.KeyOfImage | fix_images.py:16-18 | the code of a product image starts with "T-" and begins the image's name |
| FixImages.Relink | fix_images.py:26-31 | a record changes at most its image name, takes the map's image when its code is a key, and is unchanged otherwise |
| FixImages.RelinkAll | fix_images.py:25-31 | the update keeps the number and order of the records and relinks each one |
| FixImages.RelinkAllIdempotent | fix_images.py:14-28 | updating twice with the same map gives the records of updating once |
| FixImages.UpdateRecords | fix_images.py:25-31 | the update loop produces each record relinked through the map, in order |
| FixImages.RelinkAllTakesFirstImages | fix_images.py:14-31 | with the map the script builds, each updated record keeps every field but its image name, which becomes the first product image filed under its code when there is one |
| FixImages.FixImages | fix_images.py:14-35 | the whole script: the map as above, the same number of records in the same order, every field but the image name kept, and the image name set to the first product image filed under the record's code when there is one |
| Seqs.Filter | client/src/pages/Home.tsx:43 | the selection is no longer than the input and every element passes the test |
| Seqs.FilterMembers | client/src/pages/Home.tsx:41-51 | an element survives iff it occurs and passes |
| Seqs.FilterCount | client/src/pages/Home.tsx:41-51 | a passing element survives as often as it occurs; a failing one not at all |
| Seqs.FilterIsSubsequence | client/src/pages/Home.tsx:41-51 | filtering keeps the survivors' relative order |
| Seqs.FilterIdempotent | client/src/pages/Home.tsx:41-51 | filtering twice with one test is filtering once |
| Seqs.FilterAgree | client/src/pages/Home.tsx:41-51 | two tests that agree on every element select the same elements |
| Sorting.SortBy | client/src/pages/Home.tsx:54-70 | the sort returns a permutation of its input |
| Sorting.InsertSorted | client/src/pages/Home.tsx:54-70 | inserting into a sorted sequence keeps it sorted, under a consistent comparator |
| Sorting.InsertStable | client/src/pages/Home.tsx:56-68 | insertion keeps the inserted element ahead of the elements it ties with |
| Sorting.SortByIsStableSort | client/src/pages/Home.tsx:56-68 | the sort is sorted, a permutation, and keeps ties in input order |
| Sorting.SortedSameRunsEqual | client/src/pages/Home.tsx:56-68 | two sorted sequences with the same ties in the same order are equal |
| Sorting.StableSortUnique | client/src/pages/Home.tsx:56-68 | two stable sorts of one input under a consistent comparator are equal |
| Sorting.SortBySorted | client/src/pages/Home.tsx:54-72 | sorting an already sorted sequence returns it unchanged |
| Numerals.TrimStart | client/src/pages/Home.tsx:49 | the result is a suffix of the text that does not start with white space |
| Numerals.TrimStartRemovesWhiteSpace | client/src/pages/Home.tsx:49 | everything removed is white space |
| Numerals.LeadingDigits | client/src/pages/Home.tsx:49 | the count is the length of the longest prefix of digits |
| Numerals.DecimalTextValue | client/src/pages/Home.tsx:49 | a decimal numeral denotes its number |
| Numerals.FourDigitNumeral | client/src/pages/Home.tsx:49 | the numeral of a number from 1000 to 9999 is its four decimal digits |
| Numerals.ParseDecimal | client/src/pages/Home.tsx:49 | `parseInt` reads a decimal numeral back as its number, also when non-digit text follows |
| Numerals.ParseUnsigned | client/src/pages/Home.tsx:49 | text starting with a decimal digit and no hex prefix parses as its leading digits |
| Numerals.NoDigitsNoNumber | client/src/pages/Home.tsx:49 | text without a decimal digit parses to NaN |

## Left out

- The `fetch` call, `res.json()`, file reading and writing, `os.listdir` and every `print`
  are input and output. Their results are parameters: the response as a `FetchResult`, the
  records as a sequence of items, and the directory listing as a sequence of names.
- The order of `os.listdir` is unspecified. "The first image filed under a code" is first
  in the listing the caller passes, so when several files share a code, which one wins
  depends on that order.
- A response body that parses as JSON but is not an array of items (for example `{}`) is
  not modelled. The page stores it, and spreading it while rendering then throws instead
  of showing an error. `HomeLoad.Body` is either a parsed item list or unparsable text.
- The exact `localeCompare` collation depends on the locale and on the engine. The name
  sort takes it as a parameter `collate`, assumed antisymmetric and transitive.
- `parseInt` is modelled over unbounded integers. Rounding of very long numerals to a
  double, and `-0`, are not modelled. Neither affects a four-digit year.
- Floating-point scores, `toFixed(1)` text and the `%`/`Math.floor` of a double are
  replaced by integer tenths. This assumes scores carry at most one decimal place.
- Home.CompareYears: the year sort as written, `parseInt(b) - parseInt(a)`, gives `NaN`
  for a year that does not parse, and the sort reads that as a tie. With readable years on
  both sides of an unreadable one, that comparator is inconsistent (see Findings). The
  model instead sorts unparsable years after every readable year. Its order also differs
  from the page where the page's order is well defined. With one blank year and one
  readable year, the page ties them and keeps the loaded order, but the model moves the
  blank year second (`Home.BlankYearMovesBack`). Where every year parses, the two
  comparators agree (`Home.CompareYearsAgreesWhereDefined`). The view is then also a
  stable sort under the comparator as written (`Home.DeriveYearAsWritten`).
- React state, hooks, memoisation, framer-motion animation, the detail dialog, image load
  errors, `Math.random` particles and class names are presentation. So are
  `HeroSection.tsx`, the option lists and buttons of `FilterBar.tsx`, and the routing
  shell in `App.tsx`.
- The score bars' widths are modelled as the percentage number. The CSS string
  `${score * 10}%` and its floating-point text are not modelled.
- Records whose `reviews` is missing or `null` are not modelled; `reviews` is always a
  sequence.
- The page computes the derived view on every render, even while loading or after a
  failure (over the empty item list); `HomeLoad.Render` does the same.

## Findings

| source | as written | input that shows it | evidently intended | confidence | as-written member | corrected member |
|---|---|---|---|---|---|---|
| client/src/pages/Home.tsx:65 | the year comparator `parseInt(b.year_released) - parseInt(a.year_released)` returns `NaN` when either year does not parse, and the sort reads `NaN` as a tie | years "1990", "" and "2000": the blank year ties with both others, yet 2000 must come before 1990, so the comparator is not consistent and the engine may return any order | a consistent newest-first order, with unparsable years placed after all readable years | not executed | Home.YearComparatorAsWrittenInconsistent | Home.ComparatorConsistent |
