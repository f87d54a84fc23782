# level2-assignment-1 utilities, modelled in Dafny

The repository is a set of small TypeScript utilities in one file, `solution.ts`.
This project models the four that contain logic and proves what each one promises:

- `formatValue` dispatches on a `string | number | boolean`. It upper-cases a
  string, multiplies a number by ten and negates a boolean (module `Format`, `format.dfy`).
- `filterByRating` and `filterActiveUsers` are order-preserving `Array.filter`
  calls. The first keeps items rated from 4 to 5. The second keeps active users
  (module `Filters`, `filters.dfy`, over the generic `Seqs.Filter` in `seqs.dfy`).
- `getUniqueValues` concatenates two arrays. It walks the result with an index
  loop and pushes each value that the output does not yet include (module
  `Unique`, `unique.dfy`). The loop is a `method` proved against the reference
  function `Dedup`.
- `calculateTotalPrice` is a `reduce` over products (module `Pricing`, `pricing.dfy`).
  Each step first throws if the product's discount is present and outside [0, 100].
  It then adds `price * quantity` less `price * quantity * discount / 100`.
  The thrown error is a `Failure(InvalidDiscount(name, discount))` of the
  `Result` type in `wrappers.dfy`. `Reduce` is the fold. It is proved equal to
  a specification built from `FirstInvalid` and the recursive sum `Sum`.

JavaScript numbers are modelled as `real`, so sums and products are exact.
Strings are `seq<char>`.

## Model

| member | source | states |
|---|---|---|
| `Format.UpperChar` | solution.ts:5 | a lower-case ASCII letter becomes its upper-case letter; every other character is unchanged; the result is never a lower-case ASCII letter |
| `Format.ToUpperCase` | solution.ts:5 | `toUpperCase` keeps the length and upper-cases every position |
| `Format.ToUpperCaseIdempotent` | solution.ts:5 | the upper-cased string has no lower-case ASCII letter, and upper-casing it again changes nothing |
| `Format.ToUpperCaseAppend` | solution.ts:5 | upper-casing commutes with concatenation |
| `Format.FormatValue` | solution.ts:3-11 | the kind of the value is kept; a string is upper-cased position by position; a number `n` becomes `n * 10`; a boolean `b` becomes `!b` |
| `Format.FormatBoolInvolution` | solution.ts:8-9 | formatting a boolean twice gives the original boolean back |
| `Format.FormatStringIdempotent` | solution.ts:4-5 | formatting an already formatted string changes nothing |
| `Seqs.Filter` | solution.ts:42 | `filter` returns exactly the elements that pass, each as often as in the input, as a subsequence of the input |
| `Seqs.FilterIdempotent` | solution.ts:42 | filtering twice by one predicate is filtering once |
| `Seqs.FilterAppend` | solution.ts:54 | filtering distributes over concatenation |
| `Filters.FilterByRating` | solution.ts:41-43 | the result holds exactly the items with `4 <= rating <= 5`, with their multiplicities, in their original order |
| `Filters.FilterActiveUsers` | solution.ts:53-55 | the result holds exactly the users with `isActive`, with their multiplicities, in their original order |
| `Filters.FilterByRatingIdempotent` | solution.ts:42 | filtering by rating twice is filtering once |
| `Filters.FilterActiveUsersIdempotent` | solution.ts:54 | filtering active users twice is filtering once |
| `Filters.FilterByRatingKeepsRatedList` | solution.ts:42 | a list whose items are all rated 4 to 5 is returned unchanged |
| `Filters.FilterActiveUsersKeepsActiveList` | solution.ts:54 | a list of active users is returned unchanged |
| `Filters.FilterByRatingAppend` | solution.ts:42 | filtering by rating distributes over concatenation |
| `Filters.FilterActiveUsersAppend` | solution.ts:54 | filtering active users distributes over concatenation |
| `Unique.GetUniqueValues` | solution.ts:74-87 | the loop returns the reference `Dedup` of `arr1 + arr2`; the result has no duplicates; it holds a value iff `arr1` or `arr2` holds it; it is a subsequence of the concatenation in first-occurrence order; it is no longer than both inputs together |
| `Unique.DedupNoDuplicates` | solution.ts:81-85 | a value is pushed only when it is not yet included, so the result has no duplicates |
| `Unique.DedupElements` | solution.ts:79-86 | every input value occurs in the result, and every result value occurs in the input |
| `Unique.DedupSubsequence` | solution.ts:79-86 | the result is a subsequence of the concatenation |
| `Unique.DedupLength` | solution.ts:79-86 | the result is no longer than the concatenation |
| `Unique.DedupOfDistinct` | solution.ts:79-86 | a concatenation without repeats is returned unchanged |
| `Unique.DedupFirstOccurrenceOrder` | solution.ts:81-85 | the result lists its values in the order of their first occurrences in the concatenation |
| `Unique.IndexOfSnoc` | solution.ts:82 | appending a value keeps the first occurrence of every earlier value where it was |
| `Pricing.DiscountPercent` | solution.ts:109-111 | an absent discount counts as 0; a discount that passed the range check lies in [0, 100] |
| `Pricing.Step` | solution.ts:98-112 | one reduce step throws exactly when the product's discount is present and below 0 or above 100 |
| `Pricing.FirstInvalid` | solution.ts:99-106 | finds the first product with an invalid discount, or reports that every discount is valid |
| `Pricing.LineTotalIsNet` | solution.ts:108-112 | the truthiness test on the discount gives the plain formula `price*quantity - price*quantity*d/100`, with an absent discount counted as 0; an absent discount and a discount of 0 contribute the same amount |
| `Pricing.ReduceMeetsSpec` | solution.ts:98-113 | the fold fails with the name and discount of the first invalid product, and otherwise adds the sum of the discounted lines to the initial total |
| `Pricing.CalculateTotalPrice` | solution.ts:97-114 | an empty list gives 0; the call fails iff some product has an out-of-range discount; the error names the first such product and its discount; on success the total is the sum of the discounted lines |
| `Pricing.SingleProduct` | solution.ts:108-112 | a single valid product costs `price * quantity * (1 - d/100)` |
| `Pricing.NetBounds` | solution.ts:108-112 | with a non-negative price and quantity and a valid discount, a line lies between 0 and `price * quantity` |
| `Pricing.SumBounds` | solution.ts:98-113 | under the same conditions for every product, the sum lies between 0 and the undiscounted sum |
| `Pricing.TotalBounds` | solution.ts:97-114 | under the same conditions the call succeeds with a total between 0 and the sum of `price * quantity` |
| `Pricing.SumAppend` | solution.ts:112 | the sum of a concatenation is the sum of the two sums |
| `Pricing.SumRemove` | solution.ts:112 | taking a product out of the list takes its line out of the sum |
| `Pricing.SumPermutation` | solution.ts:98-113 | reordering the products leaves the sum unchanged |
| `Pricing.SameInvalidity` | solution.ts:99-102 | if one order of the products holds an invalid discount, so does every reordering |
| `Pricing.TotalPermutation` | solution.ts:97-114 | reordering the products changes neither whether the call fails nor, on success, the total |
| `Pricing.ExampleTotal` | solution.ts:97-114 | 2 at 10 with 10% off plus 1 at 5 with no discount totals 23 |
| `Pricing.ExampleInvalidDiscount` | solution.ts:99-105 | a discount of 150 on product "C" fails with `InvalidDiscount("C", 150)` |

## Left out

- `getLength` (solution.ts:14-18): its `typeof` and `Array.isArray` guard is dynamic typing. In a typed model it is just the length.
- `Person` and `Person.getDetails` (solution.ts:21-33): a plain record and string interpolation of a number. They hold no logic.
- `printBookDetails` (solution.ts:65-71): console output only.
- `Format.FormatValue`: the `undefined` result of `formatValue` needs a value that is none of the three kinds. Such a value cannot exist in the typed model, so the function always returns a value.
- `Format.ToUpperCase`: upper-cases the 26 ASCII letters only. Full Unicode case mapping, which can change a string's length, is not modelled.
- Numbers are exact `real`s. IEEE-754 rounding, `NaN`, infinities and `-0` are not modelled. So a `NaN` discount, which slips past the range check because both comparisons are false, is not modelled either.
- `Unique.GetUniqueValues`: `includes` is modelled as Dafny equality on values. Its SameValueZero treatment of `NaN` and `-0` is not modelled.
- `Pricing.CalculateTotalPrice`: the error is the structured `InvalidDiscount(name, discount)`. The message text it is rendered into is not modelled.
- `Pricing.TotalPermutation`: on failure, the reported product may differ between two orders, because it is the first invalid one in each order. Only success or failure and the success total are proved order-independent.
- Prices and quantities are not validated, as in the source. The bounds lemmas therefore assume that they are non-negative.
