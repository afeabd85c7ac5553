# Restaurant data generator and its serverless handler, in Dafny

This project models the live logic of the `netlify/functions/scraper.js`
serverless function of a restaurant web scraper. The browser-driven
scraping pipeline in that file is commented out. What runs is:

- the synthetic data generator `generateDummyData`;
- the handler `exports.handler`, which fills in the query-string
  parameters and wraps the generator's result in a response.

The generator builds `n_restaurants` restaurants, numbered from 1. Each
restaurant has:

- a decimal `id`;
- a name `"<usermsg> Restaurant <i>"`;
- the `cuisine` and `location` copied from the request;
- a menu of `n_items` items.

Each item has:

- a `productId`: the restaurant id followed by the item ordinal, padded
  with `'0'` to two characters;
- an `itemName`: `"<usermsg> Item <j>"`;
- a price.

The handler applies these defaults:

- `location` falls back to `"Palo Alto, CA"` when it is absent or empty;
- `usermsg` falls back to `"chinese"` when it is absent or empty;
- each count is `parseInt(x, 10) || 5`.

Modules, one file each:

- `Decimal` (`decimal.dfy`): the decimal text of a natural number, as
  `toString()` and template literals print a loop counter. It also holds
  `padStart` with a one-character fill, and the value of a digit string.
- `JsParseInt` (`parse_int.dfy`): `parseInt(string, 10)` as section 19.2.5
  of ECMA-262 defines it. Leading white space is skipped, one optional
  sign is read, then the longest run of decimal digits. No digits gives NaN.
- `Generator` (`generator.dfy`): the restaurant and menu records.
  `GenerateDummyData` is the source's two nested counting loops. It is
  proved equal to the declarative `DummyData`, and the lemmas state what
  the result looks like.
- `Handler` (`handler.dfy`): the parameter defaulting, the `|| 5` count
  rule and the 200 response.

The code replaces only NaN and 0. A negative count such as `"-2"` passes
through, and the generator's loops then produce nothing
(`Handler.NegativeCountKept`).

## Model

| member | source | states |
|---|---|---|
| `Decimal.NatToString` | netlify/functions/scraper.js:154 | the decimal text of a counter is digits only, one character exactly when the number is below 10, and starts with `'0'` only for zero |
| `Decimal.DigitsValueOfNatToString` | netlify/functions/scraper.js:154 | reading the decimal text of `n` back as digits gives `n` |
| `Decimal.NatToStringInjective` | netlify/functions/scraper.js:154 | two numbers have the same decimal text exactly when they are equal |
| `Decimal.PadStart` | netlify/functions/scraper.js:147 | `padStart(width, fill)` gives length `max(len, width)`, keeps the original text as a suffix, fills only the front, and never truncates |
| `Decimal.PadStartZerosValue` | netlify/functions/scraper.js:147 | padding digits with `'0'` keeps them digits and keeps their value |
| `Decimal.PaddedNatToStringInjective` | netlify/functions/scraper.js:147 | zero-padded decimal texts are equal exactly when the numbers are equal, at every width |
| `JsParseInt.ParseInt` | netlify/functions/scraper.js:170 | `parseInt(x, 10)`: it has no contract of its own; the `ParseInt*` lemmas below state what it returns |
| `JsParseInt.TrimStart` | netlify/functions/scraper.js:170 | the text left after skipping white space is empty or starts with a non-white-space character |
| `JsParseInt.TrimStartRemovesWhiteSpace` | netlify/functions/scraper.js:170 | what is skipped is only white space, and what is left is the rest of the input unchanged |
| `JsParseInt.DigitPrefix` | netlify/functions/scraper.js:170 | the digits `parseInt` reads are all decimal digits and no longer than the input |
| `JsParseInt.DigitPrefixIsLongestDigitRun` | netlify/functions/scraper.js:170 | those digits are a prefix of the text and stop only at its end or at a non-digit |
| `JsParseInt.ParseIntDigits` | netlify/functions/scraper.js:170 | a digit run followed by text that does not start with a digit parses as the value of the digits (`"12abc"` gives 12) |
| `JsParseInt.ParseIntSignedDigits` | netlify/functions/scraper.js:170 | a leading `-` negates the value and a leading `+` keeps it |
| `JsParseInt.ParseIntSkipsWhiteSpace` | netlify/functions/scraper.js:170 | leading white space does not change the result |
| `JsParseInt.ParseIntNaN` | netlify/functions/scraper.js:170 | the result is NaN exactly when no digit follows the white space and the optional sign |
| `JsParseInt.ParseIntNonNumeric` | netlify/functions/scraper.js:170 | text starting with something other than white space, a sign or a digit gives NaN |
| `JsParseInt.ParseIntOfNatToString` | netlify/functions/scraper.js:170 | the decimal text of a number parses back to that number |
| `JsParseInt.ParseIntOfNegatedNatToString` | netlify/functions/scraper.js:170 | `"-"` followed by the decimal text of `n` parses to `-n` |
| `Generator.Iterations` | netlify/functions/scraper.js:143-145 | a loop `for (k = 1; k <= n; k++)` runs `n` times when `n >= 0` and not at all when `n <= 0` |
| `Generator.ProductId` | netlify/functions/scraper.js:147 | the template literal for `productId`: no contract of its own; `MenuItemFields` and the `ProductId*` lemmas state its layout and when it is unique |
| `Generator.DummyData` | netlify/functions/scraper.js:141-162 | the declarative result of `generateDummyData`: no contract of its own; `GenerateDummyData` is proved equal to it and the lemmas below state its shape and fields |
| `Generator.GenerateDummyData` | netlify/functions/scraper.js:141-162 | the nested loops return exactly `DummyData`: restaurants 1 to `n_restaurants` in order, each with items 1 to `n_items` in order |
| `Generator.DummyDataShape` | netlify/functions/scraper.js:142-161 | the result has `n_restaurants` entries and each menu `n_items` items; a count of zero or less gives none |
| `Generator.RestaurantFields` | netlify/functions/scraper.js:153-159 | the restaurant at position `k` has id `k + 1` in decimal, name `<usermsg> Restaurant <id>`, cuisine `usermsg`, and the request's location |
| `Generator.RestaurantIdsIncreasing` | netlify/functions/scraper.js:143 | restaurants appear in strictly increasing id order, so no two share an id |
| `Generator.MenuItemFields` | netlify/functions/scraper.js:146-149 | item `m` of restaurant `k` has a product id of the restaurant id followed by the ordinal `m + 1`, padded to two characters and never cut; name `<usermsg> Item <m + 1>`; and the price given for `(k + 1, m + 1)` |
| `Generator.ProductIdExample` | netlify/functions/scraper.js:147 | item 2 of restaurant 3 has product id `"302"` |
| `Generator.ProductIdInjectiveInItem` | netlify/functions/scraper.js:147 | for a fixed restaurant, two product ids are equal exactly when the item ordinals are equal |
| `Generator.ItemSuffixLength` | netlify/functions/scraper.js:147 | an ordinal below 100 gives a suffix of exactly two characters |
| `Generator.ProductIdInjectiveShort` | netlify/functions/scraper.js:147 | with ordinals below 100, a product id determines both the restaurant and the item |
| `Generator.ProductIdsDistinctInMenu` | netlify/functions/scraper.js:144-151 | no two items of one menu share a product id |
| `Generator.HundredthItemIdDistinct` | netlify/functions/scraper.js:147 | the id of item 100 ends in `"00"`, which the two-character suffix of items 1 to 99 never does, so it matches no such id |
| `Generator.ProductIdInjectiveUpTo100` | netlify/functions/scraper.js:147 | with item ordinals from 1 to 100, a product id determines both the restaurant and the item |
| `Generator.ProductIdsUniqueWithShortMenus` | netlify/functions/scraper.js:143-151 | with at most 100 items per menu, product ids are unique across the whole result |
| `Generator.ProductIdsCollideAcrossRestaurants` | netlify/functions/scraper.js:147 | from 101 items per menu on, ids of different restaurants can coincide: item 101 of restaurant 1 and item 1 of restaurant 11 are both `"1101"` |
| `Handler.StringOr` | netlify/functions/scraper.js:168-169 | JavaScript's logical or of a parameter and its fallback keeps a non-empty string and replaces an absent or empty one with the fallback; the result is never empty when the fallback is not |
| `Handler.StringDefaulting` | netlify/functions/scraper.js:168-169 | the default is chosen exactly when the parameter is absent, empty, or already equal to the default; applying the defaulting twice changes nothing |
| `Handler.NumberOr` | netlify/functions/scraper.js:170-171 | JavaScript's logical or of the parsed count and 5 replaces NaN and 0 and keeps every other number, negative ones included |
| `Handler.CountParameter` | netlify/functions/scraper.js:170-171 | the count, `parseInt` followed by the logical-or fallback to 5, is never 0 |
| `Handler.RequestOf` | netlify/functions/scraper.js:167-171 | after defaulting, location and usermsg are non-empty and both counts are nonzero |
| `Handler.Handle` | netlify/functions/scraper.js:165-180 | the handler answers status 200 with a body holding exactly the generator's result for the defaulted parameters |
| `Handler.CountOfDecimal` | netlify/functions/scraper.js:170-171 | a count written as the decimal text of `n` gives `n`, except that 0 gives 5 |
| `Handler.NegativeCountKept` | netlify/functions/scraper.js:170-171 | a negative count is kept, not defaulted, and the generator then returns no restaurants for `n_restaurants`, or only empty menus for `n_items` |
| `Handler.CountExamplesKept` | netlify/functions/scraper.js:170-171 | `"3"` gives 3, `"12abc"` gives 12, `"-2"` gives -2, and `" 7"` gives 7 |
| `Handler.CountExamplesDefaulted` | netlify/functions/scraper.js:170-171 | `"abc"`, `""`, `"0"` and an absent parameter all give 5 |

## Left out

- The Playwright scraping pipeline (netlify/functions/scraper.js:1-137) is commented out. It is browser automation: navigation, selectors, waits and timeouts. None of it is modelled.
- Prices: the source draws them with `Math.random()`, `toFixed(2)` and `parseFloat` (netlify/functions/scraper.js:149). The model takes the price as a caller-supplied function of the restaurant and item ordinals, so the 10 to 20 range and the two-decimal rounding are not stated.
- `JSON.stringify` of the body is not modelled. The body is the `restaurants` value itself.
- The 500 branch (netlify/functions/scraper.js:181-186) is not modelled. The generator and the serialisation cannot throw in the model, so `Handle` always answers 200. The source reaches that branch only when huge counts hit a resource limit of the JavaScript engine: memory, the maximum string length in `JSON.stringify` (netlify/functions/scraper.js:179), or the maximum array length in `push`.
- `console.error` logging and the `require.main` demo block (netlify/functions/scraper.js:190-208) are left out. They are I/O.
- The demo passes numbers where the model takes strings. `parseInt` turns a number into its text first, so this changes nothing for the demo's small integers.
- The `async`/Promise wrapping of the handler is not modelled.
- The crash when `event.queryStringParameters` is undefined is not modelled. The `TypeError` is raised when `params.location` is read at netlify/functions/scraper.js:168, before the `try`.
- JsParseInt.ParseInt: the result is an exact integer. JavaScript rounds it to a double, so digit runs above 2^53 lose precision, and runs longer than about 309 digits give `Infinity`. Neither effect is modelled.
- JsParseInt.ParsedInt: `parseInt("-0")` gives negative zero in JavaScript and the integer 0 here. Both are falsy, so the `|| 5` result is 5 either way.
- Decimal.NatToString: JavaScript prints counters of 10^21 and above in exponent notation. The model always prints plain digits, because loops that long cannot finish.
- Strings are sequences of Dafny characters. JavaScript strings are UTF-16 code units, and the white-space set is stated on code points. The two agree for every character `parseInt` skips.
