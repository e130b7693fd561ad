# DollarApi price pipeline in Dafny

DollarApi is a small Express service. It scrapes the Banco Central de Venezuela home page for the
US dollar and euro exchange rates and republishes them as JSON on `/prices`. This project models
the deterministic part of that service and proves properties about it:

- **The price-text clean-up** (`api.js:28-30`, repeated for the euro at `api.js:35-37`). The text
  of the `#dolar strong` or `#euro strong` element goes through three steps. It is trimmed. Its
  first comma becomes a dot. Every character outside `[0-9.]` is then deleted. Module `PriceText`
  gives one function per step (`Trim`, `ReplaceFirst`, `KeepNumeric`) and their composition
  `Clean`.
- **What `parseFloat` reads from the cleaned text** (`api.js:30`). Module `FloatPrefix` defines
  `ConsumedPrefix`, the longest prefix that is a decimal literal. It proves that prefix against an
  independent grammar predicate, `IsDecimalLiteral`. It also defines `ParsesToNaN`, which holds
  when that prefix contains no digit.
- **`getPrice` and the `/prices` handler** (`api.js:15-46`, `api.js:55-83`). Module
  `PriceService` models these. The fetch and the HTML lookup come in as a `Scrape`: either the
  fetch failed, or it gives one `Option<string>` per element (`None` when the element is absent).
  `GetPrice` returns `Success(Prices(...))` or `Failure("Could not retrieve prices from the
  source.")`. `PricesResponse` chooses the status code and the envelope `{message, error?,
  existe, data}`.

Facts the model makes explicit:

- Only the first comma becomes a dot, because `String.replace` with a string pattern changes one
  occurrence. Later commas are deleted, so `"1,234,56"` cleans to `"1.23456"` (`CleanTwoCommas`).
- The dot in a currency label survives. `"Bs. 36,75 "` cleans to `".36.75"`, and `parseFloat`
  then reads `".36"` (`CleanCurrencyLabel`, `CurrencyLabelReadAsFraction`).
- The trim never matters (`CleanIgnoresTrim`).
- A missing element leaves its price `null`, and `null.toFixed(2)` throws. The catch rethrows the
  fixed message, so `getPrice` never returns a `null` field. The handler's 500 branch without an
  `error` field (`api.js:62-67`) is therefore dead (`NullBranchUnreachable`).
- An element whose text holds no digit does not fail. `parseFloat` gives NaN, and the answer is
  still 200 (`DigitlessPriceStillSucceeds`).

The envelope's success flag is named `existe`: 1 on a 200 answer, 0 on a 500 answer.

## Model

| member | source | states |
|---|---|---|
| `PriceText.TrimStart` | api.js:28 | the result is a suffix of the text; everything cut off is whitespace; the result does not start with whitespace |
| `PriceText.TrimEnd` | api.js:28 | the result is a prefix of the text; everything cut off is whitespace; the result does not end with whitespace |
| `PriceText.Trim` | api.js:28 | `trim()` gives a text no longer than the input that neither starts nor ends with ECMAScript whitespace |
| `PriceText.TrimSplit` | api.js:28 | the input is some whitespace, then the trimmed text, then some whitespace |
| `PriceText.ReplaceFirst` | api.js:29 | `replace(",", ".")` keeps the length and leaves a text without the pattern unchanged |
| `PriceText.ReplaceFirstAt` | api.js:29 | exactly the first occurrence of the pattern is replaced and every other character is kept |
| `PriceText.ReplaceFirstChanges` | api.js:29 | each character either stays or is an occurrence of the pattern turned into the replacement |
| `PriceText.ReplaceFirstSkipsPrefix` | api.js:29 | a stretch before the first occurrence is left alone |
| `PriceText.ReplaceFirstKeepsSuffix` | api.js:29 | a tail without the pattern is never touched |
| `PriceText.KeepNumeric` | api.js:30 | `replace(/[^0-9.]/g, '')` leaves only digits and dots and never grows the text |
| `PriceText.KeepNumericCounts` | api.js:30 | every digit and dot is kept as often as it occurs, and no other character is kept |
| `PriceText.KeepNumericConcat` | api.js:30 | the strip works character by character and keeps the order: it distributes over concatenation |
| `PriceText.KeepNumericChar` | api.js:30 | one character survives exactly when it is in `[0-9.]` |
| `PriceText.KeepNumericFixed` | api.js:30 | the strip leaves a text unchanged if and only if the text is made only of digits and dots |
| `PriceText.KeepNumericIdempotent` | api.js:30 | applying the strip twice gives the same text as applying it once |
| `PriceText.KeepNumericDropsAll` | api.js:30 | a text without digits or dots is removed entirely |
| `PriceText.KeepNumericDropsComma` | api.js:30 | a comma is deleted and the text on both sides is kept |
| `PriceText.Clean` | api.js:28-30 | the cleaned text holds only ASCII digits and dots |
| `PriceText.CleanIgnoresTrim` | api.js:28-30 | cleaning without the trim gives the same text |
| `PriceText.CleanPadded` | api.js:28-30 | whitespace around a text does not change what it cleans to |
| `PriceText.CleanTrailingSpace` | api.js:28-30 | a trailing space does not change what a text cleans to |
| `PriceText.CleanAtFirstComma` | api.js:29-30 | before the first comma: the digits and dots of that part; then one dot; then the digits and dots of the rest, with any later comma deleted |
| `PriceText.CleanWithoutComma` | api.js:29-30 | without a comma, cleaning is the strip alone |
| `PriceText.CleanConcat` | api.js:29-30 | cleaning a text whose first part has no comma strips that part and cleans the rest, in order |
| `PriceText.CleanFixesNumeric` | api.js:28-30 | a text of digits and dots is returned unchanged |
| `PriceText.CleanIdempotent` | api.js:28-30 | cleaning an already cleaned text returns it unchanged |
| `PriceText.CleanDecimalComma` | api.js:28-30 | digits, a comma, digits (as in "36,50") clean to the same digits around a dot ("36.50") |
| `PriceText.CleanTwoCommas` | api.js:28-30 | with two commas, only the first becomes a dot and the second is deleted ("1,234,56" gives "1.23456") |
| `PriceText.CleanAfterLabel` | api.js:28-30 | a comma-free label in front of the number keeps its digits and dots in front of it |
| `PriceText.CleanCurrencyLabel` | api.js:28-30 | "Bs. " + digits + "," + digits + " " cleans to "." + digits + "." + digits |
| `PriceText.CleanAddsNoDigit` | api.js:28-30 | a text without digits cleans to a text without digits |
| `FloatPrefix.LeadingDigits` | api.js:30 | counts the digits the text starts with: all of them are digits, and the next character is not |
| `FloatPrefix.ParsesToNaN` | api.js:30 | `parseFloat` gives NaN exactly when the prefix it consumes holds no digit, which is exactly when it consumes nothing |
| `FloatPrefix.ConsumedPrefix` | api.js:30 | what `parseFloat` reads is a prefix of the cleaned text |
| `FloatPrefix.ConsumedPrefixIsLiteral` | api.js:30 | the consumed prefix is empty or a decimal literal |
| `FloatPrefix.ConsumedPrefixIsLongest` | api.js:30 | no longer prefix of the text is a decimal literal |
| `FloatPrefix.ConsumedWhole` | api.js:30 | a text that is a decimal literal as a whole is read as a whole |
| `FloatPrefix.NaNExactlyWhenNothingConsumed` | api.js:30 | `parseFloat` gives NaN if and only if nothing is consumed, which happens if and only if the text is empty or starts with a dot not followed by a digit |
| `FloatPrefix.DecimalCommaReadInFull` | api.js:28-30 | "36,50" is cleaned and then read in full as "36.50" |
| `FloatPrefix.ConsumedStopsAtSecondDot` | api.js:30 | from ".36.75" only ".36" is read |
| `FloatPrefix.CurrencyLabelReadAsFraction` | api.js:28-30 | "Bs. 36,75 " is read as ".36", not as 36.75 |
| `PriceService.PriceOf` | api.js:26-31 | the price is `null` exactly when the element is missing; otherwise it is a text of digits and dots |
| `PriceService.GetPrice` | api.js:15-46 | fails if and only if the fetch failed or either element is missing; the only error is "Could not retrieve prices from the source."; a success never holds a `null` field, and both its fields are digits and dots |
| `PriceService.PricesResponse` | api.js:60-81 | status is 200 or 500; `existe` is 1 on a 200 answer and 0 on a 500 answer; 200 exactly when `data` is present; the message is the success message on 200, the server-error message when `getPrice` threw, and the missing-prices message on a 500 without error; `data` is the prices returned by `getPrice`; `error` is present exactly when `getPrice` threw, and then holds its message; a success gets 200 exactly when neither field is `null` |
| `PriceService.ServePrices` | api.js:55-83 | a `/prices` request answers 200 or 500 |
| `PriceService.ServePricesOutcome` | api.js:55-83 | 200, `existe` 1 and both cleaned prices when the page was fetched and both elements found; otherwise 500, `existe` 0, `data` null and error "Could not retrieve prices from the source." |
| `PriceService.NullBranchUnreachable` | api.js:62-67 | the "No se pudieron obtener los precios" envelope is never sent, and every 500 answer carries the `getPrice` error |
| `PriceService.SuccessCarriesCleanTexts` | api.js:69-73 | a 200 answer carries two non-null prices made only of digits and dots |
| `PriceService.DigitlessPriceStillSucceeds` | api.js:28-40 | a found element without digits gives a NaN price, and `/prices` still answers 200 |

## Left out

- The HTTPS request through axios, and the agent with `rejectUnauthorized: false` (`api.js:11-13`, `19`): these are network I/O. A failed request or a failed page load is the `FetchFailed` case of `Scrape`.
- The HTML parsing by cheerio and the `#dolar strong` / `#euro strong` selectors (`api.js:21-24`): this is a foreign library. Its result is an `Option<string>` per element. When several nodes match, the text is their concatenated text, as `.text()` returns it.
- The conversion of the consumed prefix to a binary double and the rounding by `toFixed(2)` (`api.js:30`, `40`): this is floating-point behaviour. The model keeps the cleaned text in each field and describes only which prefix `parseFloat` reads and whether the result is NaN.
- `PriceService.GetPrice`: its fields hold the cleaned text, not the two-decimal string that `toFixed(2)` produces, for the reason above.
- `FloatPrefix.ConsumedPrefix`: it is defined only on texts of digits and dots, the only texts the service passes to `parseFloat`. Signs, exponents, `Infinity` and leading whitespace are not modelled.
- Express routing, `sendFile` of `index.html`, `app.listen` and the console logging (`api.js:48-53`, `85-88`, `43`): these are I/O and logging.
- The `req.headers = {...}` assignment (`api.js:57-59`): it overwrites the request's headers and sets no response header, so it has no observable effect to model.
- The client-side calculator in `index.html`: index.html is not part of this model.
- JavaScript strings are UTF-16 code units, while Dafny characters are Unicode scalar values. Characters outside the Basic Multilingual Plane are deleted by the strip either way, so the cleaned text is the same.
