# Asset manager: asset creation and dashboard aggregation

A Dafny model of the two pages that hold the logic of the asset-management
application:

- **The add-asset page** (`src/pages/AddAsset.jsx`):
  - `toNumber` turns a form field into a number.
  - The submit handler builds the new asset record. It starts from the
    five base fields, then makes fourteen `maybeAdd` calls for the
    optional fields.
  - The page lists the fetched assets of its category.
  - A save appends the server's reply to that list.
- **The dashboard** (`src/pages/Dashboard.jsx`):
  - `num` is the dashboard's own number reader, which drops commas.
  - `assetValue` picks a value through a chain of `??` fallbacks.
  - The `grouped` reduce files assets by category.
  - `totalPortfolio`, `chartData` and the category tiles are computed from
    the groups.
  - The list is fetched on mount, and a delete removes an asset locally.

The JavaScript the pages rely on is modelled explicitly. Values are
`undefined`, `null`, booleans, finite numbers and strings
(`JsValues.RawValue`), with these operators:

- `String(v)`
- `trim()`, using the WhiteSpace and LineTerminator code points of ECMA-262
- `replace(/,/g, "")`
- `??`
- truthiness
- `===`
- ECMAScript `parseFloat`, over exact reals
- `Number.isFinite(n) ? n : 0`

Modules:

- `Wrappers`: `Option`.
- `Text`: trimming and comma removal.
- `JsNumbers`: `parseFloat` and decimal literals.
- `JsValues`: field values, their operators, and the `Response.ok` test of a `fetch` reply.
- `Seqs`: filter and sum with their algebra.
- `AddAsset`: the add-asset page.
- `Dashboard`: the dashboard page.
- `Scenarios`: concrete forms and asset lists run through both pages.

Two points about what the code does:

- `toNumber` does not remove commas, so `"1,200"` reads as 1 on the
  add-asset page. Only the dashboard's `num` reads it as 1200.
- The same fourteen `maybeAdd` calls run for every category, each with a
  fixed numeric-or-text flag.

## Model

| member | source | states |
|---|---|---|
| AddAsset.ToNumber | src/pages/AddAsset.jsx:31-34 | a number is returned as it is; text whose trimmed form does not start like a number gives 0; text reading as Infinity or -Infinity gives 0 |
| AddAsset.ToNumberOfWord | src/pages/AddAsset.jsx:31-34 | a missing field, `null` or a boolean converts to 0, because its `String` form is a word `parseFloat` rejects |
| AddAsset.ToNumberReadsLeadingDecimal | src/pages/AddAsset.jsx:31-34 | a decimal with an optional `+` or `-` sign, preceded by any whitespace and followed by text that cannot extend it, converts to exactly its value |
| AddAsset.CommaEndsTheNumber | src/pages/AddAsset.jsx:31-34 | digits followed by a comma, whatever comes after it, convert to the value of the digits before the comma: commas are not thousands separators here |
| AddAsset.ToNumberOfNatText | src/pages/AddAsset.jsx:31-34 | the decimal text of a natural number converts to the same value as the number itself |
| AddAsset.NameOf | src/pages/AddAsset.jsx:51 | the name is the form's `name` field trimmed, or "" when the form has none |
| AddAsset.DateOf | src/pages/AddAsset.jsx:53 | the date is the form's `purchaseDate` field as typed, or "" when the form has none |
| AddAsset.Coerce | src/pages/AddAsset.jsx:60 | a numeric field is stored as a number, the `toNumber` of its text; a text field is stored as its trimmed text, which trimming leaves unchanged |
| AddAsset.MaybeAdd | src/pages/AddAsset.jsx:58-62 | a supplied field (present and not blank once trimmed) is stored as a number or as trimmed text by its flag; otherwise the record is unchanged |
| AddAsset.AddAll | src/pages/AddAsset.jsx:64-86 | after a run of `maybeAdd` calls, each key holds what its last call stores when the form supplies it, and its earlier value otherwise |
| AddAsset.BuildRecord | src/pages/AddAsset.jsx:48-86 | the record has the five base fields (route category, trimmed name, date as typed, both values through `toNumber`). Each numeric or text optional key is present exactly when the form supplies it, coerced by its kind, and there are no other keys |
| AddAsset.ContractDeterminesRecord | src/pages/AddAsset.jsx:48-86 | the base-field and optional-field properties admit exactly one record for a given category and form |
| AddAsset.PurchasePriceAddedOnce | src/pages/AddAsset.jsx:76-81 | the two `maybeAdd("purchasePrice", true)` calls are identical, and dropping the first leaves the built record unchanged |
| AddAsset.DropShadowedCall | src/pages/AddAsset.jsx:58-62 | a `maybeAdd` call followed later by one for the same key has no effect on the result |
| AddAsset.CategoryOnlySetsCategory | src/pages/AddAsset.jsx:48-86 | two routes' records for the same form differ only in the `category` field |
| AddAsset.UnreadFormKeysIgnored | src/pages/AddAsset.jsx:48-86 | forms that agree on the fields the handler reads build the same record |
| AddAsset.BuiltRecordInCategory | src/pages/AddAsset.jsx:49-55 | the built record passes the page's category filter |
| AddAsset.CategoryAssets | src/pages/AddAsset.jsx:22 | the filtered list is no longer than the fetched one and holds only assets whose category is the route's |
| AddAsset.CategoryAssetsCount | src/pages/AddAsset.jsx:22 | each asset of the category is kept as many times as it was fetched; every other asset is dropped |
| AddAsset.CategoryAssetsAppend | src/pages/AddAsset.jsx:22 | the filter keeps the fetched order: it distributes over concatenation |
| AddAsset.SaveMatchesRefetch | src/pages/AddAsset.jsx:96 | appending a saved record of the category gives the list a fresh fetch that includes it would show |
| AddAsset.AfterFetch | src/pages/AddAsset.jsx:18-24 | a failed fetch leaves the list; a fetched array is replaced by exactly its assets of the category, in fetched order and counted as fetched; the form is never touched |
| AddAsset.AfterSaveAsWritten | src/pages/AddAsset.jsx:88-103 | any reply with a JSON body is appended to the list and the form is reset, whatever the status; a network or parse failure changes nothing |
| AddAsset.ErrorReplyIsListed | src/pages/AddAsset.jsx:94-96 | a 500 reply carrying an error object ends up in the asset list |
| AddAsset.AfterSave | src/pages/AddAsset.jsx:88-103 | only a 2xx reply with a JSON body appends it and resets the form; every other outcome leaves the page as it was |
| AddAsset.SaveVersionsAgreeOnSuccess | src/pages/AddAsset.jsx:88-103 | on a 2xx reply the checked save and the save as written agree |
| Dashboard.NumValue | src/pages/Dashboard.jsx:49-56 | `null` and `undefined` give 0; a number is returned as it is; text that, without commas, does not start like a number gives 0; text reading as Infinity or -Infinity gives 0; a boolean gives 0 |
| Dashboard.NumDropsComma | src/pages/Dashboard.jsx:54 | a comma anywhere in the text does not change the number read |
| Dashboard.NumOfGroupedDigits | src/pages/Dashboard.jsx:49-56 | digits with a thousands separator read as the number the digits denote without it |
| Dashboard.NumOfDigits | src/pages/Dashboard.jsx:49-56 | a nonempty run of digits reads as the number it denotes |
| Dashboard.AssetValue | src/pages/Dashboard.jsx:59-60 | the value is `num` of the first of `currentValue`, `current_value`, `value`, `purchaseValue`, `purchase_value` that is neither `null` nor `undefined`; 0 when all are |
| Dashboard.EmptyCurrentValueIsZero | src/pages/Dashboard.jsx:59-60 | an empty `currentValue` counts as 0 and hides every later alias |
| JsValues.Coalesce | src/pages/Dashboard.jsx:60 | a chain of `??` is nullish exactly when every operand is; otherwise it is the first operand that is not nullish |
| Dashboard.CategoryKey | src/pages/Dashboard.jsx:42 | the bucket key is always truthy: a truthy category is kept as the key, and a falsy one files the asset under "Uncategorized" |
| Dashboard.IndexOfKey | src/pages/Dashboard.jsx:43-44 | the lookup finds a bucket with the key, and finds none exactly when no bucket has that key |
| Dashboard.Group | src/pages/Dashboard.jsx:41-46 | the buckets have distinct keys, in order of each key's first occurrence. Every asset's key has a bucket, and each bucket holds exactly the assets with its key, in input order |
| Dashboard.AddToGroups | src/pages/Dashboard.jsx:42-44 | the asset is pushed onto the end of the first bucket whose key is its category key, and every other bucket is kept; when no bucket has that key, a bucket holding just the asset is added at the end |
| Dashboard.GroupStep | src/pages/Dashboard.jsx:43-44 | one more step of the reduce keeps the buckets a grouping of the longer list |
| Dashboard.GroupIsPermutation | src/pages/Dashboard.jsx:41-46 | flattening the buckets gives back the input assets, none lost and none duplicated |
| Dashboard.GroupAsWritten | src/pages/Dashboard.jsx:41-46 | whenever the reduce as written finishes, it yields the grouping (when it fails instead is stated by the next two rows) |
| Dashboard.InheritedCategoryThrows | src/pages/Dashboard.jsx:41-46 | one asset whose category names a property every object inherits (e.g. "toString") makes the reduce as written fail |
| Dashboard.ToStringCategoryThrows | src/pages/Dashboard.jsx:41-46 | an asset with category "toString" alone makes the reduce as written fail |
| Dashboard.GroupAsWrittenOtherwise | src/pages/Dashboard.jsx:41-46 | without such names the reduce as written computes the grouping |
| Dashboard.Flatten | src/pages/Dashboard.jsx:63 | an asset is in the flattened list exactly when it is in some bucket |
| Dashboard.TotalPortfolio | src/pages/Dashboard.jsx:63 | no contract of its own: `TotalIsSumOfAssets` proves it is the sum of every asset's value, and `ChartAddsUpToTotal` that it is the sum of the chart's values |
| Dashboard.TotalIsSumOfAssets | src/pages/Dashboard.jsx:63 | the portfolio total over the buckets equals the sum of every input asset's value |
| Dashboard.ChartData | src/pages/Dashboard.jsx:66-69 | one entry per bucket, in bucket order, named by its key, whose value is the total of that bucket's assets |
| Dashboard.ChartAddsUpToTotal | src/pages/Dashboard.jsx:63-69 | the chart's values add up to the portfolio total |
| Dashboard.Tiles | src/pages/Dashboard.jsx:92-111 | one tile per bucket, showing its key, its asset count and the same total as its chart entry |
| Dashboard.NoAssetsNoBuckets | src/pages/Dashboard.jsx:81-82 | the "no assets yet" message shows exactly when the list is empty, and then the chart is empty and the total 0 |
| Dashboard.RemoveById | src/pages/Dashboard.jsx:31-32 | no remaining asset has the removed id |
| Dashboard.RemoveByIdCount | src/pages/Dashboard.jsx:31-32 | exactly the assets with the id go; every other asset stays as often as it was there |
| Dashboard.RemoveByIdAppend | src/pages/Dashboard.jsx:31-32 | removal keeps the order of the remaining assets |
| Dashboard.RemoveAbsentId | src/pages/Dashboard.jsx:31-32 | removing an id no asset carries leaves the list unchanged |
| Dashboard.TotalAfterRemove | src/pages/Dashboard.jsx:31-32 | the sum of values after a removal is the sum before, less the values of the removed assets |
| Dashboard.TotalAfterDelete | src/pages/Dashboard.jsx:31-63 | the portfolio total after a removal drops by exactly the value of the assets with that id |
| Dashboard.AfterList | src/pages/Dashboard.jsx:24-29 | a failed request keeps the list; a falsy body empties it; an array body becomes the list |
| Dashboard.ListReplyReplaces | src/pages/Dashboard.jsx:24-29 | a delivered list replaces the shown list whatever it held, and the portfolio total becomes the sum of the delivered assets (0 for a falsy body) |
| Dashboard.AfterDeleteAsWritten | src/pages/Dashboard.jsx:34-38 | any HTTP reply, whatever its status, removes exactly the assets with the id and keeps every other, in order, as often as it was there; only a network failure keeps the list |
| Dashboard.RefusedDeleteRemoves | src/pages/Dashboard.jsx:34-38 | a 404 reply to a delete still takes the asset off the dashboard |
| Dashboard.AfterDelete | src/pages/Dashboard.jsx:34-38 | only a 2xx reply removes exactly the assets with the id, keeping the rest in order; every other outcome keeps the list |
| Text.Trim | src/pages/AddAsset.jsx:59 | the trimmed text is no longer than the input and neither begins nor ends with whitespace |
| Text.TrimFramed | src/pages/AddAsset.jsx:59 | the trimmed text is a slice of the input with only whitespace before and after it |
| Text.TrimIdempotent | src/pages/AddAsset.jsx:59-60 | trimming twice is trimming once, so a stored text field is its own trimmed form |
| Text.TrimEmptyIff | src/pages/AddAsset.jsx:59 | a field is blank after trimming exactly when it is all whitespace |
| Text.TrimAround | src/pages/AddAsset.jsx:32 | text with whitespace before it and anything after it trims to itself followed by the end-trimmed rest |
| Text.TrimOfEndTrimmed | src/pages/AddAsset.jsx:32 | text that does not end in whitespace loses only its leading whitespace when trimmed |
| Text.RemoveCommas | src/pages/Dashboard.jsx:54 | the result holds no comma and is no longer than the input |
| Text.RemoveCommasKeepsOthers | src/pages/Dashboard.jsx:54 | every character other than a comma is kept, as often as it occurs |
| Text.RemoveCommasAppend | src/pages/Dashboard.jsx:54 | removing commas distributes over concatenation |
| Text.RemoveCommasNoop | src/pages/Dashboard.jsx:54 | text without commas is unchanged by the replacement |
| JsNumbers.ParseFloat | src/pages/AddAsset.jsx:32 | `parseFloat` gives NaN exactly when the text, after leading whitespace and one sign, does not start like a number, and gives an infinity exactly when it then reads "Infinity" |
| JsNumbers.ParseFloatDecimal | src/pages/AddAsset.jsx:32 | an optionally negative decimal literal followed by text that cannot extend it parses to exactly its value |
| JsNumbers.ParseFloatSignedDecimal | src/pages/AddAsset.jsx:32 | a decimal literal with no sign, `+` or `-`, followed by text that cannot extend it, parses to exactly its value, negated only for `-` |
| JsNumbers.FiniteOrZero | src/pages/AddAsset.jsx:33 | NaN and both infinities give 0 and a finite number is kept, as on both pages (the dashboard's copy is Dashboard.jsx line 55) |
| JsNumbers.NatRoundTrip | src/pages/AddAsset.jsx:32 | `parseFloat` of the decimal digits of `n` is `n`, for every natural number |
| Scenarios.ReadersAgree | src/pages/Dashboard.jsx:49-56 | on comma-free text that does not end in whitespace, `num` and the add page's `toNumber` read the same number (trailing whitespace is excluded because only `toNumber` trims it, and that `parseFloat` ignores it is not proved in general) |
| Scenarios.ReadersOnSeparatedDigits | src/pages/Dashboard.jsx:49-56 | with a thousands separator the two readers differ: `num` reads all the digits, `toNumber` stops at the comma |
| Scenarios.ReadersDisagreeOnCommas | src/pages/Dashboard.jsx:54 | "1,200" is 1200 on the dashboard and 1 on the add page |
| Scenarios.BlankPriceLeftOut | src/pages/AddAsset.jsx:58-86 | a stocks form with a ticker and share count but a blank price stores the ticker trimmed and the count as a number, omits the price, and adds no other key |
| Scenarios.TenReadsAsTen | src/pages/AddAsset.jsx:31-34 | "10" in a numeric field converts to 10 |
| Scenarios.PaddedTenReadsAsTen | src/pages/AddAsset.jsx:31-34 | " 10 " with a space on each side converts to 10 as well |
| Scenarios.AliasPrecedenceExamples | src/pages/Dashboard.jsx:59-60 | `currentValue` 500 wins over `purchaseValue` 300; `purchaseValue` alone gives 300; no value field gives 0 |
| Scenarios.GoldAndStocksExample | src/pages/Dashboard.jsx:41-69 | two gold assets worth "1000" and "500" and a stocks asset bought for "2000" make the buckets gold then stocks, the chart gold 1500 and stocks 2000, and the total 3500 |
| Scenarios.GroupJoins | src/pages/Dashboard.jsx:43-44 | an asset whose key has the only bucket is pushed to the end of that bucket |
| Scenarios.GroupOpens | src/pages/Dashboard.jsx:43-44 | an asset with a new key opens a new bucket after the existing one |

## Left out

- Network I/O: each `fetch` is replaced by its outcome, passed in as a parameter. A reply is a status and a decoded body, or a failure. The server, URLs and headers are not modelled. The `loading` flag, `alert` and `console.error` are left out too.
- React: state hooks, effects, navigation, the selected-category view and the JSX are not modelled. Each state update is a pure function from the old state to the new.
- The charts' rendering (recharts, colours) is not modelled; only `chartData` is.
- Floating point: numbers are exact reals. IEEE-754 rounding, overflow to infinity for huge literals, and `-0` are not modelled.
- Fetched field values that are arrays or objects are not modelled; a field is `undefined`, `null`, a boolean, a finite number or a string.
- Dashboard.Group: keys are compared as values, not as property names. JavaScript turns the key `5` into `"5"` and would merge those two buckets; the model keeps them apart.
- Dashboard.Group: `Object.keys` lists integer-like keys first, in ascending order. The model keeps first-seen order for every key.
- Dashboard.AfterList: a list body that is a truthy non-array (for example an error object) is not modelled. The page would then fail while rendering.
- Scenarios.ReadersAgree: text ending in whitespace is not covered. `toNumber` trims it and `num` does not, and the model does not prove in general that `parseFloat` ignores trailing whitespace.
- AddAsset.AfterFetch: a body that is not an array makes `data.filter` throw, which the promise chain catches. The model gives that the same outcome as a failed request.
- AddAsset.AfterSave: a JSON body that is not an object is not distinguished from an object body.
- `String(x)` of a number is modelled by its effect: `toNumber` and `num` of a finite number return that number. ECMAScript's number-to-text algorithm is not modelled.
- `src/pages/Login.jsx`, `src/pages/CategorySelect.jsx` and `src/App.jsx` are not part of this model: they hold navigation and no asset logic.
- The `handleChange` form update is modelled only by letting the form be any map from field name to text.

## Findings

| source | as written | input that shows it | evidently intended | confidence | as-written member | corrected member |
|---|---|---|---|---|---|---|
| src/pages/AddAsset.jsx:88-97 | the reply body of the POST is appended to the list whatever the status, since `fetch` resolves on 4xx and 5xx | a 500 reply with body `{"error": "Failed to save"}` | only a successful (2xx) save adds the returned record and resets the form | not executed | AddAsset.ErrorReplyIsListed | AddAsset.AfterSave |
| src/pages/Dashboard.jsx:34-37 | the asset is removed locally after any reply to the DELETE, including an error status | a 404 reply to deleting an asset | the asset leaves the dashboard only when the server confirms the delete | not executed | Dashboard.RefusedDeleteRemoves | Dashboard.AfterDelete |
| src/pages/Dashboard.jsx:41-46 | `grouped` starts from `{}`, so `acc[cat]` for a name every object inherits finds a function instead of a missing bucket, and `push` fails | an asset with category "toString" | every category, whatever its name, gets its own bucket | not executed | Dashboard.InheritedCategoryThrows | Dashboard.Group |
