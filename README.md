# Cart cookie model

A Dafny model of `useCart`, the React hook that keeps the shopping cart of
the hackathon client. The cart is a list of product ids stored in the
`cart` cookie, and a repeated id stands for a larger quantity. The hook
has three parts:

- **Reading the cookie.** The `productIds` memo percent-decodes the cookie
  text and parses it as JSON. An absent or empty cookie, a malformed
  escape and text that is not JSON all give the empty list.
- **Two mutations.** `addCarts` appends an id. `changeCount` raises or
  lowers the quantity of an id already in the list. Both write the new
  list back as `encodeURIComponent(JSON.stringify(list))`.
- **The reconciliation effect.** It counts how often each id occurs. It
  calls `getProduct` once per distinct id, in order of first occurrence.
  When every call succeeds, it replaces the cart lines with one line per
  product, carrying its count. It ends by clearing `loading`.

## How the model is built

| file | module | contents |
|---|---|---|
| `utf8.dfy` | `Utf8` | UTF-8 encoding of one character; decoding of a multi-byte sequence, with the validity checks of ECMA-262 section 19.2.6 |
| `hex.dfy` | `Hex` | hexadecimal digits |
| `uri.dfy` | `Uri` | `encodeURIComponent` and `decodeURIComponent` (percent-encoding, RFC 3986 section 2.1) |
| `json.dfy` | `Json` | JSON values; `JSON.stringify`; a `JSON.parse` that covers the whole RFC 8259 grammar |
| `cookie.dfy` | `CartCookie` | the cookie codec the hook uses |
| `idlist.dfy` | `IdList` | occurrence counts, `indexOf`, the distinct ids in first-occurrence order, the `reduce` into a Map (a loop) and the copy-and-`splice` (a loop over an array) |
| `cart.dfy` | `Cart` | JavaScript semantics the hook relies on; one specification function per mutation and one for the reconciliation; the class `CartHook` |
| `cart_properties.dfy` | `CartProperties` | the properties of the mutations and of the reconciliation |

### The hook as a class

`CartHook` has three fields: `cookie` (an `Option<string>`), `carts` and
`loading`. They are the three pieces of state the hook reads and writes.
The constructor gives the first render: no lines, and `loading` set.
`ProductIds()` is the memo; it decodes the current cookie.

Each method is proved against a specification function of the old state:

- `AddCarts` writes exactly what `AddCartsStep` says.
- `ChangeCount` writes exactly what `ChangeCountStep` says.
- `Reconcile` makes exactly the requests `Requests` lists and ends with the
  outcome `ReconcileOutcome` gives.

The properties are proved as lemmas about those specification functions.

### Behaviour of the code worth knowing

Some of what the code does is easy to miss on a first reading. The model
keeps each of these as the code has it.

- **A decrease never removes the last unit.** `changeCount(id, "decrease")`
  drops the first occurrence, but writes the result only if the id still
  occurs (lines 56-61). Quantity 1 cannot become 0 (`DecreaseWritesIff`).
- **One failed fetch loses the whole batch.** `Promise.all` (line 97)
  rejects as soon as one fetch fails. The cart lines are then left as they
  were, not replaced by the lines that did load (`AnyRejected`).
- **An empty list does not clear the cart.** The `else` branch (lines
  127-129) only clears `loading`; old lines stay (`Reconcile`, outcome
  `Idle`).
- **No array check.** The `as string[]` at line 30 checks nothing, so
  whatever `JSON.parse` returns becomes `productIds`.
  - A string is spread into its characters by `[...productIds]` and
    searched as text by `indexOf`.
  - A non-empty string, or an object with a truthy `length`, has no
    `reduce`, so the effect throws after it has set `loading`.
  - Null, booleans, numbers and objects make `addCarts` and `changeCount`
    throw a TypeError before anything is written.
- **No guard against stale batches.** Nothing compares a finished batch
  with the list it was issued for before `setCarts` (line 118). This
  ordering is outside the model (see Left out).
- **Counts for an empty id.** A product whose id is the empty string gets
  no count: line 112 looks it up under `id || 0`, which is the number 0.

## Model

| member | source | states |
|---|---|---|
| CartCookie.DecodeCookie | src/hooks/useCart.ts:23-36 | Reading fails soft. A result other than the empty list comes only from a non-empty cookie that percent-decodes to text JSON.parse accepts, and it is exactly the parsed value. |
| CartCookie.EncodeCookie | src/hooks/useCart.ts:44 | The written cookie holds only characters encodeURIComponent leaves alone, plus '%'. It is non-empty for every array, so it is truthy when read back. |
| CartCookie.NoCookie | src/hooks/useCart.ts:26-35 | An absent cookie, or the empty string, reads as the empty list. |
| CartCookie.CookieRoundTrip | src/hooks/useCart.ts:23-47 | Any list of ids the hook writes reads back as the same list. |
| CartCookie.NotJson | src/hooks/useCart.ts:29-35 | Unescaped text that JSON.parse rejects reads as the empty list. |
| CartCookie.NotJsonExample | src/hooks/useCart.ts:29-35 | The cookie `not-json` reads as the empty list. |
| CartCookie.BadEscape | src/hooks/useCart.ts:29-35 | A cookie that decodeURIComponent rejects reads as the empty list. |
| CartCookie.DecodedAndParsed | src/hooks/useCart.ts:27-31 | The converse of `CartCookie.DecodeCookie`'s contract: a non-empty cookie that decodes to text which JSON.parse accepts reads as the parsed value. |
| CartCookie.PassedOnAsParsed | src/hooks/useCart.ts:30 | No array check. Unescaped JSON of any kind (number, string, object) becomes the id value as parsed. |
| Uri.EncodeURIComponent | src/hooks/useCart.ts:44 | Every output character is unreserved or '%'; the body writes each other character as the `%XX` escapes of its UTF-8 octets, in upper-case hex. |
| Uri.DecodeURIComponent | src/hooks/useCart.ts:29 | Decoding never makes text longer. The definition reads an unescaped character as itself and a run of `%XX` escapes as one UTF-8 character, and fails (the URIError caught at line 32) on a bad escape or invalid UTF-8. |
| Uri.DecodeEncode | src/hooks/useCart.ts:29 | decodeURIComponent(encodeURIComponent(s)) == s for every string. |
| Uri.DecodeWithoutEscapes | src/hooks/useCart.ts:29 | Text without '%' decodes to itself. |
| Utf8.DecodeEncodeChar | src/hooks/useCart.ts:29 | A character's UTF-8 encoding has 1 to 4 bytes. The lead byte announces the length, and decoding the bytes gives the character back. |
| Utf8.DecodeMulti | src/hooks/useCart.ts:29 | A multi-byte sequence is accepted only if it is the encoding of the character it yields. This rules out overlong forms, surrogates and values above U+10FFFF. |
| Json.Stringify | src/hooks/useCart.ts:44 | Definition only: JSON.stringify without indentation, as all three writes use it (lines 44, 66 and 77). Strings get `"`, `\` and control-character escapes; arrays and objects are comma-joined. Its property is `Json.ParseStringifyStrings`. |
| Json.Parse | src/hooks/useCart.ts:30 | Definition only: JSON.parse over the RFC 8259 grammar. It reads a value after optional whitespace and requires only whitespace to follow; `None` is the SyntaxError caught at line 32. |
| Json.ParseStringifyStrings | src/hooks/useCart.ts:30 | JSON.parse(JSON.stringify(list)) gives the list back, for every flat array of strings. |
| Json.AsStrings | src/hooks/useCart.ts:30 | A list of strings is found exactly when every element is a string, and it rebuilds the elements. |
| IdList.IndexOf | src/hooks/useCart.ts:50 | indexOf: -1 exactly when the id is absent. Otherwise the index holds the id, and no earlier index does. |
| IdList.RequestIds | src/hooks/useCart.ts:89-92 | The reduce loop builds the first-occurrence key order and the occurrence count of every id. |
| IdList.SpliceOne | src/hooks/useCart.ts:56-57 | Copy-and-splice removes exactly the element at the index. An index past the end removes nothing. |
| IdList.RemoveAtCounts | src/hooks/useCart.ts:56-57 | Removing an index takes one unit from that element's count and leaves every other count unchanged. |
| IdList.DistinctElements | src/hooks/useCart.ts:94-96 | The Map's keys are exactly the ids of the list, each listed once. |
| IdList.DistinctInFirstOccurrenceOrder | src/hooks/useCart.ts:94-96 | The keys are ordered by each id's first occurrence in the list. |
| IdList.CountsSumToLength | src/hooks/useCart.ts:89-92 | The counts of the keys add up to the length of the list. |
| Cart.Spread | src/hooks/useCart.ts:39 | Spreading succeeds exactly for arrays and strings. |
| Cart.Chars | src/hooks/useCart.ts:39 | Definition only: a string spreads into its characters, one one-character string per element, in order. Its property is `CartProperties.StringDecreaseNeedsOneChar`. |
| Cart.IndexOfText | src/hooks/useCart.ts:50 | String indexOf finds the first position where the text occurs, or -1 when it occurs nowhere. |
| Cart.Truthy | src/hooks/useCart.ts:86 | Definition only: JavaScript truthiness of a parsed value, the left operand of the guard. Null, false, a zero number and the empty string are falsy; arrays and objects are truthy. |
| Cart.HasTruthyLength | src/hooks/useCart.ts:86 | Definition only: whether `productIds.length` is truthy. That is a non-empty array or string, or an object whose last `length` member is truthy; null, booleans and numbers have no `length`. |
| Cart.Lookup | src/hooks/useCart.ts:86 | A parsed object's `length` is the value of its last member with that key (no later member has the key). It is absent exactly when no member has that key. |
| Cart.AddCartsStep | src/hooks/useCart.ts:38-47 | addCarts throws exactly when the ids are neither an array nor a string. For an array or a string it writes the spread list with the id appended. |
| Cart.ChangeCountStep | src/hooks/useCart.ts:49-83 | changeCount throws exactly when the ids are neither an array nor a string. |
| Cart.ListChange | src/hooks/useCart.ts:51-82 | Once the index is known, changeCount never throws. |
| Cart.CountOf | src/hooks/useCart.ts:112 | A line's count is present exactly when the product id is non-empty and is a key of the Map. |
| Cart.Settle | src/hooks/useCart.ts:97-126 | Promise.all fails exactly when some response was rejected; otherwise it loads lines. |
| Cart.Entries | src/hooks/useCart.ts:107-117 | The map and filter never yield more lines than there were responses; their contents are stated by `CartProperties.EntriesContents`. |
| Cart.Requests | src/hooks/useCart.ts:85-96 | Definition only: the ids the effect passes to getProduct. That is the distinct ids of a non-empty array of strings, in first-occurrence order, and none otherwise (a non-empty array holding a non-string is among these, see "## Left out"). Its properties are `CartProperties.RequestsOncePerId` and `CartProperties.StringCookieThrows`. |
| Cart.ReconcileOutcome | src/hooks/useCart.ts:85-130 | Definition only: the effect's branches. A failing guard at line 86 gives Idle; a value with no `reduce` gives Threw; an array of strings is settled by Promise.all over one fetch per distinct id, with the counts of the reduce; a non-empty array holding a non-string gives Unsupported (see "## Left out"). Its properties are `CartProperties.AllResolve`, `CartProperties.AnyRejected` and `CartProperties.NoCookieIdle`. |
| Cart.Written | src/hooks/useCart.ts:44-46 | Definition only: a `setCookies` call. A Write step stores `encodeURIComponent(JSON.stringify(list))` (lines 44, 66, 77); any other step leaves the cookie as it was. |
| Cart.Responses | src/hooks/useCart.ts:94-96 | Definition only: one response per key, the fetch of that key, in key order. Its properties are `Cart.IssueRequests`, `CartProperties.AllResolve` and `CartProperties.AnyRejected`. |
| Cart.IssueRequests | src/hooks/useCart.ts:94-96 | The forEach loop calls getProduct for each key in order, and collects each result. |
| Cart.CartHook.constructor | src/hooks/useCart.ts:13-15 | The first render has no lines, `loading` set, and the cookie as given. |
| Cart.CartHook.ProductIds | src/hooks/useCart.ts:23-36 | Definition only: the memoised `productIds`, recomputed from the current cookie by `CartCookie.DecodeCookie`. |
| Cart.CartHook.AddCarts | src/hooks/useCart.ts:38-47 | Writes the cookie addCarts writes, and nothing else. It reports whether addCarts threw. |
| Cart.CartHook.ChangeCount | src/hooks/useCart.ts:49-83 | Writes the cookie changeCount writes (or leaves it), and nothing else. It reports whether changeCount threw. |
| Cart.CartHook.Reconcile | src/hooks/useCart.ts:85-130 | Makes the requests `Requests` gives and ends with `ReconcileOutcome`. The lines are replaced only when the outcome is Loaded. `loading` stays set only when the effect threw. The cookie is not touched. |
| CartProperties.AddCartsCounts | src/hooks/useCart.ts:38-47 | addCarts on an array keeps the old list as its prefix. The added id gains one unit and every other count is unchanged. |
| CartProperties.ChangeCountAbsent | src/hooks/useCart.ts:50-53 | An id the array does not hold changes nothing, in either mode. |
| CartProperties.ChangeCountAbsentFromText | src/hooks/useCart.ts:50-53 | For a string read as the list: an id that occurs nowhere in the text (indexOf gives -1) changes nothing, in either mode. |
| CartProperties.DecreaseRemovesFirst | src/hooks/useCart.ts:55-69 | With at least two units, a decrease writes the list without the first occurrence. That id loses one unit and every other count stays. |
| CartProperties.DecreaseWritesIff | src/hooks/useCart.ts:55-69 | A decrease writes if and only if the id occurs at least twice. |
| CartProperties.IncreaseAppends | src/hooks/useCart.ts:71-82 | An increase of a present id appends one unit of it, and only that count changes. |
| CartProperties.NothingDropped | src/hooks/useCart.ts:38-83 | No mutation of an array drops any value it held. |
| CartProperties.StringDecreaseNeedsOneChar | src/hooks/useCart.ts:55-61 | When the cookie holds a string, decreasing an id that is not exactly one character long never writes. |
| CartProperties.AddThenRead | src/hooks/useCart.ts:38-47 | When the cookie held a list of ids, after addCarts it reads back as that list with the id appended. |
| CartProperties.IncreaseThenRead | src/hooks/useCart.ts:71-82 | After an increase of a present id, the cookie reads back as the list with one more unit of it. |
| CartProperties.DecreaseThenRead | src/hooks/useCart.ts:55-69 | After a decrease of an id with at least two units, the cookie reads back as the list without its first occurrence. |
| CartProperties.RequestsOncePerId | src/hooks/useCart.ts:89-96 | The reconciliation fetches every id of the list and nothing else. Each id is fetched exactly once, in first-occurrence order. |
| CartProperties.MultiplicityMap | src/hooks/useCart.ts:89-92 | The Map holds exactly the ids of the list. Each count is that id's number of occurrences (at least 1), and the counts sum to the list length. |
| CartProperties.EntriesContents | src/hooks/useCart.ts:107-117 | The filter keeps exactly the product bodies. Every line is a product some response resolved with, carrying the count looked up under its id. Every product body gives such a line. |
| CartProperties.EntriesOfProducts | src/hooks/useCart.ts:107-117 | When every body is a product, there is one line per response, in response order, with the count looked up under the product's id. |
| CartProperties.AllResolve | src/hooks/useCart.ts:97-119 | When every fetch returns the product asked for, the outcome is one line per distinct id, in first-occurrence order. Each count is that id's number of occurrences; the empty id gets none. |
| CartProperties.AnyRejected | src/hooks/useCart.ts:97-126 | One rejected fetch makes the whole batch fail, so the lines are not replaced. |
| CartProperties.NoCookieIdle | src/hooks/useCart.ts:127-129 | An absent or empty cookie fetches nothing, and the reconciliation ends idle. |
| CartProperties.StringCookieThrows | src/hooks/useCart.ts:86-92 | A non-empty string as the ids fetches nothing, and the effect throws at reduce. |

## Left out

- Cart.CartHook.Reconcile, Cart.Requests, Cart.ReconcileOutcome: for a non-empty array holding a value that is not a string, the model fetches nothing and leaves the lines as they were. The code would turn such values into request paths and Map keys (numbers compared by value, objects by identity); the model does not capture what it would then load. `loading` ends cleared, as in the code.
- Cart.IndexOfText: positions are counted in characters (code points), but JavaScript counts UTF-16 units. When the cookie is a string holding characters outside the Basic Multilingual Plane, the position `splice` removes can differ from the code's.
- Cart.Truthy: a number literal that only underflows to zero (such as `1e-400`) counts as truthy; JavaScript treats it as 0.
- Json.Stringify: numbers are written as the text of their literal, where JSON.stringify re-formats them. Object members are written in parsed order, with duplicates kept. So written cookies read back as written only for lists of strings; that case is proved.
- Json.Parse: a `\u` escape of a lone surrogate is rejected, where JavaScript accepts it. Dafny characters are Unicode scalar values, so the URIError that encodeURIComponent raises for lone surrogates cannot occur either.
- react-cookie: the cookie is a plain string field, read and written directly. The library's own encoding, its JSON parsing of values and the `path: "/"` option are not modelled.
- React scheduling: the memo is a function of the cookie, and the effect is a method that is called explicitly. Re-rendering, running the effect on each change, and the race between overlapping batches (no stale-batch guard) are not modelled.
- Promise concurrency: the fetches are issued in key order and settle in one step, so the order in which they complete is not modelled.
- getProduct and the rest of `src/utils/api.ts` (axios, the JWT header, the 403 alert) are replaced by the `fetch` parameter. It says, per id, whether the call is rejected or resolves with a product or a falsy body.
- console.error calls have no effect on state and are left out.
- A TypeError thrown by a mutation propagates to the caller in the code; the model returns it as a flag.
- `src/types` (ProductType) is not part of this model. `Product` takes the fields the product form uses; a JavaScript number price is an `int`.
- `src/components/create/ProductEditForm.tsx` is not part of the cart core and is not modelled.
