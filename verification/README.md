# Hondubet checkout bridge — a Dafny model of its decision core

The Hondubet checkout bridge is a Next.js service. It sits between the
Hondubet site, the PixelPay payment widget and gateway, and a Firestore
collection of orders (`bmt_orders`). This project models the parts of it
that decide things. All of them are modelled as pure functions over one
JSON value type (`Js.Json`), which has separate cases for `undefined`
(absent) and `null`:

- **Confirm endpoint** (`POST /api/v1/checkout/confirm`): how the gateway
  or proxy body is read into approved/pending flags, how those flags and
  the HTTP code become `PAID | PENDING | DECLINED | ERROR`, and what the
  handler writes onto the order in each of its branches.
- **Log redaction** (`store.ts`): masking card-like digit runs, blanking
  sensitive keys, partly masking expiry keys, and the JSON round-trip copy
  made before redacting.
- **Edge middleware**:
  - parsing of the origin allowlist and the keys-waiver flag from the
    environment;
  - the CORS allow-origin choice;
  - the pass / 204 / 401 decision.
- **Order initiation** (`POST /api/v1/checkout/init`):
  - the app-key guard;
  - the body's field precedence and defaults;
  - the amount text cleanup and its range check;
  - currency normalisation;
  - the stored order document;
  - the checkout link.
- **Gateway glue** (`pixelpay-web.ts`): how SDK answers are normalised into
  `PixelResult`, and how the card, billing and order models are filled
  from a transaction input.

Modules:

| Module | File | Contents |
|---|---|---|
| `Maybe`, `Text` | `text.dfy` | Options, plus the JavaScript string operations used: trim, case mapping, split, digit runs, `parseInt`, filtering. |
| `Js` | `json.dfy` | The JSON value type: `??`, `\|\|`, property lookup and update, `String(v)`. |
| `OrderStore` | `orders.dfy` | The order collection as a map from order id to a document; `updateDoc` and `setDoc`. |
| `Confirm`, `ConfirmFacts` | `confirm.dfy` | The confirm endpoint, and the properties proved about it. |
| `Redaction` | `redaction.dfy` | Redaction of log payloads. |
| `Gate` | `gate.dfy` | The middleware. |
| `Uri` | `uri.dfy` | `encodeURIComponent` (UTF-8 percent-encoding) and its decoder. |
| `Amount` | `amount.dfy` | `toNumberFlexible`. |
| `Init` | `init.dfy` | The order-initiation endpoint. |
| `PixelWeb` | `pixelweb.dfy` | `buildModels` normalisation and `toPixelResult`. |

Numbers are exact decimals (`Decimal(unscaled, scale)`). Anything the
handlers read from outside is a parameter of the model:

- request bodies;
- headers;
- environment variables;
- the order collection;
- the status proxy's reply;
- the generated order id;
- the message of a thrown error.

## Model

| member | source | states |
|---|---|---|
| Confirm.StatusFrom | src/app/api/v1/checkout/confirm/route.ts:44-51 | PAID iff HTTP 200 and approved; PENDING iff 200 with pending but not approved, or 408; DECLINED iff 200 with neither flag, or 402; ERROR for every other code, 2xx/3xx/401/403 included. Approval takes precedence over pending. |
| ConfirmFacts.ApprovedIff | src/app/api/v1/checkout/confirm/route.ts:16-34 | Approved holds exactly when `response_approved` is `true`, or the trimmed string `response_code` is `"00"`, or the lower-cased state is approved/paid/success/completed and `payment_uuid ?? transaction_id` is truthy. |
| ConfirmFacts.PendingIff | src/app/api/v1/checkout/confirm/route.ts:36-38 | Pending holds exactly when `response_incomplete` is `true` or the state is pending/processing/incomplete. |
| ConfirmFacts.StateIsFirstPresent | src/app/api/v1/checkout/confirm/route.ts:27 | The state read is the first non-nullish of `transaction_state`, `transaction_status`, `state`, `status`. |
| ConfirmFacts.NonStringStateHidesStatus | src/app/api/v1/checkout/confirm/route.ts:16-18 | A non-nullish, non-string `transaction_state` reads as `""`: only `response_approved`, `response_code` and `response_incomplete` then decide the flags, and a `status` field behind it is never consulted. |
| ConfirmFacts.NonObjectBody | src/app/api/v1/checkout/confirm/route.ts:21 | A body that is not an object decides neither approved nor pending. |
| ConfirmFacts.DataShieldsTopLevel | src/app/api/v1/checkout/confirm/route.ts:22-24 | When `data` is an object, two bodies with the same `data` decide the same, whatever their other top-level fields. |
| ConfirmFacts.FlatBodyRead | src/app/api/v1/checkout/confirm/route.ts:22-24 | Without an object `data`, the body itself is read: wrapping it as `{data: body}` decides the same. |
| ConfirmFacts.BothFlags | src/app/api/v1/checkout/confirm/route.ts:31-45 | Approved and pending can both hold, and the 200 status is then PAID. |
| Confirm.ConfirmPost | src/app/api/v1/checkout/confirm/route.ts:53-133 | The handler never adds or removes orders. It answers 200, 400, 404 or 500, and writes nothing unless it answers 200. |
| ConfirmFacts.BlankOrderIdRejected | src/app/api/v1/checkout/confirm/route.ts:66-73 | An empty or blank `order_id` is answered 400 "order_id requerido", with no write and no proxy query. |
| ConfirmFacts.UnknownOrderRejected | src/app/api/v1/checkout/confirm/route.ts:76-80 | An order id not in the collection is answered 404, with no write and no proxy query. |
| ConfirmFacts.ClientBranch | src/app/api/v1/checkout/confirm/route.ts:69-95 | Without identifiers: 200 and no proxy query. `status` and `pixel_status` are PAID/APPROVED exactly when the upper-cased client status is `APPROVED`, and DECLINED/DECLINED otherwise. Both identifiers are stored as null, and other orders are untouched. |
| ConfirmFacts.ClientBranchIgnoresUpstream | src/app/api/v1/checkout/confirm/route.ts:83-96 | Without identifiers the proxy's reply has no influence on the outcome. |
| ConfirmFacts.EmptyIdentifiersAreMissing | src/app/api/v1/checkout/confirm/route.ts:67-83 | Absent, null and empty-string identifiers all select the client branch. |
| ConfirmFacts.GatewayBranch | src/app/api/v1/checkout/confirm/route.ts:99-128 | With an identifier the proxy is queried with a non-empty query. The stored status is the one `statusFrom` gives for the proxy's code and body, the identifiers and raw body are stored, and other orders are untouched. |
| ConfirmFacts.PixelStatusMatchesOn200 | src/app/api/v1/checkout/confirm/route.ts:110-116 | After a 200 from the proxy, PAID/PENDING/DECLINED in `status` pair one-to-one with APPROVED/PENDING/DECLINED in `pixel_status`. |
| ConfirmFacts.NetworkFailureWritesNothing | src/app/api/v1/checkout/confirm/route.ts:105-132 | When the proxy call itself fails, the handler answers 500 and writes nothing. |
| ConfirmFacts.PaidOrderCanBeDeclined | src/app/api/v1/checkout/confirm/route.ts:77-94 | An order already PAID is overwritten to DECLINED by a later client-branch call that claims DECLINED. |
| OrderStore.Update | src/app/api/v1/checkout/confirm/route.ts:85-94 | `updateDoc` replaces exactly the patched fields of one existing order, keeps its other fields, and leaves every other order alone. |
| Redaction.MaskCardLike | src/lib/store.ts:32 | Masking keeps the length, and changes a character only by turning a digit into `*`. |
| Redaction.MaskUnchangedIff | src/lib/store.ts:32 | A string is left unchanged iff it holds no run of 13 or more digits. |
| Redaction.MaskSingleRun | src/lib/store.ts:32 | A run of 13–19 digits is one match, masked all but its last four. |
| Redaction.MaskLongRun | src/lib/store.ts:32 | A run longer than 19 digits is matched greedily: its first 19 digits form one match and the rest is masked on its own. |
| Redaction.MaskSplit | src/lib/store.ts:32 | A non-digit splits the masking: each side is masked independently. |
| Redaction.ExpiryMask | src/lib/store.ts:42 | An expiry value whose `String` form is non-empty becomes `**` and its last two characters; otherwise `[REDACTED]`. |
| Redaction.ExpiryTextEmpty | src/lib/store.ts:42 | Null, undefined and `""` give an empty `String` form; booleans, numbers, objects and non-empty strings do not. |
| Redaction.RedactValue | src/lib/store.ts:34-48 | Corrected: strings keep their length and change iff they hold a card-like run. Null, booleans and numbers are returned as they are. Arrays keep their length. Objects keep exactly their keys, in order. |
| Redaction.RedactItems | src/lib/store.ts:36 | Arrays are redacted element by element, keeping length and order. |
| Redaction.KeysKept | src/lib/store.ts:38-44 | Corrected: the redacted object has the same keys, spelled the same, in the same order. Each sensitive key maps to `[REDACTED]`, each expiry key to its expiry mask, and every other key to its redacted value. |
| Redaction.RedactScrubbed | src/lib/store.ts:34-48 | After redaction, no sensitive key holds anything but `[REDACTED]` and no expiry key holds anything but a mask. This holds under both readings. Strings are not constrained: see Redaction.LongRunLeftInClear. |
| Redaction.LongRunLeftInClear | src/lib/store.ts:31 | A run of 28 to 31 digits is masked only in its first 15 digits. Its last 13 to 16 digits stay in clear, so the redacted text still holds a card-length run. |
| Redaction.JsonCopy | src/lib/store.ts:51 | The JSON round trip fails only on `undefined`, always yields a value with no `undefined` in it, and returns such a value unchanged. |
| Redaction.RedactPayload | src/lib/store.ts:50-53 | A payload that cannot be serialised is returned untouched. Otherwise the result is a redacted copy with no `undefined`, and it is scrubbed. For a payload without `undefined` it equals the store's own redaction (`asWritten`) or the corrected one. |
| Redaction.AsWrittenAgreesWithoutProto | src/lib/store.ts:38-44 | The as-written redaction and the corrected one agree on every value without a `__proto__` key. |
| Redaction.RedactValueAsWritten | src/lib/store.ts:38-43 | As written, a redacted object loses its own `__proto__` key and keeps every other key. |
| Redaction.KeysKeptAsWritten | src/lib/store.ts:38-43 | As written, the keys of a redacted object are the input's keys with `__proto__` removed. |
| Redaction.ProtoKeyDropped | src/lib/store.ts:38-43 | As written, `{"__proto__": "x"}` redacts to `{}`. |
| Redaction.ProtoKeyKept | src/lib/store.ts:38-43 | Corrected, `{"__proto__": "x"}` redacts to itself. |
| Redaction.ProtoPayload | src/lib/store.ts:38-53 | At the store, the payload `{"__proto__": "x"}` is stored as `{}` by the source's redaction and whole by the corrected one. |
| Gate.AllowedOrigins | src/middleware.ts:8-11 | Allowlist entries are non-empty, have no surrounding whitespace and contain no comma. |
| Gate.UnsetAllowlistIsEmpty | src/middleware.ts:8 | An unset or empty `ALLOWED_ORIGINS` gives an empty allowlist. |
| Gate.ListedEntryAllowed | src/middleware.ts:8-11 | Every comma-separated part that is non-blank once trimmed is in the allowlist, trimmed. |
| Gate.AllowedEntryListed | src/middleware.ts:8-11 | Every allowlist entry is the trim of some comma-separated part of the variable. |
| Gate.RequireKeys | src/middleware.ts:14 | Keys are waived iff the variable is set and lower-cases to exactly `false`; unset means required. |
| Gate.WaiverNeedsFalse | src/middleware.ts:14 | The loaded configuration waives keys iff the variable lower-cases to `false`. |
| Gate.AllowOriginFromEnv | src/middleware.ts:8-18 | Read from the environment, the allow-origin header echoes the request origin exactly when it is non-empty and is a trimmed comma-separated entry of `ALLOWED_ORIGINS`. Every other origin gets `*`. |
| Gate.PaddedOriginNotEchoed | src/middleware.ts:8-18 | An origin with leading or trailing whitespace is never echoed. |
| Gate.Middleware | src/middleware.ts:30-80 | Only `/api/` paths are answered directly, with 204 or 401. A 401 only goes to a request without a valid key, with the UNAUTHORIZED body. CORS headers are attached exactly on `/api/` paths. |
| Gate.NonApiPasses | src/middleware.ts:35-79 | Static and other non-`/api/` paths pass with no headers added. |
| Gate.StaticIsNotApi | src/middleware.ts:35-37 | Static asset paths are never `/api/` paths. |
| Gate.PreflightAnswered | src/middleware.ts:40-42 | `OPTIONS` on an `/api/` path is answered 204 with CORS headers, without any key check. |
| Gate.OrderReadPasses | src/middleware.ts:45-47 | `GET` under `/api/v1/orders/` passes with CORS headers and without keys. |
| Gate.ApiCallGated | src/middleware.ts:50-75 | Any other `/api/` call passes iff its origin is allowlisted with keys waived, or it carries a valid key. Otherwise it gets 401 UNAUTHORIZED. |
| Gate.NoKeysConfigured | src/middleware.ts:55-57 | With neither `BMT_API_KEY` nor `INTERNAL_APP_KEY` set, no request has a valid key. |
| Amount.CleanAmountText | src/app/api/v1/checkout/init/route.ts:40 | The cleanup is exactly the digits, `,`, `.` and `-` of the text, in order. Trimming first changes nothing. |
| Amount.CleanAppend | src/app/api/v1/checkout/init/route.ts:40 | Cleaning a concatenation is concatenating the cleaned parts. |
| Amount.LastMarkIsDecimal | src/app/api/v1/checkout/init/route.ts:39-42 | Corrected mark handling: when the last mark occurs once, it becomes the decimal point and every earlier mark is dropped. |
| Amount.GroupedAmount | src/app/api/v1/checkout/init/route.ts:36-46 | Digit groups with any marks, then a last mark written once and fraction digits (`1.234.567,89`, `1,234,567.89`), read as the joined digits with that fraction. |
| Amount.OneMarkReading | src/app/api/v1/checkout/init/route.ts:36-46 | Text whose cleanup holds at most one kind of mark reads the same both ways: the first `,` becomes the decimal point when there is no `.`. |
| Amount.CommaAsDecimal | src/app/api/v1/checkout/init/route.ts:41 | The source's step keeps the length and changes at most one character: the first `,` becomes `.`, and only when the text has no `.`. |
| Amount.ToNumberFlexible | src/app/api/v1/checkout/init/route.ts:36-46 | Corrected: numbers pass through; blank strings and non-string, non-number values are not numbers. |
| Amount.ToNumberFlex | src/app/api/v1/checkout/init/route.ts:36-46 | The amount reading the init handler calls, with the mark step chosen by the flag. Numbers pass through; blank strings and non-string, non-number values are not numbers. |
| Amount.ToNumberFlexibleAsWritten | src/app/api/v1/checkout/init/route.ts:36-46 | As written: numbers pass through; blank strings and non-string, non-number values are not numbers. Values of non-blank text are given by DottedThousandsWitness, CommaThousands and OneMarkReading. |
| Amount.ParseDecimalPrefix | src/app/api/v1/checkout/init/route.ts:42 | `parseFloat` on the cleaned text fails iff neither an integer part nor a fraction follows the optional sign. |
| Amount.AsWrittenAgreesWithOneMark | src/app/api/v1/checkout/init/route.ts:39-42 | The as-written and corrected readings agree on every input that does not hold both a `,` and a `.` after cleanup. |
| Amount.CommaDecimal | src/app/api/v1/checkout/init/route.ts:41 | `1234,56` reads as 1234.56, both as written and corrected. |
| Amount.DottedThousands | src/app/api/v1/checkout/init/route.ts:39-42 | `w.g,f` reads as the number with digits `wgf` and fraction `f` when corrected, but as `w.g` as written. |
| Amount.CommaThousands | src/app/api/v1/checkout/init/route.ts:39-42 | `w,g.f` reads as the number with digits `wgf` and fraction `f` when corrected, but as `w` as written. |
| Amount.DottedThousandsWitness | src/app/api/v1/checkout/init/route.ts:39-42 | As written, `"1.234,56"` reads as 1.234; corrected, it reads as 1234.56. |
| Init.AllowFromAppKey | src/app/api/v1/checkout/init/route.ts:53-58 | A blank or unset key lets every request through. A configured key refuses a missing header, and only passes a header whose trim equals the trimmed key. |
| Init.AppKeyMatch | src/app/api/v1/checkout/init/route.ts:54-57 | With a key configured, a header passes iff the trimmed header equals the trimmed key. |
| Init.AppKeyAccepted | src/app/api/v1/checkout/init/route.ts:54-57 | The configured key passes, padded or not. |
| Init.BlankHeaderRefused | src/app/api/v1/checkout/init/route.ts:56-57 | With a key configured, a blank or missing header is refused. |
| Init.BlankKeyAllowsAll | src/app/api/v1/checkout/init/route.ts:54-55 | A blank or unset key allows every request. |
| Init.CurrencyOf | src/app/api/v1/checkout/init/route.ts:50 | A code is recognised exactly when it is one of HNL, USD and NIO. |
| Init.ToCurrency | src/app/api/v1/checkout/init/route.ts:48-51 | The currency is the upper-cased `String(v ?? "")` when that names one, and HNL when it names none. |
| Init.ToCurrencyCode | src/app/api/v1/checkout/init/route.ts:48-51 | Each currency's own code reads back as that currency. |
| Init.ToCurrencyLowerCase | src/app/api/v1/checkout/init/route.ts:49-50 | A lower-case code reads as its currency. |
| Init.ToCurrencyIgnoresCase | src/app/api/v1/checkout/init/route.ts:49 | Upper-casing the input does not change the currency. |
| Init.UnknownCurrencyIsHnl | src/app/api/v1/checkout/init/route.ts:50 | A text that names no currency reads as HNL. |
| Init.MissingCurrencyIsHnl | src/app/api/v1/checkout/init/route.ts:49-50 | A null or absent currency reads as HNL. |
| Init.InRangeValue | src/app/api/v1/checkout/init/route.ts:96-99 | The integer range test on a decimal's digits holds iff its value lies in [100, 1500], both ends included. |
| Init.FieldsOf | src/app/api/v1/checkout/init/route.ts:76-80 | A non-nullish top-level amount wins, and otherwise `order.amount` is used. Currency and description are never nullish. |
| Init.TopLevelWins | src/app/api/v1/checkout/init/route.ts:78-80 | Non-nullish top-level currency and description win over the `order` ones. |
| Init.FieldDefaults | src/app/api/v1/checkout/init/route.ts:79-80 | With neither place giving them, currency is `HNL` and description is `Recarga saldo Hondubet`. |
| Init.NonObjectBody | src/app/api/v1/checkout/init/route.ts:73-76 | A body that is missing, unparsable or not an object reads as `{}`: no amount and an empty `order`. |
| Init.OrderIdOf | src/app/api/v1/checkout/init/route.ts:82-83 | Reading the id fails, as the source's `.trim()` throws, exactly when `order.order_id` is neither nullish nor a string. |
| Init.OrderIdChoice | src/app/api/v1/checkout/init/route.ts:82-83 | A non-blank string id is used trimmed; a nullish or blank one is replaced by the generated id. |
| Init.BaseUrl | src/app/api/v1/checkout/init/route.ts:126-129 | A non-empty `NEXT_PUBLIC_BASE_URL` wins. Otherwise a non-empty `NEXT_PUBLIC_CHECKOUT_ORIGIN` wins. Otherwise the local default is used. |
| Init.StripTrailingSlash | src/app/api/v1/checkout/init/route.ts:131 | Exactly one trailing `/` is removed, if there is one. |
| Init.StripOneSlash | src/app/api/v1/checkout/init/route.ts:131 | A base ending in `/` loses just that one slash. |
| Init.CheckoutUrl | src/app/api/v1/checkout/init/route.ts:131 | The link starts with the base without its trailing slash and `/checkout/`, ends with `?mode=` and the mode, and what lies between decodes back to the order id. |
| Init.CheckoutUrlCarriesId | src/app/api/v1/checkout/init/route.ts:131 | The encoded id holds no `/` or `?`, and decodes back to the id. |
| Init.CheckoutUrlInjective | src/app/api/v1/checkout/init/route.ts:131 | Two orders with different ids get different links. |
| Uri.EncodeComponent | src/app/api/v1/checkout/init/route.ts:131 | `encodeURIComponent` yields only unreserved characters and `%`, hence no `/`, `?`, `#` or `&`. |
| Uri.DecodeEncode | src/app/api/v1/checkout/init/route.ts:131 | Decoding the encoding gives the original text back. |
| Uri.EncodeInjective | src/app/api/v1/checkout/init/route.ts:131 | Different texts encode differently. |
| Uri.EncodeUnreserved | src/app/api/v1/checkout/init/route.ts:131 | Text made only of unreserved characters is left unchanged. |
| Init.InitPost | src/app/api/v1/checkout/init/route.ts:61-140 | The handler answers 200, 400, 401 or 500, and 401 iff the app key is refused. Nothing is written unless it answers 200, and a 200 adds at most one order. This holds for the route's own amount reading (`asWritten`) and for the corrected one. |
| Init.CreateOrder | src/app/api/v1/checkout/init/route.ts:73-139 | After the key check: 200, 400 or 500. Nothing is written unless 200, and a 200 adds at most one order. Holds for both amount readings. |
| Init.UnauthorizedFirst | src/app/api/v1/checkout/init/route.ts:68-71 | A refused key is answered 401 UNAUTHORIZED before the body is read, with no write. |
| Init.StoredOnlyWhenValid | src/app/api/v1/checkout/init/route.ts:82-123 | A 200 implies the id was readable, the amount parsed under the chosen reading, and the amount lies in [100, 1500]. |
| Init.OrderCreated | src/app/api/v1/checkout/init/route.ts:106-134 | With a readable id and an in-range amount, the answer is 200 with the order id and checkout link. The collection gains exactly that id, holding the id and amount, status CREATED, a server timestamp, mode `auth` iff requested, and partner defaulting to HONDUBET. Other orders are untouched. Stated for the chosen amount reading, so it holds for the source's own. |
| Init.NonStringIdFails | src/app/api/v1/checkout/init/route.ts:82-139 | A non-string, non-nullish `order_id` ends in 500 INIT_FAILED, with no write. |
| Init.AmountInvalidRefused | src/app/api/v1/checkout/init/route.ts:85-93 | An amount that is not a number is answered 400 AMOUNT_INVALID, with no write. Stated for the chosen amount reading, so it holds for the source's own. |
| Init.OutOfRangeRefused | src/app/api/v1/checkout/init/route.ts:96-104 | A parsed amount below 100 or above 1500 is answered 400 AMOUNT_OUT_OF_RANGE naming the currency, with no write. Stated for the chosen amount reading, so it holds for the source's own. |
| Init.DottedRefused | src/app/api/v1/checkout/init/route.ts:36-104 | With the route's own reading, an order whose amount is `"1.234,56"` is refused 400 AMOUNT_OUT_OF_RANGE. |
| Init.DottedStored | src/app/api/v1/checkout/init/route.ts:36-134 | With the corrected reading, the same order is stored with amount 1234.56. |
| OrderStore.Replace | src/app/api/v1/checkout/init/route.ts:123 | `setDoc` makes the id's document exactly the new one, adds the id if new, and leaves every other order alone. |
| PixelWeb.Expiry | src/lib/pixelpay-web.ts:98-101 | A non-negative parsed year always ends up at least 100; the year is NaN exactly when its part does not parse. |
| PixelWeb.ExpiryRoundTrip | src/lib/pixelpay-web.ts:98-101 | `MM/YY` built from two integers reads back as the month and the year, with years below 100 moved to 2000 + year. |
| PixelWeb.ExpiryWithoutSlash | src/lib/pixelpay-web.ts:98-101 | Without a `/` the whole text is the month, and the missing year reads as `0` and so becomes 2000. |
| PixelWeb.CardOf | src/lib/pixelpay-web.ts:95-102 | The card number has no whitespace left, and the expiry is the parsed month and year. |
| PixelWeb.CardNumberGroups | src/lib/pixelpay-web.ts:96 | Two digit groups separated by whitespace join into one number. |
| PixelWeb.CardNumberUnspaced | src/lib/pixelpay-web.ts:96 | A number without whitespace is left as it is. |
| PixelWeb.BillingOf | src/lib/pixelpay-web.ts:104-109 | Country and state are upper-case, and a missing country is `HN`. |
| PixelWeb.BillingValues | src/lib/pixelpay-web.ts:104-109 | A given non-empty field is used, with the state upper-cased. A missing or empty address, state, city or phone becomes `""`. |
| PixelWeb.CountryDefault | src/lib/pixelpay-web.ts:106 | A missing or empty country becomes `HN`; any other is upper-cased. |
| PixelWeb.OrderOf | src/lib/pixelpay-web.ts:111-117 | The order currency is upper-case and the note is never empty. |
| PixelWeb.OrderValues | src/lib/pixelpay-web.ts:111-117 | The id is kept and the amount is the form amount read by `Number`. A given currency is upper-cased, a given description is the note, and customer name and e-mail are copied (or `""`). |
| PixelWeb.AmountOf | src/lib/pixelpay-web.ts:113 | A number passes unchanged and blank text is 0. The form supplies nothing but numbers and strings. |
| PixelWeb.OrderDefaults | src/lib/pixelpay-web.ts:114-115 | With no currency and no description the order has currency `HNL` and note `Recarga`. |
| PixelWeb.BuildModels | src/lib/pixelpay-web.ts:91-120 | The cardholder, CVV and order id are carried over unchanged. |
| PixelWeb.NumberOf | src/lib/pixelpay-web.ts:113 | `Number` of blank text is 0. |
| PixelWeb.NumberOfDecimal | src/lib/pixelpay-web.ts:113 | `Number("w.f")` is the decimal with digits `wf` and fraction `f`. |
| PixelWeb.NumberOfRejectsTail | src/lib/pixelpay-web.ts:113 | Unlike `parseFloat`, `Number` rejects digits followed by trailing text: it gives NaN where the prefix parser reads the digits. |
| PixelWeb.ToPixelResult | src/lib/pixelpay-web.ts:164-189 | A non-object answer gives `success: false`, the unknown-answer message and no data. An object answer always gives data and a non-nullish success. |
| PixelWeb.DataOf | src/lib/pixelpay-web.ts:167 | The data read is the answer's `data` when that is an object or array, and `{}` otherwise. |
| PixelWeb.Approved | src/lib/pixelpay-web.ts:169-172 | The approval flag is never nullish. |
| PixelWeb.DataFlagWins | src/lib/pixelpay-web.ts:169-172 | An explicit `false` in `data.response_approved` wins over a top-level `true`. |
| PixelWeb.SuccessFollowsApproval | src/lib/pixelpay-web.ts:175 | Without a top-level `success`, success is the approval flag. |
| PixelWeb.MessageFallsThrough | src/lib/pixelpay-web.ts:176-179 | The message is the first truthy of `message`, `status_message`, `response_message`; empty strings fall through. |
| PixelWeb.ResultData | src/lib/pixelpay-web.ts:180-185 | Output data carries the approval flag, and `payment_uuid` and `payment_hash` taken from `data`, else the top level, else null. |
| PixelWeb.OtherDataKept | src/lib/pixelpay-web.ts:181 | Every other key of `data` keeps its value in the output. |
| PixelWeb.ResultDataKeys | src/lib/pixelpay-web.ts:180-185 | The output keys are unique and include all of `data`'s keys, with at most three added. |
| PixelWeb.ArrayDataSpreads | src/lib/pixelpay-web.ts:181 | An array `data` spreads into index-named properties. |
| Js.CoalesceVsOr | src/lib/pixelpay-web.ts:170-179 | `??` and `\|\|` agree on truthy values (kept) and on null or undefined (replaced). They differ on `false`, `0` and `""`, which `??` keeps and `\|\|` replaces. |
| Js.LookupPut | src/lib/pixelpay-web.ts:180-185 | Setting a property makes it read back as the new value, and leaves other properties as they were. |
| Js.PutUnique | src/lib/pixelpay-web.ts:180-185 | Setting a property keeps the keys unique. |
| Text.JoinSplit | src/middleware.ts:9 | Joining the comma-split parts restores the text. |
| Text.SplitJoin | src/middleware.ts:9 | Splitting the join of separator-free parts gives them back. |
| Text.TrimTwice | src/app/api/v1/checkout/init/route.ts:54-57 | Trimming is idempotent. |
| Text.ParseIntText | src/lib/pixelpay-web.ts:99-100 | `parseInt` reads back every integer's decimal text. |

## Left out

- I/O is modelled as parameters and outcomes:
  - reading the request, and the bodies and headers as inputs;
  - Firestore reads and writes;
  - the status-proxy `fetch`, an input that is either a network failure or a code with an optional parsed body;
  - console logging.
  A Firestore write that fails is not modelled: `getDoc`, `setDoc` and `updateDoc` always succeed here. The only thrown error modelled is the one from reading a non-string `order_id` in the init route.
- Invalid Firestore document ids are not modelled. Any order id is a key of the order map here. In the source, `doc(id)` (src/config/firebase/api.ts:64) throws for an id that does not name a document, such as `"a/b"` or one with an empty segment. The init route then answers 500 INIT_FAILED, and the confirm route answers 500. The model instead stores such an order (Init.CreateOrder) or looks it up (Confirm.ConfirmPost) like any other.
- The init route's `?debug=1` echo of the stored document is left out, since it does not change the decision.
- `newOrderId` reads the clock and `Math.random`. The generated id is a parameter.
- Floating point is left out. Amounts are exact decimals. The rounding of `parseFloat`/`Number` to doubles and overflow to `Infinity` are not modelled, so a digit string too long for a double, which the source rejects as AMOUNT_INVALID, is read here as a huge finite amount and rejected as AMOUNT_OUT_OF_RANGE. JSON number literals beyond the double range are not modelled.
- PixelWeb.NumberOf: `Number` is modelled for optionally signed decimal text (`"-5"`, `"+1.5"`, `".5"`). Exponent, hexadecimal and `Infinity` forms read as NaN (`None`) here.
- Redaction.ExpiryMask: the last two characters are counted in Unicode scalar values, where `slice(-2)` counts UTF-16 code units. The two differ when the text ends in a character outside the Basic Multilingual Plane: `"12/😀"` masks to `**😀` in the source and to `**/😀` here.
- Amount.LastMarkIsDecimal: no lemma covers a text whose last mark occurs more than once, as in `"1.234.567"`. Both readings keep such a text and `parseFloat` stops at the second `.`, giving 1.234.
- Js.Lookup reads the first property with a given key. `JSON.parse` keeps the last of duplicate keys. Bodies with duplicate keys are read differently.
- `String(v)` (Js.ToJsString) formats numbers from their exact decimal. Objects with their own `toString`/`valueOf` are read as plain objects (`[object Object]`).
- JavaScript orders integer-like object keys first. The model keeps insertion order throughout.
- Case mapping covers ASCII and the few non-ASCII characters that map onto ASCII letters. Other Unicode case mapping is left out.
- The `x-app-key` and `X-App-Key` lookups are one case-insensitive header, a single optional input here.
- `buildSettings`, the SDK loading and the SDK calls (`saleWith3DS`, `authWith3DS`) are left out. Only the model building and result normalisation around them are modelled.
- Hash verification is left out: the confirm handler stores `payment_hash` but never verifies it.
- Concurrency is left out. The confirm handler reads then updates without a transaction, and an order already PAID can be overwritten (ConfirmFacts.PaidOrderCanBeDeclined). The model describes one request at a time and proves no absorbing terminal state, because the code has none.
- The confirm handler answers HTTP 200 also when the outcome is DECLINED or ERROR. The model follows the code.
- `encodeURIComponent` is implemented (UTF-8 percent-encoding of everything outside the unreserved set) rather than left uninterpreted. Lone surrogates, on which it throws, cannot occur in a Dafny `string` of Unicode scalar values.

## Findings

| source | as written | input that shows it | evidently intended | confidence | as-written member | corrected member |
|---|---|---|---|---|---|---|
| src/lib/store.ts:38-43 | Redacted entries are written into a fresh `{}` with `out[k] = …`. For the own key `__proto__` that assignment hits the prototype setter, so the key silently disappears from the redacted copy. | `{"__proto__": "x"}` (as produced by `JSON.parse`) redacts to `{}` | Redacted objects keep exactly the input's keys | not executed | Redaction.ProtoKeyDropped | Redaction.ProtoKeyKept |
| src/app/api/v1/checkout/init/route.ts:39-42 | The comment promises `1.234,56` and `1,234.56`. But the comma is only rewritten when there is no dot, and `parseFloat` stops at the first mark it cannot use. | `"1.234,56"` reads as 1.234 and `"1,234.56"` as 1 | The last mark is the decimal point and the other is a thousands separator, giving 1234.56 for both | not executed | Amount.DottedThousandsWitness | Amount.DottedThousands |

The handlers take a flag for each finding: Init.InitPost and
Init.CreateOrder choose the amount reading, and Redaction.RedactPayload the
object copy. With the flag set they follow the source as written, and
without it the corrected definition (Redaction.RedactValue,
Amount.ToNumberFlexible). Init.DottedRefused, Init.DottedStored and
Redaction.ProtoPayload show each finding at the handler. The two readings
are proved to agree away from the offending inputs
(Redaction.AsWrittenAgreesWithoutProto, Amount.AsWrittenAgreesWithOneMark,
Amount.OneMarkReading).
