# CurrencyConverter service core in Dafny

This project models `CurrencyService`, the core of a small HTTP API that relays a
third-party exchange-rate provider (Frankfurter). The service has three operations:

- **latest rates** for a base currency, returned as the provider parsed them;
- **conversion** from one currency to another, refused up front for the restricted
  currencies TRY, PLN, THB and MXN, with the reply reshaped into a `ConversionResult`
  whose base is always the caller's `from`;
- **historical rates** over a date range. The provider's date-to-rates dictionary is
  paged on the client with LINQ `Skip((page - 1) * pageSize).Take(pageSize)`, and
  `TotalCount` holds the number of dates before paging.

Every outbound call goes through one retry policy. It retries on an
`HttpRequestException` or a non-success status, at most 3 times, and waits 2^k seconds
before retry k.

Modules:

- `Results`: `Option` (a payload that may be null) and `Result` (a value, or the
  exception thrown).
- `Dictionaries`: a .NET `Dictionary` as a sequence of entries in enumeration order with
  distinct keys (`Dict`).
- `Models`: the payload and result types. `HistoricalRatesResponse` is a class because
  the service overwrites its fields in place.
- `Paging`: C# 32-bit unchecked arithmetic for the skip count, LINQ `Skip`/`Take`, and the
  page.
- `Retry`: the policy. The provider is a function `upstream: nat -> Outcome`, and
  `upstream(i)` is what call i + 1 of one request produces. `Execute` is the attempt loop.
  It is proved against the specification function `Execution`.
- `CurrencyService`: the restricted-currency guard, the classification of the final
  outcome into a result or an error, and the three operations as methods. Each method also
  returns `calls`, the number of outbound calls it made.

Behaviour of the code that a reader of the service's description might not expect, and
that the model follows:

- When the last attempt ends in a transport exception, the policy rethrows that
  exception (`UpstreamUnreachable`). It is not replaced by the fixed "Failed to fetch data
  from the Frankfurter API." message.
- A null historical payload is dereferenced at line 105 and gives a
  `NullReferenceException` (`NullReference`).
- A page beyond the data is empty, except that `(page - 1) * pageSize` is computed in
  unchecked 32-bit arithmetic. For example, page 1073741825 of size 4 wraps to skip 0 and
  returns page 1 (`Paging.OverflowRepeatsFirstPage`). This assumes the project keeps C#'s
  default unchecked context; the project file is not part of this model.
- Page numbers of 1 or less are not refused. When `(page - 1) * pageSize` does not
  overflow, a positive size gives a skip count of zero or less, LINQ skips nothing, and the
  caller gets page 1 (`Paging.LowPageIsFirstPage`). Page int.MinValue with size 2 does the
  same, because its skip count wraps to -2. An overflowing low page can instead wrap to a
  large positive skip count and come back empty: page -1073741824 of size 3 skips
  1073741821 entries, and page int.MinValue of size 3 skips 2147483645
  (`Paging.OverflowedLowPageIsEmpty`).

## Model

| member | source | states |
|---|---|---|
| `Dictionaries.SliceKeepsKeysDistinct` | CurrencyConverter/Services/CurrencyService.cs:106 | a contiguous run of a dictionary's entries still has distinct keys, so `ToDictionary` on the page cannot throw |
| `Models.HistoricalRatesResponse.FromJson` | CurrencyConverter/Services/CurrencyService.cs:104 | deserialization gives an object with the payload's base and rates; `totalCount` starts at 0 because the payload omits it, and line 105 overwrites it before anyone reads it |
| `Paging.Wrap32` | CurrencyConverter/Services/CurrencyService.cs:106 | the 32-bit result is congruent to the exact value modulo 2^32, and equals it when the exact value fits |
| `Paging.SkipCount` | CurrencyConverter/Services/CurrencyService.cs:106 | `(page - 1) * pageSize` with the subtraction and the product both wrapping in 32 bits equals one 32-bit wrap of the exact product |
| `Paging.Skip` | CurrencyConverter/Services/CurrencyService.cs:106 | LINQ `Skip` leaves the suffix after the count clamped to [0, length]: a non-positive count skips nothing, a count past the end leaves nothing |
| `Paging.Take` | CurrencyConverter/Services/CurrencyService.cs:106 | LINQ `Take` keeps the prefix of the count clamped to [0, length]: a non-positive count takes nothing, a count past the end takes all |
| `Paging.Page` | CurrencyConverter/Services/CurrencyService.cs:106 | the page is the run of consecutive entries starting at the skip count clamped to [0, count], of length pageSize clamped to [0, remaining]; order is kept and keys stay distinct |
| `Paging.PageIsSubDictionary` | CurrencyConverter/Services/CurrencyService.cs:106 | the page has no more entries than the whole dictionary and no more than max(0, pageSize); a non-positive pageSize gives an empty page; each entry is an entry of the original |
| `Paging.SkipCountExact` | CurrencyConverter/Services/CurrencyService.cs:106 | when (page - 1) * pageSize fits in 32 bits, the skip count is exactly that product |
| `Paging.EntryOnItsPage` | CurrencyConverter/Services/CurrencyService.cs:106 | with a positive page size, entry i is found at position i mod pageSize of page i / pageSize + 1 |
| `Paging.OverflowRepeatsFirstPage` | CurrencyConverter/Services/CurrencyService.cs:106 | page 1073741825 of size 4 equals page 1, because the skip count wraps to 0; page int.MinValue of size 2 equals page 1, because the skip count wraps to -2 |
| `Paging.OverflowedLowPageIsEmpty` | CurrencyConverter/Services/CurrencyService.cs:106 | page -1073741824 and page int.MinValue, each of size 3, wrap to skip counts 1073741821 and 2147483645, so on a dictionary of at most 1073741821 dates both pages are empty |
| `Paging.LowPageIsFirstPage` | CurrencyConverter/Services/CurrencyService.cs:106 | a page number of 1 or less is not refused: when the skip count does not overflow, it returns the same entries as page 1 |
| `Paging.TwoDayExamples` | CurrencyConverter/Services.Tests/CurrencyServiceTests.cs:90-104 | with two dated entries, page 1 of size 10 returns both, as that test expects; the second case, page 2 of size 1 returning only the second entry, is the model's own |
| `Retry.IsSuccessStatusCode` | CurrencyConverter/Services/CurrencyService.cs:32 | a status counts as success exactly when it is in the 2xx class (200 to 299) |
| `Retry.Handled` | CurrencyConverter/Services/CurrencyService.cs:30-32 | the policy handles every outcome except a 2xx response: a transport exception or any non-success status |
| `Retry.SleepDuration` | CurrencyConverter/Services/CurrencyService.cs:33 | the wait before retry k is 2^k seconds: 2 before retry 1, twice 2^(k-1) before retry k |
| `Retry.Execute` | CurrencyConverter/Services/CurrencyService.cs:30-33 | the attempt loop makes between 1 and 4 calls and returns the outcome and count of `Execution`; the waits it records are 2, 4, 8 seconds, in order, one before each retry |
| `Retry.RunFrom` | CurrencyConverter/Services/CurrencyService.cs:30-33 | from any call on, the policy makes at most 4 calls in all, retries only after a handled outcome (exception or non-success status), returns the outcome of its last call, and stops early only at an unhandled one |
| `Retry.Execution` | CurrencyConverter/Services/CurrencyService.cs:30-33 | one request makes 1 to 4 calls, every call but the last had a handled outcome, the run returns the last outcome, and it stops before the fourth call only at a 2xx response |
| `Retry.ExecutionStopsAtFirstUnhandled` | CurrencyConverter/Services/CurrencyService.cs:30-33 | the number of calls is n exactly when the first n - 1 outcomes are handled and the n-th is not, or n is 4 |
| `Retry.BackoffTotal` | CurrencyConverter/Services/CurrencyService.cs:33 | the waits before retries 1..n are n in number and sum to 2^(n+1) - 2 seconds |
| `Retry.TotalWaitAtMost14` | CurrencyConverter/Services/CurrencyService.cs:30-33 | one request waits at most 2 + 4 + 8 = 14 seconds in all |
| `CurrencyService.IsRestricted` | CurrencyConverter/Services/CurrencyService.cs:53 | a conversion is refused exactly when some restricted code equals `from` or `to` |
| `CurrencyService.NotFoundMessage` | CurrencyConverter/Services/CurrencyService.cs:66 | the "rate not found" message differs from the restricted-currency and fetch-failure messages |
| `CurrencyService.Fetched` | CurrencyConverter/Services/CurrencyService.cs:41-48 | success exactly on a success status, with the parsed payload (possibly null) unchanged; a non-success status gives the fixed fetch-failure error; a transport exception is rethrown |
| `CurrencyService.ConversionOf` | CurrencyConverter/Services/CurrencyService.cs:62-87 | success exactly on a success status with a non-null payload, and then amount and rates are the payload's and base is `from`; "rate not found" exactly on 404 or on a null payload; the fixed fetch failure exactly on any other non-success status; the rethrown exception exactly on a transport failure |
| `CurrencyService.GetLatestRates` | CurrencyConverter/Services/CurrencyService.cs:36-49 | makes 1 to 4 calls whatever the base currency, never raises an argument error, and returns `Fetched` of the policy's final outcome |
| `CurrencyService.ConvertCurrency` | CurrencyConverter/Services/CurrencyService.cs:51-88 | fails with the restricted-currency error exactly when `from` or `to` is TRY, PLN, THB or MXN, and makes no call exactly then; otherwise returns `ConversionOf` the policy's final outcome |
| `CurrencyService.GetHistoricalRates` | CurrencyConverter/Services/CurrencyService.cs:90-109 | fails as `Fetched` does, or with a null reference on a null payload; on success returns a fresh object with the payload's base, `totalCount` equal to the number of dates before paging, `rates` the requested page, and no more page entries than `totalCount` |
| `CurrencyService.RestrictedInEitherPosition` | CurrencyConverter/Services/CurrencyService.cs:22 | each of TRY, PLN, THB, MXN is restricted as `from` and as `to`, whatever the other code is |
| `CurrencyService.EurToUsdExample` | CurrencyConverter/Services.Tests/CurrencyServiceTests.cs:44-68 | a successful EUR to USD reply with amount 110.0 and rate 1.1 converts to amount 110.0, base EUR and the same rates, whatever base the reply names |

## Left out

- The constructor's `ArgumentNullException` checks on the client factory and the logger
  (CurrencyService.cs:27-28) are not modelled: dependency injection always supplies both,
  and no operation depends on them.
- HTTP transport, the named client, URL formatting and `async`/`Task`: the provider is the
  function `upstream`. So `baseCurrency`, `amount` and the dates are parameters that only
  the URL would use. They are kept in the signatures but have no effect.
- Historical dates are strings here. `DateTime` and its `yyyy-MM-dd` formatting are not
  modelled.
- JSON deserialization is a foreign library. A reply is modelled as "parsed payload or
  null". Malformed JSON, which would throw, is not modelled. Neither is a payload whose
  `rates` field is missing: line 105 would then throw on a null dictionary.
- Logging calls have no effect on results and are not modelled.
- Waiting: the policy records the durations it would wait, but no time passes.
- Exceptions other than `HttpRequestException` (timeouts, cancellation) are not handled by
  the policy and are not modelled.
- The second retry handler registered on the named client in Api/Program.cs and its
  interplay with the service's own policy are not modelled. Program.cs and the controller
  are wiring and are not part of this model.
- Decimal arithmetic is not needed, because amounts and rates are only copied. `Decimal`
  is `real`.
