/**
 * The currency service: latest rates, a guarded conversion, and paged
 * historical rates, each behind the retry policy.
 *
 * Every operation also reports `calls`, the number of outbound GETs it made.
 */
module CurrencyService {
  import opened Results
  import opened Dictionaries
  import opened Models
  import opened Paging
  import opened Retry

  /** Currencies that may not take part in a conversion. */
  const RestrictedCurrencies: set<CurrencyCode> := {"TRY", "PLN", "THB", "MXN"}

  // Each message is written as two literals so that the prover can index it,
  // which NotFoundMessage's proof that the messages differ needs.
  const RestrictedMessage: string :=
    "Currency conversion is not allowed" + " for TRY, PLN, THB, and MXN."
  const FetchFailedMessage: string :=
    "Failed to fetch data" + " from the Frankfurter API."

  const NotFound: int := 404

  function NotFoundMessage(from: CurrencyCode, to: CurrencyCode): (m: string)
    ensures m != RestrictedMessage && m != FetchFailedMessage
  {
    var m := "Conversion rate from " + from + " to " + to + " not found.";
    assert m[1] == 'o' && RestrictedMessage[1] == 'u' && FetchFailedMessage[0] == 'F';
    m
  }

  /** The exceptions the operations throw. */
  datatype Error =
    | ArgumentError(message: string)     // ArgumentException: the caller's request is at fault
    | HttpRequestError(message: string)  // HttpRequestException thrown by the service itself
    | UpstreamUnreachable                // HttpRequestException of the last attempt, rethrown by the policy
    | NullReference                      // NullReferenceException on a null historical payload

  /** The guard of a conversion: refused when some restricted code is `from` or `to`. */
  predicate IsRestricted(from: CurrencyCode, to: CurrencyCode)
    ensures IsRestricted(from, to) <==>
              exists code :: code in RestrictedCurrencies && (code == from || code == to)
  {
    from in RestrictedCurrencies || to in RestrictedCurrencies
  }

  /**
   * The status check shared by the latest-rates and historical paths: a
   * non-success final status becomes the fixed fetch-failure error, a success
   * hands on the parsed payload (possibly null) untouched.
   */
  function Fetched<P>(final: Outcome<P>): (r: Result<Option<P>, Error>)
    ensures r.Success? <==> final.Response? && IsSuccessStatusCode(final.status)
    ensures r.Success? ==> r.value == final.payload
    ensures final.Response? && !IsSuccessStatusCode(final.status) ==>
              r == Failure(HttpRequestError(FetchFailedMessage))
    ensures final.HttpRequestFailure? ==> r == Failure(UpstreamUnreachable)
  {
    match final
    case HttpRequestFailure => Failure(UpstreamUnreachable)
    case Response(status, payload) =>
      if !IsSuccessStatusCode(status) then Failure(HttpRequestError(FetchFailedMessage))
      else Success(payload)
  }

  /**
   * The conversion path's classification of the final outcome: 404 and a null
   * payload both mean "rate not found"; any other failure status is the fixed
   * fetch failure; a payload gives its amount and rates under the caller's
   * `from` as base, whatever base the payload reports.
   */
  function ConversionOf(from: CurrencyCode, to: CurrencyCode, final: Outcome<ExchangeRatesResponse>)
    : (r: Result<ConversionResult, Error>)
    ensures r.Success? <==>
              final.Response? && IsSuccessStatusCode(final.status) && final.payload.Some?
    ensures r.Success? ==>
              r.value.amount == final.payload.value.amount &&
              r.value.rates == final.payload.value.rates &&
              r.value.base == from
    ensures r == Failure(ArgumentError(NotFoundMessage(from, to))) <==>
              final.Response? &&
              (final.status == NotFound || (IsSuccessStatusCode(final.status) && final.payload.None?))
    ensures r == Failure(HttpRequestError(FetchFailedMessage)) <==>
              final.Response? && !IsSuccessStatusCode(final.status) && final.status != NotFound
    ensures r == Failure(UpstreamUnreachable) <==> final.HttpRequestFailure?
  {
    match final
    case HttpRequestFailure => Failure(UpstreamUnreachable)
    case Response(status, payload) =>
      if !IsSuccessStatusCode(status) then
        if status == NotFound then Failure(ArgumentError(NotFoundMessage(from, to)))
        else Failure(HttpRequestError(FetchFailedMessage))
      else
        match payload
        case Some(rate) => Success(ConversionResult(rate.amount, from, rate.rates))
        case None => Failure(ArgumentError(NotFoundMessage(from, to)))
  }

  /**
   * `GetLatestRatesAsync`: no guard on `baseCurrency` (which only goes into
   * the URL), always at least one call, and the parsed payload unchanged on
   * success.
   */
  method GetLatestRates(baseCurrency: CurrencyCode, upstream: nat -> Outcome<ExchangeRatesResponse>)
    returns (r: Result<Option<ExchangeRatesResponse>, Error>, calls: nat)
    ensures 1 <= calls <= MaxAttempts
    ensures calls == Execution(upstream).attempts
    ensures r == Fetched(Execution(upstream).final)
    ensures !(r.Failure? && r.error.ArgumentError?)
  {
    var final, attempts, waits := Execute(upstream);
    calls := attempts;
    r := Fetched(final);
  }

  /**
   * `ConvertCurrencyAsync`: a restricted `from` or `to` is refused before any
   * call is made; otherwise the final outcome of the policy is classified.
   * `amount` only goes into the URL.
   */
  method ConvertCurrency(from: CurrencyCode, to: CurrencyCode, amount: Decimal,
                         upstream: nat -> Outcome<ExchangeRatesResponse>)
    returns (r: Result<ConversionResult, Error>, calls: nat)
    ensures r == Failure(ArgumentError(RestrictedMessage)) <==> IsRestricted(from, to)
    ensures calls == 0 <==> IsRestricted(from, to)
    ensures !IsRestricted(from, to) ==>
              calls == Execution(upstream).attempts &&
              r == ConversionOf(from, to, Execution(upstream).final)
  {
    if IsRestricted(from, to) {
      return Failure(ArgumentError(RestrictedMessage)), 0;
    }
    var final, attempts, waits := Execute(upstream);
    calls := attempts;
    r := ConversionOf(from, to, final);
  }

  /**
   * `GetHistoricalRatesAsync`: after the status check the deserialized result
   * is updated in place, first `totalCount` from the full dictionary, then
   * `rates` replaced by the requested page. `page` and `pageSize` are not
   * sent upstream; the dates and base only go into the URL.
   */
  method GetHistoricalRates(baseCurrency: CurrencyCode, startDate: string, endDate: string,
                            page: int32, pageSize: int32, upstream: nat -> Outcome<HistoricalPayload>)
    returns (r: Result<HistoricalRatesResponse, Error>, calls: nat)
    ensures calls == Execution(upstream).attempts
    ensures var fetched := Fetched(Execution(upstream).final);
            && (r.Success? <==> fetched.Success? && fetched.value.Some?)
            && (fetched.Failure? ==> r == Failure(fetched.error))
            && (fetched == Success(None) ==> r == Failure(NullReference))
            && (r.Success? ==>
                  var payload := fetched.value.value;
                  && fresh(r.value)
                  && r.value.base == payload.base
                  && r.value.totalCount == |payload.rates|
                  && r.value.rates == Page(payload.rates, page, pageSize)
                  && |r.value.rates| <= r.value.totalCount)
  {
    var final, attempts, waits := Execute(upstream);
    calls := attempts;
    var fetched := Fetched(final);
    if fetched.Failure? {
      r := Failure(fetched.error);
    } else if fetched.value.None? {
      r := Failure(NullReference);
    } else {
      var payload := fetched.value.value;
      var result := new HistoricalRatesResponse.FromJson(payload);
      result.totalCount := |result.rates|;
      result.rates := Page(result.rates, page, pageSize);
      PageIsSubDictionary(payload.rates, page, pageSize);
      r := Success(result);
    }
  }

  /** Every restricted code is refused in either position, whatever the other code is. */
  lemma RestrictedInEitherPosition(code: CurrencyCode, other: CurrencyCode)
    requires code in {"TRY", "PLN", "THB", "MXN"}
    ensures IsRestricted(code, other) && IsRestricted(other, code)
  {
  }

  /** A successful EUR to USD reply converts to its amount and rates under base EUR, even if the reply names another base. */
  lemma EurToUsdExample(replyBase: CurrencyCode)
    ensures var rates: Dict<CurrencyCode, Decimal> := [("USD", 1.1)];
            var reply := ExchangeRatesResponse(110.0, replyBase, "2020-01-01", rates);
            ConversionOf("EUR", "USD", Response(200, Some(reply))) ==
              Success(ConversionResult(110.0, "EUR", rates))
  {
  }
}
