/**
 * The data-transfer types of the service: the upstream payloads and the
 * results handed back to the API layer.
 */
module Models {
  import opened Dictionaries

  /** C# `decimal`. Amounts and rates are only ever copied, never computed with. */
  type Decimal = real

  /** Currency codes and ISO dates are plain strings; nothing checks their format. */
  type CurrencyCode = string

  /** Upstream payload of the "latest" and "convert" queries. */
  datatype ExchangeRatesResponse = ExchangeRatesResponse(
    amount: Decimal,
    base: CurrencyCode,
    date: string,
    rates: Dict<CurrencyCode, Decimal>)

  /** What a conversion returns to its caller. */
  datatype ConversionResult = ConversionResult(
    amount: Decimal,
    base: CurrencyCode,
    rates: Dict<CurrencyCode, Decimal>)

  /**
   * Upstream payload of the date-range query. A `totalCount` the JSON may carry
   * is not kept: the service overwrites it before anyone reads it.
   */
  datatype HistoricalPayload = HistoricalPayload(
    base: CurrencyCode,
    rates: Dict<string, Dict<CurrencyCode, Decimal>>)

  /**
   * The historical result. The service deserializes it and then overwrites
   * `totalCount` and `rates` in place, so it is an object.
   */
  class HistoricalRatesResponse {
    var base: CurrencyCode
    var rates: Dict<string, Dict<CurrencyCode, Decimal>>
    var totalCount: int

    /**
     * Deserialization: base and rates are copied from the payload. `totalCount`
     * starts at 0 here because the payload omits it; the service overwrites it
     * at once, so no caller sees the starting value.
     */
    constructor FromJson(payload: HistoricalPayload)
      ensures base == payload.base && rates == payload.rates && totalCount == 0
    {
      base := payload.base;
      rates := payload.rates;
      totalCount := 0;
    }
  }
}
