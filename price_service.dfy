/**
 * `getPrice` (api.js:15-46) and the `/prices` handler (api.js:55-83).
 *
 * The HTTP fetch and the HTML lookup are outside the model: their combined
 * result is a `Scrape`, either a failed fetch or, per currency, the text of
 * the `#dolar strong` / `#euro strong` element when the page has one.
 */
module PriceService {
  import opened Wrappers
  import opened PriceText
  import opened FloatPrefix

  /** What `getPrice` rethrows whenever anything inside it throws (api.js:44). */
  const SourceError := "Could not retrieve prices from the source."

  /** The messages of the three `/prices` envelopes (api.js:64, 70, 77). */
  const MissingPricesMessage := "No se pudieron obtener los precios de las divisas."
  const SuccessMessage := "Precios obtenidos exitosamente."
  const ServerErrorMessage := "Ocurrió un error en el servidor."

  /**
   * The outcome of fetching and loading the page: the request failed (or the
   * page could not be loaded), or it was loaded and each selector found the
   * given text or nothing.
   */
  datatype Scrape = FetchFailed | Fetched(usdText: Option<string>, euroText: Option<string>)

  /**
   * The object `getPrice` would return; `None` stands for a `null` field, the
   * one thing the handler tests for. Each present field holds the cleaned text
   * whose `parseFloat(...).toFixed(2)` the source sends.
   */
  datatype Prices = Prices(usd: Option<string>, euro: Option<string>)

  /** The JSON envelope `/prices` answers with, and its status code. */
  datatype Response = Response(status: nat, message: string, error: Option<string>, existe: nat, data: Option<Prices>)

  /**
   * One price variable of `getPrice` (api.js:26-31, 33-38): `null` when the
   * element is missing, otherwise the cleaned element text.
   */
  function PriceOf(element: Option<string>): (price: Option<string>)
    ensures price.Some? <==> element.Some?
    ensures price.Some? ==> AllNumeric(price.value)
  {
    match element
    case None => None
    case Some(text) => Some(Clean(text))
  }

  /**
   * `getPrice`: a failed fetch throws, and so does `null.toFixed(2)` for a
   * missing element (api.js:40); the catch turns every one of these into the
   * same error (api.js:42-44). A found element always yields a field, even
   * when its text parses to NaN.
   */
  function GetPrice(scrape: Scrape): (r: Result<Prices, string>)
    ensures r.Failure? <==> (scrape.FetchFailed? || scrape.usdText.None? || scrape.euroText.None?)
    ensures r.Failure? ==> r.error == SourceError
    ensures r.Success? ==> r.value.usd.Some? && r.value.euro.Some?
    ensures r.Success? ==> AllNumeric(r.value.usd.value) && AllNumeric(r.value.euro.value)
  {
    match scrape
    case FetchFailed => Failure(SourceError)
    case Fetched(usdText, euroText) =>
      var usd := PriceOf(usdText);
      var euro := PriceOf(euroText);
      if usd.None? || euro.None? then Failure(SourceError)
      else Success(Prices(usd, euro))
  }

  /**
   * The `/prices` handler's choice of envelope (api.js:60-81): a thrown error
   * gives 500 with the error's message, a null field gives 500 without one,
   * and anything else gives 200 with the prices.
   */
  function PricesResponse(outcome: Result<Prices, string>): (r: Response)
    ensures r.status == 200 || r.status == 500
    ensures r.status == 200 ==> r.existe == 1 && r.message == SuccessMessage
    ensures r.status == 500 ==> r.existe == 0
    ensures r.status == 200 <==> r.data.Some?
    ensures r.data.Some? ==> outcome == Success(r.data.value)
    ensures r.error.Some? <==> outcome.Failure?
    ensures outcome.Failure? ==> r.error == Some(outcome.error)
    ensures r.error.Some? ==> r.message == ServerErrorMessage
    ensures r.status == 500 && r.error.None? ==> r.message == MissingPricesMessage
    ensures outcome.Success? ==> (r.status == 200 <==> outcome.value.usd.Some? && outcome.value.euro.Some?)
  {
    match outcome
    case Failure(message) =>
      Response(500, ServerErrorMessage, Some(message), 0, None)
    case Success(prices) =>
      if prices.usd.None? || prices.euro.None? then
        Response(500, MissingPricesMessage, None, 0, None)
      else
        Response(200, SuccessMessage, None, 1, Some(prices))
  }

  /** A request to `/prices`: `getPrice`, then the handler's choice of envelope. */
  function ServePrices(scrape: Scrape): (r: Response)
    ensures r.status == 200 || r.status == 500
  {
    PricesResponse(GetPrice(scrape))
  }

  /**
   * `/prices` answers 200 with both cleaned prices exactly when the page was
   * fetched and both elements were found, and otherwise 500 with the single
   * `getPrice` error message.
   */
  lemma ServePricesOutcome(scrape: Scrape)
    ensures var r := ServePrices(scrape);
      if scrape.Fetched? && scrape.usdText.Some? && scrape.euroText.Some? then
        r == Response(200, SuccessMessage, None, 1,
                      Some(Prices(Some(Clean(scrape.usdText.value)), Some(Clean(scrape.euroText.value)))))
      else
        r == Response(500, ServerErrorMessage, Some(SourceError), 0, None)
  {
    var outcome := GetPrice(scrape);
    if outcome.Success? {
      assert outcome.value.usd.Some? && outcome.value.euro.Some?;
    }
  }

  /**
   * The handler's null branch (api.js:62-67) is dead: `getPrice` never returns
   * a null field, so no 500 answer lacks an error message.
   */
  lemma NullBranchUnreachable(scrape: Scrape)
    ensures ServePrices(scrape).message != MissingPricesMessage
    ensures ServePrices(scrape).status == 500 ==> ServePrices(scrape).error == Some(SourceError)
  {
    var outcome := GetPrice(scrape);
    assert outcome.Success? ==> outcome.value.usd.Some? && outcome.value.euro.Some?;
    assert MissingPricesMessage != SuccessMessage && MissingPricesMessage != ServerErrorMessage;
  }

  /** Each successful answer carries two texts made of digits and dots only. */
  lemma SuccessCarriesCleanTexts(scrape: Scrape)
    requires ServePrices(scrape).status == 200
    ensures ServePrices(scrape).data.Some?
    ensures var p := ServePrices(scrape).data.value;
      p.usd.Some? && p.euro.Some? && AllNumeric(p.usd.value) && AllNumeric(p.euro.value)
  {
    ServePricesOutcome(scrape);
  }

  /**
   * A found element whose text holds no digit still gives a 200 answer: its
   * cleaned text is read by `parseFloat` as NaN, and the source then sends
   * `NaN.toFixed(2)`, the text "NaN", as that price.
   */
  lemma DigitlessPriceStillSucceeds(usdText: string, euroText: string)
    requires forall i :: 0 <= i < |usdText| ==> !IsDigit(usdText[i])
    ensures ParsesToNaN(Clean(usdText))
    ensures ServePrices(Fetched(Some(usdText), Some(euroText))).status == 200
  {
    CleanAddsNoDigit(usdText);
    ServePricesOutcome(Fetched(Some(usdText), Some(euroText)));
  }
}
