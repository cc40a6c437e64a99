/**
 * Fetching a snapshot `(base, {target: rate})`. The HTTP exchanges are inputs:
 * each is either an exception (timeout, transport error, unreadable body) or a
 * status code with a parsed body. No fetch raises to its caller.
 */
module RateSources {
  import opened Wrappers
  import opened Dicts

  /** What one request produced. */
  datatype HttpOutcome<B> = Raised | Response(status: int, body: B)

  /** The "base" member of a JSON reply: absent, `null`, or a currency code. */
  datatype BaseField = Missing | Null | Code(code: string)

  /** Reply of the primary fiat endpoint; an absent "rates" member reads as `{}`. */
  datatype FiatBody = FiatBody(base: BaseField, rates: Dict<Option<real>>)

  /** Reply of the alternative endpoint; an absent or false "success" reads as `false`. */
  datatype AltBody = AltBody(success: bool, base: BaseField, rates: Dict<Option<real>>)

  /** The "price" member of a ticker entry: absent, a number, or text `float` rejects. */
  datatype PriceField = NoPrice | Number(value: real) | NotANumber

  /** One ticker entry; an absent "symbol" reads as "". */
  datatype PriceEntry = PriceEntry(symbol: string, price: PriceField)

  /** What a fetch returns: a base currency (or none) and the rates dict. */
  datatype Fetched = Fetched(base: Option<string>, rates: Dict<Option<real>>)

  /** The mock generator's snapshot is not modelled; each cycle supplies it. */
  datatype Replies = Replies(
    fiat: HttpOutcome<FiatBody>,
    alternative: HttpOutcome<AltBody>,
    binance: HttpOutcome<seq<PriceEntry>>,
    mock: Fetched)

  /** `(None, {})`: the failed fetch. */
  const NoRates: Fetched := Fetched(None, [])

  /** The base a fiat reply stands for when it names none. */
  const UnstatedBase: string := "USD"
  const CryptoMode: string := "crypto"
  const MockMode: string := "mock"

  /** Quote currency of the ticker symbols, and the base of every ticker snapshot. */
  const Stablecoin: string := "USDT"

  /** The ticker symbols kept from the exchange's full price list. */
  const AllowList: seq<string> := [
    "BTCUSDT", "ETHUSDT", "BNBUSDT", "SOLUSDT", "ADAUSDT",
    "XRPUSDT", "DOTUSDT", "DOGEUSDT", "AVAXUSDT", "MATICUSDT",
    "LINKUSDT", "UNIUSDT", "LTCUSDT", "ATOMUSDT", "ETCUSDT"
  ]

  /** `data.get("base", "USD")`. */
  function BaseOrUsd(b: BaseField): (r: Option<string>)
    ensures r.None? <==> b.Null?
    ensures b.Missing? ==> r == Some(UnstatedBase)
    ensures b.Code? ==> r == Some(b.code)
  {
    match b
    case Missing => Some(UnstatedBase)
    case Null => None
    case Code(c) => Some(c)
  }

  /** `s.replace(pat, "")`: every non-overlapping occurrence of `pat`, scanned left to right, is cut out. */
  function RemoveAll(s: string, pat: string): (r: string)
    requires |pat| > 0
    ensures |r| <= |s|
    decreases |s|
  {
    if |s| < |pat| then s
    else if s[..|pat|] == pat then RemoveAll(s[|pat|..], pat)
    else [s[0]] + RemoveAll(s[1..], pat)
  }

  /** The currency code of a ticker symbol. */
  function Strip(symbol: string): string {
    RemoveAll(symbol, Stablecoin)
  }

  /** The stablecoin's code starts at position `i` of `s`. */
  predicate OccursAt(s: string, i: nat) {
    i + |Stablecoin| <= |s| && s[i..i + |Stablecoin|] == Stablecoin
  }

  /** Stripping `code + "USDT"`, where "USDT" starts nowhere inside `code`, leaves `code`. */
  lemma {:induction false} StripSuffix(code: string)
    requires forall i :: 0 <= i < |code| ==> !OccursAt(code + Stablecoin, i)
    ensures Strip(code + Stablecoin) == code
    decreases |code|
  {
    var s := code + Stablecoin;
    if |code| == 0 {
      assert s[..4] == Stablecoin;
      assert s[4..] == [];
    } else {
      assert !OccursAt(s, 0);
      assert s[1..] == code[1..] + Stablecoin;
      forall i | 0 <= i < |code[1..]| ensures !OccursAt(code[1..] + Stablecoin, i) {
        assert !OccursAt(s, i + 1);
        assert s[1..][i..i + 4] == s[i + 1..i + 5];
      }
      StripSuffix(code[1..]);
      assert s == [s[0]] + s[1..];
    }
  }

  /** Every allow-listed symbol strips to the currency code in front of "USDT". */
  lemma AllowListStrips()
    ensures forall j :: 0 <= j < |AllowList| ==> Strip(AllowList[j]) + Stablecoin == AllowList[j]
  {
    var codes := ["BTC", "ETH", "BNB", "SOL", "ADA", "XRP", "DOT", "DOGE", "AVAX", "MATIC",
                  "LINK", "UNI", "LTC", "ATOM", "ETC"];
    forall j | 0 <= j < |AllowList| ensures Strip(AllowList[j]) + Stablecoin == AllowList[j] {
      var code := codes[j];
      assert AllowList[j] == code + Stablecoin;
      forall i | 0 <= i < |code| ensures !OccursAt(code + Stablecoin, i) {
        assert (code + Stablecoin)[i] != 'U' || (code + Stablecoin)[i + 1] != 'S';
      }
      StripSuffix(code);
    }
  }

  /** An item the ticker fetch may return: an allow-listed symbol, stripped, at a positive price. */
  ghost predicate ListedQuote(item: (string, Option<real>)) {
    && (exists j :: 0 <= j < |AllowList| && item.0 == Strip(AllowList[j]))
    && item.1.Some? && item.1.value > 0.0
  }

  /** An allow-listed entry whose price `float` rejects: reading it raises. */
  predicate Unparsable(e: PriceEntry) {
    e.symbol in AllowList && e.price.NotANumber?
  }

  /** Some allow-listed entry of the list has a price `float` rejects. */
  predicate AnyUnparsable(entries: seq<PriceEntry>) {
    exists i :: 0 <= i < |entries| && Unparsable(entries[i])
  }

  /** A list holds an unparsable listed entry exactly when its front does or its last entry is one. */
  lemma AnyUnparsableSplit(entries: seq<PriceEntry>)
    requires |entries| > 0
    ensures AnyUnparsable(entries) <==>
      AnyUnparsable(entries[..|entries| - 1]) || Unparsable(entries[|entries| - 1])
  {
    var init := entries[..|entries| - 1];
    if AnyUnparsable(entries) {
      var i :| 0 <= i < |entries| && Unparsable(entries[i]);
      if i < |init| {
        assert init[i] == entries[i];
      }
    }
    if AnyUnparsable(init) {
      var i :| 0 <= i < |init| && Unparsable(init[i]);
      assert entries[i] == init[i];
    }
  }

  /**
   * The rates the ticker loop collects from the full price list, or none when
   * an entry raised. Later entries overwrite earlier ones for the same code.
   */
  function CollectPrices(entries: seq<PriceEntry>): (r: Option<Dict<Option<real>>>)
    ensures r.None? <==> AnyUnparsable(entries)
    ensures r.Some? ==> DistinctKeys(r.value)
    ensures r.Some? ==> forall i :: 0 <= i < |r.value| ==> ListedQuote(r.value[i])
    decreases |entries|
  {
    if |entries| == 0 then Some([])
    else
      var init, e := entries[..|entries| - 1], entries[|entries| - 1];
      AnyUnparsableSplit(entries);
      match CollectPrices(init)
      case None => None
      case Some(acc) =>
        if e.symbol !in AllowList then Some(acc)
        else match e.price
          case NotANumber => None
          case NoPrice => Some(acc)
          case Number(p) =>
            if p > 0.0 then
              var j :| 0 <= j < |AllowList| && AllowList[j] == e.symbol;
              assert ListedQuote((Strip(e.symbol), Some(p)));
              PutKeepsKeysDistinct(acc, Strip(e.symbol), Some(p));
              Some(Put(acc, Strip(e.symbol), Some(p)))
            else Some(acc)
  }

  /** `_fetch_binance_rates` as a function of the exchange's reply. */
  function BinanceRates(reply: HttpOutcome<seq<PriceEntry>>): (r: Fetched)
    ensures reply.Raised? || reply.status != 200 ==> r == NoRates
    ensures reply.Response? && reply.status == 200 ==>
      r == match CollectPrices(reply.body) case None => NoRates case Some(rates) => Fetched(Some(Stablecoin), rates)
    ensures r == NoRates || r.base == Some(Stablecoin)
    ensures forall i :: 0 <= i < |r.rates| ==> ListedQuote(r.rates[i])
  {
    match reply
    case Raised => NoRates
    case Response(status, entries) =>
      if status != 200 then NoRates
      else match CollectPrices(entries)
        case None => NoRates
        case Some(rates) => Fetched(Some(Stablecoin), rates)
  }

  /** An allow-listed entry with a positive price: the loop stores it. */
  predicate PositiveListed(e: PriceEntry) {
    e.symbol in AllowList && e.price.Number? && e.price.value > 0.0
  }

  /** Every collected item comes from a positive allow-listed entry of the reply, at that entry's price. */
  lemma {:induction false} CollectPricesSound(entries: seq<PriceEntry>)
    requires CollectPrices(entries).Some?
    ensures var rates := CollectPrices(entries).value;
      forall k :: 0 <= k < |rates| ==>
        exists i :: 0 <= i < |entries| && PositiveListed(entries[i]) &&
                    Strip(entries[i].symbol) == rates[k].0 && rates[k].1 == Some(entries[i].price.value)
    decreases |entries|
  {
    if |entries| > 0 {
      var n := |entries|;
      var init, e := entries[..n - 1], entries[n - 1];
      CollectPricesSound(init);
      var acc := CollectPrices(init).value;
      var rates := CollectPrices(entries).value;
      forall k | 0 <= k < |rates|
        ensures exists i :: 0 <= i < n && PositiveListed(entries[i]) &&
                              Strip(entries[i].symbol) == rates[k].0 && rates[k].1 == Some(entries[i].price.value)
      {
        if rates[k] in acc {
          var m :| 0 <= m < |acc| && acc[m] == rates[k];
          var i :| 0 <= i < |init| &&
            PositiveListed(init[i]) && Strip(init[i].symbol) == acc[m].0 && acc[m].1 == Some(init[i].price.value);
          assert entries[i] == init[i];
        } else {
          assert PositiveListed(entries[n - 1]);
        }
      }
    }
  }

  /**
   * Every allow-listed entry with a positive price is in the result, at the
   * price of the last such entry for its code.
   */
  lemma {:induction false} CollectPricesComplete(entries: seq<PriceEntry>, i: nat)
    requires CollectPrices(entries).Some?
    requires i < |entries| && PositiveListed(entries[i])
    requires forall j :: i < j < |entries| && PositiveListed(entries[j]) ==>
      Strip(entries[j].symbol) != Strip(entries[i].symbol)
    ensures Get(CollectPrices(entries).value, Strip(entries[i].symbol)) == Some(Some(entries[i].price.value))
  {
    var n := |entries|;
    var init, e := entries[..n - 1], entries[n - 1];
    var k := Strip(entries[i].symbol);
    assert CollectPrices(init).Some?;
    var acc := CollectPrices(init).value;
    if i == n - 1 {
      assert CollectPrices(entries) == Some(Put(acc, k, Some(e.price.value)));
    } else {
      assert init[i] == entries[i];
      forall j | i < j < |init| && PositiveListed(init[j])
        ensures Strip(init[j].symbol) != Strip(init[i].symbol)
      {
        assert init[j] == entries[j];
      }
      CollectPricesComplete(init, i);
      if PositiveListed(e) {
        assert Strip(e.symbol) != k;
        assert CollectPrices(entries) == Some(Put(acc, Strip(e.symbol), Some(e.price.value)));
      } else {
        assert CollectPrices(entries) == Some(acc);
      }
    }
  }

  /** The ticker loop: walks the price list, keeping allow-listed symbols with a positive price. */
  method FetchBinanceRates(reply: HttpOutcome<seq<PriceEntry>>) returns (r: Fetched)
    ensures r == BinanceRates(reply)
  {
    if reply.Raised? || reply.status != 200 {
      return NoRates;
    }
    var allPrices := reply.body;
    var rates: Dict<Option<real>> := [];
    var i := 0;
    while i < |allPrices|
      invariant 0 <= i <= |allPrices|
      invariant CollectPrices(allPrices[..i]) == Some(rates)
    {
      var priceData := allPrices[i];
      assert allPrices[..i + 1][..i] == allPrices[..i];
      if priceData.symbol in AllowList {
        var target := Strip(priceData.symbol);
        match priceData.price {
          case NotANumber =>
            assert Unparsable(allPrices[i]);
            return NoRates;
          case NoPrice =>
          case Number(price) =>
            if price > 0.0 {
              rates := Put(rates, target, Some(price));
            }
        }
      }
      i := i + 1;
    }
    assert allPrices[..i] == allPrices;
    return Fetched(Some(Stablecoin), rates);
  }

  /** The alternative endpoint: usable only on status 200 with "success" set and non-empty rates. */
  function AlternativeRates(reply: HttpOutcome<AltBody>): (r: Fetched)
    ensures r != NoRates <==>
      reply.Response? && reply.status == 200 && reply.body.success && |reply.body.rates| > 0
    ensures r != NoRates ==> r.rates == reply.body.rates && r.base == BaseOrUsd(reply.body.base)
  {
    match reply
    case Raised => NoRates
    case Response(status, data) =>
      if status == 200 && data.success && |data.rates| > 0 then Fetched(BaseOrUsd(data.base), data.rates)
      else NoRates
  }

  /** The primary fiat endpoint is used when it answers 200 with non-empty rates. */
  predicate PrimaryUsable(reply: HttpOutcome<FiatBody>) {
    reply.Response? && reply.status == 200 && |reply.body.rates| > 0
  }

  /**
   * `_fetch_fiat_rates`: the primary endpoint, else one hop to the
   * alternative, else `(None, {})`. An empty rates dict only comes with no base.
   */
  function FiatRates(primary: HttpOutcome<FiatBody>, alternative: HttpOutcome<AltBody>): (r: Fetched)
    ensures r == NoRates || |r.rates| > 0
    ensures PrimaryUsable(primary) ==> r == Fetched(BaseOrUsd(primary.body.base), primary.body.rates)
    ensures !PrimaryUsable(primary) ==> r == AlternativeRates(alternative)
  {
    if PrimaryUsable(primary) then Fetched(BaseOrUsd(primary.body.base), primary.body.rates)
    else AlternativeRates(alternative)
  }

  /** `fetch_exchange_rates`: "crypto" uses the ticker, "mock" the generator, anything else the fiat chain. */
  function Dispatch(apiType: string, replies: Replies): (r: Fetched)
    ensures apiType == CryptoMode ==> r == BinanceRates(replies.binance)
    ensures apiType == MockMode ==> r == replies.mock
    ensures apiType != CryptoMode && apiType != MockMode ==> r == FiatRates(replies.fiat, replies.alternative)
  {
    if apiType == CryptoMode then BinanceRates(replies.binance)
    else if apiType == MockMode then replies.mock
    else FiatRates(replies.fiat, replies.alternative)
  }

  method FetchExchangeRates(apiType: string, replies: Replies) returns (r: Fetched)
    ensures r == Dispatch(apiType, replies)
  {
    if apiType == CryptoMode {
      r := FetchBinanceRates(replies.binance);
    } else if apiType == MockMode {
      r := replies.mock;
    } else {
      r := FiatRates(replies.fiat, replies.alternative);
    }
  }
}
