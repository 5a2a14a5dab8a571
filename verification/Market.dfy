// Market data types and the order-book validators.
module Market {
  import opened Store

  datatype Bar = Bar(open: real, high: real, low: real, close: real, volume: real)

  datatype Source = MexcNative | CoinglassAggregate | CoinglassMexcOnly | Coingecko

  // The quality_flag column, a text column restricted to these values.
  datatype Flag = Ok | GapDetected | PartialCandle | LateArrival | WsRestDivergence | SchemaWarn | PartialCapture

  // A candle row without its key, and the key (symbol, ts) with ts in epoch milliseconds.
  datatype Row = Row(bar: Bar, source: Source, flag: Flag)
  datatype Key = Key(symbol: string, ts: int)

  type Candles = map<Key, Row>
  type CandleRecord = Record<Key, Row>

  // The Candle validator, with the bound on volume.
  predicate OhlcOk(b: Bar) {
    && b.low <= b.open <= b.high
    && b.low <= b.close <= b.high
    && 0.0 <= b.volume
  }

  function OkRow(b: Bar): Row { Row(b, MexcNative, Ok) }

  // The sentinel bar of a synthetic gap row.
  const GAP_BAR := Bar(0.0, 0.0, 0.0, 0.0, 0.0)

  function GapRow(source: Source): Row { Row(GAP_BAR, source, GapDetected) }

  datatype BookError = BidsNotDescending | AsksNotAscending | Crossed

  predicate Descending(p: seq<real>) {
    forall i, j :: 0 <= i < j < |p| ==> p[i] > p[j]
  }

  predicate Ascending(p: seq<real>) {
    forall i, j :: 0 <= i < j < |p| ==> p[i] < p[j]
  }

  // Every bid is below every ask.
  predicate Uncrossed(bids: seq<real>, asks: seq<real>) {
    forall i, j :: 0 <= i < |bids| && 0 <= j < |asks| ==> bids[i] < asks[j]
  }

  // The three validators in the order they run. Each compares neighbours, or the two
  // best prices, only; what they accept is the global shape of the book.
  method ValidateBook(bids: seq<real>, asks: seq<real>) returns (err: Option<BookError>)
    ensures err == None <==>
              && (forall i, j :: 0 <= i < j < |bids| ==> bids[i] > bids[j])
              && (forall i, j :: 0 <= i < j < |asks| ==> asks[i] < asks[j])
              && (forall i, j :: 0 <= i < |bids| && 0 <= j < |asks| ==> bids[i] < asks[j])
    ensures err == Some(BidsNotDescending) <==> !Descending(bids)
    ensures err == Some(AsksNotAscending) <==> Descending(bids) && !Ascending(asks)
    ensures err == Some(Crossed) <==> Descending(bids) && Ascending(asks) && !Uncrossed(bids, asks)
  {
    var i := 1;
    while i < |bids|
      invariant 1 <= i
      invariant forall a, b :: 0 <= a < b < i && b < |bids| ==> bids[a] > bids[b]
    {
      if bids[i] >= bids[i - 1] {
        return Some(BidsNotDescending);
      }
      i := i + 1;
    }
    i := 1;
    while i < |asks|
      invariant 1 <= i
      invariant forall a, b :: 0 <= a < b < i && b < |asks| ==> asks[a] < asks[b]
    {
      if asks[i] <= asks[i - 1] {
        return Some(AsksNotAscending);
      }
      i := i + 1;
    }
    if bids != [] && asks != [] && bids[0] >= asks[0] {
      return Some(Crossed);
    }
    return None;
  }
}
