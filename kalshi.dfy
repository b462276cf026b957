/** The cost of buying "Yes" on a market, read off its orderbook: 100 cents
    minus the last (best) bid on the "No" side. The HTTP request, its signed
    headers and the latency measurement are not part of this model. */
module Kalshi {
  import opened Wrappers

  /** One price level of the book: its price in cents and its size. */
  datatype Level = Level(price: int, quantity: int)

  /** The book's `no` side; `None` stands for a missing key or a null value. */
  datatype Orderbook = Orderbook(no: Option<seq<Level>>)

  /** The decoded response body; `orderbook` may be absent. */
  datatype OrderbookResponse = OrderbookResponse(orderbook: Option<Orderbook>)

  /** The bids a response offers on "No": an absent book or side reads as empty. */
  function NoBids(resp: OrderbookResponse): (bids: seq<Level>)
    ensures resp.orderbook.None? || resp.orderbook.value.no.None? ==> bids == []
    ensures resp.orderbook.Some? && resp.orderbook.value.no.Some? ==> bids == resp.orderbook.value.no.value
  {
    match resp.orderbook
    case None => []
    case Some(book) => book.no.GetOr([])
  }

  /** The price to buy "Yes", or `None` when nobody bids on "No". */
  function YesPrice(resp: OrderbookResponse): (price: Option<int>)
    ensures price.None? <==> NoBids(resp) == []
    ensures price.Some? ==> price.value == 100 - NoBids(resp)[|NoBids(resp)| - 1].price
  {
    var bids := NoBids(resp);
    if bids == [] then None else Some(100 - bids[|bids| - 1].price)
  }

  predicate SortedByPrice(levels: seq<Level>) {
    forall i, j :: 0 <= i < j < |levels| ==> levels[i].price <= levels[j].price
  }

  /** The highest price among the levels. */
  function MaxPrice(levels: seq<Level>): (m: int)
    requires levels != []
    ensures forall i :: 0 <= i < |levels| ==> levels[i].price <= m
    ensures exists i :: 0 <= i < |levels| && levels[i].price == m
  {
    if |levels| == 1 then levels[0].price
    else
      var rest := MaxPrice(levels[1..]);
      if levels[0].price >= rest then levels[0].price else rest
  }

  /** No book, no `no` side, or an empty one: there is no price. */
  lemma NoSellersNoPrice(resp: OrderbookResponse)
    ensures YesPrice(resp).None? <==>
      (resp.orderbook.None? || resp.orderbook.value.no.None? || resp.orderbook.value.no.value == [])
  {
  }

  /** With bids on "No", the price is 100 minus the price of the last one. */
  lemma PriceFromLastNoBid(resp: OrderbookResponse, bids: seq<Level>)
    requires resp.orderbook.Some? && resp.orderbook.value.no == Some(bids) && bids != []
    ensures YesPrice(resp) == Some(100 - bids[|bids| - 1].price)
  {
  }

  /** Only the last level counts: books that agree on it give the same price. */
  lemma OnlyLastBidMatters(bids1: seq<Level>, bids2: seq<Level>, best: Level)
    ensures YesPrice(OrderbookResponse(Some(Orderbook(Some(bids1 + [best])))))
         == YesPrice(OrderbookResponse(Some(Orderbook(Some(bids2 + [best])))))
  {
  }

  /** The last level of a book sorted low to high is its highest price. */
  lemma {:induction false} SortedLastIsMax(levels: seq<Level>)
    requires levels != [] && SortedByPrice(levels)
    ensures levels[|levels| - 1].price == MaxPrice(levels)
  {
  }

  /** On a book sorted low to high, the price is 100 minus the best "No"
      bid; a best bid between 0 and 100 gives a price between 0 and 100. */
  lemma PriceFromBestNoBid(resp: OrderbookResponse)
    requires NoBids(resp) != [] && SortedByPrice(NoBids(resp))
    ensures YesPrice(resp) == Some(100 - MaxPrice(NoBids(resp)))
    ensures 0 <= MaxPrice(NoBids(resp)) <= 100 ==> 0 <= YesPrice(resp).value <= 100
  {
  }
}
