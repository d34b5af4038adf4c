/** The records that travel through the engine. */
module Market {

  datatype Side = Buy | Sell {
    function Opposite(): Side {
      if Buy? then Sell else Buy
    }
  }

  datatype ExecutionType = MarketOrder | LimitOrder | StopLossOrder | IcebergOrder

  datatype Order = Order(
    id: nat,
    execution: ExecutionType,
    price: nat,
    timestamp: nat,
    trader: nat,
    side: Side,
    symbol: nat,
    quantity: nat,
    clientId: nat)

  datatype Trade = Trade(
    id: nat,
    timestamp: nat,
    price: nat,
    buyClient: nat,
    sellClient: nat,
    symbol: nat,
    quantity: nat)

  /** Orders both sides best-first: a smaller key is a better price for `side`. */
  function Key(side: Side, price: int): int {
    if side == Sell then price else -price
  }

  /** A taker on side `s` limited to `limit` may trade against a resting price `p`. */
  predicate Crosses(s: Side, limit: int, p: int) {
    Key(s.Opposite(), p) <= Key(s.Opposite(), limit)
  }

  function SumQty(s: seq<Order>): nat {
    if s == [] then 0 else s[0].quantity + SumQty(s[1..])
  }

  function SumTraded(ts: seq<Trade>): nat {
    if ts == [] then 0 else ts[0].quantity + SumTraded(ts[1..])
  }

  lemma {:induction false} SumTradedConcat(a: seq<Trade>, b: seq<Trade>)
    ensures SumTraded(a + b) == SumTraded(a) + SumTraded(b)
  {
    if a == [] {
      assert a + b == b;
    } else {
      assert (a + b)[1..] == a[1..] + b;
      SumTradedConcat(a[1..], b);
    }
  }
}
