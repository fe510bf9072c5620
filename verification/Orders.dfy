/** The records that travel through the matching engine (include/order.h,
    include/trade.h, include/ome/commands.hpp).

    Quantities, identifiers, timestamps and sequence numbers are `nat`; the
    codecs state the machine widths, and nothing here wraps. */
module Orders {

  datatype Option<+T> = None | Some(value: T)

  datatype Side = Bid | Ask {
    function Opposite(): Side {
      if Bid? then Ask else Bid
    }
  }

  datatype Kind = Market | Limit | Cancel

  datatype Order = Order(id: nat, price: int, quantity: nat, side: Side, kind: Kind, timestamp: nat)

  datatype Trade = Trade(buyer: nat, seller: nat, price: int, quantity: nat, timestamp: nat)

  datatype RejectReason =
    | NoReason
    | UnknownOrder
    | InvalidQty
    | InvalidPrice
    | RiskMaxOrderSize
    | RiskPriceBand

  function Min(a: nat, b: nat): nat {
    if a <= b then a else b
  }

  function Max(a: nat, b: nat): nat {
    if a <= b then b else a
  }

  /** Price p is strictly more aggressive than price q on the given side. */
  predicate Better(side: Side, p: int, q: int) {
    if side.Bid? then p > q else p < q
  }
}
