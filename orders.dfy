/** The records exchanged by the order-management service. */
module Orders {

  /** The price is a floating-point value in the service; the model carries it along and never
      inspects it, so any totally ordered stand-in will do. */
  type Price = int

  /** An order: its identifier, the item descriptions, where it ships to and its price. */
  datatype Order = Order(id: string, items: seq<string>, destination: string, price: Price)

  /** All orders bound for one destination, accumulated within one batching window. */
  datatype CombinedShipment = CombinedShipment(id: string, status: string, orders: seq<Order>)

  /** The value a lookup of an absent key yields in the service's language: every field empty. */
  const ZeroOrder := Order("", [], "", 0)

  /** How an inbound stream ends after its last message: a clean end of input, or a transport
      error carrying a description. */
  datatype StreamEnd = Eof | Broken(reason: string)

  /** The failures an operation reports to its caller. */
  datatype Failure =
    | NotFound(key: string)     // lookup of an identifier that was never stored
    | RecvFault(reason: string) // the inbound half of a stream broke
    | SendFault                 // the transport refused an outbound message

  datatype Result<T> = Ok(value: T) | Err(failure: Failure)

  datatype Outcome = Done | Failed(failure: Failure)

  /** The identifiers of a sequence of orders, in the same order. */
  function IdsOf(os: seq<Order>): (ids: seq<string>)
    ensures |ids| == |os| && forall i :: 0 <= i < |os| ==> ids[i] == os[i].id
  {
    seq(|os|, i requires 0 <= i < |os| => os[i].id)
  }

  /** Every order contained in a sequence of shipments, shipment by shipment. */
  function OrdersOf(ships: seq<CombinedShipment>): seq<Order>
  {
    if ships == [] then [] else ships[0].orders + OrdersOf(ships[1..])
  }

  lemma {:induction false} OrdersOfAppend(a: seq<CombinedShipment>, b: seq<CombinedShipment>)
    ensures OrdersOf(a + b) == OrdersOf(a) + OrdersOf(b)
  {
    if a == [] {
      assert a + b == b;
    } else {
      assert (a + b)[1..] == a[1..] + b;
      OrdersOfAppend(a[1..], b);
    }
  }
}
