/**
 * The `/order` handler of the sales service: validate the body, ask the inventory
 * service for its stock, compare, ask it to reserve, and confirm the order.
 *
 * The two HTTP calls are not made here: their outcomes are parameters, and the
 * handler reports which calls it made (with which header and which parameters)
 * beside its result, so that whether the reserve call happens at all is part of
 * what the model says.
 */
module Sales {
  import opened Wrappers
  import AuthGate
  import Inventory

  /** The JSON body of `POST /order`. */
  datatype OrderRequest = OrderRequest(product: Option<string>, quantity: Option<int>)

  /**
   * How a remote call ended: the connection failed, the server answered with an
   * error status (which the HTTP client throws as an exception), or it answered 2xx
   * with a body.
   */
  datatype Call<+T> = Unreachable | ErrorStatus(status: int) | Answered(body: T)

  /** The calls the orchestrator makes to the inventory service. */
  datatype OutboundCall =
    | StockQuery(authorization: Option<string>, productParam: Option<string>)
    | ReserveCall(authorization: Option<string>, product: string, quantity: int)

  /** A confirmed order; its `ORD-` id is the clock reading. */
  datatype Order = Order(orderId: nat, product: string, quantity: int, status: string, inventoryResponse: Inventory.Reply)

  /** The replies of `/order`. */
  datatype OrderResult =
    | Unauthorized                                           // 401, from the gate
    | InvalidRequest                                         // 400
    | StockServiceUnavailable                                // 503
    | InsufficientStock(availableStock: int, requested: int) // 400
    | ReservationError                                       // 503
    | Confirmed(order: Order)                                // 200

  /** The HTTP status of each reply. */
  function HttpStatus(r: OrderResult): (code: int)
    ensures code == 200 <==> r.Confirmed?
    ensures code == 503 <==> r.StockServiceUnavailable? || r.ReservationError?
    ensures code == 401 <==> r.Unauthorized?
    ensures code == 400 <==> r.InvalidRequest? || r.InsufficientStock?
  {
    match r
    case Unauthorized => 401
    case InvalidRequest => 400
    case StockServiceUnavailable => 503
    case InsufficientStock(_, _) => 400
    case ReservationError => 503
    case Confirmed(_) => 200
  }

  /** A handled order: the reply, and the calls made to the inventory service in order. */
  datatype Handling = Handling(result: OrderResult, calls: seq<OutboundCall>)

  /** Whether the handling includes a reserve call. */
  predicate Reserves(h: Handling) {
    exists i :: 0 <= i < |h.calls| && h.calls[i].ReserveCall?
  }

  /** The fields the handler checks: product and quantity truthy; the sign is not checked here. */
  predicate WellFormed(req: OrderRequest) {
    Inventory.Present(req.product) && Inventory.Truthy(req.quantity)
  }

  /**
   * The `/order` handler once the gate has admitted the request. `authorization` is
   * the caller's header, `stock` the outcome of `GET /stock` (its body is the `stock`
   * number of the reply), `reserve` the outcome of `POST /reserve`, `now` the clock.
   */
  function PlaceOrder(req: OrderRequest, authorization: Option<string>,
                      stock: Call<int>, reserve: Call<Inventory.Reply>, now: nat): (h: Handling)
    // an invalid body is answered without any remote call
    ensures h.result == InvalidRequest <==> !WellFormed(req)
    ensures !WellFormed(req) ==> h.calls == []
    // otherwise the first call is the stock query, and it carries no product
    ensures WellFormed(req) ==> |h.calls| >= 1 && h.calls[0] == StockQuery(authorization, None)
    // the caller's header is forwarded unchanged on every call
    ensures forall i :: 0 <= i < |h.calls| ==> h.calls[i].authorization == authorization
    // a failed stock query is reported as unavailable, and nothing is reserved
    ensures h.result == StockServiceUnavailable <==> WellFormed(req) && !stock.Answered?
    // a reported stock below the quantity is reported with both numbers, and nothing is reserved
    ensures h.result.InsufficientStock? <==>
      WellFormed(req) && stock.Answered? && stock.body < req.quantity.value
    ensures h.result.InsufficientStock? ==>
      h.result == InsufficientStock(stock.body, req.quantity.value)
    // the reserve call is made exactly when the pre-check passed, with the request's fields
    ensures Reserves(h) <==> WellFormed(req) && stock.Answered? && stock.body >= req.quantity.value
    ensures Reserves(h) ==>
      h.calls == [StockQuery(authorization, None), ReserveCall(authorization, req.product.value, req.quantity.value)]
    // a request refused or failed at the pre-check made the one product-less stock query only
    ensures WellFormed(req) && !Reserves(h) ==> h.calls == [StockQuery(authorization, None)]
    // any failure of the reserve call is a reservation error
    ensures h.result == ReservationError <==> Reserves(h) && !reserve.Answered?
    // only when both calls succeed is the order confirmed, for the requested product and quantity
    ensures h.result.Confirmed? <==> Reserves(h) && reserve.Answered?
    ensures h.result.Confirmed? ==>
      h.result.order == Order(now, req.product.value, req.quantity.value, "confirmed", reserve.body)
    ensures h.result != Unauthorized
  {
    if !Inventory.Present(req.product) || !Inventory.Truthy(req.quantity) then
      Handling(InvalidRequest, [])
    else
      var product, quantity := req.product.value, req.quantity.value;
      var query := StockQuery(authorization, None);
      if !stock.Answered? then
        // the HTTP client threw: no connection, or a non-2xx status
        Handling(StockServiceUnavailable, [query])
      else if stock.body < quantity then
        Handling(InsufficientStock(stock.body, quantity), [query])
      else
        var calls := [query, ReserveCall(authorization, product, quantity)];
        assert calls[1].ReserveCall?;
        if reserve.Answered? then
          Handling(Confirmed(Order(now, product, quantity, "confirmed", reserve.body)), calls)
        else
          Handling(ReservationError, calls)
  }

  /**
   * `POST /order` behind the gate: a request whose header is missing, not of the
   * Bearer shape or whose token fails verification gets 401 and no remote call.
   */
  function HandleOrder(header: Option<string>, verify: string -> bool, req: OrderRequest,
                       stock: Call<int>, reserve: Call<Inventory.Reply>, now: nat): (h: Handling)
    ensures h.result == Unauthorized <==> AuthGate.Authorize(header, verify).Unauthorized?
    ensures h.result == Unauthorized ==> h.calls == []
    ensures AuthGate.Authorize(header, verify).Admitted? ==> h == PlaceOrder(req, header, stock, reserve, now)
  {
    match AuthGate.Authorize(header, verify)
    case Unauthorized => Handling(Unauthorized, [])
    case Admitted(_) => PlaceOrder(req, header, stock, reserve, now)
  }

  /**
   * The sign of the quantity is not checked by the handler: a negative quantity passes
   * validation and, against a non-negative reported stock, reaches the reserve call.
   */
  lemma NegativeQuantityReachesReserve(product: string, q: int, authorization: Option<string>,
                                       reported: int, reserve: Call<Inventory.Reply>, now: nat)
    requires product != "" && q < 0 && reported >= 0
    ensures Reserves(PlaceOrder(OrderRequest(Some(product), Some(q)), authorization, Answered(reported), reserve, now))
  {
    var h := PlaceOrder(OrderRequest(Some(product), Some(q)), authorization, Answered(reported), reserve, now);
    assert h.calls[1].ReserveCall?;
  }
}
