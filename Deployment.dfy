/**
 * The two services wired together: the order handler's remote calls are answered
 * by the inventory service's endpoints, run on the inventory dictionary.
 *
 * Each call travels over a link that either is down (the request never arrives),
 * loses the reply (the inventory service handles the request but the orchestrator
 * sees a transport failure) or works. Between the stock query and the reserve call,
 * other clients' requests may be handled; they are a sequence of inventory requests.
 */
module Deployment {
  import opened Wrappers
  import AuthGate
  import Inventory
  import opened Sales

  datatype Link = Down | ReplyLost | Up

  /** The links the two calls of one order travel over. */
  datatype Network = Network(stockLink: Link, reserveLink: Link)

  /** What one order produced: the handler's reply and calls, and the dictionary at the end. */
  datatype Outcome = Outcome(handling: Handling, final: Inventory.Stock)

  /** The inventory service's `GET /stock`, in both its forms: its reply, and the (unchanged) dictionary. */
  ghost function QueryEndpoint(m: Inventory.Stock, header: Option<string>, verify: string -> bool,
                               product: Option<string>): (r: (Call<Inventory.StockView>, Inventory.Stock))
    // the gate answers 401 before the handler runs, and nothing changes
    ensures AuthGate.Authorize(header, verify).Unauthorized? ==> r == (ErrorStatus(401), m)
    // an admitted query is answered with the view of the dictionary, and changes nothing
    ensures AuthGate.Authorize(header, verify).Admitted? ==> r.0.Answered? && r.1 == m
    ensures AuthGate.Authorize(header, verify).Admitted? && Inventory.Present(product) ==>
      r.0.body == Inventory.ProductStock(product.value, Inventory.StockOf(m, product.value))
    ensures AuthGate.Authorize(header, verify).Admitted? && !Inventory.Present(product) ==>
      r.0.body == Inventory.AllStock(Inventory.Total(m), m)
  {
    if AuthGate.Authorize(header, verify).Unauthorized? then (ErrorStatus(401), m)
    else (Answered(Inventory.View(m, product)), m)
  }

  /**
   * The `stock` number of `GET /stock` with no product parameter, as the order handler
   * sends it and reads it.
   */
  ghost function StockEndpoint(m: Inventory.Stock, header: Option<string>, verify: string -> bool): (r: Call<int>)
    ensures AuthGate.Authorize(header, verify).Unauthorized? ==> r == ErrorStatus(401)
    ensures AuthGate.Authorize(header, verify).Admitted? ==> r == Answered(Inventory.Total(m))
  {
    match QueryEndpoint(m, header, verify, None).0
    case Answered(view) => Answered(view.stock)
    case ErrorStatus(code) => ErrorStatus(code)
    case Unreachable => Unreachable
  }

  /** The inventory service's `POST /restock`: its reply and the dictionary afterwards. */
  function RestockEndpoint(m: Inventory.Stock, header: Option<string>, verify: string -> bool,
                           product: Option<string>, quantity: Option<int>): (r: (Call<Inventory.Reply>, Inventory.Stock))
    // the gate answers 401 before the handler runs, and nothing changes
    ensures AuthGate.Authorize(header, verify).Unauthorized? ==> r == (ErrorStatus(401), m)
    // an admitted request is answered 2xx exactly when the restock succeeds
    ensures AuthGate.Authorize(header, verify).Admitted? ==>
      var s := Inventory.RestockStep(m, product, quantity);
      && (r.0.Answered? <==> s.result.Success?)
      && (r.0.Answered? ==> r.0.body == s.result.value)
      && (!r.0.Answered? ==> r.0 == ErrorStatus(400))
      && r.1 == s.after
  {
    if AuthGate.Authorize(header, verify).Unauthorized? then (ErrorStatus(401), m)
    else
      var s := Inventory.RestockStep(m, product, quantity);
      if s.result.Success? then (Answered(s.result.value), s.after) else (ErrorStatus(400), m)
  }

  /** The inventory service's `POST /reserve`: its reply and the dictionary afterwards. */
  function ReserveEndpoint(m: Inventory.Stock, header: Option<string>, verify: string -> bool,
                           product: Option<string>, quantity: Option<int>, now: nat): (r: (Call<Inventory.Reply>, Inventory.Stock))
    // the gate answers 401 before the handler runs, and nothing changes
    ensures AuthGate.Authorize(header, verify).Unauthorized? ==> r == (ErrorStatus(401), m)
    // an admitted request is answered 2xx exactly when the reservation succeeds
    ensures AuthGate.Authorize(header, verify).Admitted? ==>
      var s := Inventory.ReserveStep(m, product, quantity, now);
      && (r.0.Answered? <==> s.result.Success?)
      && (r.0.Answered? ==> r.0.body == s.result.value)
      && (!r.0.Answered? ==> r.0 == ErrorStatus(400))
      && r.1 == s.after
  {
    if AuthGate.Authorize(header, verify).Unauthorized? then (ErrorStatus(401), m)
    else
      var s := Inventory.ReserveStep(m, product, quantity, now);
      if s.result.Success? then (Answered(s.result.value), s.after) else (ErrorStatus(400), m)
  }

  /** A call over a link: what the caller sees, and the dictionary afterwards. */
  function Deliver<T>(link: Link, m: Inventory.Stock, handled: (Call<T>, Inventory.Stock)): (Call<T>, Inventory.Stock) {
    match link
    case Down => (Unreachable, m)
    case ReplyLost => (Unreachable, handled.1)
    case Up => handled
  }

  /**
   * One `POST /order` against a dictionary `m`: the stock query runs on `m`, then the
   * `between` requests are handled, then the reserve call (if the handler makes one)
   * runs on the dictionary they left.
   */
  ghost function OrderAgainst(m: Inventory.Stock, header: Option<string>, verify: string -> bool,
                              req: OrderRequest, net: Network, between: seq<Inventory.Request>,
                              orderNow: nat, reserveNow: nat): (o: Outcome)
    // an order that makes no reserve call consumes nothing
    ensures !Reserves(o.handling) ==> o.final == Inventory.Run(m, between).final
    // the stock query answers only over a working link
    ensures net.stockLink != Up && AuthGate.Authorize(header, verify).Admitted? && WellFormed(req) ==>
      o.handling.result == StockServiceUnavailable
    // a reserve request that never arrives fails the order and consumes nothing
    ensures Reserves(o.handling) && net.reserveLink == Down ==>
      o.handling.result == ReservationError && o.final == Inventory.Run(m, between).final
    // the caller's header reaches the inventory on every call
    ensures forall i :: 0 <= i < |o.handling.calls| ==> o.handling.calls[i].authorization == header
  {
    var stockCall := Deliver(net.stockLink, m, (StockEndpoint(m, header, verify), m)).0;
    var m1 := Inventory.Run(m, between).final;
    var h0 := HandleOrder(header, verify, req, stockCall, Unreachable, orderNow);
    if Reserves(h0) then
      var (reserveCall, m2) := Deliver(net.reserveLink, m1,
        ReserveEndpoint(m1, header, verify, req.product, req.quantity, reserveNow));
      Outcome(HandleOrder(header, verify, req, stockCall, reserveCall, orderNow), m2)
    else
      Outcome(h0, m1)
  }

  /**
   * A confirmed order took exactly its quantity of its product off the dictionary the
   * reserve call met, the embedded inventory reply reports that remaining stock, and
   * no entry became negative.
   */
  lemma ConfirmedOrderConsumedStock(m: Inventory.Stock, header: Option<string>, verify: string -> bool,
                                    req: OrderRequest, net: Network, between: seq<Inventory.Request>,
                                    orderNow: nat, reserveNow: nat)
    requires Inventory.NonNegative(m)
    requires OrderAgainst(m, header, verify, req, net, between, orderNow, reserveNow).handling.result.Confirmed?
    ensures var o := OrderAgainst(m, header, verify, req, net, between, orderNow, reserveNow);
            var m1 := Inventory.Run(m, between).final;
            var p, q := o.handling.result.order.product, o.handling.result.order.quantity;
            && req == OrderRequest(Some(p), Some(q))
            && 0 < q <= Inventory.StockOf(m1, p)
            && Inventory.StockOf(o.final, p) == Inventory.StockOf(m1, p) - q
            && (forall other :: other != p ==> Inventory.StockOf(o.final, other) == Inventory.StockOf(m1, other))
            && o.handling.result.order.inventoryResponse == Inventory.Reserved(reserveNow, p, q, Inventory.StockOf(o.final, p))
            && Inventory.NonNegative(o.final)
  {
    Inventory.RunKeepsNonNegative(m, between);
  }

  /**
   * Unless the reserve reply was lost, an order that is not confirmed leaves the
   * dictionary exactly as the other requests left it.
   */
  lemma UnconfirmedOrderConsumesNothing(m: Inventory.Stock, header: Option<string>, verify: string -> bool,
                                        req: OrderRequest, net: Network, between: seq<Inventory.Request>,
                                        orderNow: nat, reserveNow: nat)
    requires net.reserveLink != ReplyLost
    requires !OrderAgainst(m, header, verify, req, net, between, orderNow, reserveNow).handling.result.Confirmed?
    ensures OrderAgainst(m, header, verify, req, net, between, orderNow, reserveNow).final == Inventory.Run(m, between).final
  {
  }

  /**
   * The gap the protocol leaves open: when the reserve reply is lost after the
   * inventory applied the decrement, the order fails with a reservation error while
   * the stock has been taken anyway.
   */
  lemma LostReplyLosesStock(m: Inventory.Stock, header: Option<string>, verify: string -> bool,
                            product: string, q: int, between: seq<Inventory.Request>,
                            orderNow: nat, reserveNow: nat)
    requires AuthGate.Authorize(header, verify).Admitted?
    requires product != "" && 0 < q <= Inventory.StockOf(Inventory.Run(m, between).final, product)
    requires Inventory.NonNegative(m) && q <= Inventory.Total(m)
    ensures var o := OrderAgainst(m, header, verify, OrderRequest(Some(product), Some(q)),
                                  Network(Up, ReplyLost), between, orderNow, reserveNow);
            && o.handling.result == ReservationError
            && Inventory.StockOf(o.final, product) == Inventory.StockOf(Inventory.Run(m, between).final, product) - q
  {
  }

  /**
   * The pre-check compares the TOTAL over all products with the quantity, because the
   * stock query carries no product: it rejects exactly when the total is below the
   * quantity, reports the total as the available stock, and then changes nothing.
   */
  lemma PrecheckComparesTotal(m: Inventory.Stock, header: Option<string>, verify: string -> bool,
                              req: OrderRequest, reserveLink: Link, between: seq<Inventory.Request>,
                              orderNow: nat, reserveNow: nat)
    requires AuthGate.Authorize(header, verify).Admitted? && WellFormed(req)
    ensures var o := OrderAgainst(m, header, verify, req, Network(Up, reserveLink), between, orderNow, reserveNow);
            && (o.handling.result.InsufficientStock? <==> Inventory.Total(m) < req.quantity.value)
            && (o.handling.result.InsufficientStock? ==>
                  o.handling.result == InsufficientStock(Inventory.Total(m), req.quantity.value)
                  && o.final == Inventory.Run(m, between).final)
  {
  }

  /**
   * Since no entry is negative, the total is at least any one product's stock: the
   * pre-check never turns away an order the product's own stock could serve.
   */
  lemma PrecheckAdmitsServableOrder(m: Inventory.Stock, header: Option<string>, verify: string -> bool,
                                    product: string, q: int, reserveLink: Link, between: seq<Inventory.Request>,
                                    orderNow: nat, reserveNow: nat)
    requires Inventory.NonNegative(m)
    requires AuthGate.Authorize(header, verify).Admitted?
    requires product != "" && q != 0 && q <= Inventory.StockOf(m, product)
    ensures !OrderAgainst(m, header, verify, OrderRequest(Some(product), Some(q)),
                          Network(Up, reserveLink), between, orderNow, reserveNow).handling.result.InsufficientStock?
  {
    Inventory.StockOfAtMostTotal(m, product);
  }

  /**
   * A negative quantity passes the order handler's checks and the pre-check, is refused
   * by the inventory's own validation, and ends as a reservation error that changed nothing.
   */
  lemma NegativeQuantityFailsAtReserve(m: Inventory.Stock, header: Option<string>, verify: string -> bool,
                                       product: string, q: int, between: seq<Inventory.Request>,
                                       orderNow: nat, reserveNow: nat)
    requires Inventory.NonNegative(m)
    requires AuthGate.Authorize(header, verify).Admitted?
    requires product != "" && q < 0
    ensures var o := OrderAgainst(m, header, verify, OrderRequest(Some(product), Some(q)),
                                  Network(Up, Up), between, orderNow, reserveNow);
            o.handling.result == ReservationError && o.final == Inventory.Run(m, between).final
  {
    Inventory.StockOfAtMostTotal(m, product);
  }

  /** A request turned away at the gate makes no call and consumes nothing. */
  lemma UnauthorizedOrderTouchesNothing(m: Inventory.Stock, header: Option<string>, verify: string -> bool,
                                        req: OrderRequest, net: Network, between: seq<Inventory.Request>,
                                        orderNow: nat, reserveNow: nat)
    requires AuthGate.Authorize(header, verify).Unauthorized?
    ensures var o := OrderAgainst(m, header, verify, req, net, between, orderNow, reserveNow);
            o.handling == Handling(Unauthorized, []) && o.final == Inventory.Run(m, between).final
  {
  }

  // ---------------------------------------------------------------------------
  // Scenarios on concrete dictionaries, with both links up and nothing in between
  // ---------------------------------------------------------------------------

  /**
   * 1000 bottles of "Champagne Premium" against the catalog: rejected by the pre-check,
   * reporting the catalog total of 160 (not the 15 bottles of that product).
   */
  lemma SeededLargeOrderRejectedOnTotal(header: Option<string>, verify: string -> bool, orderNow: nat, reserveNow: nat)
    requires AuthGate.Authorize(header, verify).Admitted?
    ensures var o := OrderAgainst(Inventory.Catalog(), header, verify,
                                  OrderRequest(Some("Champagne Premium"), Some(1000)),
                                  Network(Up, Up), [], orderNow, reserveNow);
            o.handling.result == InsufficientStock(160, 1000) && o.final == Inventory.Catalog()
  {
    Inventory.CatalogTotal();
  }

  /**
   * 100 bottles of "Champagne Premium" against the catalog: the pre-check passes on the
   * total of 160, the inventory refuses the reservation (15 in stock), and the order
   * ends as a reservation error with the catalog unchanged.
   */
  lemma SeededOrderPassesPrecheckFailsReserve(header: Option<string>, verify: string -> bool, orderNow: nat, reserveNow: nat)
    requires AuthGate.Authorize(header, verify).Admitted?
    ensures var o := OrderAgainst(Inventory.Catalog(), header, verify,
                                  OrderRequest(Some("Champagne Premium"), Some(100)),
                                  Network(Up, Up), [], orderNow, reserveNow);
            Reserves(o.handling) && o.handling.result == ReservationError && o.final == Inventory.Catalog()
  {
    Inventory.CatalogTotal();
    assert Inventory.StockOf(Inventory.Catalog(), "Champagne Premium") == 15;
  }

  /** 5 bottles of "Rosé Clássico" against a store holding 25 of it: confirmed, and 20 remain. */
  lemma SingleProductHappyPath(header: Option<string>, verify: string -> bool, orderNow: nat, reserveNow: nat)
    requires AuthGate.Authorize(header, verify).Admitted?
    ensures var m := map["Rosé Clássico" := 25];
            var o := OrderAgainst(m, header, verify, OrderRequest(Some("Rosé Clássico"), Some(5)),
                                  Network(Up, Up), [], orderNow, reserveNow);
            && o.handling.result.Confirmed?
            && o.handling.result.order.status == "confirmed"
            && Inventory.View(o.final, Some("Rosé Clássico")) == Inventory.ProductStock("Rosé Clássico", 20)
  {
    var m := map["Rosé Clássico" := 25];
    Inventory.TotalRemove(m, "Rosé Clássico");
    assert m - {"Rosé Clássico"} == map[];
  }
}
