/**
 * The inventory service: one in-memory dictionary from product name to quantity,
 * seeded with a fixed catalog, read by the `/stock` and `/health` endpoints and
 * changed in place by `/reserve` and `/restock`.
 *
 * The first half of the module states each endpoint's effect as a function of the
 * dictionary (a `Step`: the reply and the dictionary afterwards); the class `Store`
 * at the end holds the dictionary and updates it in place, and each of its methods
 * is proved against those functions.
 */
module Inventory {
  import opened Wrappers

  /** The stock dictionary: product name to quantity. */
  type Stock = map<string, int>

  /** The catalog the service starts with. */
  function Catalog(): Stock {
    map[
      "Vinho Tinto Reserva" := 50,
      "Vinho Branco Especial" := 30,
      "Champagne Premium" := 15,
      "Rosé Clássico" := 25,
      "Espumante Nacional" := 40
    ]
  }

  /** The stock of one product as the handlers read it: an unknown product has 0. */
  function StockOf(m: Stock, product: string): int {
    if product in m then m[product] else 0
  }

  /** The invariant of the store: no entry is negative. */
  predicate NonNegative(m: Stock) {
    forall p :: p in m ==> m[p] >= 0
  }

  // ---------------------------------------------------------------------------
  // Totals (the `reduce` over all values)
  // ---------------------------------------------------------------------------

  /** The sum of all quantities in the dictionary. */
  ghost function Total(m: Stock): (t: int)
    ensures m == map[] ==> t == 0
    ensures NonNegative(m) ==> t >= 0
    decreases |m|
  {
    if m == map[] then 0
    else
      var p :| p in m;
      m[p] + Total(m - {p})
  }

  /** Removing one entry from a dictionary leaves one entry fewer. */
  lemma RemoveShrinks(m: Stock, p: string)
    requires p in m
    ensures |m - {p}| == |m| - 1
  {
    assert (m - {p}).Keys == m.Keys - {p};
  }

  /** The total does not depend on which entry is summed first. */
  lemma {:induction false} TotalRemove(m: Stock, p: string)
    requires p in m
    ensures Total(m) == m[p] + Total(m - {p})
    decreases |m|
  {
    var q :| q in m && Total(m) == m[q] + Total(m - {q});
    if q != p {
      RemoveShrinks(m, p);
      RemoveShrinks(m, q);
      assert p in m - {q} && q in m - {p};
      TotalRemove(m - {q}, p);
      TotalRemove(m - {p}, q);
      assert m - {q} - {p} == m - {p} - {q};
    }
  }

  /** Setting one entry changes the total by the difference between new and old stock. */
  lemma TotalUpdate(m: Stock, p: string, v: int)
    ensures Total(m[p := v]) == Total(m) - StockOf(m, p) + v
  {
    TotalRemove(m[p := v], p);
    if p in m {
      TotalRemove(m, p);
      assert m[p := v] - {p} == m - {p};
    } else {
      assert m[p := v] - {p} == m;
    }
  }

  /** With no negative entry, every product's stock lies between 0 and the total. */
  lemma {:induction false} StockOfAtMostTotal(m: Stock, product: string)
    requires NonNegative(m)
    ensures 0 <= StockOf(m, product) <= Total(m)
    decreases |m|
  {
    if m != map[] {
      var q :| q in m && Total(m) == m[q] + Total(m - {q});
      RemoveShrinks(m, q);
      StockOfAtMostTotal(m - {q}, product);
    }
  }

  /** The catalog holds 160 bottles in all. */
  lemma CatalogTotal()
    ensures Total(Catalog()) == 160
  {
    var m := Catalog();
    var m1 := m - {"Vinho Tinto Reserva"};
    var m2 := m1 - {"Vinho Branco Especial"};
    var m3 := m2 - {"Champagne Premium"};
    var m4 := m3 - {"Rosé Clássico"};
    TotalRemove(m, "Vinho Tinto Reserva");
    TotalRemove(m1, "Vinho Branco Especial");
    TotalRemove(m2, "Champagne Premium");
    TotalRemove(m3, "Rosé Clássico");
    TotalRemove(m4, "Espumante Nacional");
    assert m4 - {"Espumante Nacional"} == map[];
  }

  // ---------------------------------------------------------------------------
  // Requests and their effects
  // ---------------------------------------------------------------------------

  /** JavaScript truthiness of a `product` field: present and not the empty string. */
  predicate Present(product: Option<string>) {
    product.Some? && product.value != ""
  }

  /** JavaScript truthiness of a `quantity` field: present and not zero. */
  predicate Truthy(quantity: Option<int>) {
    quantity.Some? && quantity.value != 0
  }

  /** The typed 400 replies of `/reserve` and `/restock`. */
  datatype RequestError =
    | MissingFields                                    // product or quantity missing (or falsy)
    | NonPositiveQuantity                              // quantity below zero
    | InsufficientStock(available: int, requested: int)

  /** Successful replies; a reservation carries its `RES-` id, here the clock reading. */
  datatype Reply =
    | Reserved(reservationId: nat, product: string, reserved: int, remaining: int)
    | Restocked(product: string, added: int, newStock: int)

  /** What one request does: the reply, and the dictionary afterwards. */
  datatype Step = Step(result: Result<Reply, RequestError>, after: Stock)

  /**
   * The validation shared by `/reserve` and `/restock`: product and quantity must be
   * truthy, then the quantity must not be negative.
   */
  function CheckRequest(product: Option<string>, quantity: Option<int>): (r: Result<(string, int), RequestError>)
    ensures r.Success? <==> Present(product) && quantity.Some? && quantity.value > 0
    ensures r.Success? ==> r.value == (product.value, quantity.value)
    ensures r.Failure? ==> (r.error == MissingFields <==> !Present(product) || !Truthy(quantity))
    ensures r.Failure? ==> (r.error == NonPositiveQuantity <==> Present(product) && quantity.Some? && quantity.value < 0)
  {
    if !Present(product) || !Truthy(quantity) then Failure(MissingFields)
    else if quantity.value <= 0 then Failure(NonPositiveQuantity)
    else Success((product.value, quantity.value))
  }

  /**
   * `/reserve`: after validation, reject when the current stock is below the quantity,
   * otherwise decrement the entry in place.
   */
  function ReserveStep(m: Stock, product: Option<string>, quantity: Option<int>, now: nat): (s: Step)
    // invalid requests are rejected as validation says, and change nothing
    ensures CheckRequest(product, quantity).Failure? ==>
      s == Step(Failure(CheckRequest(product, quantity).error), m)
    // a valid request succeeds exactly when the stock covers it
    ensures CheckRequest(product, quantity).Success? ==>
      (s.result.Success? <==> quantity.value <= StockOf(m, product.value))
    ensures s.result.Failure? ==> s.after == m
    // a valid request the stock does not cover is refused with both numbers
    ensures CheckRequest(product, quantity).Success? && s.result.Failure? ==>
      s.result.error == InsufficientStock(StockOf(m, product.value), quantity.value)
    // a success takes the quantity off this product and off no other
    ensures s.result.Success? ==>
      && CheckRequest(product, quantity).Success?
      && StockOf(s.after, product.value) == StockOf(m, product.value) - quantity.value
      && (forall p :: p != product.value ==> StockOf(s.after, p) == StockOf(m, p))
      && s.after.Keys == m.Keys
      && s.result.value == Reserved(now, product.value, quantity.value, StockOf(s.after, product.value))
    ensures NonNegative(m) ==> NonNegative(s.after)
  {
    match CheckRequest(product, quantity)
    case Failure(e) => Step(Failure(e), m)
    case Success((p, q)) =>
      var current := StockOf(m, p);
      if current < q then Step(Failure(InsufficientStock(current, q)), m)
      else
        var m' := m[p := current - q];
        Step(Success(Reserved(now, p, q, m'[p])), m')
  }

  /**
   * `/restock`: after validation, add the quantity to the entry, creating the entry for
   * an unknown product.
   */
  function RestockStep(m: Stock, product: Option<string>, quantity: Option<int>): (s: Step)
    ensures CheckRequest(product, quantity).Failure? ==>
      s == Step(Failure(CheckRequest(product, quantity).error), m)
    ensures s.result.Success? <==> CheckRequest(product, quantity).Success?
    ensures s.result.Success? ==>
      && StockOf(s.after, product.value) == StockOf(m, product.value) + quantity.value
      && (forall p :: p != product.value ==> StockOf(s.after, p) == StockOf(m, p))
      && s.after.Keys == m.Keys + {product.value}
      && s.result.value == Restocked(product.value, quantity.value, StockOf(s.after, product.value))
    ensures NonNegative(m) ==> NonNegative(s.after)
  {
    match CheckRequest(product, quantity)
    case Failure(e) => Step(Failure(e), m)
    case Success((p, q)) =>
      var m' := m[p := StockOf(m, p) + q];
      Step(Success(Restocked(p, q, m'[p])), m')
  }

  /** A successful reservation lowers the total by the reserved quantity. */
  lemma ReserveLowersTotal(m: Stock, product: Option<string>, quantity: Option<int>, now: nat)
    requires ReserveStep(m, product, quantity, now).result.Success?
    ensures Total(ReserveStep(m, product, quantity, now).after) == Total(m) - quantity.value
  {
    TotalUpdate(m, product.value, StockOf(m, product.value) - quantity.value);
  }

  /** A successful restock raises the total by the added quantity. */
  lemma RestockRaisesTotal(m: Stock, product: Option<string>, quantity: Option<int>)
    requires RestockStep(m, product, quantity).result.Success?
    ensures Total(RestockStep(m, product, quantity).after) == Total(m) + quantity.value
  {
    TotalUpdate(m, product.value, StockOf(m, product.value) + quantity.value);
  }

  /** Restocking `a` and then `b` units leaves the same dictionary as restocking `a + b`. */
  lemma RestockAdditive(m: Stock, product: string, a: int, b: int)
    requires product != "" && a > 0 && b > 0
    ensures RestockStep(RestockStep(m, Some(product), Some(a)).after, Some(product), Some(b)).after
         == RestockStep(m, Some(product), Some(a + b)).after
  {
  }

  /** Reserving what was just restocked gives every product its former stock back. */
  lemma RestockThenReserve(m: Stock, product: string, q: int, now: nat)
    requires product != "" && q > 0 && StockOf(m, product) >= 0
    ensures var m1 := RestockStep(m, Some(product), Some(q)).after;
            var s := ReserveStep(m1, Some(product), Some(q), now);
            s.result.Success? && forall p :: StockOf(s.after, p) == StockOf(m, p)
  {
  }

  // ---------------------------------------------------------------------------
  // Sequences of requests
  // ---------------------------------------------------------------------------

  /** A request to one of the two mutating endpoints, as the body arrives. */
  datatype Request =
    | ReserveRequest(product: Option<string>, quantity: Option<int>, now: nat)
    | RestockRequest(product: Option<string>, quantity: Option<int>)

  function Apply(m: Stock, r: Request): Step {
    match r
    case ReserveRequest(product, quantity, now) => ReserveStep(m, product, quantity, now)
    case RestockRequest(product, quantity) => RestockStep(m, product, quantity)
  }

  /** The replies to a sequence of requests handled one after another, and the final dictionary. */
  datatype Trace = Trace(results: seq<Result<Reply, RequestError>>, final: Stock)

  function Run(m: Stock, requests: seq<Request>): (t: Trace)
    ensures |t.results| == |requests|
    // there is no deletion: every product known before is still known afterwards
    ensures m.Keys <= t.final.Keys
    decreases |requests|
  {
    if requests == [] then Trace([], m)
    else
      var s := Apply(m, requests[0]);
      var rest := Run(s.after, requests[1..]);
      Trace([s.result] + rest.results, rest.final)
  }

  /** No sequence of reserves and restocks drives an entry negative. */
  lemma {:induction false} RunKeepsNonNegative(m: Stock, requests: seq<Request>)
    requires NonNegative(m)
    ensures NonNegative(Run(m, requests).final)
    decreases |requests|
  {
    if requests != [] {
      RunKeepsNonNegative(Apply(m, requests[0]).after, requests[1..]);
    }
  }

  /** Starting from the catalog, every entry stays non-negative whatever is requested. */
  lemma SeededStoreStaysNonNegative(requests: seq<Request>)
    ensures NonNegative(Run(Catalog(), requests).final)
  {
    RunKeepsNonNegative(Catalog(), requests);
  }

  /** Every request is a reservation of one unit of `product`. */
  predicate AllUnitReserves(requests: seq<Request>, product: string) {
    forall i :: 0 <= i < |requests| ==>
      requests[i].ReserveRequest? && requests[i].product == Some(product) && requests[i].quantity == Some(1)
  }

  /**
   * Requests handled one at a time serialize: of `n` one-unit reservations against a
   * stock of `Q`, exactly the first `Q` (in arrival order) succeed, every later one is
   * rejected with `InsufficientStock(0, 1)`, and the stock ends at `Q - min(n, Q)`.
   */
  lemma {:induction false} UnitReservesSerialize(m: Stock, product: string, requests: seq<Request>)
    requires product != "" && StockOf(m, product) >= 0
    requires AllUnitReserves(requests, product)
    ensures forall i :: 0 <= i < |requests| ==>
      (Run(m, requests).results[i].Success? <==> i < StockOf(m, product))
    ensures forall i :: StockOf(m, product) <= i < |requests| ==>
      Run(m, requests).results[i] == Failure(InsufficientStock(0, 1))
    ensures StockOf(Run(m, requests).final, product) ==
      if |requests| <= StockOf(m, product) then StockOf(m, product) - |requests| else 0
    decreases |requests|
  {
    if requests != [] {
      var s := Apply(m, requests[0]);
      assert AllUnitReserves(requests[1..], product) by {
        forall i | 0 <= i < |requests[1..]|
          ensures requests[1..][i] == requests[i + 1]
        {
        }
      }
      UnitReservesSerialize(s.after, product, requests[1..]);
      var t := Run(m, requests);
      var rest := Run(s.after, requests[1..]);
      assert t.results == [s.result] + rest.results;
      forall i | 1 <= i < |requests|
        ensures t.results[i] == rest.results[i - 1]
      {
      }
    }
  }

  // ---------------------------------------------------------------------------
  // Query views
  // ---------------------------------------------------------------------------

  /** The body of a `/stock` reply: one product's stock, or the total with the whole dictionary. */
  datatype StockView =
    | ProductStock(product: string, stock: int)
    | AllStock(stock: int, inventory: Stock)

  /** The `/stock` reply for a dictionary and an optional `product` query parameter. */
  ghost function View(m: Stock, product: Option<string>): (v: StockView)
    ensures v.AllStock? <==> !Present(product)
    ensures v.ProductStock? ==> v.product == product.value && v.stock == StockOf(m, v.product)
    ensures Present(product) && product.value !in m ==> v.stock == 0
    ensures v.AllStock? ==> v.inventory == m && v.stock == Total(m)
  {
    if Present(product) then ProductStock(product.value, StockOf(m, product.value))
    else AllStock(Total(m), m)
  }

  /** Right after a successful reservation, querying the product gives old stock minus the quantity. */
  lemma QueryAfterReserve(m: Stock, product: string, q: int, now: nat)
    requires ReserveStep(m, Some(product), Some(q), now).result.Success?
    ensures View(ReserveStep(m, Some(product), Some(q), now).after, Some(product))
         == ProductStock(product, StockOf(m, product) - q)
  {
  }

  /** With no negative entry, the number a `/stock` reply reports is at least 0 and at most the total. */
  lemma ViewBounded(m: Stock, product: Option<string>)
    requires NonNegative(m)
    ensures 0 <= View(m, product).stock <= Total(m)
  {
    if Present(product) {
      StockOfAtMostTotal(m, product.value);
    } else {
      StockOfAtMostTotal(m, "");
    }
  }

  // ---------------------------------------------------------------------------
  // The store
  // ---------------------------------------------------------------------------

  /** The service's mutable dictionary and the handlers that read and update it. */
  class Store {
    var stock: Stock

    ghost predicate Valid()
      reads this
    {
      NonNegative(stock)
    }

    /** Start-up: the dictionary holds the catalog. */
    constructor ()
      ensures Valid() && stock == Catalog()
    {
      stock := Catalog();
    }

    /** The `reduce` over all quantities, one entry at a time. */
    method TotalStock() returns (total: int)
      ensures total == Total(stock)
    {
      total := 0;
      var rest := stock;
      while rest != map[]
        invariant total + Total(rest) == Total(stock)
        decreases |rest|
      {
        var p :| p in rest;
        TotalRemove(rest, p);
        RemoveShrinks(rest, p);
        total := total + rest[p];
        rest := rest - {p};
      }
    }

    /** `/stock`: one product's stock (0 if unknown), or with no product the total and the dictionary. */
    method Query(product: Option<string>) returns (v: StockView)
      ensures v == View(stock, product)
      ensures Present(product) && product.value !in stock ==> v.stock == 0
      ensures Valid() ==> 0 <= v.stock
    {
      if Present(product) {
        v := ProductStock(product.value, if product.value in stock then stock[product.value] else 0);
      } else {
        var total := TotalStock();
        v := AllStock(total, stock);
      }
      if Valid() {
        ViewBounded(stock, product);
      }
    }

    /** `/health`: the number of products and the total stock. */
    method Health() returns (products: nat, total: int)
      ensures products == |stock|
      ensures total == Total(stock)
      ensures Valid() ==> total >= 0
    {
      products := |stock|;
      total := TotalStock();
      if Valid() {
        StockOfAtMostTotal(stock, "");
      }
    }

    /** `/reserve`: the check and the decrement happen within one handler, with nothing in between. */
    method Reserve(product: Option<string>, quantity: Option<int>, now: nat) returns (r: Result<Reply, RequestError>)
      requires Valid()
      modifies this
      ensures Valid()
      ensures r == ReserveStep(old(stock), product, quantity, now).result
      ensures stock == ReserveStep(old(stock), product, quantity, now).after
    {
      if !Present(product) || !Truthy(quantity) {
        return Failure(MissingFields);
      }
      if quantity.value <= 0 {
        return Failure(NonPositiveQuantity);
      }
      var p, q := product.value, quantity.value;
      var current := if p in stock then stock[p] else 0;
      if current < q {
        return Failure(InsufficientStock(current, q));
      }
      stock := stock[p := current - q];
      r := Success(Reserved(now, p, q, stock[p]));
    }

    /** `/restock`: add to the product's entry, creating it when the product is new. */
    method Restock(product: Option<string>, quantity: Option<int>) returns (r: Result<Reply, RequestError>)
      requires Valid()
      modifies this
      ensures Valid()
      ensures r == RestockStep(old(stock), product, quantity).result
      ensures stock == RestockStep(old(stock), product, quantity).after
    {
      if !Present(product) || !Truthy(quantity) {
        return Failure(MissingFields);
      }
      if quantity.value <= 0 {
        return Failure(NonPositiveQuantity);
      }
      var p, q := product.value, quantity.value;
      var current := if p in stock then stock[p] else 0;
      stock := stock[p := current + q];
      r := Success(Restocked(p, q, stock[p]));
    }
  }
}
