# Vinheria inventory and sales services: a Dafny model

The system has two HTTP services for a wine shop.

- The **inventory service** keeps one in-memory dictionary from product name to
  quantity. At start-up it holds a five-product catalog. `GET /stock` reads one
  product's stock (0 for an unknown product), or, with no product, the total over all
  products. `POST /reserve` validates the body, refuses when the stock is too low and
  otherwise decrements the entry in place. `POST /restock` validates and increments,
  and creates the entry for a new product. `GET /health` reports the number of
  products and the total stock.
- The **sales service**'s `POST /order` handler checks the body. It asks the
  inventory for its stock and compares that with the requested quantity. It then asks
  the inventory to reserve and answers with a confirmed order. Either remote call can
  fail, and each failure has its own reply.
- Both services put a **JWT gate** in front of these endpoints. The `Authorization`
  header must be present and start with the exact, case-sensitive prefix `"Bearer "`
  (so `bearer x` is refused, and the token's characters are not checked). The token is
  whatever follows those 7 characters, and the JWT library must accept it. The prefix
  is the one of the Bearer scheme of section 2.1 of RFC 6750, but the code checks only
  the literal prefix, not that scheme's grammar.

Files:

- `Wrappers.dfy`: `Option` and `Result`.
- `AuthGate.dfy`: the header-shape check. Token verification is a `string -> bool`
  parameter.
- `Inventory.dfy`: the effect of each endpoint as a function of the dictionary
  (`ReserveStep`, `RestockStep`, `View`, `Total`) and lemmas about them. Also the class
  `Store`, whose `stock` map field is updated in place by methods proved against those
  functions.
- `Sales.dfy`: `PlaceOrder`, a total function from the request, the caller's header
  and the outcomes of the two remote calls to the reply plus the list of calls made
  (with their headers and parameters).
- `Deployment.dfy`: the two services wired together. The order's calls are answered
  by the inventory endpoints over links that may be down or may lose the reply, and
  other clients' requests may run between the two calls. It also holds the concrete
  scenarios.

Three behaviours of the code shape the model:

- The order handler's stock query sends no `product` parameter
  (sales-service/index.js:97). It therefore receives the total over all products
  (inventory-service/index.js:71-79), and line 106 compares that total with the
  quantity, not the product's own stock. One consequence: an order for 1000
  "Champagne Premium" against the catalog is refused with `available_stock` 160, not
  15 (`Deployment.SeededLargeOrderRejectedOnTotal`). An order for 100 passes the
  pre-check and then fails at the reservation
  (`Deployment.SeededOrderPassesPrecheckFailsReserve`).
- The order handler checks only that `product` and `quantity` are truthy
  (sales-service/index.js:86), not that the quantity is positive. A negative quantity
  gets past the handler and the pre-check, and the inventory's validation refuses it.
  The order then ends as a reservation error
  (`Deployment.NegativeQuantityFailsAtReserve`).
- The check-and-decrement in `/reserve` (inventory-service/index.js:109-121) is atomic
  only because Node runs each handler to completion on one thread. The model is
  sequential: requests are handled one after another (`Inventory.Run`).

JavaScript truthiness is written out. A `product` counts as present when it is sent
and is not the empty string. A `quantity` counts as present when it is sent and is not
0. A clock reading `now` stands for `Date.now()` in reservation and order ids.

## Model

| member | source | states |
|---|---|---|
| AuthGate.ExtractToken | inventory-service/index.js:25-34 | a token is extracted exactly when the header is present and starts with `"Bearer "`; the header is then the prefix followed by the token |
| AuthGate.TokenRoundTrip | sales-service/index.js:60-67 | extracting from `"Bearer " + t` gives back `t` |
| AuthGate.Authorize | sales-service/index.js:57-79 | a request is admitted exactly when the header has the Bearer shape and the token passes verification; an admitted request carries that token, and every other request gets 401 |
| Inventory.Total | inventory-service/index.js:73 | the sum of all quantities: 0 for an empty dictionary, and never negative when no entry is |
| Inventory.TotalRemove | inventory-service/index.js:73 | the sum over all quantities is one entry plus the sum of the rest, whichever entry is taken first |
| Inventory.TotalUpdate | inventory-service/index.js:73 | setting one entry changes the total by new value minus old stock (0 for an unknown product) |
| Inventory.StockOfAtMostTotal | inventory-service/index.js:64-73 | with no negative entry, any product's stock (0 if unknown) is between 0 and the total |
| Inventory.CatalogTotal | inventory-service/index.js:49-55 | the seeded catalog holds 160 units in all |
| Inventory.CheckRequest | inventory-service/index.js:95-107 | a missing or falsy product or quantity gives the missing-fields error; otherwise a negative quantity gives the non-positive error; only a non-empty product with a quantity above 0 passes |
| Inventory.ReserveStep | inventory-service/index.js:93-132 | invalid requests get their validation error and change nothing; a valid request succeeds exactly when current stock (0 if unknown) covers the quantity; a refusal reports available = current stock and requested = quantity and changes nothing; a success lowers this product by the quantity, leaves every other product and the key set unchanged, reports the new stock as remaining, and keeps all entries non-negative |
| Inventory.RestockStep | inventory-service/index.js:148-173 | invalid requests get their validation error and change nothing; a valid one always succeeds, adds the quantity to this product's stock (0 if unknown), creates the key if needed, leaves other products unchanged, reports the new stock, and keeps all entries non-negative |
| Inventory.ReserveLowersTotal | inventory-service/index.js:121 | a successful reservation lowers the total by the reserved quantity |
| Inventory.RestockRaisesTotal | inventory-service/index.js:165 | a successful restock raises the total by the added quantity |
| Inventory.RestockAdditive | inventory-service/index.js:164-165 | restocking a then b units gives the same dictionary as restocking a + b units |
| Inventory.RestockThenReserve | inventory-service/index.js:109-165 | reserving what was just restocked succeeds and gives every product its former stock back |
| Inventory.Run | inventory-service/index.js:91-184 | requests handled one after another: one reply per request, and no product known before is forgotten (there is no deletion) |
| Inventory.RunKeepsNonNegative | inventory-service/index.js:109-121 | from a dictionary with no negative entry, any sequence of reserve and restock requests leaves no negative entry |
| Inventory.SeededStoreStaysNonNegative | inventory-service/index.js:49-55 | from the seeded catalog, no sequence of reserve and restock requests drives an entry negative |
| Inventory.UnitReservesSerialize | inventory-service/index.js:109-121 | of n one-unit reservations against stock Q, exactly the first Q in arrival order succeed; the rest are refused with available 0, requested 1; the stock ends at Q - min(n, Q) |
| Inventory.View | inventory-service/index.js:58-80 | the `/stock` reply: with a truthy product, that product and its stock (0 if unknown); otherwise the total and the whole dictionary |
| Inventory.QueryAfterReserve | inventory-service/index.js:62-64 | right after a successful reservation, querying that product returns the old stock minus the quantity |
| Inventory.ViewBounded | inventory-service/index.js:58-80 | with no negative entry, the `stock` number of any `/stock` reply is between 0 and the total |
| Inventory.Store.constructor | inventory-service/index.js:49-55 | the store starts holding the catalog and satisfies its invariant |
| Inventory.Store.TotalStock | inventory-service/index.js:73 | the loop over all entries returns the sum of all quantities |
| Inventory.Store.Query | inventory-service/index.js:58-88 | with a product, its stock, 0 when unknown; without, the total and the whole dictionary; never negative while the invariant holds; changes nothing |
| Inventory.Store.Health | inventory-service/index.js:187-195 | reports the number of products and the same total as the stock query |
| Inventory.Store.Reserve | inventory-service/index.js:91-143 | the in-place update produces exactly the reply and the new dictionary of `ReserveStep`, and keeps the no-negative-entry invariant |
| Inventory.Store.Restock | inventory-service/index.js:146-184 | the in-place update produces exactly the reply and the new dictionary of `RestockStep`, and keeps the invariant |
| Sales.HttpStatus | sales-service/index.js:86-156 | every reply's status is fixed: 200 exactly for a confirmed order; 503 exactly for the two upstream failures; 401 exactly from the gate; 400 exactly for an invalid body and for insufficient stock |
| Sales.PlaceOrder | sales-service/index.js:82-156 | an invalid body gets 400 and no remote call. Otherwise the first call is a stock query with no product, and when no reserve call follows it is the only call. The caller's header is forwarded unchanged on every call. A failed query gives "stock unavailable" and no reserve. Reported stock below the quantity gives insufficient stock with both numbers and no reserve. The reserve call, with the request's product and quantity, happens exactly when the pre-check passed. Any reserve failure gives a reservation error. The order is confirmed only when both calls succeed, with the requested product and quantity, status "confirmed" and the reserve reply embedded |
| Sales.HandleOrder | sales-service/index.js:57-82 | a request the gate refuses gets 401 and causes no remote call; an admitted one is handled by `PlaceOrder` with the caller's header |
| Sales.NegativeQuantityReachesReserve | sales-service/index.js:86-91 | a negative quantity is not refused by the order handler and, against a non-negative reported stock, reaches the reserve call |
| Deployment.QueryEndpoint | inventory-service/index.js:58-80 | `GET /stock` behind the gate, in both forms: a refused header gets 401; an admitted query gets the product's stock (0 if unknown) or the total with the dictionary; nothing changes either way |
| Deployment.StockEndpoint | inventory-service/index.js:71-79 | the `stock` number of `GET /stock` without a product: 401 for a refused header, otherwise the total over all products |
| Deployment.RestockEndpoint | inventory-service/index.js:146-175 | `POST /restock` behind the gate: a refused header gets 401 and changes nothing; an admitted request gets a 2xx body exactly when the restock succeeds, otherwise 400, and leaves the dictionary `RestockStep` gives |
| Deployment.ReserveEndpoint | inventory-service/index.js:91-143 | `POST /reserve` behind the gate: a refused header gets 401 and changes nothing; an admitted request gets a 2xx body exactly when the reservation succeeds (that reservation's reply), otherwise 400, and leaves the dictionary `ReserveStep` gives |
| Deployment.OrderAgainst | sales-service/index.js:95-156 | one order against the inventory: with no reserve call nothing is consumed; over a down stock link an admitted valid order is "stock unavailable"; a reserve request that never arrives gives a reservation error and consumes nothing; every call carries the caller's header |
| Deployment.ConfirmedOrderConsumedStock | sales-service/index.js:124-148 | a confirmed order took exactly its positive quantity of its product, and of no other product, from the dictionary the reserve call met; the embedded reply reports the remaining stock; no entry became negative |
| Deployment.UnconfirmedOrderConsumesNothing | sales-service/index.js:106-156 | unless the reserve reply was lost, an unconfirmed order leaves the dictionary as the other requests left it |
| Deployment.LostReplyLosesStock | sales-service/index.js:150-156 | if the reserve reply is lost after the decrement, the order fails with a reservation error while the stock has been taken |
| Deployment.PrecheckComparesTotal | sales-service/index.js:97-113 | the pre-check refuses exactly when the total over all products is below the quantity, and then reports that total as available and changes nothing |
| Deployment.PrecheckAdmitsServableOrder | sales-service/index.js:106 | with no negative entry, the pre-check never refuses an order that the product's own stock covers |
| Deployment.NegativeQuantityFailsAtReserve | sales-service/index.js:86-133 | a negative quantity ends as a reservation error and changes nothing |
| Deployment.UnauthorizedOrderTouchesNothing | sales-service/index.js:60-78 | a request refused at the gate gets 401, makes no call and consumes nothing |
| Deployment.SeededLargeOrderRejectedOnTotal | sales-service/index.js:106-112 | 1000 "Champagne Premium" against the catalog is refused with available 160, requested 1000; the catalog is unchanged |
| Deployment.SeededOrderPassesPrecheckFailsReserve | sales-service/index.js:106-156 | 100 "Champagne Premium" against the catalog passes the pre-check on the total, is refused by the reservation, and ends as a reservation error with the catalog unchanged |
| Deployment.SingleProductHappyPath | sales-service/index.js:138-148 | 5 "Rosé Clássico" against a store holding 25 is confirmed, and a query then reports 20 |

## Left out

- HTTPS server start-up, certificate loading and `process.exit`: process lifecycle and I/O.
- The helmet, cors, JSON body-parser and request-logging middleware, and every `console` call: framework plumbing and logging.
- Signature and expiry checks (`jwt.verify`) and token issuance (`/auth`, `jwt.sign`) belong to the JWT library. Verification is a `verify: string -> bool` parameter that does not depend on time, and all three gates an order passes (the order's own, then the inventory's on `GET /stock` and on `POST /reserve`) use the same predicate because the services share the secret. So a token that expires between those gates, or a secret that differs between the services, cannot occur in `Deployment.OrderAgainst`; in the source either would give an inventory 401 and then a 503 (sales-service/index.js:116 or :152). `Deployment.PrecheckComparesTotal` and the scenario lemmas rely on this.
- AuthGate.Authorize: yields the token, not the decoded claims that the middleware attaches to the request, because decoding happens inside the JWT library.
- The axios transport and the TLS agent: a remote call is a `Call` outcome (unreachable, error status, or answered with a body). In the composition it is answered over a `Link`.
- The `RES-`/`ORD-` ids and ISO timestamps come from the wall clock. They are a `now: nat` parameter, and the model makes no uniqueness claim.
- The texts of `/health` and `/`, and every human-readable message: only the kind of reply and its numbers are modelled.
- JavaScript coercion of body fields (string or fractional quantities, a non-numeric `stock` in the reply) is not modelled. Neither are product names that hit inherited object properties (such as `"constructor"`). Quantities are integers and product names are strings.
- Quantities and stock are unbounded integers. In the source they are IEEE-754 doubles: above 2^53, `currentStock - quantity`, `currentStock + quantity` and the `reduce` sum round, and the sum then depends on the order of the entries. The totals lemmas (`Inventory.TotalRemove`, `Inventory.TotalUpdate`, `Inventory.ReserveLowersTotal`, `Inventory.RestockRaisesTotal`) and `Inventory.RestockAdditive` hold in the source only while every value stays below 2^53.
- The catch-all 500 replies: nothing in the modelled logic throws once the body is parsed.
- Concurrency between requests is not modelled. Node runs each handler to completion on one thread, so requests are handled one after another. Other clients' requests between the order's two calls are the explicit `between` sequence.
