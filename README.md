# Order store model

A Dafny model of the order store behind a small order-management HTTP API.
The store keeps order records in one in-memory table keyed by order id. Five
handlers act on that table:

- create adds a new order with status `"pending"`;
- list returns every stored order;
- get returns one order;
- update overwrites the status of one order;
- delete removes one order.

Get, update and delete fail with `NotFound` when the id is absent.

The project has two modules:

- `Orders` (orders.dfy) holds the value level. It defines the `Order` record,
  the `NotFound` error and a `Result` type. Each handler is a function from the
  table before the call to a `Step`, which holds the table after the call and
  the handler's response. It also defines `KeyedById`, the table invariant
  "every order is stored under its own id", and `IsListing`, which says a
  sequence lists every stored order exactly once. The lemmas state what each
  handler does, that each handler keeps the invariant, what a get sees after
  each other handler, and what any listing contains.
- `OrderStore` (store.dfy) holds the class `Store`. It keeps the table in a
  `map` field that its methods change in place. A ghost set `issued` records
  every id ever handed out. Every method is proved to behave as the matching
  `Orders` function says. `GetOrders` builds the list with a loop over the keys
  and is proved to return a listing. `OrderLifecycle` runs one order through
  create, list, update, get, delete and get on a fresh store, and proves what
  each step returns.

Parameters stand in for the framework's nondeterministic calls:

- The generated identifier (`str(uuid.uuid4())`) is the `id` argument of
  `CreateOrder`. It must not be in `issued`, which models that generated ids
  are unique for the store's lifetime, including ids of deleted orders.
- The creation time (`datetime.now()`) is the `createdAt` argument, an opaque
  integer.
- `total_amount` is a `real` that is only stored and returned.

## Model

| member | source | states |
|---|---|---|
| `Orders.CreateInserts` | api/app.py:33-43 | with a fresh id, create adds exactly one entry, under that id; the entry equals the returned order; the order is pending and carries the caller's name, items, amount and creation time; every existing entry is unchanged |
| `Orders.CreateKeepsKeyed` | api/app.py:42 | create keeps every order stored under its own id |
| `Orders.GetAfterCreate` | api/app.py:42-59 | a get of the id create just used returns exactly the order create returned |
| `Orders.Lookup` | api/app.py:56-59 | get succeeds iff the id is stored; on success it returns the stored order; otherwise it fails with NotFound |
| `Orders.UpdateStatusChangesOnlyStatus` | api/app.py:65-70 | on an absent id, update fails with NotFound and the table is unchanged; on a present id, only that order's status becomes the given string; its id, name, items, amount and creation time are kept; the keys and every other entry are unchanged; the returned order is the new stored value |
| `Orders.UpdateStatusKeepsKeyed` | api/app.py:69 | update keeps every order stored under its own id |
| `Orders.GetAfterUpdateStatus` | api/app.py:56-70 | after an update of a present id, a get returns the old order with only its status replaced |
| `Orders.DeleteRemovesOne` | api/app.py:76-80 | on an absent id, delete fails with NotFound and the table is unchanged; on a present id, it confirms with the fixed message, removes exactly that key and leaves every other entry as it was |
| `Orders.DeleteKeepsKeyed` | api/app.py:79 | delete keeps every order stored under its own id |
| `Orders.GetAfterDelete` | api/app.py:56-80 | after a delete of an id, a get of that id fails with NotFound |
| `Orders.ListingSize` | api/app.py:50 | a listing has as many orders as the table has entries |
| `Orders.ListingHoldsEachOnce` | api/app.py:50 | every stored order occurs exactly once in a listing, and nothing else occurs in it |
| `Orders.ListingsArePermutations` | api/app.py:50 | any two listings of one table are permutations of each other, so only their order is open |
| `Orders.ListingOfOne` | api/app.py:50 | the only listing of a one-entry table is that entry |
| `OrderStore.Store.constructor` | api/app.py:27 | the store starts with an empty table and no issued ids |
| `OrderStore.Store.CreateOrder` | api/app.py:33-43 | given an id never issued before, the table becomes create's table and the method returns create's order; the id is recorded as issued; the invariant is kept |
| `OrderStore.Store.GetOrders` | api/app.py:49-50 | returns a listing of the table: each stored order exactly once, with nothing else |
| `OrderStore.Store.GetOrder` | api/app.py:56-59 | returns the lookup of the id without changing the store; an id never issued is not found |
| `OrderStore.Store.UpdateOrder` | api/app.py:65-70 | the table and the response are those of update; no id is issued; an id never issued fails with NotFound; the invariant is kept |
| `OrderStore.Store.DeleteOrder` | api/app.py:76-80 | the table and the response are those of delete; no id is issued; an id never issued fails with NotFound; the invariant is kept |
| `OrderStore.OrderLifecycle` | api/app.py:33-80 | on a fresh store: create returns a pending order with the given fields; the list is exactly that order; update to "shipped" returns it with that status; a get returns the same; delete confirms; a get after the delete fails with NotFound |

## Left out

- HTTP routing, the route decorators, `HTTPException` with status 404 and its detail text: failures are the `NotFound` value of `Result`.
- Pydantic validation and type coercion of arguments: the store accepts whatever it is given.
- `uuid.uuid4()` and `datetime.now()`: these are nondeterministic foreign calls, so they become the `id` and `createdAt` parameters of `CreateOrder`.
- Floating point: `total_amount` is a `real` that no operation computes with.
- The `SimpleNet` object built at startup: it is an unused foreign library object.
- `async` handlers and concurrent access to the shared table: each operation is taken as sequential and atomic.
- OrderStore.Store.UpdateOrder: the source sets the status on the shared `Order` object, so any earlier reference to that order returned by list or get also sees the new status. The model writes an updated record value back into the map, so this aliasing is not modelled.
- OrderStore.Store.GetOrders: the contract does not state that the list follows insertion order. Python's dict iteration gives that order; the model leaves the order open and states only the contents.
