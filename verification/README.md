# Order dashboard core, modelled in Dafny

This project models the order-handling logic of the restaurant order dashboard
in `src/App.jsx`. It covers these parts:

- the normaliser `formatPedido`, which turns a raw order record into the UI record;
- the `orders` list, and the four ways it is replaced: the initial load, a pushed
  `nuevoPedido` order, and the "mark as read" and "mark as done" handlers;
- the derived views: the search/tab filter, the four sort orders, and the unread badge.

Modules:

- `Wrappers`: `Option`.
- `JsText`: the JavaScript string built-ins the filter uses. These are `toLowerCase`,
  `includes` and the integer `toString`.
- `Pedidos`: raw records, normalised records, `formatPedido`.
- `OrderView`: `filteredOrders`, `sortedOrders`, `newOrdersCount`.
- `OrderBoard`: the status updates as functions, and the class `Dashboard`. It holds
  `orders: seq<Order>`, and its methods replace that list as the component's `setOrders` calls do.

Representation choices:

- Money is integer cents and instants are integer milliseconds.
- A field that may be `undefined` is an `Option`.
- JavaScript's `x || d` is written out with the falsy values it meets (`undefined`, `0`).
- `JSON.parse` is abstracted. The raw `items` field is an array, a string whose parse
  result is given (None when the parse throws), or anything else, on which `.map` throws.
- The remote calls `getPedidos`, `markPedidoAsRead` and `markPedidoAsDone` become inputs.
  These are the fetched records (None on failure) and a `remoteOk` flag.
- The sort is modelled as the stable sort `Array.prototype.sort` performs.
  It is proved unique, so the insertion sort used to define it is immaterial.

Where the code departs from the intended behaviour, the model follows the code:

- A pushed order is prepended unconditionally. An id already in the list gets a second entry; there is no upsert.
- The initial load replaces the whole list. An order pushed before the fetch resolves is
  dropped unless the snapshot also holds it.
- `precioTotal` falls back to `precio * cantidad`, not to `precioUnitario * cantidad`.
  When `precio` is missing the line total is NaN (None here).
- `cantidad || 1` replaces only falsy quantities. A negative quantity is kept, so a
  quantity is non-zero, and at least 1 only when the raw value is absent or non-negative.
  A negative `total` is kept too.
- `isNew` is copied with no default.
- One malformed record aborts the whole snapshot batch (`data.map(formatPedido)` throws into the catch). Skipping just that record was the intent.
- The id part of the search does not lower-case the query. Only the customer name is compared case-insensitively.
- The type dropdown (`filterType`) is never consulted by the filter.

## Model

| member | source | states |
|---|---|---|
| `JsText.ToLower` | src/App.jsx:111 | lower-casing keeps the length and maps each character on its own |
| `JsText.ToLowerIdempotent` | src/App.jsx:111 | lower-casing an already lower-cased string changes nothing |
| `JsText.Includes` | src/App.jsx:111-112 | `includes` is true for the empty string and the whole string, and only when the substring is no longer than the string |
| `JsText.IncludesIff` | src/App.jsx:111-112 | `includes` holds exactly when the substring occurs at some index |
| `JsText.LowerKeepsInclusion` | src/App.jsx:111 | an exact-case occurrence is still found after both sides are lower-cased |
| `JsText.IdString` | src/App.jsx:112 | `id.toString()` is non-empty, starts with '-' exactly for negative ids, and is otherwise digits |
| `JsText.IdStringRoundTrip` | src/App.jsx:112 | the id string reads back to the id, so distinct ids give distinct strings |
| `Pedidos.ItemsOf` | src/App.jsx:19 | the items are mapped over as given, or exactly as parsed from a JSON string; a failed parse or a missing array throws |
| `Pedidos.NormalizeItem` | src/App.jsx:26-29 | the name is kept; the quantity defaults to 1 when falsy and is never 0; unit price falls back to `precio`; the line total falls back to `precio` times the quantity, NaN without `precio` |
| `Pedidos.NormalizeItems` | src/App.jsx:25-30 | one item per raw item, same count, same order |
| `Pedidos.FormatPedido` | src/App.jsx:18-39 | fails exactly when the items cannot be mapped; otherwise the items are exactly the normalised raw items, in order; id, customer, time, payment method and details are copied; kind is Delivery exactly when `delivery` is truthy; done exactly when `is_done` is true; `isNew` copied; address "" when absent; total 0 when not numeric; creation time falls back to `horario` |
| `Pedidos.FormatAll` | src/App.jsx:47 | the batch succeeds exactly when every record does, giving one order per record in order |
| `OrderView.Filtered` | src/App.jsx:108-122 | an order is kept exactly when it is in the list and passes the filter predicate; never longer than the list |
| `OrderView.FilteredKeepsMultiplicity` | src/App.jsx:108-122 | every entry that passes the filter predicate is kept as often as it occurs in the list, and no other entry is |
| `OrderView.MatchesSearch` | src/App.jsx:110-113 | a query matches exactly when the lower-cased query occurs in the lower-cased customer name, or the raw query occurs in the id string |
| `OrderView.Visible` | src/App.jsx:109-121 | a non-empty query decides alone; with an empty query Done keeps exactly the done orders, other tabs only orders not done, New also needs `isNew`, Delivery and Pickup the kind, All Orders every order not done |
| `OrderView.FilteredIsSubsequence` | src/App.jsx:108-122 | the filtered list is a subsequence of the list |
| `OrderView.SearchResult` | src/App.jsx:109-114 | with a query, exactly the orders whose lower-cased customer includes the lower-cased query or whose id string includes the raw query, done or not |
| `OrderView.SearchOverridesTab` | src/App.jsx:109-114 | with a non-empty query the active tab makes no difference |
| `OrderView.SearchByIdFindsOrder` | src/App.jsx:112 | searching an order's id string finds it on every tab, even when done |
| `OrderView.SearchByNameFindsOrder` | src/App.jsx:111 | searching for part of the customer's name, written as it appears in the name, finds the order on every tab |
| `OrderView.EmptyQueryTabs` | src/App.jsx:116-121 | Done tab: exactly the done orders; other tabs: no done orders, New also needs `isNew`, Delivery/Pickup the kind, All Orders every order not done |
| `OrderView.DoneAndAllPartition` | src/App.jsx:116-121 | the Done tab and All Orders together show every order exactly once |
| `OrderView.DeliveryAndPickupPartition` | src/App.jsx:119-121 | the Delivery and Pickup tabs split All Orders |
| `OrderView.NewWithinAll` | src/App.jsx:117-118 | the New tab is a subsequence of All Orders |
| `OrderView.Unread` | src/App.jsx:132 | an order counts for the badge exactly when it would show on the New tab with an empty query |
| `OrderView.NewOrdersCount` | src/App.jsx:132 | the badge is at most the list length and is 0 exactly when no order is new and not done |
| `OrderView.BadgeCountsNewTab` | src/App.jsx:132 | the badge, counted over the whole list, equals the number of cards on the New tab with an empty query |
| `OrderView.Compare` | src/App.jsx:124-130 | each comparator branch is the difference of a rank: negated or plain creation time, negated or plain total, or 0 for an unknown order |
| `OrderView.SortBy` | src/App.jsx:124-130 | the sorted list has the same length and the same elements with multiplicity |
| `OrderView.SortByCorrect` | src/App.jsx:124-130 | the sorted list is ordered by the comparator and is a stable permutation: orders of equal rank keep their relative order |
| `OrderView.StableSortIsUnique` | src/App.jsx:124-130 | two lists ordered by the comparator with the same equal-rank groups are equal, so the stable sort has one result |
| `OrderView.UnrecognisedKeepsOrder` | src/App.jsx:129 | an unknown sort order leaves the list unchanged |
| `OrderView.SortedOrders` | src/App.jsx:124-130 | the displayed list has the filtered list's length and holds exactly the visible orders |
| `OrderBoard.ReadIfMatching` | src/App.jsx:93 | an order with the id has `isNew = false` and no longer counts for the badge; nothing else changes; other orders are returned as they are |
| `OrderBoard.DoneIfMatching` | src/App.jsx:102 | an order with the id is done, shows on the Done tab and no longer counts for the badge; nothing else changes; other orders are returned as they are |
| `OrderBoard.MarkRead` | src/App.jsx:93 | same length; orders with the id get `isNew = false` and nothing else changes; other orders are untouched |
| `OrderBoard.MarkDone` | src/App.jsx:102 | same length; orders with the id get `isDone = true` and nothing else changes; other orders are untouched |
| `OrderBoard.MarkReadIdempotent` | src/App.jsx:93 | marking read twice equals marking read once |
| `OrderBoard.MarkDoneIdempotent` | src/App.jsx:102 | marking done twice equals marking done once |
| `OrderBoard.MarkReadThenDoneCommute` | src/App.jsx:90-106 | the read and done updates commute |
| `OrderBoard.MarkReadBadge` | src/App.jsx:93 | marking read never raises the badge, and leaves it unchanged exactly when no unread order has that id |
| `OrderBoard.MarkDoneBadge` | src/App.jsx:102 | the same for marking done |
| `OrderBoard.MarkDoneMovesToDoneTab` | src/App.jsx:102 | after marking done, with an empty query, the id's orders show on the Done tab and on no other tab |
| `OrderBoard.PushBadge` | src/App.jsx:75 | a pushed order raises the badge by one exactly when it is new and not done |
| `OrderBoard.MarkKeepsOccurrences` | src/App.jsx:90-106 | the status updates keep the number of entries of every id |
| `OrderBoard.Dashboard.constructor` | src/App.jsx:10 | the list starts empty |
| `OrderBoard.Dashboard.LoadSnapshot` | src/App.jsx:43-55 | on a successful fetch where every record formats, the list becomes the formatted records sorted newest first, stably; on any failure it is unchanged |
| `OrderBoard.Dashboard.ReceivePush` | src/App.jsx:71-77 | the formatted order is put before the whole previous list; the length grows by one and the id gains one more entry, with no de-duplication |
| `OrderBoard.Dashboard.MarkAsRead` | src/App.jsx:90-97 | on remote success the list is `MarkRead` of the old list; on failure it is unchanged |
| `OrderBoard.Dashboard.MarkAsDone` | src/App.jsx:99-106 | on remote success the list is `MarkDone` of the old list; on failure it is unchanged |

## Left out

- src/services/pedidoServices.js is not part of this model. Its HTTP wrappers become inputs: the fetched records and the `remoteOk` outcomes. This includes `createPedido`, `updatePedido` and `deletePedido`, which the dashboard never calls.
- The Socket.io connection, its connect and error logging, and the disconnect on unmount are transport plumbing. Only the effect of the `nuevoPedido` handler on the list is modelled.
- React state plumbing is left out: `useState`, `useEffect`, the `isLoading` flag, and all JSX rendering.
- Floating point and dates are replaced by integers. This covers `parseFloat`, `toFixed` and `new Date`. NaN from an invalid date is not modelled, and neither is its effect on the comparator. A numeric string `total` is taken as already parsed.
- `JsText.IdString`: ids are unbounded integers, taken as safe integers. JavaScript numbers lose precision above 2^53, and `toString` switches to exponent notation from 1e21; neither is modelled.
- JSON `null` fields are not modelled. An optional field that is missing is `undefined` (None).
- `id`, `nombre_cliente`, `horario` and `metodo_pago` are assumed present. A record without `nombre_cliente` or `id` makes the search filter throw a TypeError (src/App.jsx:111-112); that error path is not modelled.
- `JsText.ToLower`: only A–Z and the Latin-1 capitals are lower-cased, not every Unicode case mapping `toLowerCase` performs.
- `OrderBoard.Dashboard.ReceivePush`: when `formatPedido` throws inside the state updater, React would abort rendering. The model instead leaves the list unchanged and returns false.
- The `filterType` dropdown state is left out. The filter never reads it.
- Concurrency between the fetch, pushes and the status calls is not modelled. Each handler is one atomic step on the list.
