# ClothStore storefront: a Dafny model of its client-side state

ClothStore is a Next.js storefront. Its browser side keeps a small amount of
state in `localStorage`:
- a session token and the logged-in user;
- a shopping cart of product lines;
- the admin's "new orders" watermark, `lastNotificationCheck`.

This project models the code that reads and changes that state, as pure
functions over explicit values:

- **Session accessor** (`utils/auth.js`): `getToken`, `getUser`, `setAuth`,
  `clearAuth` and `isAdmin`. A `Browser` value holds a `window` flag (false
  during server rendering), the storage map, and the log of `authChange`
  events. Each event records the storage its listeners observe.
- **Product list** (`pages/index.js`): the search and category filter, the
  category choices, and `addToCart`.
- **Cart page** (`pages/cart.js`): `updateQuantity`, `removeFromCart`, the
  totals and `handleCheckout`. The create-order call's outcome is a parameter.
- **Page frame** (`components/Layout.js`): the mount effect, the cart badge
  count, the `authChange` listener, logout, and when the admin link and bell
  are shown.
- **Admin bell** (`components/AdminNotifications.js`): the mount-time
  watermark, one poll step and "Clear all". The poll takes the endpoint's
  answer and the clock as parameters. The stored watermark is decimal text
  read back by a model of JavaScript's `parseInt`.
- **Order pages** (`pages/orders.js`, `pages/admin/orders.js`): the login and
  admin guards, the status filter, the status badge colours, which orders can
  be cancelled, the cancel flow and the admin's status buttons.

Files:
- `common.dfy`: `Option`, a generic `Filter` with its laws, subsequences.
- `strings.dfy`: whitespace and `trim`, ASCII lower-casing, `includes`,
  decimal printing and `parseInt`.
- `entities.dfy`: users, products, cart lines, orders, and the storage map
  with its four keys.
- One file per area above.

Storage holds values already decoded from JSON. Every reader requires
`Typed`: each known key holds the shape its writer stores there. Every writer
preserves `Typed`. Money is integer cents and times are integer milliseconds.

## Model

| member | source | states |
|---|---|---|
| Auth.StoredUser | utils/auth.js:8-14 | The stored user is present exactly when the `user` key is, and is the value stored there. |
| Auth.GetToken | utils/auth.js:1-6 | A token is returned only in a browser with `token` stored, and it is the stored text. Otherwise the result is null. |
| Auth.GetUser | utils/auth.js:8-14 | A user is returned exactly when there is a window and `user` is stored, and it is the stored user. |
| Auth.IsAdmin | utils/auth.js:36-39 | True exactly when a window exists, a user is stored, and that user's role is `admin`. |
| Auth.SetAuth | utils/auth.js:16-23 | In a browser, `token` and `user` are added and every other key keeps its value. One `authChange` event is emitted after both writes. Without a window nothing changes. Well-typed storage stays well typed. |
| Auth.ClearAuth | utils/auth.js:25-34 | In a browser, the four session keys disappear and every other key keeps its value. One `authChange` event is emitted after the removals. Without a window nothing changes. |
| Auth.SetAuthRoundTrip | utils/auth.js:1-23 | After `setAuth(t, u)`, `getToken` returns `t`, `getUser` returns `u`, and `isAdmin` is exactly whether `u`'s role is admin. |
| Auth.SetAuthKeepsCartAndWatermark | utils/auth.js:16-23 | `setAuth` neither adds, removes nor changes the cart or the watermark. |
| Auth.ClearAuthLogsOut | utils/auth.js:25-39 | After `clearAuth` there is no token, no user and no admin. |
| Auth.ServerSideIsInert | utils/auth.js:1-34 | Without a window every reader returns null and both writers leave the browser unchanged. |
| Cart.FindLine | pages/index.js:52 | `cart.find` by id returns the first line with that id: no earlier line has it. |
| Cart.ReadCart | pages/index.js:51 | A missing `cart` key reads as the empty cart. Otherwise the stored lines are returned. |
| Cart.WriteCart | pages/index.js:60 | `cart` holds exactly the given lines, every other key is untouched, and the storage stays well typed. |
| Cart.AddLine | pages/index.js:52-58 | If a line has the product's id, only the first such line gains one unit and all other lines stay. Otherwise a line of the product with quantity 1 is appended after the unchanged cart. |
| Cart.AddToCart | pages/index.js:50-60 | Reading the cart back after `addToCart` gives the old cart with the product added. Storage stays well typed. |
| Cart.AddLineKeepsUnique | pages/index.js:52-58 | Adding never creates a second line for an id. |
| Cart.AddLineKeepsPositive | pages/index.js:54-58 | Adding keeps every quantity at least 1. |
| Cart.AddLineIds | pages/index.js:52-58 | After adding, an id is present exactly when it was present before or is the added product's id. |
| Cart.AddLineQuantity | pages/index.js:52-58 | Adding raises the total quantity held for the product's id by one and leaves every other id's quantity unchanged. |
| Cart.AddAllCounts | pages/index.js:50-60 | Adding a list of products to an empty cart one by one gives one line per distinct id. The ids are exactly those of the list, and each id's quantity is how often it occurs in the list. |
| Cart.AddLineTotals | pages/index.js:52-58 | Adding raises the item count by one. The price total rises by the unit price of the line that grew, or of the new line. |
| Cart.AddTwiceThenZero | pages/index.js:50-60 | Adding one product twice to an empty cart gives a single line of quantity 2, costing twice the price. Setting that line's quantity to 0 empties the cart. |
| Cart.SetQuantity | pages/cart.js:25-27 | Same length. Every line keeps its product. Lines with the id get the new quantity and the others keep theirs. |
| Cart.RemoveLines | pages/cart.js:33 | A line survives exactly when it was in the cart and has a different id. The cart never grows. |
| Cart.RemoveLinesSpec | pages/cart.js:33 | Removal keeps the other lines in order, each as often as it occurred, and leaves no line with the removed id. |
| Cart.RemoveLinesKeepsUnique | pages/cart.js:33 | Removing lines keeps at most one line per id. |
| Cart.RemoveLinesKeepsPositive | pages/cart.js:33 | Removing lines keeps every quantity at least 1. |
| Cart.RemoveLinesTotals | pages/cart.js:32-44 | Removing an id takes exactly that id's items and price out of the totals. |
| Cart.RemoveFromCart | pages/cart.js:32-36 | The page's cart becomes an in-order sub-list of the old one. No line with the id is left, and every other line stays exactly as often as before. Storage holds that same cart. |
| Cart.UpdateQuantity | pages/cart.js:19-30 | Quantity 0 is exactly `removeFromCart`. Any other quantity changes only the quantities of the lines with that id. Either way storage holds the page's cart. |
| Cart.UpdateToZeroIsRemove | pages/cart.js:19-23 | `updateQuantity(id, 0)` and `removeFromCart(id)` give the same page. |
| Cart.StepButtonsKeepPositive | pages/cart.js:145-152 | The − and + buttons never leave a line with quantity below 1: stepping down from 1 removes the line. |
| Cart.TotalsOfAppend | pages/cart.js:38-44 | The item and price totals of two carts joined together are the sums of their totals. |
| Cart.TotalsOfReplace | pages/cart.js:38-44 | Replacing one line changes each total by exactly the difference between the new line and the old one. |
| Cart.TotalItems | pages/cart.js:42-44 | When every quantity is positive, the item total is at least the number of lines. |
| Cart.TotalPrice | pages/cart.js:38-40 | With no negative prices or quantities, the price total is not negative. |
| Cart.BumpTotals | pages/index.js:54-55 | One more unit on a line adds one item and that line's unit price to the totals. |
| Cart.Payload | pages/cart.js:60-66 | The order request lists each cart line as product id and quantity, in cart order, with the address as typed. |
| Cart.PayloadUnits | pages/cart.js:42-66 | The order requests as many units as the page's item total. |
| Cart.ClearCart | pages/cart.js:69 | Only the `cart` key disappears, and the logged-in user is unchanged. |
| Cart.Checkout | pages/cart.js:46-77 | With no stored user: login, nothing sent, storage unchanged. With a blank address: refused, storage unchanged. The order is sent exactly when a user exists and the address has a non-whitespace character. The stored cart is cleared only when the call succeeds; a failed call leaves storage unchanged. |
| Catalog.FilterProducts | pages/index.js:31-48 | A product is shown exactly when it is in the list and matches both the search term and the category. |
| Catalog.FilterProductsIsOneFilter | pages/index.js:31-48 | The two-stage search-then-category filter equals one filter by "listed". |
| Catalog.FilterProductsSpec | pages/index.js:31-48 | The shown products keep their order and are exactly the listed ones, each as often as it occurs. An empty term with `all` shows everything. |
| Catalog.FilteredProductsMatch | pages/index.js:34-45 | A shown product's lower-cased name or description contains the lower-cased term. With a category selected, the product has that category case-insensitively; a product without a category never shows. |
| Catalog.NamedCategories | pages/index.js:66 | A category is listed exactly when some product has it and it is non-empty. |
| Catalog.FirstWith | pages/index.js:66 | Gives the position of the first product that has the category: that product has it and no earlier one does. |
| Catalog.NamedCategoriesOrder | pages/index.js:66 | Of two listed categories, the first listed is the one a product carries earlier. |
| Catalog.Distinct | pages/index.js:66 | No repeats, the same members as the input, in order of first appearance. |
| Catalog.Categories | pages/index.js:66 | `all` comes first. Then each distinct non-empty category appears once. Each listed category is carried by some product, and the categories are ordered by the first product that carries each. |
| Layout.CartCount | components/Layout.js:21-22 | The badge count is the stored cart's item total, or 0 with no stored cart. |
| Layout.CartCountAfterAdd | components/Layout.js:21-22 | Every `addToCart` raises the badge count by exactly one. |
| Layout.Mount | components/Layout.js:16-23 | After mounting, the frame shows the stored user and the stored cart's count. |
| Layout.OnAuthChange | components/Layout.js:34-43 | The displayed user becomes the user in the event's storage snapshot. Nothing else changes. |
| Layout.ShowsAdmin | components/Layout.js:61-70 | The admin link and bell show only in a browser whose stored user has the role `admin`. |
| Layout.BadgeAfterAdd | components/Layout.js:71-77 | For a logged-in user whose cart lines all have positive quantities, the badge shows once the frame remounts after `addToCart`. |
| Layout.Logout | components/Layout.js:25-31 | The session keys are gone and every other key is unchanged. One `authChange` event is emitted. The frame shows no user and a zero count, so neither the admin link nor the badge is shown. |
| Layout.LoginShowsUser | components/Layout.js:61-70 | After `setAuth` and its event, the frame shows the new user. The admin link shows exactly when that user is an admin. |
| Notifications.OrderMessage | components/AdminNotifications.js:55 | The message starts with "New order #" and ends with the customer's name. |
| Notifications.MessageNamesOrder | components/AdminNotifications.js:55 | `parseInt` of the text after `#` gives back the order's id. |
| Notifications.EntryFor | components/AdminNotifications.js:53-58 | The entry carries the order's id, total and creation time. Its message starts with "New order #" and ends with the customer's name. |
| Notifications.EntriesFor | components/AdminNotifications.js:53-58 | One entry per order, in the same order. |
| Notifications.SelectSpec | components/AdminNotifications.js:48-50 | The selection is exactly the orders created after the watermark, in received order, each as often as received. |
| Notifications.Select | components/AdminNotifications.js:48-50 | An order is selected exactly when it was received and created after the watermark. |
| Notifications.StoreWatermark | components/AdminNotifications.js:27 | The watermark key holds the time's decimal text, so it no longer counts as missing. Every other key is unchanged, and the storage stays well typed. |
| Notifications.WatermarkReadsBack | components/AdminNotifications.js:27-29 | `parseInt` of the stored text gives back the time that was written. |
| Notifications.Initialize | components/AdminNotifications.js:18-32 | With no stored watermark (absent or empty), the watermark becomes now and is stored. Otherwise the stored text is adopted through `parseInt` and nothing is written. Either way the bell becomes initialized. |
| Notifications.Mount | components/AdminNotifications.js:11-16 | Only a logged-in admin initializes the bell; anyone else changes nothing. |
| Notifications.Polling | components/AdminNotifications.js:45 | A poll goes ahead exactly when an admin is logged in, the bell is initialized, and the watermark is neither null, `NaN` nor 0. |
| Notifications.Prepend | components/AdminNotifications.js:60 | The new entries come first, then the old feed, cut to 10. |
| Notifications.Announce | components/AdminNotifications.js:52-63 | The feed leads with the new entries in received order. The old feed follows from its start, at most 10 entries in all. The watermark moves to now. |
| Notifications.Poll | components/AdminNotifications.js:42-68 | Fetches exactly when an admin is logged in, the bell is initialized and the watermark is truthy. A failed request or no new orders changes nothing. Otherwise the new orders are announced and the watermark is stored. |
| Notifications.Clear | components/AdminNotifications.js:70-73 | The feed empties and the panel closes, while the watermark stays. |
| Notifications.FeedStaysBounded | components/AdminNotifications.js:60 | Mounting, polling and clearing keep the feed at 10 entries or fewer. |
| Notifications.FirstInitSuppressesExisting | components/AdminNotifications.js:24-27 | After the first initialization, a poll whose orders all predate that moment changes neither feed nor watermark. |
| Notifications.WatermarkSurvivesReload | components/AdminNotifications.js:21-29 | A watermark stored by a poll is the one the next page load adopts. |
| Notifications.WatermarkNeverDecreases | components/AdminNotifications.js:61-63 | If the clock does not run backwards, a poll never lowers the watermark. |
| Notifications.PollScenario | components/AdminNotifications.js:48-63 | Given orders from before, just after and later than the watermark, exactly the last two are announced, in order. The old feed follows from its start. The watermark moves to now and is stored. |
| Strings.Lower | pages/index.js:36-43 | Same length, each character lower-cased in ASCII, and no upper-case ASCII letter is left. |
| Strings.LowerIdempotent | pages/index.js:36-37 | Lower-casing an already lower-cased text changes nothing. |
| Strings.ContainsAt | pages/index.js:36-37 | `s.includes(t)` holds exactly when `t` starts at some index of `s`. |
| Strings.ShowNat | components/AdminNotifications.js:27 | `toString` of a non-negative number gives decimal digits only, at least one, with a leading 0 only for 0. |
| Strings.ShowInt | components/AdminNotifications.js:55 | `${order.id}` starts with `-` exactly when the id is negative, and is never empty. |
| Strings.Trim | pages/cart.js:53 | The result neither starts nor ends with whitespace, and it is a block of the input with only whitespace before and after it. |
| Strings.TrimEmptyIffBlank | pages/cart.js:53 | `address.trim()` is empty exactly when every character is whitespace. |
| Strings.ParseIntNeedsDigit | components/AdminNotifications.js:29 | `parseInt` gives a number only for text with a decimal digit, and a negative number only for text with a minus sign. |
| Strings.ParseShowIntThen | components/AdminNotifications.js:55 | `parseInt` reads an integer's decimal text back even when text that cannot continue the number follows. |
| Strings.ParseShowRoundTrip | components/AdminNotifications.js:27-29 | `parseInt(n.toString())` is `n` for every non-negative integer. |
| OrderHistory.MountOrders | pages/orders.js:13-20 | Orders are fetched exactly when a user is logged in; otherwise the page goes to `/login`. |
| OrderHistory.StatusColor | pages/orders.js:47-56 | The grey class is given exactly to the statuses outside the five known ones. |
| OrderHistory.StatusColorsDistinct | pages/orders.js:47-56 | Two different known statuses never share a class. |
| OrderHistory.CanCancel | pages/orders.js:58-60 | An order can be cancelled exactly when it is pending or processing. |
| OrderHistory.CancellableAreOpen | pages/orders.js:58-60 | Cancellable orders are the known statuses that are not shipped, delivered or cancelled. |
| OrderHistory.HandleCancel | pages/orders.js:33-45 | Declining does nothing. Confirming calls the endpoint, marks the order while the call runs and clears the mark afterwards. The list is re-fetched exactly on success and an alert is shown exactly on failure. |
| OrderHistory.CancelSettles | pages/orders.js:33-45 | The endpoint is called exactly when the user confirms. A called run ends in exactly one of a new fetch and an alert, and no order stays marked as cancelling. |
| AdminOrders.MountAdminOrders | pages/admin/orders.js:12-19 | Orders are fetched exactly for a logged-in admin; anyone else goes to `/`. |
| AdminOrders.GuardsFollowSession | pages/admin/orders.js:12-19 | The admin page fetches only where the history page (pages/orders.js:13-20) would. After `setAuth` the history page fetches, and the admin page fetches exactly when the new user is an admin. After `clearAuth` they redirect to `/login` and `/` respectively. |
| AdminOrders.FilterOrders | pages/admin/orders.js:41-43 | An order is shown exactly when it was in the list and the filter is `all` or equals its status. |
| AdminOrders.FilterOrdersSpec | pages/admin/orders.js:41-43 | `all` shows every order. Any other filter shows exactly the orders with that status, in order, each as often as it occurs. |
| AdminOrders.StatusButtons | pages/admin/orders.js:115-119 | One button per settable status, in order. A button is disabled exactly when its status is the order's current one. |
| AdminOrders.StatusButtonsDisableAtMostOne | pages/admin/orders.js:115-119 | At most one button is disabled. All are enabled exactly when the current status is not settable. |
| AdminOrders.AdminStatusColors | pages/admin/orders.js:45-54 | The admin page's own colour switch gives every status the class the history page gives it. So the five known statuses get distinct classes and anything else is grey. |

## Behaviour worth knowing

- `getUser` calls `JSON.parse` unguarded (utils/auth.js:11), so a malformed
  stored user throws. Every reader therefore requires well-typed storage.
- A successful checkout removes only the `cart` storage key
  (pages/cart.js:69). The page's in-memory cart keeps its lines until the
  page is left (`Cart.ClearCart`, `Cart.Checkout`).
- A feed entry's timestamp is the order's `created_at`
  (components/AdminNotifications.js:57), not the time of the poll
  (`Notifications.EntryFor`).
- `!storedLastCheck` (components/AdminNotifications.js:24) treats an empty
  stored text like a missing one. `!lastCheck` (line 45) treats a `NaN` or
  0 watermark as no watermark (`Notifications.Initialize`,
  `Notifications.Polling`).
- The order request carries the address as typed (pages/cart.js:65). Only
  the emptiness test at line 53 uses `trim()` (`Cart.Payload`).
- A product whose category is literally `all` makes `all` appear twice in
  the category choices (pages/index.js:66, `Catalog.Categories`).

## Left out

- The 30-second `setInterval` timer, its cleanup, and the stale closure over
  `initialized` and `lastCheck`: each poll is a single step over explicit
  state.
- Network calls (`utils/api.js`): every endpoint's answer or success is a
  parameter. `fetchProducts` and `fetchOrders` are outside the model.
- `updateOrderStatus` (pages/admin/orders.js:32-39): it calls the endpoint,
  then fetches the list again on success or shows an alert on failure. It
  changes no modelled state, so it is left out.
- Navigation. The page guards' redirects keep their target path
  (`OrderHistory.MountOrders`, `AdminOrders.MountAdminOrders`). Checkout's
  `router.push('/login')` (pages/cart.js:49) is the outcome `LoginRequired`,
  without a path. The delayed `router.push('/orders')` after an order
  (pages/cart.js:71), `window.location.href = '/'` on logout
  (components/Layout.js:30) and `window.location.reload()` after
  `addToCart` (pages/index.js:63) are not modelled. `Layout.BadgeAfterAdd`
  models the reload as a fresh mount.
- `confirm` is a boolean parameter. Each `alert` is modelled by what it
  reports, not by its text. In `Cart.Checkout` the alerts at pages/cart.js:54
  and :73 are the outcomes `AddressRequired` and `Failed`. In
  `OrderHistory.HandleCancel` the alert at pages/orders.js:41 is the flag
  `alerted`.
- JSX rendering, the mobile menu, the loading spinners, the success banner
  and the checkout `loading` flag.
- React state-update timing: each handler's updates are applied at once.
- `Date` parsing and formatting: `created_at` and `Date.now()` are integer
  milliseconds.
- Cart.TotalPrice: prices are integer cents, so the floating-point product
  and `toFixed(2)` are not modelled.
- Catalog.FilteredProductsMatch: `toLowerCase` (through `MatchesTerm` and
  `InCategory`) is modelled for ASCII letters only.
- Strings.ParseShowRoundTrip: integers are unbounded. Precision loss above
  2^53, and the exponent notation `toString` uses from 10^21 on, are not
  modelled.
- JSON encoding: storage holds decoded values. Every reader requires
  well-typed storage (see "Behaviour worth knowing").
- `pages/admin/index.js`, `pages/admin/revenue.js`, `pages/login.js`,
  `components/RazorpayPayment.js` and `components/LoadingSpinner.js` are not
  part of this model.
