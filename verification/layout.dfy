/** The page frame: the displayed user, the cart badge, logout, the
    `authChange` listener and when the admin link and notifications appear. */
module Layout {
  import opened Common
  import opened Entities
  import opened Storage
  import Auth
  import Cart

  /** The frame's state: the user it displays, the badge count, and whether
      it has mounted in the browser. */
  datatype View = View(user: Option<User>, cartCount: int, mounted: bool)

  /** The badge count: the quantities of the stored cart added up, 0 when no
      cart is stored. */
  function CartCount(st: Store): (n: int)
    requires Typed(st)
    ensures CartKey !in st ==> n == 0
    ensures CartKey in st ==> n == Cart.TotalItems(st[CartKey].lines)
  {
    Cart.TotalItems(Cart.ReadCart(st))
  }

  /** Every `addToCart` raises the badge count (as read on the next mount) by one. */
  lemma CartCountAfterAdd(st: Store, p: Product)
    requires Typed(st)
    ensures CartCount(Cart.AddToCart(st, p)) == CartCount(st) + 1
  {
    Cart.AddLineTotals(Cart.ReadCart(st), p);
  }

  /** The mount effect: mark mounted, show `getUser()`, count the stored cart. */
  function Mount(b: Auth.Browser): (v: View)
    requires b.window && Typed(b.store)
    ensures v.mounted
    ensures v.user == Auth.StoredUser(b.store)
    ensures v.cartCount == CartCount(b.store)
  {
    View(Auth.GetUser(b), CartCount(b.store), true)
  }

  /** `handleAuthChange` for an event whose listeners observe `snapshot`: the
      displayed user becomes `getUser()`; nothing else changes. */
  function OnAuthChange(v: View, snapshot: Store): (v': View)
    requires Typed(snapshot)
    ensures v'.user.Some? <==> UserKey in snapshot
    ensures v'.user.Some? ==> snapshot[UserKey] == UserJson(v'.user.value)
    ensures v'.cartCount == v.cartCount && v'.mounted == v.mounted
  {
    v.(user := Auth.StoredUser(snapshot))
  }

  /** The admin link and the notification bell are shown: a user is displayed,
      the frame has mounted, and `isAdmin()` holds for the stored user. */
  predicate ShowsAdmin(v: View, b: Auth.Browser)
    requires Typed(b.store)
    ensures ShowsAdmin(v, b) ==> b.window && UserKey in b.store && b.store[UserKey].user.role == "admin"
  {
    v.user.Some? && v.mounted && Auth.IsAdmin(b)
  }

  /** The cart badge is shown: a user is displayed and the count is positive. */
  predicate ShowsBadge(v: View)
  {
    v.user.Some? && v.cartCount > 0
  }

  /** A logged-in user whose stored cart has only positive quantities sees
      the badge once the frame mounts again after `addToCart` (which reloads
      the page). */
  lemma BadgeAfterAdd(b: Auth.Browser, p: Product)
    requires b.window && Typed(b.store) && UserKey in b.store
    requires Cart.QuantitiesPositive(Cart.ReadCart(b.store))
    ensures ShowsBadge(Mount(b.(store := Cart.AddToCart(b.store, p))))
  {
    var c := Cart.ReadCart(b.store);
    Cart.AddLineKeepsPositive(c, p);
    assert |Cart.AddLine(c, p)| >= 1;
  }

  /** `handleLogout()`: `clearAuth()` (whose `authChange` the frame's own
      listener receives), then no user, a zero count, and
      `lastNotificationCheck` removed once more. */
  function Logout(b: Auth.Browser, v: View): (r: (Auth.Browser, View))
    requires b.window && Typed(b.store)
    ensures forall k :: k in SessionKeys ==> k !in r.0.store
    ensures forall k :: k !in SessionKeys ==> (k in r.0.store <==> k in b.store)
    ensures forall k :: k in r.0.store ==> r.0.store[k] == b.store[k]
    ensures Auth.EmittedOnce(b, r.0)
    ensures Typed(r.0.store)
    ensures r.1.user.None? && r.1.cartCount == 0 && r.1.mounted == v.mounted
    ensures Auth.GetUser(r.0).None? && !Auth.IsAdmin(r.0)
    ensures !ShowsAdmin(r.1, r.0) && !ShowsBadge(r.1)
  {
    var cleared := Auth.ClearAuth(b);
    var heard := OnAuthChange(v, cleared.events[|b.events|]);
    var shown := heard.(user := None, cartCount := 0);
    (cleared.(store := cleared.store - {WatermarkKey}), shown)
  }

  /** Logging in as an admin, once the frame has mounted and heard the
      `authChange` of `setAuth`, shows the new user and the admin link; a
      non-admin login shows the user but no admin link. */
  lemma LoginShowsUser(b: Auth.Browser, v: View, t: string, u: User)
    requires b.window && Typed(b.store) && v.mounted
    ensures var b' := Auth.SetAuth(b, t, u);
      var v' := OnAuthChange(v, b'.events[|b.events|]);
      v'.user == Some(u) && (ShowsAdmin(v', b') <==> u.role == "admin")
  {
  }
}
