/** The session accessor: reading and writing the token and user in
    `localStorage`, the admin check, and the `authChange` broadcast. */
module Auth {
  import opened Common
  import opened Entities
  import opened Storage

  /** The execution context. `window` is false during server rendering, where
      storage is unreachable. `events` lists the `authChange` events dispatched
      so far, each recorded with the storage contents its listeners observe. */
  datatype Browser = Browser(window: bool, store: Store, events: seq<Store>)

  /** Exactly one `authChange` event was dispatched going from `b` to `b'`,
      and its listeners saw the storage as `b'` leaves it (after every write). */
  predicate EmittedOnce(b: Browser, b': Browser)
  {
    && |b'.events| == |b.events| + 1
    && b'.events[..|b.events|] == b.events
    && b'.events[|b.events|] == b'.store
  }

  /** `JSON.parse(localStorage.getItem('user'))`, or null when the key is absent. */
  function StoredUser(st: Store): (u: Option<User>)
    requires Typed(st)
    ensures u.Some? <==> UserKey in st
    ensures u.Some? ==> st[UserKey] == UserJson(u.value)
  {
    if UserKey in st then Some(st[UserKey].user) else None
  }

  /** `getToken()`. */
  function GetToken(b: Browser): (t: Option<string>)
    requires Typed(b.store)
    ensures t.Some? <==> b.window && TokenKey in b.store
    ensures t.Some? ==> b.store[TokenKey] == Text(t.value)
  {
    if b.window && TokenKey in b.store then Some(b.store[TokenKey].text) else None
  }

  /** `getUser()`. */
  function GetUser(b: Browser): (u: Option<User>)
    requires Typed(b.store)
    ensures u.Some? <==> b.window && UserKey in b.store
    ensures u.Some? ==> b.store[UserKey] == UserJson(u.value)
  {
    if b.window then StoredUser(b.store) else None
  }

  /** `isAdmin()`: truthy exactly when a user is stored whose role is `'admin'`. */
  function IsAdmin(b: Browser): (r: bool)
    requires Typed(b.store)
    ensures r <==> b.window && UserKey in b.store && b.store[UserKey].user.role == "admin"
  {
    var u := GetUser(b);
    u.Some? && u.value.role == "admin"
  }

  /** `setAuth(token, user)`: writes `token` and `user`, then dispatches
      `authChange`; without a window it does nothing. */
  function SetAuth(b: Browser, token: string, user: User): (b': Browser)
    ensures b'.window == b.window
    ensures !b.window ==> b' == b
    ensures b.window ==> b'.store.Keys == b.store.Keys + {TokenKey, UserKey}
    ensures b.window ==> forall k :: k in b.store && k != TokenKey && k != UserKey ==> b'.store[k] == b.store[k]
    ensures b.window ==> EmittedOnce(b, b')
    ensures Typed(b.store) ==> Typed(b'.store)
  {
    KeysDistinct();
    if b.window then
      var st := b.store[TokenKey := Text(token)][UserKey := UserJson(user)];
      Browser(true, st, b.events + [st])
    else b
  }

  /** `clearAuth()`: removes `token`, `user`, `cart` and
      `lastNotificationCheck`, then dispatches `authChange`; without a window it
      does nothing. */
  function ClearAuth(b: Browser): (b': Browser)
    ensures b'.window == b.window
    ensures !b.window ==> b' == b
    ensures b.window ==> forall k :: k in b'.store <==> k in b.store && k !in SessionKeys
    ensures b.window ==> forall k :: k in b'.store ==> b'.store[k] == b.store[k]
    ensures b.window ==> EmittedOnce(b, b')
    ensures Typed(b.store) ==> Typed(b'.store)
  {
    KeysDistinct();
    if b.window then
      var st := b.store - SessionKeys;
      Browser(true, st, b.events + [st])
    else b
  }

  /** After `setAuth(t, u)`, `getToken()` gives back `t`, `getUser()` gives back
      `u`, and `isAdmin()` is decided by `u`'s role alone. */
  lemma SetAuthRoundTrip(b: Browser, t: string, u: User)
    requires b.window && Typed(b.store)
    ensures GetToken(SetAuth(b, t, u)) == Some(t)
    ensures GetUser(SetAuth(b, t, u)) == Some(u)
    ensures IsAdmin(SetAuth(b, t, u)) <==> u.role == "admin"
  {
  }

  /** `setAuth` leaves the cart and the notification watermark alone. */
  lemma SetAuthKeepsCartAndWatermark(b: Browser, t: string, u: User)
    ensures forall k :: k in {CartKey, WatermarkKey} ==>
      (k in SetAuth(b, t, u).store <==> k in b.store)
    ensures CartKey in b.store ==> SetAuth(b, t, u).store[CartKey] == b.store[CartKey]
    ensures WatermarkKey in b.store ==> SetAuth(b, t, u).store[WatermarkKey] == b.store[WatermarkKey]
  {
  }

  /** After `clearAuth()` nobody is logged in: no token, no user, no admin. */
  lemma ClearAuthLogsOut(b: Browser)
    requires Typed(b.store)
    ensures GetToken(ClearAuth(b)).None?
    ensures GetUser(ClearAuth(b)).None?
    ensures !IsAdmin(ClearAuth(b))
  {
  }

  /** Without a window every read is null and every write is inert. */
  lemma ServerSideIsInert(b: Browser, t: string, u: User)
    requires !b.window && Typed(b.store)
    ensures GetToken(b).None? && GetUser(b).None? && !IsAdmin(b)
    ensures SetAuth(b, t, u) == b && ClearAuth(b) == b
  {
  }
}
