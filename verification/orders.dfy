/** The customer's order history page: the login guard, which orders may be
    cancelled, the status badge colours and the cancel flow. */
module OrderHistory {
  import opened Common
  import opened Storage
  import Auth

  /** What a page's mount effect does: leave for another path, or fetch its orders. */
  datatype MountAction = Redirect(path: string) | FetchOrders

  /** The statuses an order can have. */
  const KnownStatuses: seq<string> := ["pending", "processing", "shipped", "delivered", "cancelled"]

  /** The badge class of an unknown status. */
  const Grey: string := "bg-gray-100 text-gray-800"

  /** The mount effect: without a logged-in user go to `/login` and fetch nothing. */
  function MountOrders(b: Auth.Browser): (a: MountAction)
    requires Typed(b.store)
    ensures a.FetchOrders? <==> Auth.GetUser(b).Some?
    ensures a.Redirect? ==> a.path == "/login"
  {
    if Auth.GetUser(b).None? then Redirect("/login") else FetchOrders
  }

  /** `getStatusColor(status)`: each known status has its own class; any other
      status is grey. */
  function StatusColor(status: string): (cls: string)
    ensures cls == Grey <==> status !in KnownStatuses
  {
    match status
    case "pending" => "bg-yellow-100 text-yellow-800"
    case "processing" => "bg-blue-100 text-blue-800"
    case "shipped" => "bg-purple-100 text-purple-800"
    case "delivered" => "bg-green-100 text-green-800"
    case "cancelled" => "bg-red-100 text-red-800"
    case _ => Grey
  }

  /** No two known statuses share a badge class. */
  lemma StatusColorsDistinct(s: string, t: string)
    requires s in KnownStatuses && t in KnownStatuses && s != t
    ensures StatusColor(s) != StatusColor(t)
  {
  }

  /** `canCancelOrder(status)`: `['pending', 'processing'].includes(status)`. */
  function CanCancel(status: string): (r: bool)
    ensures r <==> status == "pending" || status == "processing"
  {
    status in ["pending", "processing"]
  }

  /** Only orders that have not shipped, been delivered or been cancelled can
      be cancelled; an unknown status cannot. */
  lemma CancellableAreOpen(status: string)
    ensures CanCancel(status) <==>
      status in KnownStatuses && status !in ["shipped", "delivered", "cancelled"]
  {
  }

  /** One run of `handleCancelOrder`: whether the cancel endpoint was called,
      the `cancellingOrder` flag while the call is pending and after it, and
      whether the list was fetched again or an alert shown. */
  datatype CancelRun = CancelRun(
    called: bool,
    flagDuring: Option<int>,
    flagAfter: Option<int>,
    refetched: bool,
    alerted: bool)

  /** `handleCancelOrder(orderId)` with the confirmation answer and the call's
      outcome passed in. Declining does nothing. Confirming marks the order
      as cancelling for the duration of the call and clears the mark
      afterwards whether the call succeeds (then the list is fetched again) or
      fails (then an alert is shown). */
  function HandleCancel(flag: Option<int>, orderId: int, confirmed: bool, succeeds: bool): (r: CancelRun)
    ensures !confirmed ==> !r.called && !r.refetched && !r.alerted && r.flagDuring == flag && r.flagAfter == flag
    ensures confirmed ==> r.called && r.flagDuring == Some(orderId) && r.flagAfter == None
    ensures confirmed ==> (r.refetched <==> succeeds) && (r.alerted <==> !succeeds)
  {
    if !confirmed then CancelRun(false, flag, flag, false, false)
    else CancelRun(true, Some(orderId), None, succeeds, !succeeds)
  }

  /** Every run ends settled: the endpoint is called exactly when the user
      confirms, a called run ends in exactly one of "fetched again" and
      "alerted", and it leaves no order marked as cancelling. */
  lemma CancelSettles(flag: Option<int>, orderId: int, confirmed: bool, succeeds: bool)
    ensures var r := HandleCancel(flag, orderId, confirmed, succeeds);
      && (r.called <==> confirmed)
      && (r.called <==> (r.refetched || r.alerted))
      && !(r.refetched && r.alerted)
      && (r.called ==> r.flagAfter.None?)
  {
  }
}

/** The admin order management page: the admin guard, the status filter and
    the status buttons. */
module AdminOrders {
  import opened Common
  import opened Entities
  import opened Storage
  import Auth
  import OrderHistory

  /** The mount effect: anyone but a logged-in admin goes to `/` and nothing is fetched. */
  function MountAdminOrders(b: Auth.Browser): (a: OrderHistory.MountAction)
    requires Typed(b.store)
    ensures a.FetchOrders? <==> Auth.IsAdmin(b)
    ensures a.Redirect? ==> a.path == "/"
  {
    if Auth.GetUser(b).None? || !Auth.IsAdmin(b) then OrderHistory.Redirect("/") else OrderHistory.FetchOrders
  }

  /** The filter test: `filter === 'all' || order.status === filter`. */
  function StatusIs(filter: string): Order -> bool
  {
    (o: Order) => filter == "all" || o.status == filter
  }

  /** `filteredOrders`. */
  function FilterOrders(orders: seq<Order>, filter: string): (shown: seq<Order>)
    ensures forall o :: o in shown <==> o in orders && (filter == "all" || o.status == filter)
  {
    FilterMembers(orders, StatusIs(filter));
    Filter(orders, StatusIs(filter))
  }

  /** `'all'` shows every order; any other filter shows exactly the orders with
      that status, each as often as it occurs, in their original order. */
  lemma FilterOrdersSpec(orders: seq<Order>, filter: string)
    ensures filter == "all" ==> FilterOrders(orders, filter) == orders
    ensures IsSubsequence(FilterOrders(orders, filter), orders)
    ensures filter != "all" ==>
      forall o :: o in FilterOrders(orders, filter) <==> o in orders && o.status == filter
    ensures filter != "all" ==>
      forall o: Order :: multiset(FilterOrders(orders, filter))[o] ==
        if o.status == filter then multiset(orders)[o] else 0
  {
    if filter == "all" {
      FilterKeepsAll(orders, StatusIs(filter));
    }
    FilterIsSubsequence(orders, StatusIs(filter));
    FilterMembers(orders, StatusIs(filter));
    forall o: Order
      ensures multiset(FilterOrders(orders, filter))[o] == if StatusIs(filter)(o) then multiset(orders)[o] else 0
    {
      FilterCount(orders, StatusIs(filter), o);
    }
  }

  /** The statuses an admin can set, in button order. */
  const SettableStatuses: seq<string> := ["pending", "processing", "shipped", "delivered"]

  /** One status button: the status it sets, and whether it is disabled. */
  datatype StatusButton = StatusButton(status: string, disabled: bool)

  /** The buttons under an order: one per settable status, the one equal to
      the order's current status disabled. */
  function StatusButtons(current: string): (bs: seq<StatusButton>)
    ensures |bs| == |SettableStatuses|
    ensures forall i :: 0 <= i < |bs| ==> bs[i].status == SettableStatuses[i]
    ensures forall i :: 0 <= i < |bs| ==> (bs[i].disabled <==> SettableStatuses[i] == current)
  {
    seq(|SettableStatuses|, i requires 0 <= i < |SettableStatuses| =>
      StatusButton(SettableStatuses[i], SettableStatuses[i] == current))
  }

  /** At most one button is disabled, and every button is enabled exactly when
      the current status is not one an admin can set (a cancelled order, say). */
  lemma StatusButtonsDisableAtMostOne(current: string)
    ensures forall i, j :: 0 <= i < j < |SettableStatuses| ==>
      !(StatusButtons(current)[i].disabled && StatusButtons(current)[j].disabled)
    ensures (forall i :: 0 <= i < |SettableStatuses| ==> !StatusButtons(current)[i].disabled) <==>
      current !in SettableStatuses
  {
    var bs := StatusButtons(current);
    if current in SettableStatuses {
      var k :| 0 <= k < |SettableStatuses| && SettableStatuses[k] == current;
      assert bs[k].disabled;
    }
  }

  /** The two page guards follow the session: the admin page's guard is the
      stricter one, logging in opens the history page to anyone and the admin
      page to an admin only, and logging out sends each page to its
      redirect. */
  lemma GuardsFollowSession(b: Auth.Browser, t: string, u: User)
    requires b.window && Typed(b.store)
    ensures MountAdminOrders(b).FetchOrders? ==> OrderHistory.MountOrders(b).FetchOrders?
    ensures OrderHistory.MountOrders(Auth.SetAuth(b, t, u)).FetchOrders?
    ensures MountAdminOrders(Auth.SetAuth(b, t, u)).FetchOrders? <==> u.role == "admin"
    ensures OrderHistory.MountOrders(Auth.ClearAuth(b)) == OrderHistory.Redirect("/login")
    ensures MountAdminOrders(Auth.ClearAuth(b)) == OrderHistory.Redirect("/")
  {
    Auth.SetAuthRoundTrip(b, t, u);
    Auth.ClearAuthLogsOut(b);
  }

  /** The admin page's own `getStatusColor(status)`. */
  function AdminStatusColor(status: string): string
  {
    match status
    case "pending" => "bg-yellow-100 text-yellow-800"
    case "processing" => "bg-blue-100 text-blue-800"
    case "shipped" => "bg-purple-100 text-purple-800"
    case "delivered" => "bg-green-100 text-green-800"
    case "cancelled" => "bg-red-100 text-red-800"
    case _ => "bg-gray-100 text-gray-800"
  }

  /** The admin page colours every status exactly as the order history page
      does, so it too gives each known status its own class and any other
      status grey. */
  lemma AdminStatusColors(s: string, t: string)
    ensures AdminStatusColor(s) == OrderHistory.StatusColor(s)
    ensures AdminStatusColor(s) == OrderHistory.Grey <==> s !in OrderHistory.KnownStatuses
    ensures s in OrderHistory.KnownStatuses && t in OrderHistory.KnownStatuses && s != t ==>
      AdminStatusColor(s) != AdminStatusColor(t)
  {
    assert AdminStatusColor(t) == OrderHistory.StatusColor(t);
    if s in OrderHistory.KnownStatuses && t in OrderHistory.KnownStatuses && s != t {
      OrderHistory.StatusColorsDistinct(s, t);
    }
  }
}
