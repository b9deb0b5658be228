/** The admin new-order bell: the watermark set up on mount, one poll of the
    admin orders endpoint, and "Clear all". The 30-second timer that repeats
    the poll is not part of this model; each poll is one step over explicit
    state, with the endpoint's answer and the clock passed in. */
module Notifications {
  import opened Common
  import opened Entities
  import opened Storage
  import opened Strings
  import Auth

  /** The feed keeps at most this many entries. */
  const Capacity: nat := 10

  /** One feed entry. `timestamp` is the order's creation time. */
  datatype Notification = Notification(orderId: int, message: string, amount: int, timestamp: int)

  /** The bell's state: the feed (newest first), whether the panel is open,
      `lastCheck` (None stands for `null` and for `NaN`), and `initialized`. */
  datatype Bell = Bell(feed: seq<Notification>, open: bool, lastCheck: Option<int>, initialized: bool)

  /** The state the component starts in. */
  const Unmounted: Bell := Bell([], false, None, false)

  /** The feed respects its capacity. */
  predicate Bounded(bell: Bell)
  {
    |bell.feed| <= Capacity
  }

  /** The text in front of the order number. */
  const MessageHead: string := "New order #"

  /** "New order #<id> from <user_name>": the message opens with the head and
      ends with the customer's name. */
  function OrderMessage(id: int, userName: string): (m: string)
    ensures |m| >= |MessageHead| && m[..|MessageHead|] == MessageHead
    ensures |m| >= |userName| && m[|m| - |userName|..] == userName
  {
    var m := MessageHead + (ShowInt(id) + (" from " + userName));
    assert m[|m| - |userName|..] == userName;
    m
  }

  /** The number after `#` reads back, through `parseInt`, as the order's id. */
  lemma MessageNamesOrder(id: int, userName: string)
    ensures ParseInt(OrderMessage(id, userName)[|MessageHead|..]) == Some(id)
  {
    var tail := " from " + userName;
    assert tail[0] == ' ';
    ParseShowIntThen(id, tail);
    var m := OrderMessage(id, userName);
    assert m[|MessageHead|..] == ShowInt(id) + tail;
  }

  /** The entry for a new order: the order's id, total and creation time,
      with the message that names it. */
  function EntryFor(o: Order): (n: Notification)
    ensures n.orderId == o.id && n.amount == o.totalAmount && n.timestamp == o.createdAt
    ensures |n.message| >= |MessageHead| && n.message[..|MessageHead|] == MessageHead
    ensures |n.message| >= |o.userName| && n.message[|n.message| - |o.userName|..] == o.userName
  {
    Notification(o.id, OrderMessage(o.id, o.userName), o.totalAmount, o.createdAt)
  }

  /** The entries for a list of orders, in the same order. */
  function EntriesFor(os: seq<Order>): (es: seq<Notification>)
    ensures |es| == |os|
    ensures forall i :: 0 <= i < |os| ==> es[i] == EntryFor(os[i])
  {
    seq(|os|, i requires 0 <= i < |os| => EntryFor(os[i]))
  }

  /** The orders created strictly after the watermark. */
  function After(watermark: int): Order -> bool
  {
    (o: Order) => o.createdAt > watermark
  }

  /** `response.data.filter(order => created_at > lastCheck)`. */
  function Select(orders: seq<Order>, watermark: int): (found: seq<Order>)
    ensures forall o :: o in found <==> o in orders && o.createdAt > watermark
  {
    FilterMembers(orders, After(watermark));
    Filter(orders, After(watermark))
  }

  /** The selection is exactly the orders created after the watermark, each
      as often as it was received and in the order received. */
  lemma SelectSpec(orders: seq<Order>, watermark: int)
    ensures IsSubsequence(Select(orders, watermark), orders)
    ensures forall o :: o in Select(orders, watermark) <==> o in orders && o.createdAt > watermark
    ensures forall o: Order :: o.createdAt > watermark ==> multiset(Select(orders, watermark))[o] == multiset(orders)[o]
  {
    FilterIsSubsequence(orders, After(watermark));
    FilterMembers(orders, After(watermark));
    forall o: Order | o.createdAt > watermark
      ensures multiset(Select(orders, watermark))[o] == multiset(orders)[o]
    {
      FilterCount(orders, After(watermark), o);
    }
  }

  /** No stored watermark, as `!storedLastCheck` sees it: absent or empty text. */
  predicate NoStoredWatermark(st: Store)
    requires Typed(st)
  {
    WatermarkKey !in st || st[WatermarkKey].text == ""
  }

  /** `localStorage.setItem('lastNotificationCheck', now.toString())`. */
  function StoreWatermark(b: Auth.Browser, now: nat): (b': Auth.Browser)
    requires Typed(b.store)
    ensures Typed(b'.store)
    ensures WatermarkKey in b'.store && b'.store[WatermarkKey] == Text(ShowNat(now))
    ensures !NoStoredWatermark(b'.store)
    ensures forall k :: k != WatermarkKey ==> (k in b'.store <==> k in b.store)
    ensures forall k :: k in b.store && k != WatermarkKey ==> b'.store[k] == b.store[k]
    ensures b'.window == b.window && b'.events == b.events
  {
    var text := ShowNat(now);
    KeysDistinct();
    var st := b.store[WatermarkKey := Text(text)];
    assert st[WatermarkKey].text == text && text != "";
    b.(store := st)
  }

  /** The stored watermark reads back, through `parseInt`, as the time that
      was written. */
  lemma WatermarkReadsBack(b: Auth.Browser, now: nat)
    requires Typed(b.store)
    ensures ParseInt(StoreWatermark(b, now).store[WatermarkKey].text) == Some(now)
  {
    ParseShowRoundTrip(now);
  }

  /** `initializeNotifications()` minus the timer: with no stored watermark
      the watermark becomes `now` and is stored, so that orders already
      placed are never announced; otherwise the stored text is adopted through
      `parseInt` and nothing is written. */
  function Initialize(bell: Bell, b: Auth.Browser, now: nat): (r: (Bell, Auth.Browser))
    requires Typed(b.store)
    ensures r.0 == bell.(lastCheck := r.0.lastCheck, initialized := true)
    ensures NoStoredWatermark(b.store) ==> r.0.lastCheck == Some(now) && r.1 == StoreWatermark(b, now)
    ensures !NoStoredWatermark(b.store) ==>
      r.0.lastCheck == ParseInt(b.store[WatermarkKey].text) && r.1 == b
  {
    if NoStoredWatermark(b.store) then
      (bell.(lastCheck := Some(now), initialized := true), StoreWatermark(b, now))
    else
      (bell.(lastCheck := ParseInt(b.store[WatermarkKey].text), initialized := true), b)
  }

  /** The mount effect: initialize only for a logged-in admin. */
  function Mount(bell: Bell, b: Auth.Browser, now: nat): (r: (Bell, Auth.Browser))
    requires Typed(b.store)
    ensures !Auth.IsAdmin(b) ==> r == (bell, b)
    ensures Auth.IsAdmin(b) ==> r == Initialize(bell, b, now)
  {
    var user := Auth.GetUser(b);
    if user.None? || !Auth.IsAdmin(b) then (bell, b) else Initialize(bell, b, now)
  }

  /** The guard of `checkForNewOrders`: a user, an admin, initialized, and a
      truthy `lastCheck` (neither null, `NaN` nor 0). */
  predicate Polling(bell: Bell, b: Auth.Browser)
    requires Typed(b.store)
    ensures Polling(bell, b) <==>
      Auth.IsAdmin(b) && bell.initialized && bell.lastCheck.Some? && bell.lastCheck.value != 0
  {
    Auth.GetUser(b).Some? && Auth.IsAdmin(b) && bell.initialized
    && bell.lastCheck.Some? && bell.lastCheck.value != 0
  }

  /** `[...entries, ...feed].slice(0, 10)`: the entries first, in their order,
      then the old feed, cut to the capacity. */
  function Prepend(entries: seq<Notification>, feed: seq<Notification>): (r: seq<Notification>)
    ensures |r| == if |entries| + |feed| < Capacity then |entries| + |feed| else Capacity
    ensures forall i :: 0 <= i < |entries| && i < |r| ==> r[i] == entries[i]
    ensures forall i :: |entries| <= i < |r| ==> r[i] == feed[i - |entries|]
  {
    var all := entries + feed;
    if |all| <= Capacity then all else all[..Capacity]
  }

  /** The bell after a poll that found `found`: their entries, in received
      order, ahead of the old feed, cut to the capacity; the watermark moves
      to `now`; the panel and the initialized flag stay. */
  function Announce(bell: Bell, found: seq<Order>, now: nat): (bell': Bell)
    ensures |bell'.feed| == (if |found| + |bell.feed| < Capacity then |found| + |bell.feed| else Capacity)
    ensures forall i :: 0 <= i < |found| && i < Capacity ==> bell'.feed[i] == EntryFor(found[i])
    ensures forall i :: |found| <= i < |bell'.feed| ==> bell'.feed[i] == bell.feed[i - |found|]
    ensures |found| <= |bell'.feed| ==> bell'.feed[|found|..] == bell.feed[..|bell'.feed| - |found|]
    ensures bell'.lastCheck == Some(now)
    ensures bell'.open == bell.open && bell'.initialized == bell.initialized
    ensures Bounded(bell')
  {
    var feed := Prepend(EntriesFor(found), bell.feed);
    assert |found| <= |feed| ==> feed[|found|..] == bell.feed[..|feed| - |found|];
    bell.(feed := feed, lastCheck := Some(now))
  }

  /** One poll: the bell and browser afterwards, and whether the orders
      endpoint was asked. */
  datatype PollResult = PollResult(bell: Bell, browser: Auth.Browser, fetched: bool)

  /** `checkForNewOrders()` with the endpoint's answer (None: the request
      failed) and the clock passed in. Outside an active admin session nothing
      is fetched and nothing changes. A failed request or an empty selection
      changes nothing. Otherwise the new entries, in received order, go in
      front of the feed, the feed is cut to 10, and the watermark moves to
      `now` and is stored. */
  function Poll(bell: Bell, b: Auth.Browser, response: Option<seq<Order>>, now: nat): (r: PollResult)
    requires Typed(b.store)
    ensures Typed(r.browser.store)
    ensures r.fetched <==> Polling(bell, b)
    ensures !Polling(bell, b) || response.None? ==> r.bell == bell && r.browser == b
    ensures Polling(bell, b) && response.Some? && Select(response.value, bell.lastCheck.value) == [] ==>
      r.bell == bell && r.browser == b
    ensures Polling(bell, b) && response.Some? && Select(response.value, bell.lastCheck.value) != [] ==>
      r.bell == Announce(bell, Select(response.value, bell.lastCheck.value), now)
      && r.browser == StoreWatermark(b, now)
    ensures Bounded(r.bell) || r.bell == bell
  {
    if !Polling(bell, b) then PollResult(bell, b, false)
    else if response.None? then PollResult(bell, b, true)
    else
      var found := Select(response.value, bell.lastCheck.value);
      if found == [] then PollResult(bell, b, true)
      else
        PollResult(Announce(bell, found, now), StoreWatermark(b, now), true)
  }

  /** "Clear all": the feed empties and the panel closes; the watermark stays,
      so cleared orders are not announced again. */
  function Clear(bell: Bell): (bell': Bell)
    ensures bell'.feed == [] && !bell'.open
    ensures bell'.lastCheck == bell.lastCheck && bell'.initialized == bell.initialized
    ensures Bounded(bell')
  {
    bell.(feed := [], open := false)
  }

  /** The feed never holds more than 10 entries: mounting, polling and
      clearing all keep that bound. */
  lemma FeedStaysBounded(bell: Bell, b: Auth.Browser, response: Option<seq<Order>>, now: nat)
    requires Bounded(bell) && Typed(b.store)
    ensures Bounded(Mount(bell, b, now).0)
    ensures Bounded(Poll(bell, b, response, now).bell)
    ensures Bounded(Clear(bell))
  {
  }

  /** The first ever initialization suppresses every order that already
      exists: when the watermark is set to `now`, a later poll whose orders
      were all created at or before `now` changes neither feed nor watermark. */
  lemma FirstInitSuppressesExisting(bell: Bell, b: Auth.Browser, now: nat, orders: seq<Order>, later: nat)
    requires Typed(b.store) && NoStoredWatermark(b.store)
    requires forall i :: 0 <= i < |orders| ==> orders[i].createdAt <= now
    ensures var (bell1, b1) := Initialize(bell, b, now);
      var r := Poll(bell1, b1, Some(orders), later);
      r.bell == bell1 && r.browser == b1
  {
    var (bell1, b1) := Initialize(bell, b, now);
    FilterDropsAll(orders, After(now));
  }

  /** A watermark stored by a successful poll is the one the next page load
      adopts: `parseInt` reads back exactly the `now` that was written. */
  lemma WatermarkSurvivesReload(bell: Bell, b: Auth.Browser, orders: seq<Order>, now: nat, reload: nat)
    requires Typed(b.store) && Polling(bell, b)
    requires Select(orders, bell.lastCheck.value) != []
    ensures var r := Poll(bell, b, Some(orders), now);
      Initialize(Unmounted, r.browser, reload).0.lastCheck == Some(now)
  {
    WatermarkReadsBack(b, now);
  }

  /** With a clock that does not run backwards, the watermark never decreases. */
  lemma WatermarkNeverDecreases(bell: Bell, b: Auth.Browser, response: Option<seq<Order>>, now: nat)
    requires Typed(b.store) && bell.lastCheck.Some? && bell.lastCheck.value <= now
    ensures var r := Poll(bell, b, response, now);
      r.bell.lastCheck.Some? && bell.lastCheck.value <= r.bell.lastCheck.value
  {
  }

  /** With watermark `t0` and orders created at `t0 − 5`, `t0 + 5` and
      `t0 + 10`, exactly the last two are announced, in that order, ahead of
      the old feed, and the watermark moves to `now`. */
  lemma PollScenario(bell: Bell, b: Auth.Browser, t0: int, o1: Order, o2: Order, o3: Order, now: nat)
    requires Typed(b.store) && Polling(bell, b) && bell.lastCheck == Some(t0) && Bounded(bell)
    requires o1.createdAt == t0 - 5 && o2.createdAt == t0 + 5 && o3.createdAt == t0 + 10
    ensures var r := Poll(bell, b, Some([o1, o2, o3]), now);
      |r.bell.feed| == (if |bell.feed| + 2 < Capacity then |bell.feed| + 2 else Capacity)
      && r.bell.feed[0] == EntryFor(o2)
      && r.bell.feed[1] == EntryFor(o3)
      && r.bell.feed[2..] == bell.feed[..|r.bell.feed| - 2]
      && r.bell.lastCheck == Some(now)
      && r.browser == StoreWatermark(b, now)
  {
    var os := [o1, o2, o3];
    assert os[1..] == [o2, o3] && [o2, o3][1..] == [o3] && [o3][1..] == [];
    assert Filter([o3], After(t0)) == [o3];
    assert Filter([o2, o3], After(t0)) == [o2, o3];
    assert Select(os, t0) == [o2, o3];
    var r := Poll(bell, b, Some(os), now);
    assert r.bell == Announce(bell, [o2, o3], now);
  }
}
