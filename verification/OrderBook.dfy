/** The order book: an order's lifecycle, and expiry clean-up. */
module OrderBook {
  import opened Results
  import opened Time
  import opened Order

  datatype OrderStatus = Pending | Active | Filled | Expired | Cancelled

  datatype OrderEntry = OrderEntry(order: DutchAuctionOrder, status: OrderStatus, discoveredAt: Instant,
                                   updatedAt: Instant)

  datatype BookError = OrderAlreadyExists | OrderNotFound | InvalidTransition(from: OrderStatus, to: OrderStatus)

  type Orders = map<OrderId, OrderEntry>

  function Moved(orders: Orders, id: OrderId, to: OrderStatus, now: Instant): Orders
    requires id in orders
  {
    orders[id := orders[id].(status := to, updatedAt := now)]
  }

  function TransitionError(orders: Orders, id: OrderId, allowedFrom: set<OrderStatus>,
                           to: OrderStatus): Option<BookError> {
    if id !in orders then Some(OrderNotFound)
    else if orders[id].status !in allowedFrom then Some(InvalidTransition(orders[id].status, to))
    else None
  }

  /** The book after a transition, unchanged if it is refused. */
  function AfterTransition(orders: Orders, id: OrderId, allowedFrom: set<OrderStatus>, to: OrderStatus,
                           now: Instant): Orders {
    if TransitionError(orders, id, allowedFrom, to) == None then Moved(orders, id, to, now) else orders
  }

  predicate Overdue(e: OrderEntry, now: Instant) {
    e.status.Active? && IsExpired(e.order, now)
  }

  function OverdueIds(orders: Orders, now: Instant): set<OrderId> {
    set id | id in orders && Overdue(orders[id], now)
  }

  function Cleaned(e: OrderEntry, now: Instant): OrderEntry {
    if Overdue(e, now) then e.(status := Expired, updatedAt := now) else e
  }

  function AfterCleanup(orders: Orders, now: Instant): Orders {
    map id | id in orders :: Cleaned(orders[id], now)
  }

  function IdsWith(orders: Orders, status: OrderStatus): set<OrderId> {
    set id | id in orders && orders[id].status == status
  }

  /** A clean-up that still has `toVisit` to go: every other entry is done. */
  ghost function PartlyCleaned(orders: Orders, toVisit: set<OrderId>, now: Instant): Orders {
    map id | id in orders :: if id in toVisit then orders[id] else Cleaned(orders[id], now)
  }

  lemma VisitOne(orders: Orders, toVisit: set<OrderId>, id: OrderId, now: Instant)
    requires id in toVisit && toVisit <= orders.Keys
    ensures var before := PartlyCleaned(orders, toVisit, now);
            && before[id] == orders[id]
            && PartlyCleaned(orders, toVisit - {id}, now) == before[id := Cleaned(orders[id], now)]
    ensures |OverdueIds(orders, now) - (toVisit - {id})|
            == |OverdueIds(orders, now) - toVisit| + if Overdue(orders[id], now) then 1 else 0
  {
    var overdue := OverdueIds(orders, now);
    if Overdue(orders[id], now) {
      assert overdue - (toVisit - {id}) == (overdue - toVisit) + {id};
    } else {
      assert overdue - (toVisit - {id}) == overdue - toVisit;
    }
  }

  lemma VisitBounds(orders: Orders, now: Instant)
    ensures PartlyCleaned(orders, orders.Keys, now) == orders
    ensures PartlyCleaned(orders, {}, now) == AfterCleanup(orders, now)
    ensures OverdueIds(orders, now) - orders.Keys == {}
    ensures OverdueIds(orders, now) - {} == OverdueIds(orders, now)
  {
  }

  class Book {
    var orders: Orders

    constructor ()
      ensures orders == map[]
    {
      orders := map[];
    }

    method Insert(order: DutchAuctionOrder, now: Instant) returns (error: Option<BookError>)
      modifies this
      ensures error == if order.id in old(orders) then Some(OrderAlreadyExists) else None
      ensures orders ==
                if error == None then old(orders)[order.id := OrderEntry(order, Pending, now, now)] else old(orders)
    {
      if order.id in orders {
        return Some(OrderAlreadyExists);
      }
      orders := orders[order.id := OrderEntry(order, Pending, now, now)];
      return None;
    }

    method Remove(id: OrderId) returns (removed: Option<OrderEntry>)
      modifies this
      ensures removed == if id in old(orders) then Some(old(orders)[id]) else None
      ensures orders == old(orders) - {id}
    {
      removed := if id in orders then Some(orders[id]) else None;
      orders := orders - {id};
    }

    method Transition(id: OrderId, expectedFrom: OrderStatus, to: OrderStatus, now: Instant)
      returns (error: Option<BookError>)
      modifies this
      ensures error == TransitionError(old(orders), id, {expectedFrom}, to)
      ensures orders == AfterTransition(old(orders), id, {expectedFrom}, to, now)
    {
      if id !in orders {
        return Some(OrderNotFound);
      }
      var entry := orders[id];
      if entry.status != expectedFrom {
        return Some(InvalidTransition(entry.status, to));
      }
      orders := orders[id := entry.(status := to, updatedAt := now)];
      return None;
    }

    method Activate(id: OrderId, now: Instant) returns (error: Option<BookError>)
      modifies this
      ensures error == TransitionError(old(orders), id, {Pending}, Active)
      ensures orders == AfterTransition(old(orders), id, {Pending}, Active, now)
    {
      error := Transition(id, Pending, Active, now);
    }

    method MarkFilled(id: OrderId, now: Instant) returns (error: Option<BookError>)
      modifies this
      ensures error == TransitionError(old(orders), id, {Active}, Filled)
      ensures orders == AfterTransition(old(orders), id, {Active}, Filled, now)
    {
      error := Transition(id, Active, Filled, now);
    }

    method MarkExpired(id: OrderId, now: Instant) returns (error: Option<BookError>)
      modifies this
      ensures error == TransitionError(old(orders), id, {Active}, Expired)
      ensures orders == AfterTransition(old(orders), id, {Active}, Expired, now)
    {
      error := Transition(id, Active, Expired, now);
    }

    method MarkCancelled(id: OrderId, now: Instant) returns (error: Option<BookError>)
      modifies this
      ensures error == TransitionError(old(orders), id, {Pending, Active}, Cancelled)
      ensures orders == AfterTransition(old(orders), id, {Pending, Active}, Cancelled, now)
    {
      if id !in orders {
        return Some(OrderNotFound);
      }
      var entry := orders[id];
      match entry.status {
        case Pending => orders := orders[id := entry.(status := Cancelled, updatedAt := now)];
        case Active => orders := orders[id := entry.(status := Cancelled, updatedAt := now)];
        case other => return Some(InvalidTransition(other, Cancelled));
      }
      return None;
    }

    /** Visits the entries in whatever order the map yields them. */
    method CleanupExpired(now: Instant) returns (expiredCount: nat)
      modifies this
      ensures orders == AfterCleanup(old(orders), now)
      ensures expiredCount == |OverdueIds(old(orders), now)|
    {
      expiredCount := 0;
      ghost var before := orders;
      var toVisit := orders.Keys;
      VisitBounds(before, now);
      while toVisit != {}
        invariant toVisit <= before.Keys
        invariant orders == PartlyCleaned(before, toVisit, now)
        invariant expiredCount == |OverdueIds(before, now) - toVisit|
        decreases |toVisit|
      {
        var id :| id in toVisit;
        VisitOne(before, toVisit, id, now);
        toVisit := toVisit - {id};
        if Overdue(orders[id], now) {
          orders := orders[id := orders[id].(status := Expired, updatedAt := now)];
          expiredCount := expiredCount + 1;
        }
      }
    }
  }

  // ----- runs

  datatype Call =
    | Insert(order: DutchAuctionOrder)
    | Remove(id: OrderId)
    | Activate(id: OrderId)
    | MarkFilled(id: OrderId)
    | MarkExpired(id: OrderId)
    | MarkCancelled(id: OrderId)
    | CleanupExpired

  /** One call at clock reading `now`. */
  function Perform(orders: Orders, call: Call, now: Instant): Orders {
    match call
    case Insert(order) =>
      if order.id in orders then orders
      else orders[order.id := OrderEntry(order, Pending, now, now)]
    case Remove(id) => orders - {id}
    case Activate(id) => AfterTransition(orders, id, {Pending}, Active, now)
    case MarkFilled(id) => AfterTransition(orders, id, {Active}, Filled, now)
    case MarkExpired(id) => AfterTransition(orders, id, {Active}, Expired, now)
    case MarkCancelled(id) => AfterTransition(orders, id, {Pending, Active}, Cancelled, now)
    case CleanupExpired => AfterCleanup(orders, now)
  }

  datatype TimedCall = TimedCall(call: Call, now: Instant)

  function PerformAll(orders: Orders, calls: seq<TimedCall>): Orders {
    if calls == [] then orders
    else
      var last := calls[|calls| - 1];
      Perform(PerformAll(orders, calls[..|calls| - 1]), last.call, last.now)
  }

  /** The documented lifecycle. */
  predicate Leads(from: OrderStatus, to: OrderStatus) {
    match from
    case Pending => to.Active? || to.Cancelled?
    case Active => to.Filled? || to.Expired? || to.Cancelled?
    case _ => false
  }

  /** `from` leads to `to` in any number of lifecycle steps. */
  predicate Reaches(from: OrderStatus, to: OrderStatus) {
    from == to || Leads(from, to) || (from.Pending? && Leads(Active, to))
  }

  lemma PerformFollowsLifecycle(orders: Orders, call: Call, now: Instant, id: OrderId)
    requires id in orders && call != Remove(id)
    ensures var after := Perform(orders, call, now);
            && id in after && after[id].order == orders[id].order && after[id].discoveredAt == orders[id].discoveredAt
            && (after[id].status == orders[id].status || Leads(orders[id].status, after[id].status))
            && (after[id].status == orders[id].status ==> after[id] == orders[id])
  {
  }

  /** Until it is removed, an order stays in the book, keeps its data, and follows the lifecycle;
      once filled, expired or cancelled its entry never changes again. */
  lemma {:induction false} RunFollowsLifecycle(orders: Orders, calls: seq<TimedCall>, id: OrderId)
    requires id in orders && forall i :: 0 <= i < |calls| ==> calls[i].call != Remove(id)
    ensures var after := PerformAll(orders, calls);
            && id in after && after[id].order == orders[id].order
            && Reaches(orders[id].status, after[id].status)
            && (orders[id].status.Filled? || orders[id].status.Expired? || orders[id].status.Cancelled? ==>
                  after[id] == orders[id])
  {
    if calls != [] {
      var n := |calls| - 1;
      RunFollowsLifecycle(orders, calls[..n], id);
      PerformFollowsLifecycle(PerformAll(orders, calls[..n]), calls[n].call, calls[n].now, id);
    }
  }

  /** An order the book first sees pending can only expire through an active period: without an
      activation no clean-up or expiry touches it, however late. */
  lemma {:induction false} PendingNeverExpires(orders: Orders, calls: seq<TimedCall>, id: OrderId)
    requires id in orders && orders[id].status.Pending?
    requires forall i :: 0 <= i < |calls| ==> calls[i].call != Remove(id) && calls[i].call != Activate(id)
    ensures var after := PerformAll(orders, calls);
            id in after && (after[id].status.Pending? || after[id].status.Cancelled?)
  {
    if calls != [] {
      var n := |calls| - 1;
      PendingNeverExpires(orders, calls[..n], id);
      PerformFollowsLifecycle(PerformAll(orders, calls[..n]), calls[n].call, calls[n].now, id);
    }
  }

  lemma FiveSizes(p: set<OrderId>, a: set<OrderId>, f: set<OrderId>, e: set<OrderId>, c: set<OrderId>)
    requires p !! a !! f !! e !! c
    ensures |p + a + f + e + c| == |p| + |a| + |f| + |e| + |c|
  {
    assert |p + a + f + e + c| == |p + a + f + e| + |c|;
    assert |p + a + f + e| == |p + a + f| + |e|;
    assert |p + a + f| == |p + a| + |f|;
  }

  lemma StatusesCover(orders: Orders)
    ensures IdsWith(orders, Pending) + IdsWith(orders, Active) + IdsWith(orders, Filled)
            + IdsWith(orders, Expired) + IdsWith(orders, Cancelled) == orders.Keys
  {
  }

  /** Every order is in exactly one status class: no two classes share an order, and their
      sizes add up to the book. */
  lemma StatusesPartition(orders: Orders)
    ensures |IdsWith(orders, Pending)| + |IdsWith(orders, Active)| + |IdsWith(orders, Filled)|
            + |IdsWith(orders, Expired)| + |IdsWith(orders, Cancelled)| == |orders|
    ensures forall s, t :: s != t ==> IdsWith(orders, s) !! IdsWith(orders, t)
  {
    StatusesCover(orders);
    FiveSizes(IdsWith(orders, Pending), IdsWith(orders, Active), IdsWith(orders, Filled),
              IdsWith(orders, Expired), IdsWith(orders, Cancelled));
    assert |orders| == |orders.Keys|;
  }

  /** Cleaning up early and again later leaves every status as the later clean-up alone would,
      and the two counts add up to its count. */
  lemma CleanupsCompose(orders: Orders, t1: Instant, t2: Instant)
    requires t1 <= t2
    ensures var once, twice := AfterCleanup(orders, t2), AfterCleanup(AfterCleanup(orders, t1), t2);
            && once.Keys == twice.Keys && (forall id :: id in once ==> once[id].status == twice[id].status)
    ensures |OverdueIds(orders, t1)| + |OverdueIds(AfterCleanup(orders, t1), t2)| == |OverdueIds(orders, t2)|
  {
    var first, second := OverdueIds(orders, t1), OverdueIds(AfterCleanup(orders, t1), t2);
    assert first !! second && first + second == OverdueIds(orders, t2);
  }

  /** After a clean-up no active order is past its deadline, and exactly the overdue ones moved. */
  lemma CleanupExpiresExactlyOverdue(orders: Orders, now: Instant)
    ensures var after := AfterCleanup(orders, now);
            && OverdueIds(after, now) == {}
            && IdsWith(after, Expired) == IdsWith(orders, Expired) + OverdueIds(orders, now)
            && IdsWith(after, Active) == IdsWith(orders, Active) - OverdueIds(orders, now)
            && IdsWith(after, Pending) == IdsWith(orders, Pending)
  {
  }

  /** A clean-up expires exactly the active orders whose deadline has passed, and leaves every other
      entry as it was. */
  lemma CleanupGoesByDeadline(orders: Orders, now: Instant, id: OrderId)
    requires id in orders
    ensures var before, after := orders[id], AfterCleanup(orders, now);
            && after.Keys == orders.Keys
            && after[id] == if before.status == Active && now > before.order.deadline
                            then before.(status := Expired, updatedAt := now) else before
    ensures id in OverdueIds(orders, now) <==> orders[id].status == Active && now > orders[id].order.deadline
  {
  }

  /** The status that a call asks an order to move to, and those it may come from. */
  function Target(call: Call): OrderStatus {
    match call
    case Activate(_) => Active
    case MarkFilled(_) => Filled
    case MarkExpired(_) => Expired
    case _ => Cancelled
  }

  predicate MayMove(call: Call, from: OrderStatus) {
    match call
    case Activate(_) => from == Pending
    case MarkFilled(_) => from == Active
    case MarkExpired(_) => from == Active
    case _ => from == Pending || from == Active
  }

  /** Activating, filling, expiring or cancelling an order gives it that status exactly when it is in the
      book in a status that leads there, and otherwise changes nothing; no other order moves. */
  lemma TransitionMoves(orders: Orders, call: Call, now: Instant, id: OrderId)
    requires call.Activate? || call.MarkFilled? || call.MarkExpired? || call.MarkCancelled?
    ensures var after := Perform(orders, call, now);
            && (call.id in orders && MayMove(call, orders[call.id].status) ==>
                  call.id in after && after[call.id] == orders[call.id].(status := Target(call), updatedAt := now))
            && (!(call.id in orders && MayMove(call, orders[call.id].status)) ==> after == orders)
            && (id != call.id ==> (id in after <==> id in orders) && (id in orders ==> after[id] == orders[id]))
  {
  }
}
