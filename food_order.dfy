/** The client-side order state of the meal-order calendar component: the
    `orders` map shown on the calendar, the `orderData` list of records, the
    selected date and the two dialogs, with the three event handlers. */
module FoodOrder {
  import opened Wrappers
  import opened LocalTime
  import opened Eligibility

  /** A catalogue meal as the handlers see it. */
  datatype Meal = Meal(id: int, name: string)

  /** `format(date, "yyyy-MM-dd")` names a calendar day and names each day
      differently, so the key is represented by the day it names. */
  type DateKey = Day

  function DateKeyOf(date: Instant): DateKey
  {
    DayOf(date)
  }

  /** One entry of `orderData`, and the row handed to `saveOrder`. */
  datatype OrderRecord = OrderRecord(userId: string, date: DateKey, mealId: int)

  /** A call the handlers make to the order store; its effect on the store
      is not visible to the component. */
  datatype StoreCall =
    | SaveOrder(order: OrderRecord)
    | DeleteOrderByDateAndId(userId: string, date: DateKey)

  /** `order.date !== dateString || order.userId !== userId`. */
  predicate Kept(r: OrderRecord, date: DateKey, userId: string)
  {
    r.date != date || r.userId != userId
  }

  /** `orderData.filter(...)` in the cancel handler: the records that are
      not both for `date` and by `userId`, in their original order. */
  function DropOrder(records: seq<OrderRecord>, date: DateKey, userId: string): (r: seq<OrderRecord>)
    ensures |r| <= |records|
    ensures forall x :: x in r <==> x in records && Kept(x, date, userId)
    decreases |records|
  {
    if records == [] then []
    else
      var last := records[|records| - 1];
      DropOrder(records[..|records| - 1], date, userId) + (if Kept(last, date, userId) then [last] else [])
  }

  /** Filtering distributes over concatenation, so the records kept keep
      their relative order. */
  lemma {:induction false} DropOrderAppend(a: seq<OrderRecord>, b: seq<OrderRecord>, date: DateKey, userId: string)
    ensures DropOrder(a + b, date, userId) == DropOrder(a, date, userId) + DropOrder(b, date, userId)
    decreases |b|
  {
    if b == [] {
      assert a + b == a;
    } else {
      var b' := b[..|b| - 1];
      assert (a + b)[..|a + b| - 1] == a + b';
      DropOrderAppend(a, b', date, userId);
    }
  }

  /** When no record matches, the filter keeps the list as it is. */
  lemma {:induction false} DropOrderNoMatch(records: seq<OrderRecord>, date: DateKey, userId: string)
    requires forall i :: 0 <= i < |records| ==> Kept(records[i], date, userId)
    ensures DropOrder(records, date, userId) == records
    decreases |records|
  {
    if records != [] {
      var init, last := records[..|records| - 1], records[|records| - 1];
      assert Kept(last, date, userId);
      DropOrderNoMatch(init, date, userId);
      assert DropOrder(records, date, userId) == DropOrder(init, date, userId) + [last];
      assert init + [last] == records;
    }
  }

  /** Filtering twice is filtering once: a second cancellation of the same
      date leaves `orderData` as the first left it (it still issues another
      delete call). */
  lemma {:induction false} DropOrderIdempotent(records: seq<OrderRecord>, date: DateKey, userId: string)
    ensures DropOrder(DropOrder(records, date, userId), date, userId) == DropOrder(records, date, userId)
  {
    var once := DropOrder(records, date, userId);
    forall i | 0 <= i < |once| ensures Kept(once[i], date, userId) {
      assert once[i] in once;
    }
    DropOrderNoMatch(once, date, userId);
  }

  /** The meal of the latest record for `date`, if any record is for it. */
  function LastMealId(records: seq<OrderRecord>, date: DateKey): Option<int>
    decreases |records|
  {
    if records == [] then None
    else if records[|records| - 1].date == date then Some(records[|records| - 1].mealId)
    else LastMealId(records[..|records| - 1], date)
  }

  lemma {:induction false} LastMealIdSnoc(records: seq<OrderRecord>, r: OrderRecord, k: DateKey)
    ensures LastMealId(records + [r], k) == if r.date == k then Some(r.mealId) else LastMealId(records, k)
  {
  }

  /** Dropping `userId`'s records for `date` from a list of that user's
      records leaves no record for `date` and no other date's latest meal
      changed. */
  lemma {:induction false} LastMealAfterDrop(records: seq<OrderRecord>, date: DateKey, userId: string, k: DateKey)
    requires forall i :: 0 <= i < |records| ==> records[i].userId == userId
    ensures LastMealId(DropOrder(records, date, userId), k) == if k == date then None else LastMealId(records, k)
    decreases |records|
  {
    if records != [] {
      var init, last := records[..|records| - 1], records[|records| - 1];
      assert records == init + [last];
      LastMealAfterDrop(init, date, userId, k);
      LastMealIdSnoc(init, last, k);
      assert DropOrder(records, date, userId)
          == DropOrder(init, date, userId) + (if Kept(last, date, userId) then [last] else []);
      if Kept(last, date, userId) {
        LastMealIdSnoc(DropOrder(init, date, userId), last, k);
      } else {
        assert DropOrder(init, date, userId) + [] == DropOrder(init, date, userId);
      }
    }
  }

  /** What the store would hold after these calls, if it started empty, no
      one else wrote to it and every call succeeded: `saveOrder` inserts a
      row and `deleteOrderByDateAndId` deletes the rows with that user and
      date. */
  function Replay(calls: seq<StoreCall>): seq<OrderRecord>
    decreases |calls|
  {
    if calls == [] then []
    else
      var rows := Replay(calls[..|calls| - 1]);
      match calls[|calls| - 1]
      case SaveOrder(r) => rows + [r]
      case DeleteOrderByDateAndId(u, d) => DropOrder(rows, d, u)
  }

  lemma {:induction false} ReplaySnoc(calls: seq<StoreCall>, c: StoreCall)
    ensures Replay(calls + [c]) == match c
      case SaveOrder(r) => Replay(calls) + [r]
      case DeleteOrderByDateAndId(u, d) => DropOrder(Replay(calls), d, u)
  {
  }

  /** The component invariant on plain values: every record is the user's
      own; a date is a key of `orders` exactly when some record is for it,
      and then it maps to the meal of the latest such record; the records
      are what the calls issued so far would leave in an otherwise untouched
      store. */
  ghost predicate Consistent(userId: string, orders: map<DateKey, Meal>, orderData: seq<OrderRecord>, calls: seq<StoreCall>)
  {
    && (forall i :: 0 <= i < |orderData| ==> orderData[i].userId == userId)
    && (forall k :: LastMealId(orderData, k) == if k in orders then Some(orders[k].id) else None)
    && orderData == Replay(calls)
  }

  /** Ordering `meal` for `key` keeps the invariant. */
  lemma {:induction false} OrderKeepsConsistent(userId: string, orders: map<DateKey, Meal>, orderData: seq<OrderRecord>,
                                                calls: seq<StoreCall>, key: DateKey, meal: Meal)
    requires Consistent(userId, orders, orderData, calls)
    ensures var rec := OrderRecord(userId, key, meal.id);
      Consistent(userId, orders[key := meal], orderData + [rec], calls + [SaveOrder(rec)])
  {
  }

  /** Cancelling `key` keeps the invariant. */
  lemma {:induction false} CancelKeepsConsistent(userId: string, orders: map<DateKey, Meal>, orderData: seq<OrderRecord>,
                                                 calls: seq<StoreCall>, key: DateKey)
    requires Consistent(userId, orders, orderData, calls)
    ensures Consistent(userId, orders - {key}, DropOrder(orderData, key, userId),
                       calls + [DeleteOrderByDateAndId(userId, key)])
  {
    var kept := DropOrder(orderData, key, userId);
    forall k ensures LastMealId(kept, k) == if k in orders - {key} then Some((orders - {key})[k].id) else None
    {
      LastMealAfterDrop(orderData, key, userId, k);
    }
    forall i | 0 <= i < |kept| ensures kept[i].userId == userId {
      assert kept[i] in orderData;
    }
    ReplaySnoc(calls, DeleteOrderByDateAndId(userId, key));
  }

  /** The state of one mounted `FoodOrder` component for the signed-in user.
      Each handler runs against the state of the latest render. */
  class FoodOrderState {
    const userId: string
    var orders: map<DateKey, Meal>
    var selectedDate: Option<Instant>
    var isMealDialogOpen: bool
    var isCancelDialogOpen: bool
    var orderData: seq<OrderRecord>
    /** The store calls issued so far, in order. */
    var storeCalls: seq<StoreCall>

    ghost predicate Valid()
      reads this
    {
      Consistent(userId, orders, orderData, storeCalls)
    }

    /** Mounting the component: nothing ordered, nothing selected, both
        dialogs closed; `orders` is not loaded from the store. */
    constructor (user: string)
      ensures Valid()
      ensures userId == user
      ensures orders == map[] && orderData == [] && storeCalls == []
      ensures selectedDate == None && !isMealDialogOpen && !isCancelDialogOpen
    {
      userId := user;
      orders := map[];
      selectedDate := None;
      isMealDialogOpen := false;
      isCancelDialogOpen := false;
      orderData := [];
      storeCalls := [];
    }

    /** `handleDateClick`: a date that is not orderable changes nothing; an
        orderable one is selected and opens the cancel dialog when it is
        already ordered, the meal dialog otherwise. */
    method HandleDateClick(date: Instant, now: Instant)
      modifies this
      ensures !IsOrderable(date, now) ==> unchanged(this)
      ensures IsOrderable(date, now) ==>
        && selectedDate == Some(date)
        && (if DateKeyOf(date) in orders
            then isCancelDialogOpen && isMealDialogOpen == old(isMealDialogOpen)
            else isMealDialogOpen && isCancelDialogOpen == old(isCancelDialogOpen))
      ensures orders == old(orders) && orderData == old(orderData) && storeCalls == old(storeCalls)
    {
      if IsOrderable(date, now) {
        var dateString := DateKeyOf(date);
        if dateString in orders {
          selectedDate := Some(date);
          isCancelDialogOpen := true;
        } else {
          selectedDate := Some(date);
          isMealDialogOpen := true;
        }
      }
    }

    /** `handleOrderClick`: with a date selected, maps its key to `meal`,
        appends one record and issues `saveOrder` with it. The meal dialog
        is closed only if no date was selected or the awaited `saveOrder`
        resolves (`saveResolves`); if it rejects, the closing line after the
        `await` never runs. */
    method HandleOrderClick(meal: Meal, saveResolves: bool)
      requires Valid()
      modifies this
      ensures Valid()
      ensures match old(selectedDate)
        case None =>
          && orders == old(orders) && orderData == old(orderData) && storeCalls == old(storeCalls)
          && !isMealDialogOpen
        case Some(d) =>
          var rec := OrderRecord(userId, DateKeyOf(d), meal.id);
          && orders == old(orders)[DateKeyOf(d) := meal]
          && orderData == old(orderData) + [rec]
          && storeCalls == old(storeCalls) + [SaveOrder(rec)]
          && isMealDialogOpen == (old(isMealDialogOpen) && !saveResolves)
      ensures selectedDate == old(selectedDate) && isCancelDialogOpen == old(isCancelDialogOpen)
    {
      if selectedDate.Some? {
        var dateString := DateKeyOf(selectedDate.value);
        var newOrder := OrderRecord(userId, dateString, meal.id);
        OrderKeepsConsistent(userId, orders, orderData, storeCalls, dateString, meal);
        orders := orders[dateString := meal];
        orderData := orderData + [newOrder];
        storeCalls := storeCalls + [SaveOrder(newOrder)];
        if !saveResolves {
          return;
        }
      }
      isMealDialogOpen := false;
    }

    /** `handleCancelOrder`: with a date selected, removes its key from
        `orders`, drops the user's records for it from `orderData` and issues
        `deleteOrderByDateAndId`. The cancel dialog is closed only if no date
        was selected or the awaited delete resolves (`deleteResolves`). */
    method HandleCancelOrder(deleteResolves: bool)
      requires Valid()
      modifies this
      ensures Valid()
      ensures match old(selectedDate)
        case None =>
          && orders == old(orders) && orderData == old(orderData) && storeCalls == old(storeCalls)
          && !isCancelDialogOpen
        case Some(d) =>
          && orders == old(orders) - {DateKeyOf(d)}
          && orderData == DropOrder(old(orderData), DateKeyOf(d), userId)
          && storeCalls == old(storeCalls) + [DeleteOrderByDateAndId(userId, DateKeyOf(d))]
          && isCancelDialogOpen == (old(isCancelDialogOpen) && !deleteResolves)
      ensures selectedDate == old(selectedDate) && isMealDialogOpen == old(isMealDialogOpen)
    {
      if selectedDate.Some? {
        var dateString := DateKeyOf(selectedDate.value);
        var newOrders := orders - {dateString};
        CancelKeepsConsistent(userId, orders, orderData, storeCalls, dateString);
        orders := newOrders;
        orderData := DropOrder(orderData, dateString, userId);
        storeCalls := storeCalls + [DeleteOrderByDateAndId(userId, dateString)];
        if !deleteResolves {
          return;
        }
      }
      isCancelDialogOpen := false;
    }

    /** A click on the cancel dialog's "Cancel Order" action. The action is a
        closing button of the alert dialog: it runs `handleCancelOrder` and
        then reports the dialog closed, so the dialog closes whether or not
        the awaited delete resolves. */
    method ConfirmCancel(deleteResolves: bool)
      requires Valid()
      modifies this
      ensures Valid()
      ensures !isCancelDialogOpen
      ensures match old(selectedDate)
        case None =>
          orders == old(orders) && orderData == old(orderData) && storeCalls == old(storeCalls)
        case Some(d) =>
          && orders == old(orders) - {DateKeyOf(d)}
          && orderData == DropOrder(old(orderData), DateKeyOf(d), userId)
          && storeCalls == old(storeCalls) + [DeleteOrderByDateAndId(userId, DateKeyOf(d))]
      ensures selectedDate == old(selectedDate) && isMealDialogOpen == old(isMealDialogOpen)
    {
      HandleCancelOrder(deleteResolves);
      isCancelDialogOpen := false;
    }

    /** The cancel dialog's "Keep Order" button, or dismissing the alert
        dialog: only the dialog closes. */
    method KeepOrder()
      modifies this
      ensures !isCancelDialogOpen
      ensures orders == old(orders) && orderData == old(orderData) && storeCalls == old(storeCalls)
      ensures selectedDate == old(selectedDate) && isMealDialogOpen == old(isMealDialogOpen)
    {
      isCancelDialogOpen := false;
    }

    /** Dismissing the meal dialog without choosing a meal: only the dialog
        closes. */
    method DismissMealDialog()
      modifies this
      ensures !isMealDialogOpen
      ensures orders == old(orders) && orderData == old(orderData) && storeCalls == old(storeCalls)
      ensures selectedDate == old(selectedDate) && isCancelDialogOpen == old(isCancelDialogOpen)
    {
      isMealDialogOpen := false;
    }
  }

  /** Ordering a meal for an orderable date and then cancelling it, with both
      store calls resolving, leaves the component as it was mounted, apart
      from the selection and the two store calls. */
  method OrderThenCancel(user: string, date: Instant, now: Instant, meal: Meal)
    returns (orders: map<DateKey, Meal>, orderData: seq<OrderRecord>, calls: seq<StoreCall>)
    requires IsOrderable(date, now)
    ensures orders == map[] && orderData == []
    ensures calls == [SaveOrder(OrderRecord(user, DateKeyOf(date), meal.id)),
                      DeleteOrderByDateAndId(user, DateKeyOf(date))]
  {
    var key, rec := DateKeyOf(date), OrderRecord(user, DateKeyOf(date), meal.id);
    var c := new FoodOrderState(user);
    c.HandleDateClick(date, now);
    assert c.isMealDialogOpen && c.selectedDate == Some(date);
    c.HandleOrderClick(meal, true);
    assert c.orders == map[key := meal] && c.orderData == [rec] && !c.isMealDialogOpen;
    c.HandleDateClick(date, now);
    assert c.isCancelDialogOpen && c.selectedDate == Some(date);
    c.ConfirmCancel(true);
    assert DropOrder([rec], key, user) == [];
    assert c.orders == map[] && c.orderData == [];
    orders, orderData, calls := c.orders, c.orderData, c.storeCalls;
  }

  /** While `saveOrder` is pending the meal dialog is still open, so "Order
      this meal" can be clicked again: the second click (here the one whose
      call later resolves) appends a second record for the same date and
      issues a second `saveOrder`. */
  method DoubleSubmitWhilePending(user: string, date: Instant, now: Instant, meal: Meal)
    returns (orders: map<DateKey, Meal>, orderData: seq<OrderRecord>, calls: seq<StoreCall>)
    requires IsOrderable(date, now)
    ensures var rec := OrderRecord(user, DateKeyOf(date), meal.id);
      && orders == map[DateKeyOf(date) := meal]
      && orderData == [rec, rec]
      && calls == [SaveOrder(rec), SaveOrder(rec)]
  {
    var c := new FoodOrderState(user);
    c.HandleDateClick(date, now);
    // the first call has not settled yet: its closing line has not run
    c.HandleOrderClick(meal, false);
    assert c.isMealDialogOpen;
    c.HandleOrderClick(meal, true);
    orders, orderData, calls := c.orders, c.orderData, c.storeCalls;
  }

  /** Orderability is checked only when a date is clicked. A meal dialog
      opened one second before the cutoff can be confirmed at any `later`
      instant, after the cutoff has passed, and the order is recorded. */
  method OrderAfterCutoff(user: string, date: Instant, later: Instant, meal: Meal)
    returns (orders: map<DateKey, Meal>, orderData: seq<OrderRecord>)
    requires !IsWeekend(date)
    requires later >= OrderCutoff(date)
    ensures !IsOrderable(date, later)
    ensures orders == map[DateKeyOf(date) := meal]
    ensures orderData == [OrderRecord(user, DateKeyOf(date), meal.id)]
  {
    CutoffBoundary(date);
    var c := new FoodOrderState(user);
    c.HandleDateClick(date, OrderCutoff(date) - 1);
    // the clock moves on to `later`; no handler below reads it
    c.HandleOrderClick(meal, true);
    orders, orderData := c.orders, c.orderData;
  }

  /** Likewise for cancelling: an order whose cancel dialog was opened one
      second before the cutoff can be cancelled at any `later` instant after
      it, whether or not the delete call resolves. */
  method CancelAfterCutoff(user: string, date: Instant, later: Instant, meal: Meal, deleteResolves: bool)
    returns (orders: map<DateKey, Meal>, orderData: seq<OrderRecord>)
    requires !IsWeekend(date)
    requires later >= OrderCutoff(date)
    ensures !IsOrderable(date, later)
    ensures orders == map[] && orderData == []
  {
    CutoffBoundary(date);
    var c := new FoodOrderState(user);
    c.HandleDateClick(date, OrderCutoff(date) - 1);
    c.HandleOrderClick(meal, true);
    c.HandleDateClick(date, OrderCutoff(date) - 1);
    assert c.isCancelDialogOpen;
    // the clock moves on to `later`; no handler below reads it
    c.ConfirmCancel(deleteResolves);
    orders, orderData := c.orders, c.orderData;
  }
}
