/** The staff dashboard's view of the order list: which orders each filter shows, the three
    counters over all orders, and how an order's owner is labelled on its card. */
module Dashboard {
  import opened Wrappers
  import opened Text
  import opened MockDatabase

  /** An order as the dashboard receives it: the owner id and the amount may be absent. */
  datatype OrderView = OrderView(id: int, memberId: Option<string>, amount: Option<int>, status: string)

  /** The view of a stored order. */
  function ToView(o: Order): (v: OrderView)
    ensures v.id == o.id && v.memberId == Some(o.memberId) && v.amount == Some(o.amount)
    ensures v.status == o.status
  {
    OrderView(o.id, Some(o.memberId), Some(o.amount), o.status)
  }

  function ToViews(orders: seq<Order>): (r: seq<OrderView>)
    ensures |r| == |orders| && forall i :: 0 <= i < |orders| ==> r[i] == ToView(orders[i])
  {
    seq(|orders|, i requires 0 <= i < |orders| => ToView(orders[i]))
  }

  /** A JavaScript truth test on the owner id: present and not empty. */
  predicate HasOwner(v: OrderView) {
    v.memberId.Some? && v.memberId.value != ""
  }

  /** The card shows a guest badge: the owner is "NON-MEMBER" or starts with "Guest-". */
  predicate IsGuest(v: OrderView): (r: bool)
    ensures r ==> v.memberId.Some? && |v.memberId.value| >= 6
  {
    v.memberId == Some("NON-MEMBER") || (HasOwner(v) && StartsWith(v.memberId.value, "Guest-"))
  }

  /** The MEMBER filter: an owner that is present, does not start with "Guest-" and is not
      "NON-MEMBER". */
  predicate IsMemberOrder(v: OrderView): (r: bool)
    ensures r ==> v.memberId.Some? && v.memberId.value != "" && !IsGuest(v)
  {
    HasOwner(v) && !StartsWith(v.memberId.value, "Guest-") && v.memberId != Some("NON-MEMBER")
  }

  /** The orders of `s` that satisfy `p`, in their order. */
  function Keep(s: seq<OrderView>, p: OrderView -> bool): (r: seq<OrderView>)
    ensures |r| <= |s|
    ensures forall v :: v in r <==> v in s && p(v)
    ensures forall v :: multiset(r)[v] == if p(v) then multiset(s)[v] else 0
  {
    if |s| == 0 then []
    else
      assert s == [s[0]] + s[1..];
      if p(s[0]) then [s[0]] + Keep(s[1..], p)
      else Keep(s[1..], p)
  }

  /** Filtering keeps the order of the list: the kept part of two lists one after the other
      is the kept part of the first followed by that of the second. */
  lemma {:induction false} KeepAppend(a: seq<OrderView>, b: seq<OrderView>, p: OrderView -> bool)
    ensures Keep(a + b, p) == Keep(a, p) + Keep(b, p)
  {
    if |a| > 0 {
      assert (a + b)[0] == a[0];
      assert (a + b)[1..] == a[1..] + b;
      KeepAppend(a[1..], b, p);
    } else {
      assert a + b == b;
    }
  }

  /** A single order is kept exactly when it passes the test. */
  lemma KeepOne(v: OrderView, p: OrderView -> bool)
    ensures Keep([v], p) == if p(v) then [v] else []
  {
    assert [v][1..] == [];
  }

  predicate NotCompleted(v: OrderView) {
    v.status != "Completed"
  }

  predicate IsActive(v: OrderView) {
    v.status == "Active"
  }

  /** Completed orders are hidden from every list. */
  function Visible(orders: seq<OrderView>): seq<OrderView> {
    Keep(orders, NotCompleted)
  }

  /** The list shown for a filter; an unknown filter shows the same list as "ALL". */
  function FilteredOrders(orders: seq<OrderView>, filter: string): (r: seq<OrderView>)
    ensures |r| <= |orders|
    ensures forall v :: v in r ==> v in orders && v.status != "Completed"
    ensures filter != "MEMBER" && filter != "NON-MEMBER" ==>
      forall v :: v in orders && v.status != "Completed" ==> v in r
  {
    var visible := Visible(orders);
    if filter == "ALL" then visible
    else if filter == "MEMBER" then Keep(visible, IsMemberOrder)
    else if filter == "NON-MEMBER" then Keep(visible, IsGuest)
    else visible
  }

  /** What each filter shows: no list holds a completed order; "ALL" (and any unknown
      filter) holds every other order; "MEMBER" and "NON-MEMBER" hold exactly the visible
      orders that pass their test. */
  lemma FilterContents(orders: seq<OrderView>, filter: string, v: OrderView)
    ensures v in FilteredOrders(orders, filter) ==> v in orders && v.status != "Completed"
    ensures filter != "MEMBER" && filter != "NON-MEMBER" ==>
      (v in FilteredOrders(orders, filter) <==> v in orders && v.status != "Completed")
    ensures filter == "MEMBER" ==>
      (v in FilteredOrders(orders, filter) <==> v in orders && v.status != "Completed" && IsMemberOrder(v))
    ensures filter == "NON-MEMBER" ==>
      (v in FilteredOrders(orders, filter) <==> v in orders && v.status != "Completed" && IsGuest(v))
  {
  }

  /** The two tests never agree: no order is both a member order and a guest order. */
  lemma MemberAndGuestExclusive(v: OrderView)
    ensures !(IsMemberOrder(v) && IsGuest(v))
  {
  }

  /** The MEMBER and NON-MEMBER lists share no order and together hold exactly the visible
      orders that have an owner; an order without an owner is in neither, although its
      card shows the member badge. */
  lemma FiltersPartition(orders: seq<OrderView>, v: OrderView)
    ensures !(v in FilteredOrders(orders, "MEMBER") && v in FilteredOrders(orders, "NON-MEMBER"))
    ensures v in orders && v.status != "Completed" && HasOwner(v) ==>
      (v in FilteredOrders(orders, "MEMBER") || v in FilteredOrders(orders, "NON-MEMBER"))
    ensures !HasOwner(v) ==>
      v !in FilteredOrders(orders, "MEMBER") && v !in FilteredOrders(orders, "NON-MEMBER") && !IsGuest(v)
  {
  }

  /** Two disjoint tests keep at most the orders there are, so the MEMBER and NON-MEMBER
      lists together are never longer than the ALL list. */
  lemma {:induction false} KeepDisjoint(s: seq<OrderView>, p: OrderView -> bool, q: OrderView -> bool)
    requires forall v :: !(p(v) && q(v))
    ensures |Keep(s, p)| + |Keep(s, q)| <= |s|
  {
    if |s| > 0 {
      KeepDisjoint(s[1..], p, q);
    }
  }

  lemma ListLengths(orders: seq<OrderView>)
    ensures |FilteredOrders(orders, "MEMBER")| + |FilteredOrders(orders, "NON-MEMBER")|
      <= |FilteredOrders(orders, "ALL")|
  {
    forall v ensures !(IsMemberOrder(v) && IsGuest(v)) {
      MemberAndGuestExclusive(v);
    }
    KeepDisjoint(Visible(orders), IsMemberOrder, IsGuest);
  }

  // ---------------------------------------------------------------------------------
  // The counters
  // ---------------------------------------------------------------------------------

  /** The statuses of the orders, in order. */
  function Statuses(orders: seq<OrderView>): (r: seq<string>)
    ensures |r| == |orders| && forall i :: 0 <= i < |orders| ==> r[i] == orders[i].status
  {
    seq(|orders|, i requires 0 <= i < |orders| => orders[i].status)
  }

  /** The number of active orders: as many as there are orders whose status is "Active". */
  function ActiveCount(orders: seq<OrderView>): (n: nat)
    ensures n <= |orders|
    ensures n == multiset(Statuses(orders))["Active"]
  {
    ActiveCountIsStatusCount(orders);
    |Keep(orders, IsActive)|
  }

  /** Filtering on the status counts the orders with status "Active". */
  lemma {:induction false} ActiveCountIsStatusCount(orders: seq<OrderView>)
    ensures |Keep(orders, IsActive)| == multiset(Statuses(orders))["Active"]
  {
    if |orders| > 0 {
      ActiveCountIsStatusCount(orders[1..]);
      assert Statuses(orders) == [orders[0].status] + Statuses(orders[1..]);
    } else {
      assert Statuses(orders) == [];
    }
  }

  /** An order's share of the revenue: its amount (a missing amount counts 0) unless the
      order is cancelled. */
  function Counted(v: OrderView): int {
    if v.status != "Cancelled" then v.amount.GetOr(0) else 0
  }

  /** The revenue counter, summed from the first order on. */
  function Revenue(orders: seq<OrderView>): (r: int)
    ensures (forall i :: 0 <= i < |orders| ==> orders[i].status == "Cancelled") ==> r == 0
  {
    if |orders| == 0 then 0 else Counted(orders[0]) + Revenue(orders[1..])
  }

  /** The three counters shown above the list. */
  datatype Stats = Stats(total: nat, active: nat, revenue: int)

  function ComputeStats(orders: seq<OrderView>): (s: Stats)
    ensures s.total == |orders| && s.active <= s.total
    ensures s.active == multiset(Statuses(orders))["Active"]
    ensures s.revenue == Revenue(orders)
  {
    Stats(|orders|, ActiveCount(orders), Revenue(orders))
  }

  /** The revenue of two lists one after the other is the sum of their revenues. */
  lemma {:induction false} RevenueOfAppend(a: seq<OrderView>, b: seq<OrderView>)
    ensures Revenue(a + b) == Revenue(a) + Revenue(b)
  {
    if |a| > 0 {
      assert (a + b)[1..] == a[1..] + b;
      RevenueOfAppend(a[1..], b);
    } else {
      assert a + b == b;
    }
  }

  /** Replacing one order changes the revenue by the difference of the two shares. */
  lemma {:induction false} RevenueUpdate(orders: seq<OrderView>, i: nat, w: OrderView)
    requires i < |orders|
    ensures Revenue(orders[i := w]) == Revenue(orders) - Counted(orders[i]) + Counted(w)
  {
    if i > 0 {
      assert orders[i := w][1..] == orders[1..][i - 1 := w];
      RevenueUpdate(orders[1..], i - 1, w);
    } else {
      assert orders[i := w][1..] == orders[1..];
    }
  }

  /** With no negative amounts the revenue is not negative. */
  lemma {:induction false} RevenueNonNegative(orders: seq<OrderView>)
    requires forall i :: 0 <= i < |orders| ==> orders[i].amount.GetOr(0) >= 0
    ensures Revenue(orders) >= 0
  {
    if |orders| > 0 {
      RevenueNonNegative(orders[1..]);
    }
  }

  /** Completing an active order hides it from every list but leaves the revenue alone;
      cancelling it takes its amount off the revenue. */
  lemma StatusChangeRevenue(orders: seq<OrderView>, i: nat)
    requires i < |orders| && orders[i].status == "Active"
    ensures Revenue(orders[i := orders[i].(status := "Completed")]) == Revenue(orders)
    ensures Revenue(orders[i := orders[i].(status := "Cancelled")])
      == Revenue(orders) - orders[i].amount.GetOr(0)
    ensures orders[i].(status := "Completed") !in FilteredOrders(orders[i := orders[i].(status := "Completed")], "ALL")
  {
    RevenueUpdate(orders, i, orders[i].(status := "Completed"));
    RevenueUpdate(orders, i, orders[i].(status := "Cancelled"));
  }

  /** A newly placed order is counted in total and active, and adds its amount to the
      revenue. */
  lemma PlacedOrderCounted(orders: seq<OrderView>, o: Order)
    requires o.status == "Active"
    ensures var s := ComputeStats(orders + [ToView(o)]);
      s.total == |orders| + 1 && s.revenue == Revenue(orders) + o.amount
  {
    RevenueOfAppend(orders, [ToView(o)]);
    assert [ToView(o)][1..] == [];
  }

  // ---------------------------------------------------------------------------------
  // The owner label on a card
  // ---------------------------------------------------------------------------------

  /** The owner as the card shows it: for an owner starting with "Guest-", the text between
      the first and the second '-'; any other owner as it is. */
  function DisplayId(memberId: Option<string>): (r: Option<string>)
    ensures r.Some? <==> memberId.Some?
    ensures memberId.Some? && !StartsWith(memberId.value, "Guest-") ==> r == memberId
  {
    if memberId.Some? && memberId.value != "" && StartsWith(memberId.value, "Guest-") then
      var id := memberId.value;
      assert id == "Guest" + ['-'] + id[6..];
      SplitOnFirst("Guest", '-', id[6..]);
      var parts := SplitOn(memberId.value, '-');
      if |parts| > 1 then Some(parts[1]) else None
    else memberId
  }

  /** A guest owner always has a second piece, the text after "Guest-" up to any further
      '-'. */
  lemma GuestDisplay(id: string)
    requires StartsWith(id, "Guest-")
    ensures DisplayId(Some(id)) == Some(SplitOn(id[6..], '-')[0])
  {
    assert id == "Guest" + ['-'] + id[6..];
    SplitOnFirst("Guest", '-', id[6..]);
  }

  /** The card of an order saved under a generated guest id shows the guest badge and just
      the four digits. */
  lemma GuestIdDisplay(n: int)
    requires 1000 <= n <= 9999
    ensures DisplayId(Some(GuestId(n))) == Some(NatToString(n))
    ensures IsGuest(OrderView(0, Some(GuestId(n)), None, "Active"))
  {
    var id := GuestId(n);
    var d := NatToString(n);
    assert id[6..] == d;
    GuestDisplay(id);
    assert forall i :: 0 <= i < |d| ==> d[i] != '-' by {
      assert IsDigits(d);
    }
    SplitOnNone(d, '-');
  }

  /** Any other owner is shown unchanged. */
  lemma OtherDisplay(memberId: Option<string>)
    requires memberId.None? || !StartsWith(memberId.value, "Guest-")
    ensures DisplayId(memberId) == memberId
  {
  }
}
