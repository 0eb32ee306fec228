/** The staff surface of the HTTP service: placing an order by hand (debiting a member's
    coins, or filing the order under a generated guest id) and marking an order completed. */
module StaffApi {
  import opened Wrappers
  import opened Text
  import opened MockDatabase

  /** The body of a place-order request. */
  datatype OrderRequest = OrderRequest(
    memberId: string, amount: int, items: string, orderType: string, deliveryDate: Option<int>)

  datatype PlaceReply =
    | Placed(order: Order)
    | InsufficientBalance

  /** The request names a member: a non-empty id other than "non-member" in any case. */
  predicate ForMember(memberId: string): (r: bool)
    ensures r ==> |memberId| > 0
    ensures |memberId| > 0 && IsDigit(memberId[0]) ==> r
  {
    memberId != "" && Lower(memberId) != "non-member"
  }

  /** The balance the store reports: the stored coins, 0 for an unknown id. */
  function BalanceOf(members: map<string, Member>, id: string): int {
    if id in members then members[id].coins else 0
  }

  /** Sets a member's coins; an unknown id changes nothing. */
  function SetCoins(members: map<string, Member>, id: string, v: int): map<string, Member> {
    if id in members then members[id := members[id].(coins := v)] else members
  }

  /** The order that saving `req` under `owner` appends to `orders`. */
  function NewOrder(orders: seq<Order>, owner: string, req: OrderRequest, now: int): Order {
    Order(|orders| + 1, owner, req.amount, req.items, req.orderType, now, req.deliveryDate, "Active")
  }

  /** The effect of a place-order request on the store. A member request is refused when
      the reported balance is below the amount; otherwise the balance minus the amount is
      written back and the order saved under the member's id. Any other request is saved
      under the guest id of `guestNumber`, the random draw, and touches no balance. */
  function PlaceOutcome(l: Ledger, req: OrderRequest, guestNumber: int, now: int): (r: (PlaceReply, Ledger))
    requires 1000 <= guestNumber <= 9999
    ensures r.0.InsufficientBalance? <==> ForMember(req.memberId) && BalanceOf(l.members, req.memberId) < req.amount
    ensures r.0.InsufficientBalance? ==> r.1 == l
    ensures r.0.Placed? ==> && r.1.orders == l.orders + [r.0.order]
                            && r.0.order.id == |l.orders| + 1 && r.0.order.status == "Active"
                            && r.0.order.amount == req.amount
    ensures r.0.Placed? ==> r.1.members.Keys == l.members.Keys
    ensures !ForMember(req.memberId) ==> r.0.Placed? && r.1.members == l.members
  {
    if ForMember(req.memberId) then
      var balance := BalanceOf(l.members, req.memberId);
      if balance < req.amount then (InsufficientBalance, l)
      else
        var o := NewOrder(l.orders, req.memberId, req, now);
        (Placed(o), Ledger(SetCoins(l.members, req.memberId, balance - req.amount), l.orders + [o]))
    else
      var o := NewOrder(l.orders, GuestId(guestNumber), req, now);
      (Placed(o), Ledger(l.members, l.orders + [o]))
  }

  /** A refusal happens exactly for a member request whose balance does not cover the
      amount, and it changes nothing. */
  lemma RefusalIff(l: Ledger, req: OrderRequest, guestNumber: int, now: int)
    requires 1000 <= guestNumber <= 9999
    ensures PlaceOutcome(l, req, guestNumber, now).0.InsufficientBalance?
      <==> ForMember(req.memberId) && BalanceOf(l.members, req.memberId) < req.amount
    ensures PlaceOutcome(l, req, guestNumber, now).0.InsufficientBalance? ==>
      PlaceOutcome(l, req, guestNumber, now).1 == l
  {
  }

  /** A placed order is appended with the next id, status "Active" and the request's
      fields, and every earlier order is kept. */
  lemma PlacedAppends(l: Ledger, req: OrderRequest, guestNumber: int, now: int)
    requires 1000 <= guestNumber <= 9999
    requires SequentialIds(l.orders)
    ensures var (r, l') := PlaceOutcome(l, req, guestNumber, now);
      r.Placed? ==>
        && l'.orders == l.orders + [r.order]
        && r.order.id == |l.orders| + 1 && r.order.status == "Active"
        && r.order.amount == req.amount && r.order.items == req.items
        && r.order.orderType == req.orderType && r.order.deliveryDate == req.deliveryDate
        && SequentialIds(l'.orders)
  {
    var (r, l') := PlaceOutcome(l, req, guestNumber, now);
    if r.Placed? {
      AppendKeepsSequential(l.orders, r.order);
    }
  }

  /** A known member whose request is placed pays exactly the amount, and no other member's
      balance moves; so a member never ends below zero. */
  lemma MemberPays(l: Ledger, req: OrderRequest, guestNumber: int, now: int)
    requires 1000 <= guestNumber <= 9999
    requires ForMember(req.memberId) && req.memberId in l.members
    ensures var (r, l') := PlaceOutcome(l, req, guestNumber, now);
      r.Placed? ==>
        && r.order.memberId == req.memberId
        && req.memberId in l'.members
        && l'.members[req.memberId].coins == l.members[req.memberId].coins - req.amount
        && l'.members[req.memberId].coins >= 0
        && l'.members.Keys == l.members.Keys
        && (forall k :: k in l.members && k != req.memberId ==> l'.members[k] == l.members[k])
  {
  }

  /** A request for an id the store does not know reads a balance of 0: it is placed
      exactly when the amount is at most 0, and no balance changes. */
  lemma UnknownMemberReadsZero(l: Ledger, req: OrderRequest, guestNumber: int, now: int)
    requires 1000 <= guestNumber <= 9999
    requires ForMember(req.memberId) && req.memberId !in l.members
    ensures PlaceOutcome(l, req, guestNumber, now).0.Placed? <==> req.amount <= 0
    ensures PlaceOutcome(l, req, guestNumber, now).1.members == l.members
  {
  }

  /** The amount is not checked for sign: a member order with a negative amount raises the
      member's balance. */
  lemma NegativeAmountCredits(l: Ledger, req: OrderRequest, guestNumber: int, now: int)
    requires 1000 <= guestNumber <= 9999
    requires ForMember(req.memberId) && req.memberId in l.members && req.amount < 0
    requires l.members[req.memberId].coins >= 0
    ensures var (r, l') := PlaceOutcome(l, req, guestNumber, now);
      r.Placed? && l'.members[req.memberId].coins > l.members[req.memberId].coins
  {
  }

  /** Any other request is filed under a guest id and leaves every balance alone; an empty
      id and "Non-Member" are such requests. */
  lemma GuestOrder(l: Ledger, req: OrderRequest, guestNumber: int, now: int)
    requires 1000 <= guestNumber <= 9999
    requires !ForMember(req.memberId)
    ensures var (r, l') := PlaceOutcome(l, req, guestNumber, now);
      && r.Placed?
      && r.order.memberId == GuestId(guestNumber)
      && StartsWith(r.order.memberId, "Guest-")
      && l'.members == l.members
  {
  }

  /** The requests without a member. */
  lemma GuestRequests()
    ensures !ForMember("")
    ensures !ForMember("non-member") && !ForMember("NON-MEMBER") && !ForMember("Non-Member")
    ensures ForMember("97011")
  {
    assert Lower("NON-MEMBER") == "non-member";
    assert Lower("Non-Member") == "non-member";
    assert Lower("non-member") == "non-member";
    assert Lower("97011") == "97011";
  }

  /** Placing an order by hand: the store ends as `PlaceOutcome` says. */
  method PlaceOrder(store: MockStore, req: OrderRequest, guestNumber: int, now: int) returns (r: PlaceReply)
    modifies store
    requires store.Valid() && 1000 <= guestNumber <= 9999
    ensures store.Valid()
    ensures (r, Ledger(store.members, store.orders))
      == PlaceOutcome(Ledger(old(store.members), old(store.orders)), req, guestNumber, now)
    ensures store.memberOrder == old(store.memberOrder)
  {
    if req.memberId != "" && Lower(req.memberId) != "non-member" {
      var balance := store.GetMemberBalance(req.memberId);
      if balance < req.amount {
        return InsufficientBalance;
      }
      store.UpdateMemberCoins(req.memberId, balance - req.amount);
      var o := store.SaveOrder(req.memberId, req.amount, req.orderType, req.deliveryDate, req.items, now);
      r := Placed(o);
    } else {
      var o := store.SaveOrder(GuestId(guestNumber), req.amount, req.orderType, req.deliveryDate, req.items, now);
      r := Placed(o);
    }
  }

  /** Marks the first order with the id completed; false when no order has it. */
  function CompleteOutcome(orders: seq<Order>, id: int): (r: (bool, seq<Order>))
    ensures |r.1| == |orders|
    ensures !r.0 ==> r.1 == orders
    ensures r.0 <==> exists i :: 0 <= i < |orders| && orders[i].id == id
    ensures forall j :: 0 <= j < |orders| && orders[j].id != id ==> r.1[j] == orders[j]
  {
    match IndexOfId(orders, id)
    case None => (false, orders)
    case Some(i) => (true, orders[i := orders[i].(status := "Completed")])
  }

  /** With sequential ids, completion succeeds exactly for the ids 1 to the number of
      orders; it changes that order's status and nothing else, and keeps the ids
      sequential. */
  lemma CompleteIff(orders: seq<Order>, id: int)
    requires SequentialIds(orders)
    ensures var (ok, orders') := CompleteOutcome(orders, id);
      && (ok <==> 1 <= id <= |orders|)
      && |orders'| == |orders|
      && (ok ==> orders'[id - 1] == orders[id - 1].(status := "Completed"))
      && (forall j :: 0 <= j < |orders| && j != id - 1 ==> orders'[j] == orders[j])
      && SequentialIds(orders')
  {
    SequentialLookup(orders, id);
    if 1 <= id <= |orders| {
      StatusUpdateLocal(orders, id - 1, "Completed");
    }
  }

  /** Completing an order: the store ends as `CompleteOutcome` says. */
  method CompleteOrder(store: MockStore, id: int) returns (ok: bool)
    modifies store
    requires store.Valid()
    ensures store.Valid()
    ensures (ok, store.orders) == CompleteOutcome(old(store.orders), id)
    ensures store.members == old(store.members) && store.memberOrder == old(store.memberOrder)
  {
    ok := store.UpdateOrderStatus(id, "Completed");
  }
}
