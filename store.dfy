/** The in-memory store the bot runs against: a dictionary of members keyed by member id
    and an append-only list of orders. */
module MockDatabase {
  import opened Wrappers
  import opened Text

  datatype Member = Member(memberId: string, pin: string, name: string, coins: int)

  /** A stored order. `deliveryDate` is the pre-order's delivery day (None for the others)
      and `time` the creation instant in microseconds. */
  datatype Order = Order(
    id: nat, memberId: string, amount: int, items: string, orderType: string,
    time: int, deliveryDate: Option<int>, status: string)

  /** The owner id of a guest order: "Guest-" and a four-digit number. */
  function GuestId(n: int): (id: string)
    requires 1000 <= n <= 9999
    ensures |id| == 10 && StartsWith(id, "Guest-") && id[6..] == NatToString(n)
  {
    FourDigits(n);
    "Guest-" + NatToString(n)
  }

  /** The order matches a last-active lookup for `memberId`. */
  predicate ActiveFor(o: Order, memberId: string) {
    o.memberId == memberId && o.status == "Active"
  }

  /** The position of the first order with the given id. */
  function IndexOfId(orders: seq<Order>, id: int): (r: Option<nat>)
    ensures r.Some? ==> r.value < |orders| && orders[r.value].id == id
    ensures r.Some? ==> forall j :: 0 <= j < r.value ==> orders[j].id != id
    ensures r.None? ==> forall j :: 0 <= j < |orders| ==> orders[j].id != id
  {
    if |orders| == 0 then None
    else if orders[0].id == id then Some(0)
    else
      match IndexOfId(orders[1..], id)
      case None => None
      case Some(i) => Some(i + 1)
  }

  /** The newest order that is active for the member. */
  function LastActive(orders: seq<Order>, memberId: string): (r: Option<Order>)
    ensures r.Some? ==>
      exists i :: (0 <= i < |orders| && orders[i] == r.value
        && ActiveFor(orders[i], memberId)
        && forall j :: i < j < |orders| ==> !ActiveFor(orders[j], memberId))
    ensures r.None? ==> forall i :: 0 <= i < |orders| ==> !ActiveFor(orders[i], memberId)
  {
    if |orders| == 0 then None
    else if ActiveFor(orders[|orders| - 1], memberId) then Some(orders[|orders| - 1])
    else LastActive(orders[..|orders| - 1], memberId)
  }

  /** The first order with the given id. */
  function OrderById(orders: seq<Order>, id: int): (r: Option<Order>)
    ensures r.Some? <==> exists i :: 0 <= i < |orders| && orders[i].id == id
    ensures r.Some? ==> r.value == orders[IndexOfId(orders, id).value]
  {
    match IndexOfId(orders, id)
    case None => None
    case Some(i) => Some(orders[i])
  }

  /** The ids are the positions counted from one, which is what appending with
      `len(orders) + 1` produces. */
  ghost predicate SequentialIds(orders: seq<Order>) {
    forall i :: 0 <= i < |orders| ==> orders[i].id == i + 1
  }

  /** With sequential ids, the order with id k sits at position k - 1. */
  lemma SequentialLookup(orders: seq<Order>, id: int)
    requires SequentialIds(orders)
    ensures 1 <= id <= |orders| ==> IndexOfId(orders, id) == Some(id - 1)
    ensures !(1 <= id <= |orders|) ==> IndexOfId(orders, id) == None
  {
    if 1 <= id <= |orders| {
      var r := IndexOfId(orders, id);
      assert orders[id - 1].id == id;
    }
  }

  /** Appending with the next id keeps the ids sequential, hence distinct. */
  lemma AppendKeepsSequential(orders: seq<Order>, o: Order)
    requires SequentialIds(orders) && o.id == |orders| + 1
    ensures SequentialIds(orders + [o])
    ensures forall i, j :: 0 <= i < j < |orders + [o]| ==> (orders + [o])[i].id != (orders + [o])[j].id
  {
  }

  /** The members and orders of the store, as values. */
  datatype Ledger = Ledger(members: map<string, Member>, orders: seq<Order>)

  /** The records of the given ids, in the given order. */
  function Listing(members: map<string, Member>, keys: seq<string>): (r: seq<Member>)
    requires forall i :: 0 <= i < |keys| ==> keys[i] in members
    ensures |r| == |keys| && forall i :: 0 <= i < |keys| ==> r[i] == members[keys[i]]
  {
    if |keys| == 0 then [] else [members[keys[0]]] + Listing(members, keys[1..])
  }

  class MockStore {
    var members: map<string, Member>
    /** The members' ids in dictionary order. */
    var memberOrder: seq<string>
    var orders: seq<Order>

    /** Every member is stored under its own id, the listing order names each member once,
        and the order ids are sequential. */
    ghost predicate Valid()
      reads this
    {
      && (forall k :: k in members ==> members[k].memberId == k)
      && (forall i, j :: 0 <= i < j < |memberOrder| ==> memberOrder[i] != memberOrder[j])
      && (forall k :: k in members <==> k in memberOrder)
      && SequentialIds(orders)
    }

    /** The two demonstration members and no orders. */
    constructor ()
      ensures Valid()
      ensures members == map[
        "97011" := Member("97011", "1234", "Demo Member", 1500),
        "77452" := Member("77452", "1234", "Demo Member 2", 1500)]
      ensures memberOrder == ["97011", "77452"]
      ensures orders == []
    {
      members := map[
        "97011" := Member("97011", "1234", "Demo Member", 1500),
        "77452" := Member("77452", "1234", "Demo Member 2", 1500)];
      memberOrder := ["97011", "77452"];
      orders := [];
    }

    /** `check_member`: the member's record when the id is known and the pin is the stored
        one; nothing otherwise. */
    function CheckMember(memberId: string, pin: string): (r: Option<Member>)
      reads this
      ensures r.Some? <==> memberId in members && members[memberId].pin == pin
      ensures r.Some? ==> r.value == members[memberId]
    {
      if memberId in members && members[memberId].pin == pin then Some(members[memberId])
      else None
    }

    /** `get_member_balance`: the stored coins, 0 for an unknown id. */
    function GetMemberBalance(memberId: string): (b: int)
      reads this
      ensures memberId in members ==> b == members[memberId].coins
      ensures memberId !in members ==> b == 0
    {
      if memberId in members then members[memberId].coins else 0
    }

    /** `get_all_orders`: the list itself, oldest first. */
    function GetAllOrders(): (r: seq<Order>)
      reads this
      ensures |r| == |orders| && forall i :: 0 <= i < |r| ==> r[i] == orders[i]
    {
      orders
    }

    /** `get_all_members`: every member once, in dictionary order. */
    function GetAllMembers(): (r: seq<Member>)
      reads this
      requires Valid()
      ensures |r| == |memberOrder| && forall i :: 0 <= i < |r| ==> r[i] == members[memberOrder[i]]
      ensures forall m :: m in r <==> m in members.Values
      ensures forall i, j :: 0 <= i < j < |r| ==> r[i].memberId != r[j].memberId
    {
      var r := Listing(members, memberOrder);
      assert forall m :: m in members.Values ==> m in r by {
        forall m | m in members.Values ensures m in r {
          var k :| k in members && members[k] == m;
          var i :| 0 <= i < |memberOrder| && memberOrder[i] == k;
          assert r[i] == m;
        }
      }
      r
    }

    /** `update_member_coins`: sets that member's coins and nothing else; an unknown id
        changes nothing. */
    method UpdateMemberCoins(memberId: string, newBalance: int)
      modifies this
      requires Valid()
      ensures Valid()
      ensures memberId in old(members) ==>
        members == old(members)[memberId := old(members)[memberId].(coins := newBalance)]
      ensures memberId !in old(members) ==> members == old(members)
      ensures memberOrder == old(memberOrder) && orders == old(orders)
    {
      if memberId in members {
        members := members[memberId := members[memberId].(coins := newBalance)];
      }
    }

    /** `save_order`: appends one order with the next id, status "Active" and the current
        time, and returns it. */
    method SaveOrder(memberId: string, amount: int, orderType: string, deliveryDate: Option<int>,
                     items: string, now: int) returns (o: Order)
      modifies this
      requires Valid()
      ensures Valid()
      ensures o == Order(|old(orders)| + 1, memberId, amount, items, orderType, now, deliveryDate, "Active")
      ensures orders == old(orders) + [o]
      ensures members == old(members) && memberOrder == old(memberOrder)
    {
      o := Order(|orders| + 1, memberId, amount, items, orderType, now, deliveryDate, "Active");
      AppendKeepsSequential(orders, o);
      orders := orders + [o];
    }

    /** `get_last_active_order`: scans the list from the newest order back and returns the
        first active order of the member, so the most recently saved one. */
    method GetLastActiveOrder(memberId: string) returns (r: Option<Order>)
      ensures r == LastActive(orders, memberId)
    {
      var k := |orders|;
      while k > 0
        invariant 0 <= k <= |orders|
        invariant LastActive(orders, memberId) == LastActive(orders[..k], memberId)
      {
        assert orders[..k][..k - 1] == orders[..k - 1];
        k := k - 1;
        if ActiveFor(orders[k], memberId) {
          return Some(orders[k]);
        }
      }
      return None;
    }

    /** The by-id scan of the cancel command over `get_all_orders()`: the first order with
        the id. */
    method FindOrder(orderId: int) returns (r: Option<Order>)
      ensures r == OrderById(orders, orderId)
    {
      var i := 0;
      while i < |orders|
        invariant 0 <= i <= |orders|
        invariant forall j :: 0 <= j < i ==> orders[j].id != orderId
      {
        if orders[i].id == orderId {
          return Some(orders[i]);
        }
        i := i + 1;
      }
      return None;
    }

    /** `update_order_status`: the first order with the id takes the new status, whatever
        its old one, and the answer says whether there was such an order. */
    method UpdateOrderStatus(orderId: int, status: string) returns (ok: bool)
      modifies this
      requires Valid()
      ensures Valid()
      ensures ok <==> IndexOfId(old(orders), orderId).Some?
      ensures ok ==> var i := IndexOfId(old(orders), orderId).value;
        orders == old(orders)[i := old(orders)[i].(status := status)]
      ensures !ok ==> orders == old(orders)
      ensures members == old(members) && memberOrder == old(memberOrder)
    {
      var i := 0;
      while i < |orders|
        invariant 0 <= i <= |orders|
        invariant forall j :: 0 <= j < i ==> orders[j].id != orderId
      {
        if orders[i].id == orderId {
          orders := orders[i := orders[i].(status := status)];
          return true;
        }
        i := i + 1;
      }
      return false;
    }

    /** `cancel_order_refund`: the first order with the id is marked "Cancelled", then the
        refund is added to the member's coins. For an owner that is not a member (a guest
        order) the status has already changed when the coin lookup fails; `ok` is false for
        that failure, which the bot reports as an error. */
    method CancelOrderRefund(orderId: int, memberId: string, refund: int) returns (ok: bool)
      modifies this
      requires Valid()
      ensures Valid()
      ensures ok <==> memberId in old(members)
      ensures IndexOfId(old(orders), orderId).Some? ==>
        var i := IndexOfId(old(orders), orderId).value;
        orders == old(orders)[i := old(orders)[i].(status := "Cancelled")]
      ensures IndexOfId(old(orders), orderId).None? ==> orders == old(orders)
      ensures ok ==> members == old(members)[memberId :=
        old(members)[memberId].(coins := old(members)[memberId].coins + refund)]
      ensures !ok ==> members == old(members)
      ensures memberOrder == old(memberOrder)
    {
      var i := 0;
      while i < |orders|
        invariant 0 <= i <= |orders|
        invariant forall j :: 0 <= j < i ==> orders[j].id != orderId
        invariant orders == old(orders)
      {
        if orders[i].id == orderId {
          orders := orders[i := orders[i].(status := "Cancelled")];
          break;
        }
        i := i + 1;
      }
      if memberId !in members {
        return false;
      }
      var current := members[memberId].coins;
      members := members[memberId := members[memberId].(coins := current + refund)];
      return true;
    }
  }

  /** The store's status updates only ever touch one order: every other order, and the
      length of the list, stay as they were. */
  lemma StatusUpdateLocal(orders: seq<Order>, i: nat, status: string)
    requires i < |orders|
    ensures |orders[i := orders[i].(status := status)]| == |orders|
    ensures forall j :: 0 <= j < |orders| && j != i ==> orders[i := orders[i].(status := status)][j] == orders[j]
    ensures SequentialIds(orders) ==> SequentialIds(orders[i := orders[i].(status := status)])
  {
  }
}
