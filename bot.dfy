/** The bot's conversation with one user: the session data the handlers keep between
    messages, the state they move the conversation to, and the cancel command. */
module Bot {
  import opened Wrappers
  import opened Text
  import opened Catalog
  import opened CartLedger
  import opened Shopping
  import opened CancelPolicy
  import opened MockDatabase

  /** The conversation states; End is "no conversation in progress". */
  datatype State =
    | End
    | PlanSelection
    | MemberLogin
    | MemberShopping
    | NonMemberShopping
    | TakeawaySelection
    | MemberDeliveryChoice
    | MemberPreorderDate

  /** The state numbers the bot declares; End is the conversation handler's own end marker. */
  function StateNumber(s: State): (n: int)
    ensures s != End <==> 1 <= n <= 7
  {
    match s
    case End => -1
    case PlanSelection => 1
    case MemberLogin => 2
    case MemberShopping => 3
    case NonMemberShopping => 4
    case TakeawaySelection => 5
    case MemberDeliveryChoice => 6
    case MemberPreorderDate => 7
  }

  /** No two states share a number, so the number identifies the state. */
  lemma StateNumbersDistinct(s: State, t: State)
    requires StateNumber(s) == StateNumber(t)
    ensures s == t
  {
  }

  /** The shopping state a session returns to. */
  function ShoppingState(isMember: bool): State {
    if isMember then MemberShopping else NonMemberShopping
  }

  /** The conversation graph: the states each state can lead to in one step. */
  predicate Transition(from: State, to: State): (r: bool)
    ensures from == to || to == End ==> r
    ensures r && from != to && to != End ==> StateNumber(from) < StateNumber(to) || to == MemberShopping
    ensures r && to == PlanSelection ==> from == End || from == PlanSelection
    ensures from == TakeawaySelection ==> (r <==> to == TakeawaySelection || to == End)
  {
    from == to || to == End ||
    match from
    case End => to == PlanSelection
    case PlanSelection => to == MemberLogin || to == NonMemberShopping
    case MemberLogin => to == MemberShopping
    case MemberShopping => to == MemberDeliveryChoice
    case NonMemberShopping => to == TakeawaySelection
    case TakeawaySelection => false
    case MemberDeliveryChoice => to == MemberShopping || to == MemberPreorderDate
    case MemberPreorderDate => to == MemberShopping
  }

  /** How a member wants a paid order served. */
  datatype Service = TodayDelivery | PreorderDelivery | MemberTakeaway

  /** The order type saved for a member's order: only a pre-order is "Pre-order"; a
      member's takeaway is saved as "Immediate", like today's delivery. */
  function OrderTypeOf(s: Service): (t: string)
    ensures t == "Pre-order" <==> s == PreorderDelivery
    ensures s != PreorderDelivery ==> t == "Immediate"
  {
    match s
    case TodayDelivery => "Immediate"
    case PreorderDelivery => "Pre-order"
    case MemberTakeaway => "Immediate"
  }

  /** Today's delivery can be chosen from midnight until 8 AM. */
  predicate DeliveryOpen(hour: int) {
    0 <= hour < 8
  }

  /** The greeting that starts a conversation: a message beginning with "hi", "hello" or
      "good" in any case. */
  predicate IsGreeting(text: string) {
    StartsWith(Lower(text), "hi") || StartsWith(Lower(text), "hello") || StartsWith(Lower(text), "good")
  }

  /** The keyword replies of the shopping state. */
  predicate IsCheckout(t: string) {
    Lower(t) == "place order" || Lower(t) == "checkout" || Lower(t) == "✅ place order"
  }

  predicate IsBalanceQuery(t: string) {
    Lower(t) == "balance" || Lower(t) == "coins" || Lower(t) == "membership balance"
  }

  /** The takeaway slots offered to a guest, in minutes. */
  function PickupMinutes(choice: string): (r: Option<int>)
    ensures r.Some? <==> choice == "1" || choice == "2" || choice == "3"
    ensures r.Some? ==> r.value == 15 * DigitValue(choice[0])
  {
    if choice == "1" then Some(15)
    else if choice == "2" then Some(30)
    else if choice == "3" then Some(45)
    else None
  }

  /** A Python truth test on an optional text: present and not empty. */
  predicate Truthy(s: Option<string>) {
    s.Some? && s.value != ""
  }

  // ---------------------------------------------------------------------------------
  // The cancel command, stated on the store's contents
  // ---------------------------------------------------------------------------------

  /** The order id given with the command: its first argument when that is all digits. */
  function TargetId(args: seq<string>): (r: Option<nat>)
    ensures r.Some? <==> |args| > 0 && IsDigits(args[0])
  {
    if |args| > 0 && IsDigits(args[0]) then Some(DigitsValue(args[0])) else None
  }

  /** An id written in decimal as the first argument is read back as that id. */
  lemma TargetIdOfNumber(n: nat, rest: seq<string>)
    ensures TargetId([NatToString(n)] + rest) == Some(n)
  {
    NatToStringRoundTrip(n);
  }

  /** Which order the command would cancel, and on whose account. */
  datatype Lookup = Expired | Missing | Picked(order: Order, owner: string)

  /** An explicit non-zero id is looked up among all orders and the order's owner is taken
      from it; otherwise the session's member's most recent active order is taken. Without
      a logged-in member and an id the session is reported as expired. An id of 0 counts as
      no id. */
  function CancelTarget(orders: seq<Order>, session: Option<string>, args: seq<string>): (r: Lookup)
    ensures r.Expired? <==> !Truthy(session) && (TargetId(args).None? || TargetId(args).value == 0)
    ensures r.Picked? && TargetId(args).Some? && TargetId(args).value != 0 ==>
      r.order in orders && r.order.id == TargetId(args).value && r.owner == r.order.memberId
    ensures r.Picked? && (TargetId(args).None? || TargetId(args).value == 0) ==>
      session.Some? && r.owner == session.value && LastActive(orders, session.value) == Some(r.order)
    ensures TargetId(args).Some? && TargetId(args).value != 0 ==>
      && (r.Picked? <==> OrderById(orders, TargetId(args).value).Some?)
      && (r.Picked? ==> Some(r.order) == OrderById(orders, TargetId(args).value))
    ensures Truthy(session) && (TargetId(args).None? || TargetId(args).value == 0) ==>
      (r.Picked? <==> LastActive(orders, session.value).Some?)
  {
    var target := TargetId(args);
    var hasTarget := target.Some? && target.value != 0;
    if !Truthy(session) && !hasTarget then Expired
    else if hasTarget then
      match OrderById(orders, target.value)
      case None => Missing
      case Some(o) => Picked(o, o.memberId)
    else
      match LastActive(orders, session.value)
      case None => Missing
      case Some(o) => Picked(o, session.value)
  }

  /** Adds an amount to a member's coins. */
  function Credit(members: map<string, Member>, id: string, amount: int): map<string, Member>
    requires id in members
  {
    members[id := members[id].(coins := members[id].coins + amount)]
  }

  /** Marks the first order with the id as cancelled. */
  function MarkCancelled(orders: seq<Order>, id: int): seq<Order> {
    match IndexOfId(orders, id)
    case None => orders
    case Some(i) => orders[i := orders[i].(status := "Cancelled")]
  }

  datatype CancelReply =
    | SessionExpired
    | NoActiveOrder
    | AlreadyProcessed
    | CancelFailed(reason: string)
    | Cancelled(orderId: nat, refunded: int, balance: int)
    | CancelError

  /** The cancel command with the refund credited once. An order that is not active, or
      that its rule refuses, changes nothing; an eligible order is marked cancelled and its
      amount is refunded to the owner; an owner that is not a member (a guest order picked
      by id) makes the refund fail after the order has been marked. */
  function CancelOutcome(l: Ledger, session: Option<string>, args: seq<string>, now: int): (r: (CancelReply, Ledger))
    ensures r.0.SessionExpired? <==> CancelTarget(l.orders, session, args).Expired?
    ensures r.0.NoActiveOrder? <==> CancelTarget(l.orders, session, args).Missing?
    ensures !r.0.Cancelled? && !r.0.CancelError? ==> r.1 == l
    ensures |r.1.orders| == |l.orders| && r.1.members.Keys == l.members.Keys
  {
    match CancelTarget(l.orders, session, args)
    case Expired => (SessionExpired, l)
    case Missing => (NoActiveOrder, l)
    case Picked(o, owner) => PickedOutcome(l, o, owner, now)
  }

  /** The cancel command once order `o` of `owner` is picked: only an active order that its
      rule allows is cancelled, and the refund goes to the owner. */
  function PickedOutcome(l: Ledger, o: Order, owner: string, now: int): (r: (CancelReply, Ledger))
    ensures r.0.Cancelled? || r.0.CancelError? <==>
      o.status == "Active" && Eligibility(o.orderType, Some(o.time), o.deliveryDate, now) == Eligible
    ensures r.0.Cancelled? <==> (r.0.Cancelled? || r.0.CancelError?) && owner in l.members
    ensures !r.0.Cancelled? && !r.0.CancelError? ==> r.1 == l
    ensures |r.1.orders| == |l.orders| && r.1.members.Keys == l.members.Keys
    ensures r.0.Cancelled? ==>
      (&& r.0.orderId == o.id && r.0.refunded == o.amount && owner in l.members
       && r.1.members[owner].coins == l.members[owner].coins + o.amount == r.0.balance)
    ensures forall k :: k in l.members && k != owner ==> r.1.members[k] == l.members[k]
  {
    if o.status != "Active" then (AlreadyProcessed, l)
    else
      var v := Eligibility(o.orderType, Some(o.time), o.deliveryDate, now);
      if v != Eligible then (CancelFailed(Reason(v)), l)
      else
        var orders := MarkCancelled(l.orders, o.id);
        if owner !in l.members then (CancelError, Ledger(l.members, orders))
        else
          var members := Credit(l.members, owner, o.amount);
          (Cancelled(o.id, o.amount, members[owner].coins), Ledger(members, orders))
  }

  /** The cancel command as the bot's code is written: after the store has credited the
      refund, the session's member record, which in the in-memory store is the store's own
      record, is credited a second time when the session belongs to the owner. */
  function CancelOutcomeAsWritten(l: Ledger, session: Option<string>, args: seq<string>, now: int): (r: (CancelReply, Ledger))
    ensures r.1.orders == CancelOutcome(l, session, args, now).1.orders
    ensures r.0.Cancelled? <==> CancelOutcome(l, session, args, now).0.Cancelled?
    ensures r.1.members.Keys == l.members.Keys
    ensures forall k :: k in l.members && (session.None? || k != session.value) ==>
      r.1.members[k] == CancelOutcome(l, session, args, now).1.members[k]
  {
    var (reply, after) := CancelOutcome(l, session, args, now);
    if reply.Cancelled? && session.Some? && session.value in after.members
        && CancelTarget(l.orders, session, args).Picked?
        && CancelTarget(l.orders, session, args).owner == session.value then
      var members := Credit(after.members, session.value, reply.refunded);
      (Cancelled(reply.orderId, reply.refunded, members[session.value].coins), Ledger(members, after.orders))
    else (reply, after)
  }

  /** Nothing is cancelled unless the picked order is active and its rule allows it; then
      that order alone becomes "Cancelled" and its owner alone is refunded its amount,
      exactly once. */
  lemma CancelRefundsOnce(l: Ledger, session: Option<string>, args: seq<string>, now: int)
    requires SequentialIds(l.orders)
    ensures var (reply, after) := CancelOutcome(l, session, args, now);
      reply.Cancelled? ==>
        var t := CancelTarget(l.orders, session, args);
        && t.Picked? && t.order.status == "Active"
        && Eligibility(t.order.orderType, Some(t.order.time), t.order.deliveryDate, now) == Eligible
        && t.owner in l.members && t.owner in after.members
        && after.members[t.owner].coins == l.members[t.owner].coins + t.order.amount
        && reply == Cancelled(t.order.id, t.order.amount, after.members[t.owner].coins)
        && (forall k :: k in l.members && k != t.owner ==> k in after.members && after.members[k] == l.members[k])
        && |after.orders| == |l.orders|
        && after.orders[t.order.id - 1] == t.order.(status := "Cancelled")
        && (forall j :: 0 <= j < |l.orders| && j != t.order.id - 1 ==> after.orders[j] == l.orders[j])
  {
    var (reply, after) := CancelOutcome(l, session, args, now);
    var t := CancelTarget(l.orders, session, args);
    if reply.Cancelled? {
      PickedIsStored(l.orders, session, args);
      SequentialLookup(l.orders, t.order.id);
    }
  }

  /** The picked order is one of the stored orders, at the position its id names. */
  lemma PickedIsStored(orders: seq<Order>, session: Option<string>, args: seq<string>)
    requires SequentialIds(orders)
    ensures var t := CancelTarget(orders, session, args);
      t.Picked? ==> 1 <= t.order.id <= |orders| && orders[t.order.id - 1] == t.order
  {
    var t := CancelTarget(orders, session, args);
    if t.Picked? {
      assert exists i :: 0 <= i < |orders| && orders[i] == t.order;
      var i :| 0 <= i < |orders| && orders[i] == t.order;
      assert orders[i].id == i + 1;
    }
  }

  /** A refusal leaves the store exactly as it was. */
  lemma RefusalChangesNothing(l: Ledger, session: Option<string>, args: seq<string>, now: int)
    ensures var (reply, after) := CancelOutcome(l, session, args, now);
      (reply.SessionExpired? || reply.NoActiveOrder? || reply.AlreadyProcessed? || reply.CancelFailed?)
        ==> after == l
  {
  }

  /** The cancel command reports success exactly when an active order is found and its rule
      allows cancelling it, and the owner is a member. */
  lemma CancelSucceedsIff(l: Ledger, session: Option<string>, args: seq<string>, now: int)
    ensures var t := CancelTarget(l.orders, session, args);
      CancelOutcome(l, session, args, now).0.Cancelled? <==>
        t.Picked? && t.order.status == "Active" && t.owner in l.members
        && Eligibility(t.order.orderType, Some(t.order.time), t.order.deliveryDate, now) == Eligible
  {
  }

  /** As written, a member who cancels their own order from their session is refunded twice
      the order's amount, where the corrected command refunds it once. */
  lemma AsWrittenRefundsTwice(l: Ledger, session: Option<string>, args: seq<string>, now: int)
    requires CancelOutcome(l, session, args, now).0.Cancelled?
    requires TargetId(args).None?
    ensures var t := CancelTarget(l.orders, session, args);
      var before := l.members[t.owner].coins;
      && CancelOutcome(l, session, args, now).1.members[t.owner].coins == before + t.order.amount
      && CancelOutcomeAsWritten(l, session, args, now).1.members[t.owner].coins == before + 2 * t.order.amount
  {
    var t := CancelTarget(l.orders, session, args);
    assert t.owner == session.value;
  }

  /** The demonstration member 97011 starts with 1500 coins and has paid 110 for an order
      two minutes ago. */
  function DemoLedger(): Ledger {
    Ledger(
      map["97011" := Member("97011", "1234", "Demo Member", 1390),
          "77452" := Member("77452", "1234", "Demo Member 2", 1500)],
      [Order(1, "97011", 110, "Protein Bowl x2", "Immediate", 0, None, "Active")])
  }

  /** The member cancels that order: the corrected command restores 1500 coins, the code as
      written leaves 1610. */
  lemma DemoDoubleRefund()
    ensures CancelOutcome(DemoLedger(), Some("97011"), [], 120 * MicrosPerSecond).0 == Cancelled(1, 110, 1500)
    ensures CancelOutcomeAsWritten(DemoLedger(), Some("97011"), [], 120 * MicrosPerSecond).0 == Cancelled(1, 110, 1610)
  {
    var l := DemoLedger();
    assert ActiveFor(l.orders[0], "97011");
    assert LastActive(l.orders, "97011") == Some(l.orders[0]);
    assert CancelTarget(l.orders, Some("97011"), []) == Picked(l.orders[0], "97011");
    assert IndexOfId(l.orders, 1) == Some(0);
  }

  // ---------------------------------------------------------------------------------
  // The session
  // ---------------------------------------------------------------------------------

  /** One user's `context.user_data` and conversation state. The member record the
      handlers read after login is the store's own record (the in-memory store hands out
      its dictionary), so the session keeps the member's id and reads coins from the
      store. */
  class Session {
    var state: State
    var isMember: bool
    var cart: Cart
    var tempId: Option<string>
    var memberId: Option<string>
    var finalCoins: Option<int>
    var preorderDate: Option<int>
    var finalTotal: Option<int>

    /** The facts the handlers rely on: a proper cart (no name twice, no quantity <= 0), a
        member id whenever the session is a member's, the member or guest shopping states
        matching the session, and the total fixed before each payment step. */
    ghost predicate Valid()
      reads this
    {
      && CartLedger.Valid(cart)
      && (isMember ==> memberId.Some?)
      && (state.MemberShopping? || state.MemberDeliveryChoice? || state.MemberPreorderDate? ==> isMember)
      && (state.NonMemberShopping? || state.TakeawaySelection? ==> !isMember)
      && (state.MemberDeliveryChoice? || state.MemberPreorderDate? ==> finalCoins.Some?)
      && (state == TakeawaySelection ==> finalTotal.Some?)
    }

    /** A user the bot has not talked to yet. */
    constructor ()
      ensures Valid() && state == End && cart == [] && !isMember
      ensures tempId == None && memberId == None
    {
      state := End;
      isMember := false;
      cart := [];
      tempId := None;
      memberId := None;
      finalCoins := None;
      preorderDate := None;
      finalTotal := None;
    }

    /** `start`: forgets everything and asks for the plan. */
    method Start()
      modifies this
      ensures Valid() && state == PlanSelection
      ensures !isMember && cart == [] && tempId == None && memberId == None
      ensures finalCoins == None && preorderDate == None && finalTotal == None
    {
      state := PlanSelection;
      isMember := false;
      cart := [];
      tempId := None;
      memberId := None;
      finalCoins := None;
      preorderDate := None;
      finalTotal := None;
    }

    /** `handle_plan_selection`: "1" asks for the member id, "2" starts a guest with an
        empty cart, anything else asks again. */
    method HandlePlanSelection(text: string)
      modifies this
      requires Valid() && state == PlanSelection
      ensures Valid()
      ensures Strip(text) == "1" ==> state == MemberLogin && unchanged(this`cart, this`isMember)
      ensures Strip(text) == "2" ==> state == NonMemberShopping && !isMember && cart == []
      ensures Strip(text) != "1" && Strip(text) != "2" ==> state == PlanSelection && unchanged(this`cart, this`isMember)
      ensures unchanged(this`tempId, this`memberId, this`finalCoins, this`preorderDate, this`finalTotal)
    {
      var t := Strip(text);
      if t == "1" {
        state := MemberLogin;
      } else if t == "2" {
        isMember := false;
        cart := [];
        state := NonMemberShopping;
      } else {
        state := PlanSelection;
      }
    }

    /** `handle_login`: the first reply is kept as the member id; the second is the pin. A
        correct pin logs the member in with an empty cart; a wrong one forgets the id and
        asks for it again. */
    method HandleLogin(text: string, store: MockStore)
      modifies this
      requires Valid() && state == MemberLogin && store.Valid()
      ensures Valid()
      ensures old(tempId).None? ==>
        tempId == Some(Strip(text)) && state == MemberLogin && unchanged(this`cart, this`isMember, this`memberId)
      ensures old(tempId).Some? && store.CheckMember(old(tempId).value, Strip(text)).Some? ==>
        && state == MemberShopping && isMember && cart == [] && memberId == Some(old(tempId).value)
        && tempId == old(tempId)
      ensures old(tempId).Some? && store.CheckMember(old(tempId).value, Strip(text)).None? ==>
        tempId == None && state == MemberLogin && unchanged(this`cart, this`isMember, this`memberId)
      ensures unchanged(this`finalCoins, this`preorderDate, this`finalTotal)
    {
      var t := Strip(text);
      if tempId.None? {
        tempId := Some(t);
        state := MemberLogin;
      } else {
        var member := store.CheckMember(tempId.value, t);
        if member.Some? {
          memberId := Some(member.value.memberId);
          isMember := true;
          cart := [];
          state := MemberShopping;
        } else {
          tempId := None;
          state := MemberLogin;
        }
      }
    }

    /** `handle_shopping`: the checkout keywords end shopping (an empty cart stays); a
        member's balance keywords only report the balance; any other text is read line by
        line into the cart. `notices` are the update lines shown, `total` the cart total
        shown with them. */
    method HandleShopping(text: string, store: MockStore) returns (notices: seq<Notice>, total: int)
      modifies this
      requires Valid() && state == ShoppingState(isMember) && store.Valid()
      ensures Valid()
      ensures var t := Strip(text);
        IsCheckout(t) && old(cart) == [] ==> state == old(state) && cart == old(cart) && notices == []
      ensures var t := Strip(text);
        IsCheckout(t) && old(cart) != [] && !isMember ==>
          state == TakeawaySelection && finalTotal == Some(Total(MenuNonMember, cart)) && cart == old(cart)
      ensures var t := Strip(text);
        IsCheckout(t) && old(cart) != [] && isMember ==>
          var due := Total(MenuMember, old(cart));
          var balance := store.GetMemberBalance(memberId.value);
          && cart == old(cart)
          && (due > balance ==> state == MemberShopping && finalCoins == old(finalCoins))
          && (due <= balance ==> state == MemberDeliveryChoice && finalCoins == Some(due))
      ensures var t := Strip(text);
        !IsCheckout(t) && isMember && IsBalanceQuery(t) ==> state == MemberShopping && cart == old(cart)
      ensures var t := Strip(text);
        !IsCheckout(t) && !(isMember && IsBalanceQuery(t)) ==>
          && (cart, notices) == ApplyLines(ActiveMenu(isMember), old(cart), SplitSep(t))
          && total == Total(ActiveMenu(isMember), cart)
          && state == old(state)
      ensures isMember == old(isMember) && memberId == old(memberId) && tempId == old(tempId)
      ensures preorderDate == old(preorderDate)
      ensures !isMember ==> finalCoins == old(finalCoins)
      ensures isMember ==> finalTotal == old(finalTotal)
      ensures !IsCheckout(Strip(text)) || old(cart) == [] ==>
        finalCoins == old(finalCoins) && finalTotal == old(finalTotal)
    {
      notices, total := [], 0;
      var t := Strip(text);
      if IsCheckout(t) {
        Checkout(store);
      } else if isMember && IsBalanceQuery(t) {
        state := MemberShopping;
      } else {
        notices, total := ReadItems(t);
      }
    }

    /** The checkout keywords ("place order", "checkout" or "✅ place order"): an empty cart
        stays in shopping; a member's cart goes to the balance check, a guest's cart has its
        total fixed. */
    method Checkout(store: MockStore)
      modifies this
      requires Valid() && state == ShoppingState(isMember) && store.Valid()
      ensures Valid()
      ensures old(cart) == [] ==> state == old(state) && finalCoins == old(finalCoins) && finalTotal == old(finalTotal)
      ensures old(cart) != [] && !isMember ==>
        state == TakeawaySelection && finalTotal == Some(Total(MenuNonMember, cart))
      ensures old(cart) != [] && isMember ==>
        var due := Total(MenuMember, old(cart));
        var balance := store.GetMemberBalance(memberId.value);
        && (due > balance ==> state == MemberShopping && finalCoins == old(finalCoins))
        && (due <= balance ==> state == MemberDeliveryChoice && finalCoins == Some(due))
      ensures unchanged(this`cart, this`isMember, this`memberId, this`tempId, this`preorderDate)
      ensures !isMember ==> finalCoins == old(finalCoins)
      ensures isMember ==> finalTotal == old(finalTotal)
    {
      if cart == [] {
        state := ShoppingState(isMember);
      } else if isMember {
        AskMemberDeliveryOption(store);
      } else {
        FinalizeNonMemberOrder();
      }
    }

    /** The item lines of a shopping message applied to the cart in place, with the update
        lines and the new total that are shown. */
    method ReadItems(t: string) returns (notices: seq<Notice>, total: int)
      modifies this
      requires Valid() && state == ShoppingState(isMember)
      ensures Valid()
      ensures (cart, notices) == ApplyLines(ActiveMenu(isMember), old(cart), SplitSep(t))
      ensures total == Total(ActiveMenu(isMember), cart)
      ensures unchanged(this`state, this`isMember, this`memberId, this`tempId, this`finalCoins,
                        this`preorderDate, this`finalTotal)
    {
      var menu := ActiveMenu(isMember);
      ApplyLinesKeepsValid(menu, cart, SplitSep(t));
      cart, notices := ApplyMessage(menu, cart, SplitSep(t));
      total := CartTotal(menu, cart);
    }

    /** `ask_member_delivery_option`: the member-menu total is checked against the stored
        balance; a total the balance cannot cover returns to shopping, otherwise the total
        is fixed for payment and the service is asked for. No balance changes. */
    method AskMemberDeliveryOption(store: MockStore)
      modifies this
      requires Valid() && isMember && state == MemberShopping && store.Valid()
      ensures unchanged(this`cart, this`isMember, this`memberId, this`tempId, this`preorderDate, this`finalTotal)
      ensures Valid()
      ensures var due := Total(MenuMember, cart);
        && (due > store.GetMemberBalance(memberId.value) ==> state == MemberShopping && finalCoins == old(finalCoins))
        && (due <= store.GetMemberBalance(memberId.value) ==> state == MemberDeliveryChoice && finalCoins == Some(due))
    {
      var due := CartTotal(MenuMember, cart);
      var balance := store.GetMemberBalance(memberId.value);
      if due > balance {
        state := MemberShopping;
      } else {
        finalCoins := Some(due);
        state := MemberDeliveryChoice;
      }
    }

    /** `finalize_non_member_order`: fixes the guest-menu total and asks for a pickup
        time. */
    method FinalizeNonMemberOrder()
      modifies this
      requires Valid() && !isMember && state == NonMemberShopping
      ensures Valid()
      ensures state == TakeawaySelection && finalTotal == Some(Total(MenuNonMember, cart))
      ensures unchanged(this`cart, this`isMember, this`memberId, this`tempId, this`finalCoins, this`preorderDate)
    {
      var total := CartTotal(MenuNonMember, cart);
      finalTotal := Some(total);
      state := TakeawaySelection;
    }

    /** `handle_member_delivery_choice` at instant `now`: "1" pays for today's delivery only
        before 8 AM, "3" pays for a takeaway, "2" fixes tomorrow as the delivery day and
        asks for confirmation, "cancel" or "4" returns to shopping, anything else asks
        again. */
    method HandleMemberDeliveryChoice(text: string, store: MockStore, now: int) returns (saved: Option<Order>)
      modifies this, store
      requires Valid() && state == MemberDeliveryChoice && store.Valid()
      ensures Valid() && store.Valid() && store.memberOrder == old(store.memberOrder)
      ensures var t := Strip(text);
        (t == "1" && DeliveryOpen(HourOf(now))) || t == "3" ==>
          var service := if t == "1" then TodayDelivery else MemberTakeaway;
          && (saved.None? ==> state == MemberShopping) && (saved.Some? ==> state == End)
          && Paid(old(store.members), old(store.orders), store.members, store.orders,
               old(memberId.value), old(finalCoins.value),
               service, old(preorderDate), old(cart), now, saved)
      ensures var t := Strip(text);
        t == "2" ==>
          (state == MemberPreorderDate && preorderDate == Some(DayOf(now) + 1)
           && saved == None && unchanged(store))
      ensures var t := Strip(text);
        t != "1" && t != "2" && t != "3" && (Lower(t) == "cancel" || t == "4") ==>
          state == MemberShopping && saved == None && unchanged(store)
      ensures var t := Strip(text);
        (t == "1" && !DeliveryOpen(HourOf(now))) || (t != "1" && t != "2" && t != "3" && Lower(t) != "cancel" && t != "4") ==>
          state == MemberDeliveryChoice && saved == None && unchanged(store)
      ensures var t := Strip(text);
        t != "2" ==> preorderDate == old(preorderDate)
      ensures unchanged(this`cart, this`isMember, this`memberId, this`tempId, this`finalCoins, this`finalTotal)
    {
      saved := None;
      var t := Strip(text);
      if t == "1" {
        if DeliveryOpen(HourOf(now)) {
          saved := ProcessMemberTransaction(TodayDelivery, store, now);
        } else {
          state := MemberDeliveryChoice;
        }
      } else if t == "3" {
        saved := ProcessMemberTransaction(MemberTakeaway, store, now);
      } else if t == "2" {
        preorderDate := Some(DayOf(now) + 1);
        state := MemberPreorderDate;
      } else if Lower(t) == "cancel" || t == "4" {
        state := MemberShopping;
      } else {
        state := MemberDeliveryChoice;
      }
    }

    /** `handle_member_preorder_date`: "yes", "y" or "confirm" (any case) pays for the
        pre-order, "cancel", "no" or "stop" returns to shopping, anything else asks
        again. */
    method HandleMemberPreorderDate(text: string, store: MockStore, now: int) returns (saved: Option<Order>)
      modifies this, store
      requires Valid() && state == MemberPreorderDate && store.Valid()
      ensures Valid() && store.Valid() && store.memberOrder == old(store.memberOrder)
      ensures var t := Lower(Strip(text));
        t == "yes" || t == "y" || t == "confirm" ==>
          && (saved.None? ==> state == MemberShopping) && (saved.Some? ==> state == End)
          && Paid(old(store.members), old(store.orders), store.members, store.orders,
               old(memberId.value), old(finalCoins.value),
               PreorderDelivery, old(preorderDate), old(cart), now, saved)
      ensures var t := Lower(Strip(text));
        !(t == "yes" || t == "y" || t == "confirm") && (t == "cancel" || t == "no" || t == "stop") ==>
          state == MemberShopping && saved == None && unchanged(store)
      ensures var t := Lower(Strip(text));
        !(t == "yes" || t == "y" || t == "confirm" || t == "cancel" || t == "no" || t == "stop") ==>
          state == MemberPreorderDate && saved == None && unchanged(store)
      ensures unchanged(this`cart, this`isMember, this`memberId, this`tempId, this`finalCoins, this`finalTotal, this`preorderDate)
    {
      saved := None;
      var t := Lower(Strip(text));
      if t == "yes" || t == "y" || t == "confirm" {
        saved := ProcessMemberTransaction(PreorderDelivery, store, now);
      } else if t == "cancel" || t == "no" || t == "stop" {
        state := MemberShopping;
      } else {
        state := MemberPreorderDate;
      }
    }

    /** `process_member_transaction`: the balance is read again; when it no longer covers
        the fixed total nothing is changed and shopping resumes; otherwise the balance drops
        by exactly the total, one order of that amount is saved, and the conversation
        ends. */
    method ProcessMemberTransaction(service: Service, store: MockStore, now: int) returns (saved: Option<Order>)
      modifies this, store
      requires Valid() && isMember && finalCoins.Some? && store.Valid()
      ensures Valid() && store.Valid() && store.memberOrder == old(store.memberOrder)
      ensures Paid(old(store.members), old(store.orders), store.members, store.orders,
               old(memberId.value), old(finalCoins.value),
                   service, old(preorderDate), old(cart), now, saved)
      ensures saved.None? ==> state == MemberShopping
      ensures saved.Some? ==> state == End
      ensures unchanged(this`cart, this`isMember, this`memberId, this`tempId, this`finalCoins, this`finalTotal, this`preorderDate)
    {
      var delivery := if service == PreorderDelivery then preorderDate else None;
      saved := Pay(store, memberId.value, finalCoins.value, service, delivery, cart, now);
      state := if saved.None? then MemberShopping else End;
    }

    /** `handle_takeaway`: a slot of "1", "2" or "3" saves the guest's order under
        "Guest-N" for the drawn number N, with the fixed total and type "Takeaway", and ends
        the conversation; no balance is touched. Anything else asks again. */
    method HandleTakeaway(text: string, guestNumber: int, store: MockStore, now: int) returns (saved: Option<Order>)
      modifies this, store
      requires Valid() && state == TakeawaySelection && store.Valid()
      requires 1000 <= guestNumber <= 9999
      ensures Valid() && store.Valid()
      ensures PickupMinutes(Strip(text)).None? ==> state == TakeawaySelection && saved == None && unchanged(store)
      ensures PickupMinutes(Strip(text)).Some? ==>
        && state == End
        && saved == Some(Order(|old(store.orders)| + 1, GuestId(guestNumber), old(finalTotal.value),
                               Summary(cart), "Takeaway", now, None, "Active"))
        && store.orders == old(store.orders) + [saved.value]
        && store.members == old(store.members) && store.memberOrder == old(store.memberOrder)
      ensures unchanged(this`cart, this`isMember, this`memberId, this`tempId, this`finalCoins, this`finalTotal, this`preorderDate)
    {
      var t := Strip(text);
      if PickupMinutes(t).None? {
        state := TakeawaySelection;
        return None;
      }
      var o := store.SaveOrder(GuestId(guestNumber), finalTotal.value, "Takeaway", None, Summary(cart), now);
      state := End;
      return Some(o);
    }

    /** `/cancel`: ends the conversation and keeps the session data. */
    method Cancel()
      modifies this
      requires Valid()
      ensures Valid() && state == End
      ensures unchanged(this`cart, this`isMember, this`memberId, this`tempId, this`finalCoins, this`finalTotal, this`preorderDate)
    {
      state := End;
    }

    /** `handle_cancel_last_order`: the order is picked and judged as `CancelOutcome`
        states, and the store is updated accordingly. The session itself is untouched. */
    method CancelLastOrder(args: seq<string>, store: MockStore, now: int) returns (reply: CancelReply)
      modifies store
      requires store.Valid()
      ensures store.Valid()
      ensures (reply, Ledger(store.members, store.orders))
        == CancelOutcome(Ledger(old(store.members), old(store.orders)), memberId, args, now)
      ensures store.memberOrder == old(store.memberOrder)
    {
      var t := PickOrder(args, store);
      match t
      case Expired => return SessionExpired;
      case Missing => return NoActiveOrder;
      case Picked(o, owner) =>
        reply := CancelPicked(o, owner, store, now);
    }

    /** The lookup half of the cancel command: the order named by a non-zero id argument,
        with its own owner, or else the session member's last active order. */
    method PickOrder(args: seq<string>, store: MockStore) returns (t: Lookup)
      ensures t == CancelTarget(store.orders, memberId, args)
    {
      var target := TargetId(args);
      var hasTarget := target.Some? && target.value != 0;
      if !Truthy(memberId) && !hasTarget {
        return Expired;
      }
      var found: Option<Order>;
      var owner: string;
      if hasTarget {
        found := store.FindOrder(target.value);
        owner := if found.Some? then found.value.memberId else "";
      } else {
        found := store.GetLastActiveOrder(memberId.value);
        owner := memberId.value;
      }
      if found.None? {
        return Missing;
      }
      return Picked(found.value, owner);
    }

    /** The cancel command as the bot's code is written: after a successful refund, a
        session belonging to the owner credits the refund to its member record again. */
    method CancelLastOrderAsWritten(args: seq<string>, store: MockStore, now: int) returns (reply: CancelReply)
      modifies store
      requires store.Valid()
      ensures store.Valid()
      ensures (reply, Ledger(store.members, store.orders))
        == CancelOutcomeAsWritten(Ledger(old(store.members), old(store.orders)), memberId, args, now)
      ensures store.memberOrder == old(store.memberOrder)
    {
      var l := Ledger(store.members, store.orders);
      var t := CancelTarget(l.orders, memberId, args);
      reply := CancelLastOrder(args, store, now);
      if reply.Cancelled? && memberId.Some? && memberId.value in store.members
          && t.Picked? && t.owner == memberId.value {
        reply := CreditAgain(store, memberId.value, reply);
      }
    }

    /** A message outside a conversation: a greeting starts one; otherwise a message
        containing "cancel order" runs the cancel command without arguments (the corrected
        command, with the refund credited once); any other message is ignored. */
    method ReceiveIdle(text: string, store: MockStore, now: int)
      modifies this, store
      requires Valid() && state == End && store.Valid()
      ensures Valid() && store.Valid()
      ensures IsGreeting(text) ==>
        state == PlanSelection && cart == [] && memberId.None? && !isMember && unchanged(store)
      ensures !IsGreeting(text) && !Contains(Lower(text), "cancel order") ==> unchanged(this) && unchanged(store)
      ensures !IsGreeting(text) && Contains(Lower(text), "cancel order") ==>
        && unchanged(this)
        && Ledger(store.members, store.orders)
           == CancelOutcome(Ledger(old(store.members), old(store.orders)), memberId, [], now).1
        && store.memberOrder == old(store.memberOrder)
    {
      if IsGreeting(text) {
        Start();
      } else if Contains(Lower(text), "cancel order") {
        var _ := CancelLastOrder([], store, now);
      }
    }

    /** A message in a state that only talks: plan selection, login and shopping. The
        store is not touched and the conversation does not end. */
    method ReceiveTalk(text: string, store: MockStore)
      modifies this
      requires Valid() && store.Valid()
      requires state == PlanSelection || state == MemberLogin || state == MemberShopping || state == NonMemberShopping
      ensures Valid() && state != End
      ensures Transition(old(state), state)
      ensures old(state) == PlanSelection ==>
        && (Strip(text) == "1" ==> state == MemberLogin)
        && (Strip(text) == "2" ==> state == NonMemberShopping && cart == [])
        && (Strip(text) != "1" && Strip(text) != "2" ==> state == PlanSelection)
      ensures old(state) == MemberLogin ==>
        (state == MemberShopping <==> old(tempId).Some? && store.CheckMember(old(tempId).value, Strip(text)).Some?)
      ensures old(state) == MemberShopping || old(state) == NonMemberShopping ==>
        && isMember == old(isMember) && memberId == old(memberId)
        && (IsCheckout(Strip(text)) && old(cart) == [] ==>
              && state == old(state) && cart == old(cart)
              && finalCoins == old(finalCoins) && finalTotal == old(finalTotal))
        && (IsCheckout(Strip(text)) && old(cart) != [] && !isMember ==>
              state == TakeawaySelection && cart == old(cart) && finalTotal == Some(Total(MenuNonMember, cart)))
        && (IsCheckout(Strip(text)) && old(cart) != [] && isMember ==>
              var due := Total(MenuMember, old(cart));
              && cart == old(cart)
              && (due > store.GetMemberBalance(memberId.value) ==>
                    state == MemberShopping && finalCoins == old(finalCoins))
              && (due <= store.GetMemberBalance(memberId.value) ==>
                    state == MemberDeliveryChoice && finalCoins == Some(due)))
        && (!IsCheckout(Strip(text)) && isMember && IsBalanceQuery(Strip(text)) ==>
              state == MemberShopping && cart == old(cart) && finalCoins == old(finalCoins))
        && (!IsCheckout(Strip(text)) && !(isMember && IsBalanceQuery(Strip(text))) ==>
              && cart == ApplyLines(ActiveMenu(isMember), old(cart), SplitSep(Strip(text))).0
              && state == old(state) && finalCoins == old(finalCoins) && finalTotal == old(finalTotal))
    {
      match state
      case PlanSelection => HandlePlanSelection(text);
      case MemberLogin => HandleLogin(text, store);
      case MemberShopping => var _, _ := HandleShopping(text, store);
      case NonMemberShopping => var _, _ := HandleShopping(text, store);
    }

    /** A message in a state that may save an order: the takeaway time, the member's
        delivery choice and the pre-order confirmation. The store changes only when an
        order is saved, by exactly that order appended, and an order is saved exactly when
        the conversation ends. */
    method ReceiveSaving(text: string, store: MockStore, now: int, guestNumber: int) returns (saved: Option<Order>)
      modifies this, store
      requires Valid() && store.Valid()
      requires state == TakeawaySelection || state == MemberDeliveryChoice || state == MemberPreorderDate
      requires 1000 <= guestNumber <= 9999
      ensures Valid() && store.Valid()
      ensures Transition(old(state), state)
      ensures saved.Some? <==> state == End
      ensures saved.None? ==> store.members == old(store.members) && store.orders == old(store.orders)
      ensures saved.Some? ==>
        && store.orders == old(store.orders) + [saved.value]
        && saved.value.id == |old(store.orders)| + 1 && saved.value.status == "Active"
      ensures store.memberOrder == old(store.memberOrder)
      ensures old(state) == TakeawaySelection ==> (state == End <==> PickupMinutes(Strip(text)).Some?)
      ensures old(state) == TakeawaySelection && saved.Some? ==>
        && saved.value == Order(|old(store.orders)| + 1, GuestId(guestNumber), old(finalTotal.value),
                                Summary(old(cart)), "Takeaway", now, None, "Active")
        && store.members == old(store.members)
      ensures old(state) == MemberDeliveryChoice ==>
        && ((Strip(text) == "1" && DeliveryOpen(HourOf(now))) || Strip(text) == "3" ==>
              && (saved.None? ==> state == MemberShopping)
              && Paid(old(store.members), old(store.orders), store.members, store.orders,
                      old(memberId.value), old(finalCoins.value),
                      if Strip(text) == "1" then TodayDelivery else MemberTakeaway,
                      old(preorderDate), old(cart), now, saved))
        && (Strip(text) == "2" ==>
              state == MemberPreorderDate && preorderDate == Some(DayOf(now) + 1) && unchanged(store))
        && (Strip(text) != "1" && Strip(text) != "2" && Strip(text) != "3" && (Lower(Strip(text)) == "cancel" || Strip(text) == "4") ==>
              state == MemberShopping && unchanged(store))
        && ((Strip(text) == "1" && !DeliveryOpen(HourOf(now))) ||
            (Strip(text) != "1" && Strip(text) != "2" && Strip(text) != "3" && Lower(Strip(text)) != "cancel" && Strip(text) != "4") ==>
              state == MemberDeliveryChoice && unchanged(store))
      ensures old(state) == MemberPreorderDate ==>
        var t := Lower(Strip(text));
        && (t == "yes" || t == "y" || t == "confirm" ==>
              && (saved.None? ==> state == MemberShopping)
              && Paid(old(store.members), old(store.orders), store.members, store.orders,
                      old(memberId.value), old(finalCoins.value),
                      PreorderDelivery, old(preorderDate), old(cart), now, saved))
        && (!(t == "yes" || t == "y" || t == "confirm") && (t == "cancel" || t == "no" || t == "stop") ==>
              state == MemberShopping && unchanged(store))
        && (!(t == "yes" || t == "y" || t == "confirm" || t == "cancel" || t == "no" || t == "stop") ==>
              state == MemberPreorderDate && unchanged(store))
    {
      match state
      case TakeawaySelection => saved := HandleTakeaway(text, guestNumber, store, now);
      case MemberDeliveryChoice => saved := HandleMemberDeliveryChoice(text, store, now);
      case MemberPreorderDate => saved := HandleMemberPreorderDate(text, store, now);
    }

    /** One plain text message (not a command) handled as the conversation wiring routes
        it: outside a conversation as `ReceiveIdle` says, in one by the handler of the
        current state. `saved` is the order the message saved, if any. */
    method Receive(text: string, store: MockStore, now: int, guestNumber: int) returns (saved: Option<Order>)
      modifies this, store
      requires Valid() && store.Valid()
      requires 1000 <= guestNumber <= 9999
      ensures Valid() && store.Valid()
      ensures Transition(old(state), state)
      ensures old(state) == End ==> saved.None?
      ensures old(state) == End && IsGreeting(text) ==>
        state == PlanSelection && cart == [] && memberId.None? && unchanged(store)
      ensures old(state) == End && !IsGreeting(text) && !Contains(Lower(text), "cancel order") ==>
        unchanged(this) && unchanged(store)
      ensures old(state) == End && !IsGreeting(text) && Contains(Lower(text), "cancel order") ==>
        && unchanged(this)
        && Ledger(store.members, store.orders)
           == CancelOutcome(Ledger(old(store.members), old(store.orders)), memberId, [], now).1
      ensures old(state) != End ==> (saved.Some? <==> state == End)
      ensures old(state) != End && saved.None? ==>
        store.members == old(store.members) && store.orders == old(store.orders)
      ensures old(state) != End && saved.Some? ==>
        && store.orders == old(store.orders) + [saved.value]
        && saved.value.id == |old(store.orders)| + 1 && saved.value.status == "Active"
      ensures old(state) == PlanSelection ==>
        && (Strip(text) == "1" ==> state == MemberLogin)
        && (Strip(text) == "2" ==> state == NonMemberShopping && cart == [])
        && (Strip(text) != "1" && Strip(text) != "2" ==> state == PlanSelection)
      ensures old(state) == MemberLogin ==>
        (state == MemberShopping <==> old(tempId).Some? && store.CheckMember(old(tempId).value, Strip(text)).Some?)
      ensures old(state) == TakeawaySelection ==> (state == End <==> PickupMinutes(Strip(text)).Some?)
      ensures store.memberOrder == old(store.memberOrder)
      ensures old(state) == MemberShopping || old(state) == NonMemberShopping ==>
        && isMember == old(isMember) && memberId == old(memberId)
        && (IsCheckout(Strip(text)) && old(cart) == [] ==>
              && state == old(state) && cart == old(cart)
              && finalCoins == old(finalCoins) && finalTotal == old(finalTotal))
        && (IsCheckout(Strip(text)) && old(cart) != [] && !isMember ==>
              state == TakeawaySelection && cart == old(cart) && finalTotal == Some(Total(MenuNonMember, cart)))
        && (IsCheckout(Strip(text)) && old(cart) != [] && isMember ==>
              var due := Total(MenuMember, old(cart));
              && cart == old(cart)
              && (due > store.GetMemberBalance(memberId.value) ==>
                    state == MemberShopping && finalCoins == old(finalCoins))
              && (due <= store.GetMemberBalance(memberId.value) ==>
                    state == MemberDeliveryChoice && finalCoins == Some(due)))
        && (!IsCheckout(Strip(text)) && isMember && IsBalanceQuery(Strip(text)) ==>
              state == MemberShopping && cart == old(cart) && finalCoins == old(finalCoins))
        && (!IsCheckout(Strip(text)) && !(isMember && IsBalanceQuery(Strip(text))) ==>
              && cart == ApplyLines(ActiveMenu(isMember), old(cart), SplitSep(Strip(text))).0
              && state == old(state) && finalCoins == old(finalCoins) && finalTotal == old(finalTotal))
      ensures old(state) == TakeawaySelection && saved.Some? ==>
        && saved.value == Order(|old(store.orders)| + 1, GuestId(guestNumber), old(finalTotal.value),
                                Summary(old(cart)), "Takeaway", now, None, "Active")
        && store.members == old(store.members)
      ensures old(state) == MemberDeliveryChoice ==>
        && ((Strip(text) == "1" && DeliveryOpen(HourOf(now))) || Strip(text) == "3" ==>
              && (saved.None? ==> state == MemberShopping)
              && Paid(old(store.members), old(store.orders), store.members, store.orders,
                      old(memberId.value), old(finalCoins.value),
                      if Strip(text) == "1" then TodayDelivery else MemberTakeaway,
                      old(preorderDate), old(cart), now, saved))
        && (Strip(text) == "2" ==>
              state == MemberPreorderDate && preorderDate == Some(DayOf(now) + 1) && unchanged(store))
        && (Strip(text) != "1" && Strip(text) != "2" && Strip(text) != "3" && (Lower(Strip(text)) == "cancel" || Strip(text) == "4") ==>
              state == MemberShopping && unchanged(store))
        && ((Strip(text) == "1" && !DeliveryOpen(HourOf(now))) ||
            (Strip(text) != "1" && Strip(text) != "2" && Strip(text) != "3" && Lower(Strip(text)) != "cancel" && Strip(text) != "4") ==>
              state == MemberDeliveryChoice && unchanged(store))
      ensures old(state) == MemberPreorderDate ==>
        var t := Lower(Strip(text));
        && (t == "yes" || t == "y" || t == "confirm" ==>
              && (saved.None? ==> state == MemberShopping)
              && Paid(old(store.members), old(store.orders), store.members, store.orders,
                      old(memberId.value), old(finalCoins.value),
                      PreorderDelivery, old(preorderDate), old(cart), now, saved))
        && (!(t == "yes" || t == "y" || t == "confirm") && (t == "cancel" || t == "no" || t == "stop") ==>
              state == MemberShopping && unchanged(store))
        && (!(t == "yes" || t == "y" || t == "confirm" || t == "cancel" || t == "no" || t == "stop") ==>
              state == MemberPreorderDate && unchanged(store))
    {
      saved := None;
      if state == End {
        ReceiveIdle(text, store, now);
      } else if state == TakeawaySelection || state == MemberDeliveryChoice || state == MemberPreorderDate {
        saved := ReceiveSaving(text, store, now, guestNumber);
      } else {
        ReceiveTalk(text, store);
      }
    }
  }

  /** What a member's payment did to the store: when the stored balance covers the fixed
      total, that balance drops by exactly the total and one order of that amount is
      appended; otherwise nothing is saved and the store is as before. */
  ghost predicate Paid(members: map<string, Member>, orders: seq<Order>,
                       members': map<string, Member>, orders': seq<Order>, id: string, due: int,
                       service: Service, preorderDate: Option<int>, cart: Cart, now: int,
                       saved: Option<Order>): (r: bool)
    ensures r && saved.None? ==> members' == members && orders' == orders
    ensures r && saved.Some? ==> && orders' == orders + [saved.value]
                                 && saved.value.amount == due && saved.value.memberId == id
                                 && saved.value.status == "Active" && members'.Keys == members.Keys
  {
    var balance := if id in members then members[id].coins else 0;
    if balance - due < 0 then saved == None && members' == members && orders' == orders
    else
      && saved == Some(Order(|orders| + 1, id, due, Summary(cart), OrderTypeOf(service), now,
                             if service == PreorderDelivery then preorderDate else None, "Active"))
      && orders' == orders + [saved.value]
      && members' == (if id in members then members[id := members[id].(coins := balance - due)] else members)
  }

  /** The second credit of the bot's code: the session's member record, which is the
      store's own, is credited the refund again and the reply reports the new balance. */
  method CreditAgain(store: MockStore, id: string, reply: CancelReply) returns (r: CancelReply)
    modifies store
    requires store.Valid() && reply.Cancelled? && id in store.members
    ensures store.Valid()
    ensures store.members == Credit(old(store.members), id, reply.refunded)
    ensures r == Cancelled(reply.orderId, reply.refunded, store.members[id].coins)
    ensures store.orders == old(store.orders) && store.memberOrder == old(store.memberOrder)
  {
    var current := store.GetMemberBalance(id);
    store.UpdateMemberCoins(id, current + reply.refunded);
    r := Cancelled(reply.orderId, reply.refunded, store.GetMemberBalance(id));
  }

  /** The judgement and the refund once an order is picked. */
  method CancelPicked(o: Order, owner: string, store: MockStore, now: int) returns (reply: CancelReply)
    modifies store
    requires store.Valid()
    ensures store.Valid()
    ensures (reply, Ledger(store.members, store.orders))
      == PickedOutcome(Ledger(old(store.members), old(store.orders)), o, owner, now)
    ensures store.memberOrder == old(store.memberOrder)
  {
    if o.status != "Active" {
      return AlreadyProcessed;
    }
    var v := Eligibility(o.orderType, Some(o.time), o.deliveryDate, now);
    if v != Eligible {
      return CancelFailed(Reason(v));
    }
    var ok := store.CancelOrderRefund(o.id, owner, o.amount);
    if !ok {
      return CancelError;
    }
    return Cancelled(o.id, o.amount, store.GetMemberBalance(owner));
  }

  /** The store half of a member's payment: the balance is read again and, when it covers
      the total, reduced by exactly the total before one order of that amount is saved. */
  method Pay(store: MockStore, id: string, due: int, service: Service, delivery: Option<int>,
             cart: Cart, now: int) returns (saved: Option<Order>)
    modifies store
    requires store.Valid()
    requires service != PreorderDelivery ==> delivery == None
    ensures store.Valid() && store.memberOrder == old(store.memberOrder)
    ensures Paid(old(store.members), old(store.orders), store.members, store.orders, id, due,
                 service, delivery, cart, now, saved)
  {
    var balance := store.GetMemberBalance(id);
    var newBalance := balance - due;
    if newBalance < 0 {
      return None;
    }
    store.UpdateMemberCoins(id, newBalance);
    var o := store.SaveOrder(id, due, OrderTypeOf(service), delivery, Summary(cart), now);
    saved := Some(o);
  }
}
