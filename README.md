# Merchant ordering bot — a Dafny model

This project models the ordering core of a Telegram bot for a salad shop and the services around it.

- **Customers.** A customer logs in as a member paying in coins, or shops as a guest. They type items into a cart and check out. Members choose today's delivery, a pre-order for tomorrow or a takeaway. Guests choose a takeaway slot. A command cancels the last order.
- **Store.** The bot runs against an in-memory store: a dictionary of members and an append-only list of orders.
- **Staff.** Staff use a small HTTP service to place orders by hand and mark them completed. A dashboard lists the open orders and shows three counters.

The model is split by module:

- `Text` (text.dfy): the string operations the code relies on (strip, lower, digit tests, splitting, decimal conversion).
- `Catalog` (catalog.dfy): the two menus and how an identifier typed by a user resolves to an item.
- `CartLedger` (cart.dfy): one add or remove instruction applied to the cart, and the cart total.
- `Shopping` (shopping.dfy): a shopping message read line by line, following the regular expression the bot uses, and the loop that applies the lines.
- `CancelPolicy` (policy.dfy): the rule that decides whether an order can still be cancelled.
- `MockDatabase` (store.dfy): the in-memory store, as a class whose methods update members and orders in place.
- `Bot` (bot.dfy): the session of one user and its conversation states, as a class whose handlers change the session and the store. It also holds the cancel command, stated as a function over the store's contents.
- `StaffApi` (staff.dfy): placing and completing orders by hand.
- `Dashboard` (dashboard.dfy): the order filters, the counters and the owner label on an order card.

How the outside world is represented:

- **Time.** Instants are whole microseconds, the resolution of Python's `datetime`. A delivery date is a day number. The caller passes in the current instant `now`, and the hour of day is derived from it.
- **Guest ids.** The random guest number is a parameter between 1000 and 9999.
- **Replies.** The text the bot sends back is not modelled. Each handler states the new state, the session data and the store contents instead; the cancel command returns a reply datatype.

## Model

| member | source | states |
|---|---|---|
| Catalog.Resolve | bot.py:258-272 | An all-digit identifier n names the n-th item (1-based) exactly when 1 <= n <= the menu's length. Any other identifier names the first item, in menu order, whose lower-cased name contains the lower-cased identifier. It names nothing when no item matches. |
| Catalog.MenusWellFormed | bot.py:40-65 | Both menus have ten distinct names, listed in the same order. |
| Catalog.PriceOf | bot.py:96 | `menu.get(item, 0)`: the item's price, or 0 for a name not on the menu. |
| Catalog.IndexOfName | bot.py:96 | The position of the name in the menu, or none exactly when the name is not on it. |
| Catalog.FirstNameMatch | bot.py:269-272 | The first position whose name matches, with no match before it; none when nothing matches. |
| Catalog.ResolveIndexExample | bot.py:262-266 | "2" names "Protein Bowl". |
| Catalog.ResolveIndexOutOfRange | bot.py:265 | "11" names nothing on the ten-item menu. |
| Catalog.ResolveNameExample | bot.py:268-272 | "protein" names "Protein Bowl", the first item whose name contains it. |
| CartLedger.ApplyOutcome | bot.py:275-296 | Removing an absent item changes nothing. Removing at least the current quantity deletes the entry; removing less sets current − qty. Adding qty > 0 raises the quantity by qty, creating the entry if needed. Adding 0 deletes the entry. |
| CartLedger.ApplyKeepsValid | bot.py:275-296 | Each instruction keeps the cart free of duplicate names and of quantities <= 0, and leaves every other item as it was. |
| CartLedger.ApplyValid | bot.py:275-296 | After an instruction no name occurs twice and no quantity is <= 0. |
| CartLedger.ApplyOthers | bot.py:275-296 | An instruction leaves the presence and quantity of every other item as they were. |
| CartLedger.Apply | bot.py:275-296 | An instruction yields at most one update line, naming the instruction's item. It yields none exactly for an add of 0 of an item not in the cart. When it yields none, or reports the item not in the cart, the cart is unchanged. |
| CartLedger.ApplyFromMenu | bot.py:274-296 | Only resolved menu items ever enter the cart. |
| CartLedger.PutSpec | bot.py:284-291 | Setting a positive quantity keeps the cart valid, gives the item that quantity and changes no other item. |
| CartLedger.DeleteSpec | bot.py:281-295 | Deleting an entry removes that item only and keeps the cart valid. |
| CartLedger.DeleteValid | bot.py:281-295 | A deletion leaves no name twice and no quantity <= 0. |
| CartLedger.DeleteOther | bot.py:281-295 | A deletion leaves every other item's presence and quantity as they were. |
| CartLedger.Find | bot.py:277-294 | The position of the item's entry, or none exactly when the item is not in the cart. |
| CartLedger.FindUnique | bot.py:277 | In a valid cart, an entry is found at its own position. |
| CartLedger.CartTotal | bot.py:87-101 | The loop computes the sum of price × quantity over the entries, with an unknown item priced 0. |
| CartLedger.ApplyTotal | bot.py:275-308 | After an instruction, the total changes by the item's price times the change in its quantity. |
| CartLedger.TotalAfterDelete | bot.py:281-308 | Deleting an entry takes price × quantity off the total. |
| CartLedger.TotalAfterPut | bot.py:284-308 | Setting a quantity changes the total by price × the quantity's change. |
| CartLedger.TotalUpdateAt | bot.py:95-98 | Replacing one entry changes the total by the difference of the two costs. |
| CartLedger.TotalRemoveAt | bot.py:95-98 | Dropping one entry takes its cost off the total. |
| CartLedger.TotalAppend | bot.py:95-98 | Appending an entry adds its cost to the total. |
| CartLedger.TotalNonNegative | bot.py:95-98 | No valid cart has a negative total. |
| CartLedger.Summary | bot.py:488 | The items text is empty exactly for an empty cart; it begins with the first entry's `name xqty` and ends with the last entry's. |
| CartLedger.SummaryLine | bot.py:488 | `f"{k} x{v}"` is at least three characters long. |
| CartLedger.PutQuantity | bot.py:291 | After a put, the item has exactly the quantity put. |
| CartLedger.FindLast | bot.py:277 | No entry after the found one has the same name. |
| CartLedger.FindLastPut | bot.py:284-291 | A put does not move an existing entry. |
| Shopping.ParseBodyMeaning | bot.py:253-256 | The pattern `(.+?)\s*[xX*]\s*(\d+)` reads a cleaned line exactly when some first-group length fits. The length read is the smallest that fits, the identifier is the stripped group, and the quantity is the value of the digit run. |
| Shopping.FirstMatch | bot.py:253 | The lazy first group: the smallest fitting length at or after `from`, or none when no length fits. |
| Shopping.SkipSpace | bot.py:253 | The greedy `\s*`: it stops at the first character that is not white space. |
| Shopping.SkipDigits | bot.py:253 | The greedy `\d+`: it stops at the first character that is not a digit. |
| Shopping.QtyText | bot.py:256 | The second group is the whole run of digits after the marker and its white space: all digits, read from there, and not followed by another digit. |
| Shopping.Clean | bot.py:246-249 | The line is a removal exactly when its stripped text starts with `remove` in any case. The cleaned text neither starts nor ends with white space. For a removal it is at least six characters shorter than the stripped line; otherwise it is the stripped line. |
| Shopping.ParseBody | bot.py:253-256 | A cleaned line is read exactly when some first-group length fits the pattern, and the identifier read neither starts nor ends with white space. |
| Shopping.ParseLine | bot.py:244-256 | A line is an instruction exactly when the pattern fits its cleaned text, and then it is a removal exactly when the stripped line starts with `remove` in any case. |
| Shopping.Step | bot.py:254-298 | One line yields at most one update line, and a line yielding none leaves the cart as it was. An unreadable line changes nothing. An identifier that names no item is reported as not found and changes nothing. |
| Shopping.ApplyLines | bot.py:243-298 | A message yields at most one update line per line, and when it yields none the cart is as it was. |
| Shopping.ApplyLinesSnoc | bot.py:243-298 | Applying one more line is one more step after the lines before it. |
| Shopping.ParseRender | bot.py:244-256 | Reading back a line written as the help text shows it (`[remove ]ident x n`) gives the same instruction. |
| Shopping.ParseRemoval | bot.py:247-249 | The `remove` keyword is recognised in any case and removed with the white space after it. |
| Shopping.ParseAddition | bot.py:246-256 | A plain `ident x n` line reads as an addition of n. |
| Shopping.RenderedBody | bot.py:253-256 | `ident x n` matches with the identifier and n. |
| Shopping.NoEarlyMatch | bot.py:253 | A rendered line gives no shorter match. |
| Shopping.RenderedMatch | bot.py:253-256 | In `ident x digits` the lazy group first matches after the whole identifier and the quantity group is the digits. |
| Shopping.SkipSpaceExtend | bot.py:253 | Text after a prefix does not change where the space skip inside the prefix stops. |
| Shopping.CleanRemoval | bot.py:246-249 | A line starting with the keyword in any case is marked as a removal and keeps the stripped rest. |
| Shopping.CleanPlain | bot.py:246-247 | A line not starting with the keyword is only stripped. |
| Shopping.ParseLineOf | bot.py:244-256 | The cleaned line and its match together give the instruction. |
| Shopping.ParseCompactExample | bot.py:251-253 | "2x4" reads as item 2, quantity 4. |
| Shopping.CompactClean | bot.py:246-247 | "2x4" is just stripped. |
| Shopping.CompactBody | bot.py:253-256 | "2x4" matches as ("2", 4). |
| Shopping.ParseRemoveExample | bot.py:247-256 | "REMOVE 1 x 2" reads as a removal of 2 of item 1. |
| Shopping.ParseNoQuantityExample | bot.py:253-254 | "Protein Bowl" has no quantity and is not an instruction. |
| Shopping.StepKeepsValid | bot.py:254-298 | One line keeps the cart free of duplicate names and of quantities <= 0. |
| Shopping.StepFromMenu | bot.py:258-298 | One line only ever adds items of the session's menu. |
| Shopping.ApplyLinesKeepsValid | bot.py:243-298 | However many lines a message holds, the cart never holds a name twice or a quantity <= 0. |
| Shopping.ApplyLinesFromMenu | bot.py:243-298 | However many lines a message holds, the cart only holds items of the menu. |
| Shopping.UnreadableLines | bot.py:243-308 | A message in which no line reads as an instruction changes nothing and yields no update lines, so the "format not recognized" reply follows. |
| Shopping.ApplyMessage | bot.py:243-298 | The in-place loop over the lines ends with the cart and the update lines that applying the lines in order gives. |
| Text.Strip | bot.py:246 | `str.strip()`: the result is a contiguous part of the text, everything before and after it is white space, and it neither starts nor ends with white space. |
| Text.LeadingSpaces | bot.py:246 | The count of leading white-space characters: all of them are white space and the next character, if any, is not. |
| Text.LeadingSpacesAppend | bot.py:249 | Prefixing white space adds exactly its length to the leading count. |
| Text.StripIsTrim | bot.py:246 | The strip is the text after its leading white space with its trailing white space cut. |
| Text.StripLeadingSpace | bot.py:249 | Leading white space does not change the strip. |
| Text.Contains | bot.py:270 | The `in` test on strings: true exactly when the needle occurs at some position. |
| Text.NatToStringRoundTrip | bot.py:256 | Reading back a decimal numeral gives the number. |
| Text.FourDigits | bot.py:535-536 | A number from 1000 to 9999 has four digits. |
| Text.SplitSep | bot.py:240 | `re.split(r'[,\n]', text)`: at least one piece, and no piece contains a separator. |
| Text.SplitJoin | bot.py:240 | The pieces joined with the separators they were cut at give the text again. |
| Text.SplitOnNone | dashboard/src/App.jsx:127 | `split("-")` of text without a dash is the text alone. |
| Text.SplitOnFirst | dashboard/src/App.jsx:127 | The first dash ends the first piece. |
| CancelPolicy.ImmediateRule | bot.py:638-644 | For immediate and takeaway orders: eligible exactly when now − created < 900 s; otherwise refused for the time limit. |
| CancelPolicy.ImmediateBoundary | bot.py:640-641 | 899.999999 s after creation is still in time; 900 s is not. |
| CancelPolicy.UnreadableTimeInWindow | bot.py:621-640 | A creation time that parses in neither format falls back to now, so such an order is always in time. |
| CancelPolicy.PreorderRule | bot.py:646-662 | For pre-orders: eligible exactly when today is before the delivery day, or is that day and the hour is < 6. A later day means the date has passed; the delivery day from 6 AM on is refused; a missing date is a date error. |
| CancelPolicy.PreorderBoundary | bot.py:651-655 | On the delivery day, 05:59:59.999999 is in time and 06:00 is not. |
| CancelPolicy.PreorderNotImmediate | bot.py:638-646 | "Pre-order" does not fall under the 15-minute rule. |
| CancelPolicy.DayAndHour | bot.py:651-652 | The day and the hour of an instant are those of its day and offset. |
| CancelPolicy.SavedTypesHaveRules | bot.py:638-662 | Each order type the bot saves has a rule. |
| CancelPolicy.RefusalsHaveReasons | bot.py:644-662 | Every refusal under a rule carries a non-empty reason. |
| CancelPolicy.HourOf | bot.py:652 | The hour is between 0 and 23. |
| CancelPolicy.Eligibility | bot.py:638-662 | An immediate or takeaway order is either eligible or refused for the time limit, and only such orders are refused for time. Only a pre-order gets the delivery-day, date-passed or date-error refusal. A type is outside every rule exactly when it is neither immediate nor "Pre-order". |
| MockDatabase.MockStore.constructor | database.py:13-17 | The two demo members with pin "1234" and 1500 coins, and no orders. |
| MockDatabase.MockStore.CheckMember | database.py:176-182 | The member's record exactly when the id is known and the pin is the stored one; nothing otherwise. |
| MockDatabase.MockStore.GetMemberBalance | database.py:207-210 | The stored coins for a known id, and 0 for an unknown one. |
| MockDatabase.MockStore.UpdateMemberCoins | database.py:224-229 | Sets only that member's coins; an unknown id changes nothing; the orders are untouched. |
| MockDatabase.MockStore.SaveOrder | database.py:242-259 | Appends exactly one order with id = number of orders + 1 and status "Active", carrying the given fields and the current time. Nothing else changes, and the ids stay sequential. |
| MockDatabase.MockStore.GetLastActiveOrder | database.py:281-287 | The backwards scan returns the most recently appended active order of the member, or none when there is none. |
| MockDatabase.MockStore.FindOrder | bot.py:595-600 | The forward scan over all orders returns the first order with the id, or none. |
| MockDatabase.MockStore.UpdateOrderStatus | database.py:351-358 | When some order has the id, the first such order gets the status, whatever its old status, and the result is true. Otherwise the result is false and nothing changes. |
| MockDatabase.MockStore.CancelOrderRefund | database.py:320-329 | Marks the order "Cancelled" and adds the refund to the member's coins. For an owner that is not a member the status is still flipped, no coins change and the result is false. |
| MockDatabase.MockStore.GetAllOrders | database.py:374-377 | The stored orders, in the order they were saved. |
| MockDatabase.MockStore.GetAllMembers | database.py:398-401 | Every member exactly once, in dictionary (insertion) order: the i-th record listed is the record of the i-th id inserted. |
| MockDatabase.LastActive | database.py:281-287 | The chosen order is active, belongs to the member and has no active order of the member after it; none exactly when the member has no active order. |
| MockDatabase.IndexOfId | database.py:354-356 | The first position holding the id, or none when no order holds it. |
| MockDatabase.OrderById | bot.py:595-600 | An order exactly when some order has the id, and then the first one. |
| MockDatabase.SequentialLookup | database.py:249 | With sequential ids, the ids 1 to n are found at position id − 1, and no other id is found. |
| MockDatabase.AppendKeepsSequential | database.py:249-258 | Appending with the next id keeps the ids sequential and distinct. |
| MockDatabase.GuestId | bot.py:535-536 | The guest owner id is "Guest-" followed by the decimal digits of the number, ten characters long. |
| MockDatabase.StatusUpdateLocal | database.py:356 | Changing one order's status changes no other order and keeps the ids sequential. |
| Bot.StateNumber | bot.py:68-74 | The seven conversation states are numbered 1 to 7, and the end marker lies outside that range. |
| Bot.StateNumbersDistinct | bot.py:68-74 | No two states share a number. |
| Bot.Transition | bot.py:703-717 | Any state may stay or end. Every other move goes to a higher-numbered state, except a return to member shopping. Only the end leads to plan selection. The takeaway selection can only stay or end. |
| Bot.OrderTypeOf | bot.py:465-484 | Only a pre-order is saved as "Pre-order"; today's delivery and a member's takeaway are saved as "Immediate". |
| Bot.PickupMinutes | bot.py:524-530 | Replies "1", "2" and "3" pick 15, 30 and 45 minutes; any other reply picks nothing. |
| Bot.TargetId | bot.py:564-569 | An id is given exactly when the first argument is all digits. |
| Bot.TargetIdOfNumber | bot.py:564-569 | A number written in decimal as the first argument is read back as that number. |
| Bot.CancelTarget | bot.py:571-608 | A non-zero id argument picks an order exactly when some order has that id, and then the first such order, with its owner taken from it. Otherwise, for a logged-in member, the member's last active order is picked, and nothing exactly when there is none. Without a member and an id the session has expired. |
| Bot.CancelOutcome | bot.py:560-687 | The reply is "session expired" or "no active order" exactly when the lookup says so. Every reply other than a success or the error leaves the store as it was. The number of orders and the set of members never change. |
| Bot.PickedOutcome | bot.py:610-687 | A picked order is cancelled (or fails on an unknown owner) exactly when it is active and its rule allows it. It succeeds exactly when, in addition, the owner is a member. Then the reply reports the order's id and amount, and the owner's new balance is the old one plus the amount. Every other member keeps their record. |
| Bot.CancelOutcomeAsWritten | bot.py:664-671 | As written, the orders end as the corrected command leaves them, and the command succeeds exactly when the corrected one does. Only the session's own member record can differ. |
| Bot.CancelRefundsOnce | bot.py:610-676 | A successful cancel needs an active order that its rule allows. It marks exactly that order "Cancelled" and credits its amount once to its owner only; every other member and order is unchanged. |
| Bot.CancelSucceedsIff | bot.py:606-666 | A cancel succeeds exactly when an active order is picked, its rule allows it and its owner is a member. |
| Bot.RefusalChangesNothing | bot.py:577-683 | Every refusal leaves the store as it was. |
| Bot.PickedIsStored | bot.py:595-604 | The picked order is stored at the position its id names. |
| Bot.AsWrittenRefundsTwice | bot.py:664-671 | As written, a member cancelling their own last order is refunded twice the amount; corrected, once. |
| Bot.DemoDoubleRefund | bot.py:664-676 | Member 97011 at 1390 coins cancels a 110-coin order: the reply reports 1500 corrected and 1610 as written. |
| Bot.Session.constructor | bot.py:703-707 | A fresh user: no conversation, an empty cart, no member. |
| Bot.Session.Start | bot.py:107-121 | Clears the session data and moves to plan selection. |
| Bot.Session.HandlePlanSelection | bot.py:123-136 | "1" asks for the member id. "2" starts a guest with an empty cart. Anything else stays in plan selection. |
| Bot.Session.HandleLogin | bot.py:149-191 | The first turn only stores the id and stays. A second turn with the right pin logs in with an empty cart and moves to member shopping. A wrong pin forgets the id and stays. |
| Bot.Session.HandleShopping | bot.py:208-332 | Checkout with an empty cart stays. A member checkout runs the funds pre-check; a guest checkout fixes the total and asks for a slot. A member's balance keywords change nothing, and neither the fixed coins nor the fixed total moves outside a non-empty checkout. Any other text applies its lines to the cart, and the new total is reported. |
| Bot.Session.Checkout | bot.py:215-225 | An empty cart stays in shopping with the fixed coins and total untouched; a member's cart goes to the funds pre-check; a guest's cart has its total fixed before the slot is asked for. |
| Bot.Session.ReadItems | bot.py:238-308 | The lines of the message are applied to the cart in place; the notices and the total are those of the new cart. |
| Bot.Session.AskMemberDeliveryOption | bot.py:334-384 | When the member-menu total exceeds the stored balance, shopping resumes; otherwise the total is fixed and the service is asked for. No balance changes either way. |
| Bot.Session.FinalizeNonMemberOrder | bot.py:504-520 | Fixes the guest-menu total and moves to takeaway selection. |
| Bot.Session.HandleMemberDeliveryChoice | bot.py:386-425 | "1" pays only while 0 <= hour < 8. "3" pays for a takeaway. "2" stores tomorrow and asks for confirmation without paying. "cancel" or "4" returns to shopping. Anything else stays. The member listing order is kept. |
| Bot.Session.HandleMemberPreorderDate | bot.py:427-443 | "yes", "y" or "confirm" pays for the pre-order. "cancel", "no" or "stop" returns to shopping. Anything else stays. The member listing order is kept. |
| Bot.Session.ProcessMemberTransaction | bot.py:445-502 | The balance is re-read. When it no longer covers the total nothing changes and shopping resumes. Otherwise the balance becomes exactly balance − total, one order of that amount is saved, and the conversation ends. The member listing order is kept, since the balance is updated in place. |
| Bot.Paid | bot.py:445-502 | A refused payment leaves both balances and orders as they were. A saved order is appended to the orders, carries the member's id, the due amount and the status "Active", and no member is added or removed. |
| Bot.Pay | bot.py:452-489 | The store half of a member payment: the re-read, the check, the debit and the save end as `Paid` states, and the member listing order is kept. |
| Bot.Session.HandleTakeaway | bot.py:522-554 | A slot reply saves one "Takeaway" order under "Guest-N", with the fixed total, and ends the conversation; no balance changes. Any other reply stays. |
| Bot.Session.Cancel | bot.py:556-558 | `/cancel` ends the conversation. |
| Bot.Session.PickOrder | bot.py:564-605 | The lookup the command does against the store is the order `CancelTarget` picks. |
| Bot.Session.CancelLastOrder | bot.py:560-687 | The store and the reply end as `CancelOutcome` states. |
| Bot.CancelPicked | bot.py:610-687 | Once an order is picked, the store and the reply end as `PickedOutcome` states: only an active order its rule allows is cancelled and its owner refunded. |
| Bot.CreditAgain | bot.py:667-669 | The session's member record, the store's own, is credited the refund a second time, and the reply reports that balance. |
| Bot.Session.CancelLastOrderAsWritten | bot.py:664-671 | The store and the reply end as `CancelOutcomeAsWritten` states. |
| Bot.Session.ReceiveIdle | bot.py:703-724 | Outside a conversation, a greeting starts one with an empty cart and no member and leaves the store alone. A message containing "cancel order" changes the store as the cancel outcome states and leaves the session alone. Any other message changes nothing. |
| Bot.Session.ReceiveTalk | bot.py:708-714 | Plan selection, login and shopping messages never end the conversation. Plan selection moves as its handler says, and login reaches shopping exactly when the stored id and the pin check out. A shopping message checks out as `Checkout` says, answers a member's balance query without changing anything, or applies its lines to the cart while the state and the fixed coins and total stay. |
| Bot.Session.ReceiveSaving | bot.py:712-715 | In the takeaway, delivery-choice and pre-order states an order is saved exactly when the conversation ends, with the next id and status "Active". A takeaway saves the guest order without touching any balance. A delivery choice of "1" (before 8 AM) or "3", and a pre-order confirmation, pay as `Paid` states; every other reply moves as its handler says and leaves the store unchanged. The member listing order is kept. |
| Bot.Session.Receive | bot.py:703-724 | Each step follows the conversation graph. Outside a conversation, routing is as `ReceiveIdle` states. Within one, each state moves as `ReceiveTalk` and `ReceiveSaving` state: shopping edits the cart or checks out, a guest's takeaway appends its order and leaves the balances alone, and a member's payment debits the balance and appends the order as `Paid` states. An order is saved exactly when the conversation ends, and the member listing order is kept. |
| StaffApi.RefusalIff | main.py:105-108 | A request is refused exactly when it is for a member and the reported balance is below the amount; a refusal changes nothing. |
| StaffApi.MemberPays | main.py:110-112 | A placed order for a known member debits exactly the amount, never below zero, and no other member's balance moves. |
| StaffApi.UnknownMemberReadsZero | main.py:106-112 | An unknown member id reads a balance of 0. The order is placed exactly when the amount is at most 0, and no balance changes. |
| StaffApi.NegativeAmountCredits | main.py:107-111 | The amount's sign is not checked, so a negative amount raises the member's balance. |
| StaffApi.GuestOrder | main.py:113-118 | Any other request is saved under "Guest-N" and touches no balance. |
| StaffApi.GuestRequests | main.py:105 | Examples: "", "non-member", "NON-MEMBER" and "Non-Member" take the guest path, and "97011" does not. |
| StaffApi.ForMember | main.py:105 | A member request has a non-empty id, and every id starting with a digit is a member request. |
| StaffApi.PlaceOutcome | main.py:100-120 | A request is refused exactly when it is for a member whose reported balance is below the amount, and a refusal changes nothing. A placed order is appended with the next id, status "Active" and the request's amount. No member is ever added or removed, and a guest request touches no balance. |
| StaffApi.PlacedAppends | main.py:112-118 | A placed order is appended with the next id, status "Active" and the request's fields, and the ids stay sequential. |
| StaffApi.PlaceOrder | main.py:100-120 | The store and the reply end as the place-order rule states. |
| StaffApi.CompleteIff | main.py:122-127 | With sequential ids, completion succeeds exactly for the ids 1 to n, changes that order's status only, and keeps the ids sequential. |
| StaffApi.CompleteOutcome | main.py:122-127 | Completion succeeds exactly when some order has the id. A failure changes nothing; no order with another id changes, and the number of orders stays. |
| StaffApi.CompleteOrder | main.py:122-127 | Reports success exactly when the status update found the order, and the orders end updated as that rule says. |
| Dashboard.FilterContents | dashboard/src/App.jsx:30-38 | No list holds a completed order. "ALL" and any unknown filter hold every other order. "MEMBER" and "NON-MEMBER" hold exactly the visible orders that pass their test. |
| Dashboard.MemberAndGuestExclusive | dashboard/src/App.jsx:35-36 | No order passes both the member and the guest test. |
| Dashboard.FiltersPartition | dashboard/src/App.jsx:35-122 | The MEMBER and NON-MEMBER lists share no order and together cover every visible order with an owner. An order without an owner is in neither list. |
| Dashboard.ListLengths | dashboard/src/App.jsx:30-38 | The MEMBER and NON-MEMBER lists together are no longer than the ALL list. |
| Dashboard.KeepDisjoint | dashboard/src/App.jsx:35-36 | Two disjoint filters keep no more orders in total than there are. |
| Dashboard.Keep | dashboard/src/App.jsx:32-36 | `Array.filter`: an order is kept exactly when it is in the list and passes the test, and each passing order is kept as many times as it occurs. |
| Dashboard.KeepAppend | dashboard/src/App.jsx:32-36 | Filtering keeps the order of the list: the kept part of two lists in a row is the kept part of the first followed by that of the second. |
| Dashboard.KeepOne | dashboard/src/App.jsx:32-36 | A single order is kept exactly when it passes the test. |
| Dashboard.IsGuest | dashboard/src/App.jsx:121 | A guest badge needs an owner id of at least six characters. |
| Dashboard.IsMemberOrder | dashboard/src/App.jsx:35 | A member order has a non-empty owner id and never wears the guest badge. |
| Dashboard.FilteredOrders | dashboard/src/App.jsx:30-38 | Every list is drawn from the orders and holds no completed order. "ALL" and any unknown filter hold every order that is not completed. |
| Dashboard.ComputeStats | dashboard/src/App.jsx:40-50 | The total is the number of orders. The active count is the number of orders whose status is "Active", never more than the total. The revenue is `Revenue`. |
| Dashboard.ActiveCount | dashboard/src/App.jsx:42 | The number of orders whose status is "Active", never more than the total. |
| Dashboard.Statuses | dashboard/src/App.jsx:42 | The statuses of the orders, position by position. |
| Dashboard.ActiveCountIsStatusCount | dashboard/src/App.jsx:42 | Filtering on "Active" keeps as many orders as there are "Active" statuses. |
| Dashboard.RevenueOfAppend | dashboard/src/App.jsx:43-49 | The revenue of two lists is the sum of their revenues. |
| Dashboard.RevenueUpdate | dashboard/src/App.jsx:43-49 | Replacing one order changes the revenue by the difference of the two shares. |
| Dashboard.RevenueNonNegative | dashboard/src/App.jsx:43-49 | Without negative amounts the revenue is not negative. |
| Dashboard.Revenue | dashboard/src/App.jsx:43-49 | Orders that are all cancelled bring no revenue. |
| Dashboard.StatusChangeRevenue | dashboard/src/App.jsx:32-49 | Completing an active order hides it from the list but keeps its amount in the revenue; cancelling it takes its amount off. |
| Dashboard.PlacedOrderCounted | dashboard/src/App.jsx:41-49 | A newly placed order adds one to the total and its amount to the revenue. |
| Dashboard.GuestDisplay | dashboard/src/App.jsx:124-128 | For an owner starting with "Guest-", the label is the text after that dash, up to any further dash. |
| Dashboard.GuestIdDisplay | dashboard/src/App.jsx:121-128 | An order saved under "Guest-N" wears the guest badge, and its label is just the four digits of N. |
| Dashboard.OtherDisplay | dashboard/src/App.jsx:124-128 | Any other owner is shown unchanged. |
| Dashboard.DisplayId | dashboard/src/App.jsx:124-128 | Every owner has a label, and only an order with an owner has one. An owner not starting with "Guest-" is shown as it is. |
| Dashboard.ToView | dashboard/src/App.jsx:30-50 | A stored order seen by the dashboard keeps its id, owner, amount and status. |
| Dashboard.ToViews | dashboard/src/App.jsx:30-50 | The list the dashboard receives is the stored list, order by order. |

## Left out

- Telegram transport, reply texts, keyboards, Markdown, the greeting by time of day and the application setup: output and wiring only. The replies of the cancel command are a datatype.
- The clock, `strptime` and date formatting: the current instant is a parameter. Dates are day numbers and the delivery date an optional day number. The time-text fallback is the `created` = None case of `CancelPolicy.Eligibility`.
- The stored delivery date of a pre-order: in the in-memory store the order saves it under the key `delivery_date_str` (database.py:255), while the cancel command reads `delivery_date` (bot.py:648). In that store a pre-order cancel would therefore end in the generic error reply. The model reads an abstract delivery day instead, so this key mismatch is not modelled.
- The time rewrite of the orders listing: main.py's `get_orders` turns stored times into ISO text in place. That text parses in neither format the cancel command accepts, so once the dashboard has fetched the list the 15-minute window is no longer enforced (`CancelPolicy.UnreadableTimeInWindow`). The listing endpoint is not part of this model, and stored times stay instants.
- Randomness: the guest number is a parameter constrained to 1000–9999.
- The MySQL and SQLite branches of database.py, its initialisation and migration, and the duplicate endpoint file api.py: other back ends, and a copy of the rule modelled once.
- Concurrency: sessions and the staff service are not serialised. Each method is one atomic step.
- The dashboard's React rendering, polling and order form: user interface only.
- Text handling is ASCII: the model's lower-casing, white space and digit tests (`\s`, `\d`, `str.isdigit`, `str.lower`, `str.strip`) do not cover the Unicode cases Python accepts. A line break is one of the white-space characters.
- The exception handler around the cancel command: the only exception the model reaches is the unknown owner in the store's refund, modelled as the `CancelError` reply.
- Bot.Session.AskMemberDeliveryOption: prices through `PriceOf`, whose fallback is 0, while bot.py:343 indexes the menu directly and would raise for a name off the menu. The session invariant does not carry that every cart item is on the active menu (`Shopping.ApplyLinesFromMenu` proves it for the cart updates), so the model does not show that path unreachable.
- Bot.Session.Receive: a "cancel order" message runs the corrected cancel command, with the refund credited once. The code as written credits the session's record a second time, which `Bot.Session.CancelLastOrderAsWritten` models (see Findings).
- Bot.Session.HandleShopping: the balance query's reply (the stored coins) is not returned, only that nothing changes.

## Findings

| source | as written | input that shows it | evidently intended | confidence | as-written member | corrected member |
|---|---|---|---|---|---|---|
| bot.py:664-671 | After `cancel_order_refund` has credited the refund, the session's `member_data["coins"] += refund_amt` runs. In the in-memory store `member_data` is the store's own record (database.py:179-181), so the member is credited twice. | Member 97011 at 1390 coins cancels their 110-coin order two minutes after placing it: the wallet shows 1610 instead of 1500. | The refund is credited once. | not executed | Bot.CancelOutcomeAsWritten, Bot.Session.CancelLastOrderAsWritten, Bot.AsWrittenRefundsTwice, Bot.DemoDoubleRefund | Bot.CancelOutcome, Bot.Session.CancelLastOrder, Bot.CancelRefundsOnce |
