/** The shopping cart: an insertion-ordered dictionary from item name to quantity, the
    add/remove rules applied to it, and the total computed from a menu. */
module CartLedger {
  import opened Wrappers
  import opened Text
  import opened Catalog

  datatype Entry = Entry(name: string, qty: int)

  /** The cart dictionary in insertion order, which is the order the bill lists it in. */
  type Cart = seq<Entry>

  /** No name twice, and no quantity of zero or less. */
  ghost predicate Valid(c: Cart) {
    && (forall i, j :: 0 <= i < j < |c| ==> c[i].name != c[j].name)
    && (forall i :: 0 <= i < |c| ==> c[i].qty > 0)
  }

  /** Every item in the cart is on the menu. */
  ghost predicate FromMenu(c: Cart, menu: Menu) {
    forall i :: 0 <= i < |c| ==> OnMenu(menu, c[i].name)
  }

  /** The position of `name` in the cart, if it is there. */
  function Find(c: Cart, name: string): (r: Option<nat>)
    ensures r.Some? ==> r.value < |c| && c[r.value].name == name
    ensures r.None? ==> forall i :: 0 <= i < |c| ==> c[i].name != name
  {
    if |c| == 0 then None
    else if c[|c| - 1].name == name then Some(|c| - 1)
    else Find(c[..|c| - 1], name)
  }

  /** `name in cart` */
  predicate Has(c: Cart, name: string) {
    Find(c, name).Some?
  }

  /** `cart.get(name, 0)` */
  function Quantity(c: Cart, name: string): int {
    match Find(c, name)
    case Some(i) => c[i].qty
    case None => 0
  }

  /** In a valid cart the entry at a position is the one Find returns for its name. */
  lemma FindUnique(c: Cart, i: nat)
    requires Valid(c) && i < |c|
    ensures Find(c, c[i].name) == Some(i)
  {
  }

  /** `cart[name] = q`: an existing entry keeps its place, a new one goes last. */
  function Put(c: Cart, name: string, q: int): (r: Cart)
    ensures Has(c, name) ==> r == c[Find(c, name).value := Entry(name, q)]
    ensures !Has(c, name) ==> r == c + [Entry(name, q)]
  {
    match Find(c, name)
    case Some(i) => c[i := Entry(name, q)]
    case None => c + [Entry(name, q)]
  }

  /** `del cart[name]` on a present name: the others keep their order. */
  function Delete(c: Cart, name: string): (r: Cart)
    requires Has(c, name)
    ensures r == c[..Find(c, name).value] + c[Find(c, name).value + 1..]
  {
    var i := Find(c, name).value;
    c[..i] + c[i + 1..]
  }

  /** What a dictionary assignment does to the cart. */
  lemma PutSpec(c: Cart, name: string, q: int)
    requires Valid(c) && q > 0
    ensures Valid(Put(c, name, q))
    ensures Has(Put(c, name, q), name) && Quantity(Put(c, name, q), name) == q
    ensures forall m :: m != name ==> Has(Put(c, name, q), m) == Has(c, m)
    ensures forall m :: m != name ==> Quantity(Put(c, name, q), m) == Quantity(c, m)
  {
    var r := Put(c, name, q);
    if Has(c, name) {
      var i := Find(c, name).value;
      FindUnique(r, i);
      forall m | m != name ensures Find(r, m) == Find(c, m) {
        match Find(c, m)
        case Some(k) => FindUnique(c, k); FindUnique(r, k);
        case None =>
      }
    } else {
      FindUnique(r, |c|);
      forall m | m != name ensures Find(r, m) == Find(c, m) {
        assert r[..|r| - 1] == c;
      }
    }
  }

  /** What a deletion does to the cart. */
  lemma DeleteSpec(c: Cart, name: string)
    requires Valid(c) && Has(c, name)
    ensures Valid(Delete(c, name))
    ensures !Has(Delete(c, name), name) && Quantity(Delete(c, name), name) == 0
    ensures forall m :: m != name ==> Has(Delete(c, name), m) == Has(c, m)
    ensures forall m :: m != name ==> Quantity(Delete(c, name), m) == Quantity(c, m)
  {
    var i := Find(c, name).value;
    var r := Delete(c, name);
    DeleteValid(c, name);
    assert forall k :: 0 <= k < |r| ==> r[k] == if k < i then c[k] else c[k + 1];
    assert forall k :: 0 <= k < |r| ==> r[k].name != name;
    forall m | m != name ensures Find(r, m).Some? == Find(c, m).Some? && Quantity(r, m) == Quantity(c, m) {
      DeleteOther(c, name, m);
    }
  }

  /** Deleting an entry keeps the cart valid. */
  lemma DeleteValid(c: Cart, name: string)
    requires Valid(c) && Has(c, name)
    ensures Valid(Delete(c, name))
  {
    var i := Find(c, name).value;
    var r := Delete(c, name);
    assert forall k :: 0 <= k < |r| ==> r[k] == if k < i then c[k] else c[k + 1];
  }

  /** Deleting one name leaves the entry of any other name as it was. */
  lemma DeleteOther(c: Cart, name: string, m: string)
    requires Valid(c) && Has(c, name) && m != name
    ensures Find(Delete(c, name), m).Some? == Find(c, m).Some?
    ensures Quantity(Delete(c, name), m) == Quantity(c, m)
  {
    match Find(c, m)
    case Some(k) =>
      FindUnique(c, k);
      DeleteKeepsEntry(c, name, k);
    case None =>
      DeleteKeepsAbsent(c, name, m);
  }

  /** A name missing from the cart is still missing after a deletion. */
  lemma DeleteKeepsAbsent(c: Cart, name: string, m: string)
    requires Has(c, name) && Find(c, m).None?
    ensures Find(Delete(c, name), m).None?
  {
    var i := Find(c, name).value;
    var r := Delete(c, name);
    forall k | 0 <= k < |r| ensures r[k].name != m {
      if k < i { assert r[k] == c[k]; } else { assert r[k] == c[k + 1]; }
    }
  }

  /** An entry before the deleted one keeps its position; one after it moves up by one. */
  lemma DeleteKeepsEntry(c: Cart, name: string, k: nat)
    requires Valid(c) && Has(c, name) && k < |c| && c[k].name != name
    ensures Find(Delete(c, name), c[k].name) == Some(if k < Find(c, name).value then k else k - 1)
  {
    var i := Find(c, name).value;
    DeleteValid(c, name);
    var j: nat := if k < i then k else k - 1;
    assert k != i;
    DeleteAt(c, name, j);
    var r := Delete(c, name);
    assert r[j] == c[k];
    FindUnique(r, j);
  }

  /** The entries after a deletion, position by position. */
  lemma DeleteAt(c: Cart, name: string, j: nat)
    requires Has(c, name) && j < |c| - 1
    ensures j < |Delete(c, name)|
    ensures Delete(c, name)[j] == if j < Find(c, name).value then c[j] else c[j + 1]
  {
  }




  /** The outcome line the bot reports for one instruction. */
  datatype Notice =
    | Added(name: string, qty: nat)
    | Removed(name: string)
    | Decreased(name: string, newQty: int)
    | NotInCart(name: string)
    | NotFound(ident: string)

  /** One resolved add or remove instruction applied to the cart, with the notice it
      produces (an add of zero for an item not in the cart changes nothing and says nothing). */
  function Apply(c: Cart, isRemoval: bool, name: string, qty: nat): (r: (Cart, seq<Notice>))
    ensures |r.1| <= 1
    ensures |r.1| == 1 ==> !r.1[0].NotFound? && r.1[0].name == name
    ensures r.1 == [] <==> !isRemoval && qty == 0 && !Has(c, name)
    ensures r.1 == [] || r.1 == [NotInCart(name)] ==> r.0 == c
  {
    if isRemoval then
      if Has(c, name) then
        var newQty := Quantity(c, name) - qty;
        if newQty <= 0 then (Delete(c, name), [Removed(name)])
        else (Put(c, name, newQty), [Decreased(name, newQty)])
      else (c, [NotInCart(name)])
    else if qty > 0 then (Put(c, name, Quantity(c, name) + qty), [Added(name, qty)])
    else if Has(c, name) then (Delete(c, name), [Removed(name)])
    else (c, [])
  }

  /** The cart rules for the named item: a removal of at least the current quantity deletes
      the entry, a smaller one lowers it, a removal of an absent item changes nothing; an add
      of q > 0 raises the quantity by q (from 0 when absent); an add of 0 deletes the entry. */
  lemma ApplyOutcome(c: Cart, isRemoval: bool, name: string, qty: nat)
    requires Valid(c)
    ensures isRemoval && !Has(c, name) ==> Apply(c, isRemoval, name, qty).0 == c
    ensures isRemoval && Has(c, name) && qty >= Quantity(c, name) ==>
      !Has(Apply(c, isRemoval, name, qty).0, name)
    ensures isRemoval && Has(c, name) && qty < Quantity(c, name) ==>
      Quantity(Apply(c, isRemoval, name, qty).0, name) == Quantity(c, name) - qty
    ensures !isRemoval && qty > 0 ==>
      Quantity(Apply(c, isRemoval, name, qty).0, name) == Quantity(c, name) + qty
    ensures !isRemoval && qty == 0 ==> !Has(Apply(c, isRemoval, name, qty).0, name)
  {
    var r := Apply(c, isRemoval, name, qty).0;
    if Has(c, name) {
      var i := Find(c, name).value;
      assert c[i].qty > 0;
      assert Quantity(c, name) > 0;
    }
    if isRemoval {
      if Has(c, name) {
        var newQty := Quantity(c, name) - qty;
        if newQty <= 0 {
          assert r == Delete(c, name);
          DeleteSpec(c, name);
        } else {
          assert r == Put(c, name, newQty);
          PutSpec(c, name, newQty);
        }
      }
    } else if qty > 0 {
      assert r == Put(c, name, Quantity(c, name) + qty);
      PutSpec(c, name, Quantity(c, name) + qty);
    } else if Has(c, name) {
      assert r == Delete(c, name);
      DeleteSpec(c, name);
    }
  }

  /** No entry ever reaches a quantity of zero or less, and every other item keeps its
      quantity. */
  lemma ApplyKeepsValid(c: Cart, isRemoval: bool, name: string, qty: nat)
    requires Valid(c)
    ensures Valid(Apply(c, isRemoval, name, qty).0)
    ensures forall m :: m != name ==> Has(Apply(c, isRemoval, name, qty).0, m) == Has(c, m)
    ensures forall m :: m != name ==> Quantity(Apply(c, isRemoval, name, qty).0, m) == Quantity(c, m)
  {
    ApplyValid(c, isRemoval, name, qty);
    ApplyOthers(c, isRemoval, name, qty);
  }

  /** The cart after an instruction is well formed. */
  lemma ApplyValid(c: Cart, isRemoval: bool, name: string, qty: nat)
    requires Valid(c)
    ensures Valid(Apply(c, isRemoval, name, qty).0)
  {
    var r := Apply(c, isRemoval, name, qty).0;
    if Has(c, name) {
      var i := Find(c, name).value;
      assert c[i].qty > 0;
      assert Quantity(c, name) > 0;
    }
    if isRemoval {
      if Has(c, name) {
        var newQty := Quantity(c, name) - qty;
        if newQty <= 0 {
          assert r == Delete(c, name);
          DeleteSpec(c, name);
        } else {
          assert r == Put(c, name, newQty);
          PutSpec(c, name, newQty);
        }
      }
    } else if qty > 0 {
      assert r == Put(c, name, Quantity(c, name) + qty);
      PutSpec(c, name, Quantity(c, name) + qty);
    } else if Has(c, name) {
      assert r == Delete(c, name);
      DeleteSpec(c, name);
    }
  }

  /** The other items of the cart are untouched by an instruction. */
  lemma ApplyOthers(c: Cart, isRemoval: bool, name: string, qty: nat)
    requires Valid(c)
    ensures forall m :: m != name ==> Has(Apply(c, isRemoval, name, qty).0, m) == Has(c, m)
    ensures forall m :: m != name ==> Quantity(Apply(c, isRemoval, name, qty).0, m) == Quantity(c, m)
  {
    var r := Apply(c, isRemoval, name, qty).0;
    if Has(c, name) {
      var i := Find(c, name).value;
      assert c[i].qty > 0;
      assert Quantity(c, name) > 0;
    }
    if isRemoval {
      if Has(c, name) {
        var newQty := Quantity(c, name) - qty;
        if newQty <= 0 {
          assert r == Delete(c, name);
          DeleteSpec(c, name);
        } else {
          assert r == Put(c, name, newQty);
          PutSpec(c, name, newQty);
        }
      }
    } else if qty > 0 {
      assert r == Put(c, name, Quantity(c, name) + qty);
      PutSpec(c, name, Quantity(c, name) + qty);
    } else if Has(c, name) {
      assert r == Delete(c, name);
      DeleteSpec(c, name);
    }
  }

  /** An applied item keeps the cart within the menu. */
  lemma ApplyFromMenu(c: Cart, menu: Menu, isRemoval: bool, name: string, qty: nat)
    requires FromMenu(c, menu) && OnMenu(menu, name)
    ensures FromMenu(Apply(c, isRemoval, name, qty).0, menu)
  {
    var r := Apply(c, isRemoval, name, qty).0;
    if r != c && Has(c, name) {
      var i := Find(c, name).value;
      if |r| < |c| {
        assert forall k :: 0 <= k < |r| ==> r[k] == c[k] || r[k] == c[k + 1];
      }
    }
  }

  /** The line cost `menu.get(item, 0) * qty`. */
  function Cost(menu: Menu, e: Entry): int {
    PriceOf(menu, e.name) * e.qty
  }

  /** The cart total: the sum of price times quantity over its entries. */
  function Total(menu: Menu, c: Cart): int {
    if |c| == 0 then 0 else Total(menu, c[..|c| - 1]) + Cost(menu, c[|c| - 1])
  }

  /** The loop of `format_cart_table` (and the same loop at the funds pre-check): adds up the
      line costs entry by entry. */
  method CartTotal(menu: Menu, c: Cart) returns (total: int)
    ensures total == Total(menu, c)
  {
    total := 0;
    var i := 0;
    while i < |c|
      invariant 0 <= i <= |c|
      invariant total == Total(menu, c[..i])
    {
      assert c[..i + 1][..i] == c[..i];
      total := total + Cost(menu, c[i]);
      i := i + 1;
    }
    assert c[..|c|] == c;
  }

  /** Replacing one entry changes the total by the difference of the two line costs. */
  lemma {:induction false} TotalUpdateAt(menu: Menu, c: Cart, i: nat, e: Entry)
    requires i < |c|
    ensures Total(menu, c[i := e]) == Total(menu, c) - Cost(menu, c[i]) + Cost(menu, e)
  {
    var r := c[i := e];
    var p := c[..|c| - 1];
    if i < |c| - 1 {
      assert r[..|r| - 1] == p[i := e];
      assert r[|r| - 1] == c[|c| - 1];
      TotalUpdateAt(menu, p, i, e);
      assert Total(menu, r) == Total(menu, p[i := e]) + Cost(menu, c[|c| - 1]);
    } else {
      assert r[..|r| - 1] == p;
      assert Total(menu, r) == Total(menu, p) + Cost(menu, e);
    }
  }

  /** Removing one entry takes its line cost off the total. */
  lemma {:induction false} TotalRemoveAt(menu: Menu, c: Cart, i: nat)
    requires i < |c|
    ensures Total(menu, c[..i] + c[i + 1..]) == Total(menu, c) - Cost(menu, c[i])
  {
    var r := c[..i] + c[i + 1..];
    if i < |c| - 1 {
      var p := c[..|c| - 1];
      var q := p[..i] + p[i + 1..];
      assert |r[..|r| - 1]| == |q|;
      forall k | 0 <= k < |q| ensures r[..|r| - 1][k] == q[k] {
        if k < i { assert q[k] == c[k]; } else { assert q[k] == c[k + 1]; }
      }
      assert r[..|r| - 1] == q;
      assert r[|r| - 1] == c[|c| - 1] && p[i] == c[i];
      TotalRemoveAt(menu, p, i);
      assert Total(menu, r) == Total(menu, p[..i] + p[i + 1..]) + Cost(menu, c[|c| - 1]);
      assert Total(menu, c) == Total(menu, p) + Cost(menu, c[|c| - 1]);
    } else {
      assert r == c[..|c| - 1];
      assert Total(menu, c) == Total(menu, r) + Cost(menu, c[i]);
    }
  }

  /** Appending an entry adds its line cost. */
  lemma TotalAppend(menu: Menu, c: Cart, e: Entry)
    ensures Total(menu, c + [e]) == Total(menu, c) + Cost(menu, e)
  {
    assert (c + [e])[..|c|] == c;
  }

  /** After `cart[name] = q` the quantity of name is q. */
  lemma PutQuantity(c: Cart, name: string, q: int)
    ensures Quantity(Put(c, name, q), name) == q
  {
    var r := Put(c, name, q);
    if Has(c, name) {
      var i := Find(c, name).value;
      assert Find(r, name) == Some(i) by { FindLastPut(c, name, q); }
    } else {
      assert r[|r| - 1].name == name;
    }
  }

  /** Find scans from the end, so nothing after its answer has the name. */
  lemma {:induction false} FindLast(c: Cart, name: string)
    requires Has(c, name)
    ensures forall k :: Find(c, name).value < k < |c| ==> c[k].name != name
  {
    if c[|c| - 1].name != name {
      FindLast(c[..|c| - 1], name);
    }
  }

  lemma {:induction false} FindLastPut(c: Cart, name: string, q: int)
    requires Has(c, name)
    ensures Find(Put(c, name, q), name) == Find(c, name)
  {
    var i := Find(c, name).value;
    var r := Put(c, name, q);
    if i < |c| - 1 {
      FindLast(c, name);
      assert r[..|r| - 1] == Put(c[..|c| - 1], name, q);
      FindLastPut(c[..|c| - 1], name, q);
    }
  }

  /** Deleting an item takes its line cost off the total. */
  lemma TotalAfterDelete(menu: Menu, c: Cart, name: string)
    requires Has(c, name)
    ensures Total(menu, Delete(c, name)) == Total(menu, c) - PriceOf(menu, name) * Quantity(c, name)
  {
    var i := Find(c, name).value;
    assert Cost(menu, c[i]) == PriceOf(menu, name) * Quantity(c, name);
    TotalRemoveAt(menu, c, i);
  }

  /** Setting an item's quantity to q changes the total by its price times the change. */
  lemma TotalAfterPut(menu: Menu, c: Cart, name: string, q: int)
    ensures Total(menu, Put(c, name, q)) == Total(menu, c) + PriceOf(menu, name) * (q - Quantity(c, name))
  {
    var p := PriceOf(menu, name);
    Distribute(p, q, Quantity(c, name));
    if Has(c, name) {
      var i := Find(c, name).value;
      assert Cost(menu, c[i]) == p * Quantity(c, name);
      assert Cost(menu, Entry(name, q)) == p * q;
      TotalUpdateAt(menu, c, i, Entry(name, q));
    } else {
      assert Cost(menu, Entry(name, q)) == p * q;
      TotalAppend(menu, c, Entry(name, q));
    }
  }

  lemma Distribute(p: int, a: int, b: int)
    ensures p * (a - b) == p * a - p * b
  {
  }

  /** The total after an instruction differs from the total before by the item's price times
      the change in its quantity: the total is recomputed from the cart, never drifts. */
  lemma ApplyTotal(menu: Menu, c: Cart, isRemoval: bool, name: string, qty: nat)
    requires Valid(c)
    ensures var r := Apply(c, isRemoval, name, qty).0;
      Total(menu, r) == Total(menu, c) + PriceOf(menu, name) * (Quantity(r, name) - Quantity(c, name))
  {
    var q0 := Quantity(c, name);
    if Has(c, name) && ((isRemoval && q0 - qty <= 0) || (!isRemoval && qty == 0)) {
      ApplyTotalDeleted(menu, c, isRemoval, name, qty);
    } else if (isRemoval && Has(c, name)) || (!isRemoval && qty > 0) {
      ApplyTotalSet(menu, c, isRemoval, name, qty);
    } else {
      assert Apply(c, isRemoval, name, qty).0 == c;
      Distribute(PriceOf(menu, name), q0, q0);
    }
  }

  lemma ApplyTotalDeleted(menu: Menu, c: Cart, isRemoval: bool, name: string, qty: nat)
    requires Valid(c) && Has(c, name)
    requires (isRemoval && Quantity(c, name) - qty <= 0) || (!isRemoval && qty == 0)
    ensures var r := Apply(c, isRemoval, name, qty).0;
      Total(menu, r) == Total(menu, c) + PriceOf(menu, name) * (Quantity(r, name) - Quantity(c, name))
  {
    var r := Apply(c, isRemoval, name, qty).0;
    assert r == Delete(c, name);
    TotalAfterDelete(menu, c, name);
    DeleteSpec(c, name);
    Distribute(PriceOf(menu, name), 0, Quantity(c, name));
  }

  lemma ApplyTotalSet(menu: Menu, c: Cart, isRemoval: bool, name: string, qty: nat)
    requires Valid(c)
    requires !(Has(c, name) && ((isRemoval && Quantity(c, name) - qty <= 0) || (!isRemoval && qty == 0)))
    requires (isRemoval && Has(c, name)) || (!isRemoval && qty > 0)
    ensures var r := Apply(c, isRemoval, name, qty).0;
      Total(menu, r) == Total(menu, c) + PriceOf(menu, name) * (Quantity(r, name) - Quantity(c, name))
  {
    var r := Apply(c, isRemoval, name, qty).0;
    var q1 := if isRemoval then Quantity(c, name) - qty else Quantity(c, name) + qty;
    assert r == Put(c, name, q1);
    TotalAfterPut(menu, c, name, q1);
    PutQuantity(c, name, q1);
  }

  /** A cart of positive quantities and non-negative prices never totals below zero. */
  lemma {:induction false} TotalNonNegative(menu: Menu, c: Cart)
    requires Valid(c)
    ensures Total(menu, c) >= 0
  {
    if |c| > 0 {
      TotalNonNegative(menu, c[..|c| - 1]);
    }
  }

  /** `", ".join(f"{k} x{v}" for k, v in cart.items())`, the items text stored on an order. */
  function Summary(c: Cart): (r: string)
    ensures r == [] <==> |c| == 0
    ensures |c| > 0 ==> SummaryLine(c[0]) <= r
    ensures |c| > 0 ==> var last := SummaryLine(c[|c| - 1]);
      |last| <= |r| && r[|r| - |last|..] == last
  {
    if |c| == 0 then ""
    else if |c| == 1 then SummaryLine(c[0])
    else Summary(c[..|c| - 1]) + ", " + SummaryLine(c[|c| - 1])
  }

  /** One entry of the summary, `f"{k} x{v}"`. */
  function SummaryLine(e: Entry): (r: string)
    ensures |r| >= 3
  {
    e.name + " x" + IntToString(e.qty)
  }
}
