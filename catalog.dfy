/** The two priced menus of the stall and how a user's identifier picks an item from one. */
module Catalog {
  import opened Wrappers
  import opened Text

  datatype MenuItem = MenuItem(name: string, price: nat)

  /** A menu in display order; numeric references index into it 1-based. */
  type Menu = seq<MenuItem>

  /** `MENU_MEMBER` */
  const MenuMember: Menu := [
    MenuItem("Sprouts Salad", 50),
    MenuItem("Protein Bowl", 55),
    MenuItem("Chia Pudding", 65),
    MenuItem("Oats + Chia", 65),
    MenuItem("Papaya Bowl", 50),
    MenuItem("Pineapple Bowl", 50),
    MenuItem("Muskmelon Bowl", 50),
    MenuItem("Watermelon Bowl", 50),
    MenuItem("Mixed Fruit Bowl", 65),
    MenuItem("Protein Veg Salad", 155)
  ]

  /** `MENU_NON_MEMBER`: configured separately, with the same items and prices today. */
  const MenuNonMember: Menu := [
    MenuItem("Sprouts Salad", 50),
    MenuItem("Protein Bowl", 55),
    MenuItem("Chia Pudding", 65),
    MenuItem("Oats + Chia", 65),
    MenuItem("Papaya Bowl", 50),
    MenuItem("Pineapple Bowl", 50),
    MenuItem("Muskmelon Bowl", 50),
    MenuItem("Watermelon Bowl", 50),
    MenuItem("Mixed Fruit Bowl", 65),
    MenuItem("Protein Veg Salad", 155)
  ]

  /** The menu a session shops from: `MENU_MEMBER if is_member else MENU_NON_MEMBER`. */
  function ActiveMenu(isMember: bool): Menu {
    if isMember then MenuMember else MenuNonMember
  }

  /** The name is one of the menu's items. */
  ghost predicate OnMenu(menu: Menu, name: string) {
    exists i :: 0 <= i < |menu| && menu[i].name == name
  }

  /** Menus are dictionaries, so no name appears twice. */
  ghost predicate DistinctNames(menu: Menu) {
    forall i, j :: 0 <= i < j < |menu| ==> menu[i].name != menu[j].name
  }

  /** The position of the item called `name`, if the menu has one (the first, should a name
      appear twice). */
  function IndexOfName(menu: Menu, name: string): (r: Option<nat>)
    ensures r.Some? ==> r.value < |menu| && menu[r.value].name == name
    ensures r.Some? ==> forall j :: 0 <= j < r.value ==> menu[j].name != name
    ensures r.None? <==> !OnMenu(menu, name)
  {
    if |menu| == 0 then None
    else if menu[0].name == name then Some(0)
    else
      match IndexOfName(menu[1..], name)
      case None => (assert forall j :: 1 <= j < |menu| ==> menu[j] == menu[1..][j - 1]; None)
      case Some(i) => Some(i + 1)
  }

  /** `menu.get(name, 0)`: the item's price, or 0 for a name that is not on the menu. */
  function PriceOf(menu: Menu, name: string): (p: nat)
    ensures !OnMenu(menu, name) ==> p == 0
    ensures DistinctNames(menu) ==> forall i :: 0 <= i < |menu| && menu[i].name == name ==> p == menu[i].price
  {
    match IndexOfName(menu, name)
    case None => 0
    case Some(i) => menu[i].price
  }

  /** The case-insensitive substring test of the fuzzy name match. */
  predicate NameMatches(item: MenuItem, ident: string) {
    Contains(Lower(item.name), Lower(ident))
  }

  /** The `for menu_item in menu` scan: the first position whose name matches. */
  function FirstNameMatch(menu: Menu, ident: string): (r: Option<nat>)
    ensures r.Some? ==> r.value < |menu| && NameMatches(menu[r.value], ident)
    ensures r.Some? ==> forall j :: 0 <= j < r.value ==> !NameMatches(menu[j], ident)
    ensures r.None? ==> forall j :: 0 <= j < |menu| ==> !NameMatches(menu[j], ident)
  {
    if |menu| == 0 then None
    else if NameMatches(menu[0], ident) then Some(0)
    else
      match FirstNameMatch(menu[1..], ident)
      case None => None
      case Some(i) => Some(i + 1)
  }

  /** Resolves a user's identifier against the menu: an all-digit identifier n names the n-th
      item (1-based) when there is one; any other identifier names the first item, in menu
      order, whose lower-cased name contains the lower-cased identifier. */
  function Resolve(menu: Menu, ident: string): (r: Option<string>)
    ensures IsDigits(ident) ==>
      (r.Some? <==> 1 <= DigitsValue(ident) <= |menu|)
      && (r.Some? ==> r.value == menu[DigitsValue(ident) - 1].name)
    ensures !IsDigits(ident) ==>
      (r.Some? <==> exists i :: 0 <= i < |menu| && NameMatches(menu[i], ident))
    ensures !IsDigits(ident) && r.Some? ==>
      exists i :: 0 <= i < |menu| && r.value == menu[i].name && NameMatches(menu[i], ident)
        && forall j :: 0 <= j < i ==> !NameMatches(menu[j], ident)
    ensures r.Some? ==> OnMenu(menu, r.value)
  {
    if IsDigits(ident) then
      var idx := DigitsValue(ident) - 1;
      if 0 <= idx < |menu| then Some(menu[idx].name) else None
    else
      match FirstNameMatch(menu, ident)
      case None => None
      case Some(i) => Some(menu[i].name)
  }

  /** Both menus are proper dictionaries and list the same names. */
  lemma MenusWellFormed()
    ensures DistinctNames(MenuMember) && DistinctNames(MenuNonMember)
    ensures |MenuMember| == |MenuNonMember| == 10
    ensures forall i :: 0 <= i < 10 ==> MenuMember[i].name == MenuNonMember[i].name
  {
  }

  /** The numeric identifier "2" names the second item of the member menu. */
  lemma ResolveIndexExample()
    ensures Resolve(MenuMember, "2") == Some("Protein Bowl")
  {
    assert DigitsValue("2") == 2;
  }

  /** "11" is past the end of the ten-item menu. */
  lemma ResolveIndexOutOfRange()
    ensures Resolve(MenuMember, "11") == None
  {
    assert DigitsValue("11") == 11;
  }

  /** The text identifier "protein" names the first item whose name contains it. */
  lemma ResolveNameExample()
    ensures Resolve(MenuMember, "protein") == Some("Protein Bowl")
  {
    assert !IsDigits("protein") by { assert !IsDigit("protein"[0]); }
    ProteinInProteinBowl();
    NoProteinInSprouts();
  }

  lemma ProteinInProteinBowl()
    ensures NameMatches(MenuMember[1], "protein")
  {
    var h := Lower("Protein Bowl");
    var n := Lower("protein");
    assert n == "protein";
    assert h[..7] == "protein";
    assert OccursAt(h, n, 0);
  }

  lemma NoProteinInSprouts()
    ensures !NameMatches(MenuMember[0], "protein")
  {
    var h := Lower("Sprouts Salad");
    var n := Lower("protein");
    assert n == "protein";
    forall i ensures !OccursAt(h, n, i) {
      if 0 <= i <= 6 {
        if i == 1 {
          assert h[i + 3] == 'u';
          assert h[i..i + 7][3] != n[3];
        } else {
          assert h[i] != 'p';
          assert h[i..i + 7][0] != n[0];
        }
      }
    }
  }
}
