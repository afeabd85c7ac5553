/** The synthetic data generator `generateDummyData`: `nRestaurants`
    restaurants, each with a menu of `nItems` items, whose ids and names
    are built from the 1-based loop counters. */
module Generator {
  import opened Decimal

  /** A price as the caller's price source gives it; the source draws it at
      random, so the model takes it as a function of the two ordinals. */
  type Price = real

  datatype MenuItem = MenuItem(productId: string, itemName: string, price: Price)

  datatype Restaurant = Restaurant(
    id: string,
    name: string,
    cuisine: string,
    location: string,
    menu: seq<MenuItem>)

  /** How many times `for (let k = 1; k <= n; k++)` runs its body. */
  function Iterations(n: int): (r: nat)
    ensures n <= 0 ==> r == 0
    ensures n >= 0 ==> r == n
  {
    if n <= 0 then 0 else n
  }

  /** The item ordinal, zero-padded to two characters. */
  function ItemSuffix(j: nat): string {
    PadStart(NatToString(j), 2, '0')
  }

  function ProductId(i: nat, j: nat): string {
    NatToString(i) + ItemSuffix(j)
  }

  function ItemName(usermsg: string, j: nat): string {
    usermsg + " Item " + NatToString(j)
  }

  function RestaurantName(usermsg: string, i: nat): string {
    usermsg + " Restaurant " + NatToString(i)
  }

  /** The `j`-th item (1-based) of the `i`-th restaurant. */
  function ItemAt(usermsg: string, i: nat, j: nat, price: (nat, nat) -> Price): MenuItem {
    MenuItem(ProductId(i, j), ItemName(usermsg, j), price(i, j))
  }

  /** The menu of the `i`-th restaurant: items 1 to `nItems` in order. */
  function Menu(usermsg: string, i: nat, nItems: int, price: (nat, nat) -> Price): seq<MenuItem> {
    seq(Iterations(nItems), k requires 0 <= k => ItemAt(usermsg, i, k + 1, price))
  }

  /** The `i`-th restaurant (1-based). */
  function RestaurantAt(location: string, usermsg: string, i: nat, nItems: int, price: (nat, nat) -> Price): Restaurant {
    Restaurant(NatToString(i), RestaurantName(usermsg, i), usermsg, location, Menu(usermsg, i, nItems, price))
  }

  /** What `generateDummyData` returns: restaurants 1 to `nRestaurants` in
      order. */
  function DummyData(location: string, usermsg: string, nRestaurants: int, nItems: int, price: (nat, nat) -> Price): seq<Restaurant> {
    seq(Iterations(nRestaurants), k requires 0 <= k => RestaurantAt(location, usermsg, k + 1, nItems, price))
  }

  /** Extending the item count by one appends the next item. */
  lemma MenuExtend(usermsg: string, i: nat, n: nat, price: (nat, nat) -> Price)
    ensures Menu(usermsg, i, n + 1, price) == Menu(usermsg, i, n, price) + [ItemAt(usermsg, i, n + 1, price)]
  {
  }

  /** Extending the restaurant count by one appends the next restaurant. */
  lemma DummyDataExtend(location: string, usermsg: string, n: nat, nItems: int, price: (nat, nat) -> Price)
    ensures DummyData(location, usermsg, n + 1, nItems, price)
      == DummyData(location, usermsg, n, nItems, price) + [RestaurantAt(location, usermsg, n + 1, nItems, price)]
  {
  }

  /** `generateDummyData`: two nested counting loops, the inner one pushing
      the items of one restaurant, the outer one pushing the restaurant. */
  method GenerateDummyData(location: string, usermsg: string, nRestaurants: int, nItems: int, price: (nat, nat) -> Price)
    returns (restaurants: seq<Restaurant>)
    ensures restaurants == DummyData(location, usermsg, nRestaurants, nItems, price)
  {
    restaurants := [];
    var i: nat := 1;
    while i <= nRestaurants
      invariant 1 <= i <= Iterations(nRestaurants) + 1
      invariant restaurants == DummyData(location, usermsg, i - 1, nItems, price)
    {
      var menuItems := [];
      var j: nat := 1;
      while j <= nItems
        invariant 1 <= j <= Iterations(nItems) + 1
        invariant menuItems == Menu(usermsg, i, j - 1, price)
      {
        menuItems := menuItems + [MenuItem(ProductId(i, j), ItemName(usermsg, j), price(i, j))];
        MenuExtend(usermsg, i, j - 1, price);
        j := j + 1;
      }
      restaurants := restaurants + [Restaurant(NatToString(i), RestaurantName(usermsg, i), usermsg, location, menuItems)];
      DummyDataExtend(location, usermsg, i - 1, nItems, price);
      i := i + 1;
    }
  }

  /** The result has one restaurant per iteration of the outer loop and
      each menu one item per iteration of the inner loop: none at all when
      the count is zero or negative. */
  lemma DummyDataShape(location: string, usermsg: string, nRestaurants: int, nItems: int, price: (nat, nat) -> Price)
    ensures |DummyData(location, usermsg, nRestaurants, nItems, price)| == Iterations(nRestaurants)
    ensures nRestaurants <= 0 ==> DummyData(location, usermsg, nRestaurants, nItems, price) == []
    ensures forall r :: r in DummyData(location, usermsg, nRestaurants, nItems, price) ==>
      |r.menu| == Iterations(nItems) && (nItems <= 0 ==> r.menu == [])
  {
  }

  /** The restaurant at 0-based position `k` has id `k + 1` in decimal, the
      name `<usermsg> Restaurant <k + 1>`, and echoes the cuisine and the
      location. */
  lemma RestaurantFields(location: string, usermsg: string, nRestaurants: int, nItems: int, price: (nat, nat) -> Price, k: nat)
    requires k < Iterations(nRestaurants)
    ensures var r := DummyData(location, usermsg, nRestaurants, nItems, price)[k];
      && r.id == NatToString(k + 1)
      && DigitsValue(r.id) == k + 1
      && r.name == usermsg + " Restaurant " + r.id
      && r.cuisine == usermsg
      && r.location == location
  {
    RestaurantAtPosition(location, usermsg, nRestaurants, nItems, price, k);
    DigitsValueOfNatToString(k + 1);
  }

  /** Restaurants come in increasing order of their ids, so no two share
      an id. */
  lemma RestaurantIdsIncreasing(location: string, usermsg: string, nRestaurants: int, nItems: int, price: (nat, nat) -> Price, k1: nat, k2: nat)
    requires k1 < k2 < Iterations(nRestaurants)
    ensures var rs := DummyData(location, usermsg, nRestaurants, nItems, price);
      DigitsValue(rs[k1].id) < DigitsValue(rs[k2].id) && rs[k1].id != rs[k2].id
  {
    RestaurantFields(location, usermsg, nRestaurants, nItems, price, k1);
    RestaurantFields(location, usermsg, nRestaurants, nItems, price, k2);
  }

  /** The item at 0-based position `m` of the restaurant at 0-based
      position `k`: its product id is the restaurant id followed by the
      item ordinal `m + 1` padded with zeros to two characters, never cut
      short, its name is `<usermsg> Item <m + 1>`, and its price is the one
      the price source gives for the two ordinals. */
  lemma MenuItemFields(location: string, usermsg: string, nRestaurants: int, nItems: int, price: (nat, nat) -> Price, k: nat, m: nat)
    requires k < Iterations(nRestaurants) && m < Iterations(nItems)
    ensures var r := DummyData(location, usermsg, nRestaurants, nItems, price)[k];
      var item := r.menu[m];
      var suffix := item.productId[|r.id|..];
      && |item.productId| >= |r.id|
      && item.productId[..|r.id|] == r.id
      && |suffix| == (if m + 1 < 10 then 2 else |NatToString(m + 1)|)
      && AllDigits(suffix) && DigitsValue(suffix) == m + 1
      && item.itemName == usermsg + " Item " + NatToString(m + 1)
      && item.price == price(k + 1, m + 1)
  {
    RestaurantAtPosition(location, usermsg, nRestaurants, nItems, price, k);
    ItemAtPosition(location, usermsg, nRestaurants, nItems, price, k, m);
    var r := DummyData(location, usermsg, nRestaurants, nItems, price)[k];
    var item := r.menu[m];
    assert item.productId == r.id + ItemSuffix(m + 1);
    assert item.productId[|r.id|..] == ItemSuffix(m + 1);
    PadStartZerosValue(NatToString(m + 1), 2);
    DigitsValueOfNatToString(m + 1);
  }

  /** The worked example of the product id format: item 2 of restaurant 3
      is `"302"`. */
  lemma ProductIdExample()
    ensures ProductId(3, 2) == "302"
  {
  }

  /** Within one restaurant the product id determines the item ordinal. */
  lemma ProductIdInjectiveInItem(i: nat, j1: nat, j2: nat)
    ensures ProductId(i, j1) == ProductId(i, j2) <==> j1 == j2
  {
    var id := NatToString(i);
    var s1, s2 := ItemSuffix(j1), ItemSuffix(j2);
    if id + s1 == id + s2 {
      assert s1 == (id + s1)[|id|..];
      assert s2 == (id + s2)[|id|..];
      PaddedNatToStringInjective(j1, j2, 2);
    }
  }

  /** Ordinals below 100 give a suffix of exactly two characters. */
  lemma ItemSuffixLength(j: nat)
    requires j < 100
    ensures |ItemSuffix(j)| == 2
  {
  }

  /** While item ordinals stay below 100, a product id determines both the
      restaurant ordinal and the item ordinal. */
  lemma ProductIdInjectiveShort(i1: nat, j1: nat, i2: nat, j2: nat)
    requires j1 < 100 && j2 < 100
    ensures ProductId(i1, j1) == ProductId(i2, j2) <==> i1 == i2 && j1 == j2
  {
    var id1, id2 := NatToString(i1), NatToString(i2);
    var s1, s2 := ItemSuffix(j1), ItemSuffix(j2);
    ItemSuffixLength(j1);
    ItemSuffixLength(j2);
    if id1 + s1 == id2 + s2 {
      var p := id1 + s1;
      assert |id1| == |id2| == |p| - 2;
      assert id1 == p[..|p| - 2];
      assert id2 == (id2 + s2)[..|p| - 2];
      assert s1 == p[|p| - 2..];
      assert s2 == (id2 + s2)[|p| - 2..];
      NatToStringInjective(i1, i2);
      PaddedNatToStringInjective(j1, j2, 2);
    }
  }

  /** The hundredth item's suffix is its three digits, unpadded. */
  lemma HundredthItemSuffix()
    ensures ItemSuffix(100) == "100"
  {
    assert NatToString(1) == "1";
    assert NatToString(10) == NatToString(1) + "0" == "10";
    assert NatToString(100) == NatToString(10) + "0" == "100";
  }

  /** The digit string `"00"` denotes zero. */
  lemma DoubleZeroValue()
    ensures AllDigits("00") && DigitsValue("00") == 0
  {
    assert "00"[..1] == "0";
    assert "0"[..0] == [];
  }

  /** The suffix of a positive ordinal below 100 is two characters and not
      `"00"`. */
  lemma ShortItemSuffixNotZeros(j: nat)
    requires 1 <= j < 100
    ensures |ItemSuffix(j)| == 2 && ItemSuffix(j) != "00"
  {
    ItemSuffixLength(j);
    PadStartZerosValue(NatToString(j), 2);
    DigitsValueOfNatToString(j);
    assert DigitsValue(ItemSuffix(j)) == j;
    DoubleZeroValue();
  }

  /** Texts whose last two characters differ are different, whatever
      precedes them. */
  lemma DifferentEndingsDiffer(a: string, x: string, b: string, y: string)
    requires |x| >= 2 && |y| == 2 && x[|x| - 2..] != y
    ensures a + x != b + y
  {
    var p, q := a + x, b + y;
    assert p[|p| - 2..] == x[|x| - 2..];
    assert q[|q| - 2..] == y;
  }

  /** The hundredth item's id ends in `"00"`; the id of an item between 1
      and 99 never does, so the two never coincide. */
  lemma HundredthItemIdDistinct(i1: nat, i2: nat, j2: nat)
    requires 1 <= j2 < 100
    ensures ProductId(i1, 100) != ProductId(i2, j2)
  {
    HundredthItemSuffix();
    ShortItemSuffixNotZeros(j2);
    assert "100"[1..] == "00";
    DifferentEndingsDiffer(NatToString(i1), ItemSuffix(100), NatToString(i2), ItemSuffix(j2));
  }

  /** With positive ordinals up to 100, a product id still determines both
      the restaurant ordinal and the item ordinal. */
  lemma ProductIdInjectiveUpTo100(i1: nat, j1: nat, i2: nat, j2: nat)
    requires 1 <= j1 <= 100 && 1 <= j2 <= 100
    ensures ProductId(i1, j1) == ProductId(i2, j2) <==> i1 == i2 && j1 == j2
  {
    if j1 < 100 && j2 < 100 {
      ProductIdInjectiveShort(i1, j1, i2, j2);
    } else if j1 == 100 && j2 == 100 {
      var id1, id2 := NatToString(i1), NatToString(i2);
      var s := ItemSuffix(100);
      if id1 + s == id2 + s {
        var p := id1 + s;
        assert id1 == p[..|p| - |s|];
        assert id2 == (id2 + s)[..|p| - |s|];
        NatToStringInjective(i1, i2);
      }
    } else if j1 == 100 {
      HundredthItemIdDistinct(i1, i2, j2);
    } else {
      HundredthItemIdDistinct(i2, i1, j1);
    }
  }

  /** Within one menu no two items share a product id. */
  lemma ProductIdsDistinctInMenu(location: string, usermsg: string, nRestaurants: int, nItems: int, price: (nat, nat) -> Price, k: nat, m1: nat, m2: nat)
    requires k < Iterations(nRestaurants)
    requires m1 < Iterations(nItems) && m2 < Iterations(nItems) && m1 != m2
    ensures var menu := DummyData(location, usermsg, nRestaurants, nItems, price)[k].menu;
      menu[m1].productId != menu[m2].productId
  {
    ItemAtPosition(location, usermsg, nRestaurants, nItems, price, k, m1);
    ItemAtPosition(location, usermsg, nRestaurants, nItems, price, k, m2);
    ProductIdInjectiveInItem(k + 1, m1 + 1, m2 + 1);
  }

  /** With at most 100 items per menu, product ids are unique across the
      whole result, not only within one menu. */
  lemma ProductIdsUniqueWithShortMenus(location: string, usermsg: string, nRestaurants: int, nItems: int, price: (nat, nat) -> Price,
                                       k1: nat, m1: nat, k2: nat, m2: nat)
    requires nItems <= 100
    requires k1 < Iterations(nRestaurants) && m1 < Iterations(nItems)
    requires k2 < Iterations(nRestaurants) && m2 < Iterations(nItems)
    requires k1 != k2 || m1 != m2
    ensures var rs := DummyData(location, usermsg, nRestaurants, nItems, price);
      rs[k1].menu[m1].productId != rs[k2].menu[m2].productId
  {
    ItemAtPosition(location, usermsg, nRestaurants, nItems, price, k1, m1);
    ItemAtPosition(location, usermsg, nRestaurants, nItems, price, k2, m2);
    ProductIdInjectiveUpTo100(k1 + 1, m1 + 1, k2 + 1, m2 + 1);
    assert ProductId(k1 + 1, m1 + 1) != ProductId(k2 + 1, m2 + 1);
  }

  /** Where `DummyData` puts the restaurant of ordinal `k + 1`. */
  lemma RestaurantAtPosition(location: string, usermsg: string, nRestaurants: int, nItems: int, price: (nat, nat) -> Price, k: nat)
    requires k < Iterations(nRestaurants)
    ensures |DummyData(location, usermsg, nRestaurants, nItems, price)| == Iterations(nRestaurants)
    ensures DummyData(location, usermsg, nRestaurants, nItems, price)[k] == RestaurantAt(location, usermsg, k + 1, nItems, price)
  {
  }

  /** Where `DummyData` puts item `m + 1` of restaurant `k + 1`. */
  lemma ItemAtPosition(location: string, usermsg: string, nRestaurants: int, nItems: int, price: (nat, nat) -> Price, k: nat, m: nat)
    requires k < Iterations(nRestaurants) && m < Iterations(nItems)
    ensures |DummyData(location, usermsg, nRestaurants, nItems, price)[k].menu| == Iterations(nItems)
    ensures DummyData(location, usermsg, nRestaurants, nItems, price)[k].menu[m] == ItemAt(usermsg, k + 1, m + 1, price)
    ensures DummyData(location, usermsg, nRestaurants, nItems, price)[k].menu[m].productId == ProductId(k + 1, m + 1)
  {
    var r := DummyData(location, usermsg, nRestaurants, nItems, price)[k];
    assert r == RestaurantAt(location, usermsg, k + 1, nItems, price);
    assert r.menu == Menu(usermsg, k + 1, nItems, price);
  }

  /** From 101 items and 11 restaurants on, product ids of different
      restaurants can coincide: item 101 of restaurant 1 and item 1 of
      restaurant 11 are both `"1101"`. */
  lemma ProductIdsCollideAcrossRestaurants()
    ensures ProductId(1, 101) == ProductId(11, 1) == "1101"
  {
    assert NatToString(1) == "1";
    assert NatToString(10) == NatToString(1) + "0" == "10";
    assert NatToString(11) == NatToString(1) + "1" == "11";
    assert NatToString(101) == NatToString(10) + "1" == "101";
    assert ItemSuffix(101) == "101";
    assert ItemSuffix(1) == Repeat('0', 1) + "1" == "01";
  }
}
