/** The storefront component (`src/App.jsx`): a fixed product catalog, a category
    filter over it, a cart of lines (a product copy plus a quantity) and a wishlist
    of product ids. The pure list transformations the handlers pass to the state
    setters are functions here; the component's state cells are the fields of the
    class `Storefront`, whose methods are the handlers. */
module HeroStore {
  import opened Seqs

  /** A catalog product. Its float rating is left out. */
  datatype Product = Product(id: int, name: string, category: string, price: int, image: string, description: string)

  /** A cart line: a copy of the product taken when it was first added, and how
      many of it the cart holds. */
  datatype Line = Line(product: Product, quantity: int)
  {
    function Id(): int { product.id }
  }

  /** The category button that shows the whole catalog. */
  const AllGear: string := "All Gear"

  /** The catalog the page shows (prices in whole dollars). */
  const Products: seq<Product> := [
    Product(1, "Quantum Shield", "Defense", 1250, "https://placehold.co/600x400/0f172a/e2e8f0?text=QUANTUM+SHIELD",
            "Generates a temporary, near-impenetrable energy field."),
    Product(2, "Sonic Gauntlets", "Utility", 980, "https://placehold.co/600x400/0f172a/e2e8f0?text=SONIC+GAUNTLETS",
            "Releases focused sonic blasts capable of shattering concrete."),
    Product(3, "Invisibility Cloak V2", "Stealth", 3500, "https://placehold.co/600x400/0f172a/e2e8f0?text=INVISIBILITY+CLOAK",
            "Perfect optical camouflage with zero heat signature."),
    Product(4, "Grappling Hook 3000", "Mobility", 450, "https://placehold.co/600x400/0f172a/e2e8f0?text=GRAPPLING+HOOK",
            "High-tension cable and magnetic claw for rapid ascent.")
  ]

  // ---- category filter ----

  /** The grid's test: every product passes for "All Gear", otherwise only the
      products of the chosen category. */
  function InCategory(category: string): Product -> bool
  {
    (p: Product) => category == AllGear || p.category == category
  }

  /** The products the grid shows for a category, in catalog order. */
  function FilterCategory(products: seq<Product>, category: string): (r: seq<Product>)
    ensures |r| <= |products|
  {
    Filter(products, InCategory(category))
  }

  /** "All Gear" shows every product; any other category exactly its products, in
      catalog order. */
  lemma CategoryFilterExact(products: seq<Product>, category: string)
    ensures category == AllGear ==> FilterCategory(products, category) == products
    ensures category != AllGear ==>
      forall p :: p in FilterCategory(products, category) <==> p in products && p.category == category
    ensures category != AllGear ==>
      forall p :: multiset(FilterCategory(products, category))[p] ==
        if p.category == category then multiset(products)[p] else 0
    ensures IsSubsequence(FilterCategory(products, category), products)
  {
    FilterCounts(products, InCategory(category));
    if category == AllGear {
      FilterKeepsAll(products, InCategory(category));
    }
    FilterMembers(products, InCategory(category));
    FilterSubsequence(products, InCategory(category));
  }

  /** The category buttons, in the order the page shows them. */
  const Categories: seq<string> := [AllGear, "Defense", "Utility", "Stealth", "Mobility"]

  /** The catalog's ids are distinct, and each category button other than "All
      Gear" shows exactly one product of the catalog: the one of that category. A
      category with no button shows nothing, which the page reports as no gear
      found. */
  lemma {:induction false} CatalogByCategory()
    ensures forall i, j :: 0 <= i < j < |Products| ==> Products[i].id != Products[j].id
    ensures FilterCategory(Products, AllGear) == Products
    ensures forall k :: 1 <= k < |Categories| ==> FilterCategory(Products, Categories[k]) == [Products[k - 1]]
    ensures forall c :: c !in Categories ==> FilterCategory(Products, c) == []
  {
    CategoryFilterExact(Products, AllGear);
    forall k | 1 <= k < |Categories|
      ensures FilterCategory(Products, Categories[k]) == [Products[k - 1]]
    {
      CatalogFilter(Categories[k]);
    }
    forall c | c !in Categories
      ensures FilterCategory(Products, c) == []
    {
      CatalogFilter(c);
    }
  }

  /** The category filter over the catalog, product by product. */
  lemma CatalogFilter(c: string)
    requires c != AllGear
    ensures c == "Defense" ==> FilterCategory(Products, c) == [Products[0]]
    ensures c == "Utility" ==> FilterCategory(Products, c) == [Products[1]]
    ensures c == "Stealth" ==> FilterCategory(Products, c) == [Products[2]]
    ensures c == "Mobility" ==> FilterCategory(Products, c) == [Products[3]]
    ensures c !in Categories ==> FilterCategory(Products, c) == []
  {
    var keep := InCategory(c);
    var p0, p1, p2, p3 := Products[0], Products[1], Products[2], Products[3];
    assert Products == [p0] + [p1] + [p2] + [p3];
    FilterAppend([p0] + [p1] + [p2], [p3], keep);
    FilterAppend([p0] + [p1], [p2], keep);
    FilterAppend([p0], [p1], keep);
  }

  // ---- cart lines ----

  function LineWithId(id: int): Line -> bool
  {
    (l: Line) => l.Id() == id
  }

  function LineOtherThan(id: int): Line -> bool
  {
    (l: Line) => l.Id() != id
  }

  /** The cart invariant: one line per product id, and every quantity at least 1. */
  ghost predicate ValidCart(items: seq<Line>)
  {
    && (forall i, j :: 0 <= i < j < |items| ==> items[i].Id() != items[j].Id())
    && (forall i :: 0 <= i < |items| ==> items[i].quantity >= 1)
  }

  /** No line of `items` has product id `id`. */
  ghost predicate Absent(items: seq<Line>, id: int)
  {
    forall l :: l in items ==> l.Id() != id
  }

  /** The updater of `handleAddToCart`: when a line with the product's id is found,
      every line with that id gets one more; otherwise a line for the product with
      quantity 1 goes at the end. */
  function AddLine(items: seq<Line>, p: Product): (r: seq<Line>)
    ensures forall i :: 0 <= i < |items| ==> i < |r| && r[i].Id() == items[i].Id() && r[i].quantity >= items[i].quantity
  {
    if Find(items, LineWithId(p.id)).Some? then
      seq(|items|, i requires 0 <= i < |items| =>
        if items[i].Id() == p.id then items[i].(quantity := items[i].quantity + 1) else items[i])
    else items + [Line(p, 1)]
  }

  /** The updater of `handleUpdateQuantity` for a quantity of at least 1: every line
      with the id gets exactly that quantity. */
  function SetQuantity(items: seq<Line>, id: int, quantity: int): (r: seq<Line>)
    ensures |r| == |items| && forall i :: 0 <= i < |items| ==> r[i].product == items[i].product
  {
    seq(|items|, i requires 0 <= i < |items| =>
      if items[i].Id() == id then items[i].(quantity := quantity) else items[i])
  }

  /** The updater of `handleRemoveItem`. */
  function RemoveLine(items: seq<Line>, id: int): (r: seq<Line>)
    ensures |r| <= |items|
  {
    Filter(items, LineOtherThan(id))
  }

  /** Adding a product whose id is not in the cart appends one line with quantity
      1 at the end and leaves the earlier lines as they were. */
  lemma AddAbsentAppends(items: seq<Line>, p: Product)
    requires Absent(items, p.id)
    ensures AddLine(items, p) == items + [Line(p, 1)]
  {
    assert forall l :: l in items ==> !LineWithId(p.id)(l);
  }

  /** Adding a product already in the cart (at index `k`) raises that line's
      quantity by one; the length, the order and every other line stay. */
  lemma AddPresentIncrements(items: seq<Line>, p: Product, k: int)
    requires ValidCart(items) && 0 <= k < |items| && items[k].Id() == p.id
    ensures var r := AddLine(items, p);
      && |r| == |items|
      && r[k] == items[k].(quantity := items[k].quantity + 1)
      && forall i :: 0 <= i < |items| && i != k ==> r[i] == items[i]
  {
    assert LineWithId(p.id)(items[k]);
    assert items[k] in items;
  }

  /** The header's cart badge counts lines, not units: adding a
      product raises it only when the product had no line yet. */
  lemma CartCountAfterAdd(items: seq<Line>, p: Product)
    requires ValidCart(items)
    ensures Absent(items, p.id) ==> |AddLine(items, p)| == |items| + 1
    ensures !Absent(items, p.id) ==> |AddLine(items, p)| == |items|
  {
    if Absent(items, p.id) {
      AddAbsentAppends(items, p);
    } else {
      var l :| l in items && l.Id() == p.id;
      var k :| 0 <= k < |items| && items[k] == l;
      AddPresentIncrements(items, p, k);
    }
  }

  lemma AddKeepsValid(items: seq<Line>, p: Product)
    requires ValidCart(items)
    ensures ValidCart(AddLine(items, p))
  {
    if Find(items, LineWithId(p.id)).None? {
      var r := items + [Line(p, 1)];
      forall i, j | 0 <= i < j < |r|
        ensures r[i].Id() != r[j].Id()
      {
        if j == |items| {
          assert r[i] in items;
        }
      }
    }
  }

  /** A quantity set on the line at index `k` is that line's exact new quantity;
      every other line stays. */
  lemma SetQuantityExact(items: seq<Line>, id: int, quantity: int, k: int)
    requires ValidCart(items) && 0 <= k < |items| && items[k].Id() == id
    ensures var r := SetQuantity(items, id, quantity);
      && |r| == |items|
      && r[k] == items[k].(quantity := quantity)
      && forall i :: 0 <= i < |items| && i != k ==> r[i] == items[i]
  {
  }

  /** Setting a quantity for an id the cart does not hold changes nothing and
      creates no line. */
  lemma SetQuantityNoMatch(items: seq<Line>, id: int, quantity: int)
    requires Absent(items, id)
    ensures SetQuantity(items, id, quantity) == items
  {
    var r := SetQuantity(items, id, quantity);
    forall i | 0 <= i < |items|
      ensures r[i] == items[i]
    {
      assert items[i] in items;
    }
  }

  lemma SetQuantityKeepsValid(items: seq<Line>, id: int, quantity: int)
    requires ValidCart(items) && quantity >= 1
    ensures ValidCart(SetQuantity(items, id, quantity))
  {
  }

  /** Removing an id leaves no line with it and keeps every other line, in the
      original relative order. */
  lemma RemoveDropsLine(items: seq<Line>, id: int)
    ensures forall l :: l in RemoveLine(items, id) <==> l in items && l.Id() != id
    ensures Absent(RemoveLine(items, id), id)
    ensures IsSubsequence(RemoveLine(items, id), items)
  {
    FilterMembers(items, LineOtherThan(id));
    FilterSubsequence(items, LineOtherThan(id));
  }

  lemma {:induction false} RemoveKeepsValid(items: seq<Line>, id: int)
    requires ValidCart(items)
    ensures ValidCart(RemoveLine(items, id))
  {
    if items != [] {
      RemoveKeepsValid(items[1..], id);
      if items[0].Id() != id {
        FilterMembers(items[1..], LineOtherThan(id));
        var r := [items[0]] + RemoveLine(items[1..], id);
        assert RemoveLine(items, id) == r;
        forall i, j | 0 <= i < j < |r|
          ensures r[i].Id() != r[j].Id()
        {
          if i == 0 {
            assert r[j] in items[1..];
          }
        }
      }
    }
  }

  /** In a valid cart, removing the id of the line at index `k` cuts out just that
      line. */
  lemma RemoveAt(items: seq<Line>, k: int)
    requires ValidCart(items) && 0 <= k < |items|
    ensures RemoveLine(items, items[k].Id()) == items[..k] + items[k + 1..]
  {
    var id := items[k].Id();
    var keep := LineOtherThan(id);
    assert items == items[..k] + ([items[k]] + items[k + 1..]);
    FilterAppend(items[..k], [items[k]] + items[k + 1..], keep);
    FilterAppend([items[k]], items[k + 1..], keep);
    FilterKeepsAll(items[..k], keep);
    FilterKeepsAll(items[k + 1..], keep);
  }

  /** Removing a line that was just appended for a new product gives the cart back. */
  lemma RemoveUndoesAdd(items: seq<Line>, p: Product)
    requires Absent(items, p.id)
    ensures RemoveLine(AddLine(items, p), p.id) == items
  {
    AddAbsentAppends(items, p);
    FilterAppend(items, [Line(p, 1)], LineOtherThan(p.id));
    FilterKeepsAll(items, LineOtherThan(p.id));
  }

  /** The cart after adding product `p` `n` times in a row. */
  function AddTimes(items: seq<Line>, p: Product, n: nat): seq<Line>
  {
    if n == 0 then items else AddLine(AddTimes(items, p, n - 1), p)
  }

  /** Adding the product of the last line, when no other line has its id, raises
      that line's quantity by one. */
  lemma AddToLastLine(items: seq<Line>, p: Product, q: int)
    requires ValidCart(items) && Absent(items, p.id) && q >= 1
    ensures AddLine(items + [Line(p, q)], p) == items + [Line(p, q + 1)]
  {
    var before := items + [Line(p, q)];
    var k := |items|;
    forall i, j | 0 <= i < j < |before|
      ensures before[i].Id() != before[j].Id()
    {
      if j == k {
        assert before[i] in items;
      }
    }
    AddPresentIncrements(before, p, k);
    var after := AddLine(before, p);
    forall i | 0 <= i < |after|
      ensures after[i] == (items + [Line(p, q + 1)])[i]
    {
    }
  }

  /** Adding a product that is not in the cart `n >= 1` times gives exactly one
      line for it, at the end, with quantity `n`. */
  lemma {:induction false} AddRepeatedly(items: seq<Line>, p: Product, n: nat)
    requires ValidCart(items) && Absent(items, p.id) && n >= 1
    ensures AddTimes(items, p, n) == items + [Line(p, n)]
  {
    if n == 1 {
      AddAbsentAppends(items, p);
    } else {
      AddRepeatedly(items, p, n - 1);
      AddOnceMore(items, p, n);
    }
  }

  /** One more add after `n - 1` adds of a new product. */
  lemma AddOnceMore(items: seq<Line>, p: Product, n: nat)
    requires ValidCart(items) && Absent(items, p.id) && n >= 2
    requires AddTimes(items, p, n - 1) == items + [Line(p, n - 1)]
    ensures AddTimes(items, p, n) == items + [Line(p, n)]
  {
    AddToLastLine(items, p, n - 1);
  }

  // ---- total ----

  /** One line's share of the total: its price times its quantity. */
  function Subtotal(l: Line): int
  {
    l.product.price * l.quantity
  }

  /** The cart total: the lines' shares summed from 0, folded from the left as
      `reduce` does. */
  function Total(items: seq<Line>): int
  {
    if items == [] then 0 else Total(items[..|items| - 1]) + Subtotal(items[|items| - 1])
  }

  /** The total of a cart made of two parts is the sum of their totals. */
  lemma {:induction false} TotalAppend(a: seq<Line>, b: seq<Line>)
    ensures Total(a + b) == Total(a) + Total(b)
  {
    if b == [] {
      assert a + b == a;
    } else {
      var front := b[..|b| - 1];
      assert (a + b)[..|a + b| - 1] == a + front;
      TotalAppend(a, front);
    }
  }

  /** The total is the line at index `k`'s share plus those of the lines around it. */
  lemma TotalAt(items: seq<Line>, k: int)
    requires 0 <= k < |items|
    ensures Total(items) == Total(items[..k]) + Subtotal(items[k]) + Total(items[k + 1..])
  {
    var before, line, after := items[..k], [items[k]], items[k + 1..];
    assert items == before + line + after;
    TotalAppend(before + line, after);
    TotalAppend(before, line);
    TotalOfOne(items[k]);
  }

  lemma TotalOfOne(l: Line)
    ensures Total([l]) == Subtotal(l)
  {
    assert [l][..0] == [];
  }

  /** With non-negative prices the total is never negative; an empty cart totals 0. */
  lemma {:induction false} TotalNonNegative(items: seq<Line>)
    requires ValidCart(items)
    requires forall l :: l in items ==> l.product.price >= 0
    ensures Total(items) >= 0
    ensures items == [] ==> Total(items) == 0
  {
    if items != [] {
      var front := items[..|items| - 1];
      assert forall l :: l in front ==> l in items;
      TotalNonNegative(front);
      assert items[|items| - 1] in items;
    }
  }

  /** Replacing the line at index `k` changes the total by the difference of the
      two lines' shares. */
  lemma TotalReplaceAt(items: seq<Line>, r: seq<Line>, k: int)
    requires 0 <= k < |items| && |r| == |items|
    requires forall i :: 0 <= i < |items| && i != k ==> r[i] == items[i]
    ensures Total(r) == Total(items) - Subtotal(items[k]) + Subtotal(r[k])
  {
    assert r[..k] == items[..k];
    assert r[k + 1..] == items[k + 1..];
    TotalAt(items, k);
    TotalAt(r, k);
  }

  /** One more of the line at index `k` adds its price to the total. */
  lemma TotalOneMoreAt(items: seq<Line>, r: seq<Line>, k: int)
    requires 0 <= k < |items| && |r| == |items|
    requires forall i :: 0 <= i < |items| && i != k ==> r[i] == items[i]
    requires r[k] == items[k].(quantity := items[k].quantity + 1)
    ensures Total(r) == Total(items) + items[k].product.price
  {
    TotalReplaceAt(items, r, k);
    SubtotalOneMore(items[k]);
  }

  lemma SubtotalOneMore(l: Line)
    ensures Subtotal(l.(quantity := l.quantity + 1)) == Subtotal(l) + l.product.price
  {
    var price, q := l.product.price, l.quantity;
    assert price * (q + 1) == price * q + price;
  }

  lemma TotalAfterIncrement(items: seq<Line>, p: Product, k: int)
    requires ValidCart(items) && 0 <= k < |items| && items[k].Id() == p.id
    ensures Total(AddLine(items, p)) == Total(items) + items[k].product.price
  {
    AddPresentIncrements(items, p, k);
    TotalOneMoreAt(items, AddLine(items, p), k);
  }

  /** Adding a product raises the total by one unit price: that of the product for
      a new line, that of the copy already in the cart for an existing one. */
  lemma TotalAfterAdd(items: seq<Line>, p: Product)
    requires ValidCart(items)
    ensures Total(AddLine(items, p)) == Total(items) + match Find(items, LineWithId(p.id)) {
      case Some(l) => l.product.price
      case None => p.price
    }
  {
    match Find(items, LineWithId(p.id)) {
      case None =>
        TotalAppend(items, [Line(p, 1)]);
        assert [Line(p, 1)][..0] == [];
      case Some(l) =>
        var k :| 0 <= k < |items| && items[k] == l && LineWithId(p.id)(items[k]);
        TotalAfterIncrement(items, p, k);
    }
  }

  /** Setting the line at index `k` to a new quantity moves the total by that line's
      price times the change. */
  lemma TotalAfterSetQuantity(items: seq<Line>, quantity: int, k: int)
    requires ValidCart(items) && 0 <= k < |items|
    ensures Total(SetQuantity(items, items[k].Id(), quantity))
         == Total(items) - Subtotal(items[k]) + items[k].product.price * quantity
  {
    SetQuantityExact(items, items[k].Id(), quantity, k);
    TotalReplaceAt(items, SetQuantity(items, items[k].Id(), quantity), k);
  }

  /** Removing the line at index `k` lowers the total by exactly its share. */
  lemma TotalAfterRemove(items: seq<Line>, k: int)
    requires ValidCart(items) && 0 <= k < |items|
    ensures Total(RemoveLine(items, items[k].Id())) == Total(items) - Subtotal(items[k])
  {
    RemoveAt(items, k);
    TotalAt(items, k);
    TotalAppend(items[..k], items[k + 1..]);
  }

  // ---- wishlist ----

  /** The updater of `handleToggleWishlist`: removes the id when listed, appends it
      otherwise. */
  function Toggle(list: seq<int>, id: int): (r: seq<int>)
    ensures |r| <= |list| + 1
  {
    if id in list then Filter(list, (x: int) => x != id) else list + [id]
  }

  /** A toggle flips the id's membership and no other id's. */
  lemma ToggleFlips(list: seq<int>, id: int)
    ensures id in Toggle(list, id) <==> id !in list
    ensures forall x :: x != id ==> (x in Toggle(list, id) <==> x in list)
  {
    FilterMembers(list, (x: int) => x != id);
  }

  /** Toggling twice restores every id's membership; for an id that was not
      listed it restores the list itself. */
  lemma ToggleTwice(list: seq<int>, id: int)
    ensures forall x :: x in Toggle(Toggle(list, id), id) <==> x in list
    ensures id !in list ==> Toggle(Toggle(list, id), id) == list
  {
    ToggleFlips(list, id);
    ToggleFlips(Toggle(list, id), id);
    if id !in list {
      FilterAppend(list, [id], (x: int) => x != id);
      FilterKeepsAll(list, (x: int) => x != id);
    }
  }

  /** Toggling never lists an id twice. */
  lemma ToggleKeepsDistinct(list: seq<int>, id: int)
    requires Distinct(list)
    ensures Distinct(Toggle(list, id))
  {
    if id in list {
      FilterDistinct(list, (x: int) => x != id);
    }
  }

  lemma {:induction false} FilterDistinct(list: seq<int>, keep: int -> bool)
    requires Distinct(list)
    ensures Distinct(Filter(list, keep))
  {
    if list != [] {
      FilterDistinct(list[1..], keep);
      FilterMembers(list[1..], keep);
      if keep(list[0]) {
        var r := [list[0]] + Filter(list[1..], keep);
        forall i, j | 0 <= i < j < |r|
          ensures r[i] != r[j]
        {
          if i == 0 {
            assert r[j] in list[1..];
          }
        }
      }
    }
  }

  // ---- the component's state ----

  class Storefront {
    var activeCategory: string
    var cartItems: seq<Line>
    var wishlist: seq<int>
    var isCartOpen: bool

    ghost predicate Valid()
      reads this
    {
      ValidCart(cartItems) && Distinct(wishlist)
    }

    /** The initial state: all gear shown, an empty closed cart, product 2 on the
        wishlist. */
    constructor ()
      ensures Valid()
      ensures activeCategory == AllGear && cartItems == [] && wishlist == [2] && !isCartOpen
    {
      activeCategory := AllGear;
      cartItems := [];
      wishlist := [2];
      isCartOpen := false;
    }

    /** The products the grid shows: the whole catalog for "All Gear", one product
        for each other button. */
    function FilteredProducts(): (r: seq<Product>)
      reads this
      ensures activeCategory == AllGear ==> r == Products
      ensures activeCategory in Categories[1..] ==> |r| == 1 && r[0] in Products && r[0].category == activeCategory
      ensures activeCategory !in Categories ==> r == []
    {
      CatalogByCategory();
      FilterCategory(Products, activeCategory)
    }

    /** A category button. */
    method SetCategory(category: string)
      requires Valid()
      modifies this
      ensures Valid() && activeCategory == category
      ensures cartItems == old(cartItems) && wishlist == old(wishlist) && isCartOpen == old(isCartOpen)
    {
      activeCategory := category;
    }

    /** `handleAddToCart`: adds the product and opens the cart. */
    method AddToCart(p: Product)
      requires Valid()
      modifies this
      ensures Valid() && cartItems == AddLine(old(cartItems), p) && isCartOpen
      ensures activeCategory == old(activeCategory) && wishlist == old(wishlist)
    {
      AddKeepsValid(cartItems, p);
      cartItems := AddLine(cartItems, p);
      isCartOpen := true;
    }

    /** `handleRemoveItem`. */
    method RemoveItem(id: int)
      requires Valid()
      modifies this
      ensures Valid() && cartItems == RemoveLine(old(cartItems), id)
      ensures activeCategory == old(activeCategory) && wishlist == old(wishlist) && isCartOpen == old(isCartOpen)
    {
      RemoveKeepsValid(cartItems, id);
      cartItems := RemoveLine(cartItems, id);
    }

    /** `handleUpdateQuantity`: a quantity below 1 removes the line, as
        `handleRemoveItem` does; any other sets it exactly. */
    method UpdateQuantity(id: int, newQuantity: int)
      requires Valid()
      modifies this
      ensures Valid()
      ensures newQuantity < 1 ==> cartItems == RemoveLine(old(cartItems), id)
      ensures newQuantity >= 1 ==> cartItems == SetQuantity(old(cartItems), id, newQuantity)
      ensures activeCategory == old(activeCategory) && wishlist == old(wishlist) && isCartOpen == old(isCartOpen)
    {
      if newQuantity < 1 {
        RemoveItem(id);
        return;
      }
      SetQuantityKeepsValid(cartItems, id, newQuantity);
      cartItems := SetQuantity(cartItems, id, newQuantity);
    }

    /** `handleToggleWishlist`. */
    method ToggleWishlist(id: int)
      requires Valid()
      modifies this
      ensures Valid() && wishlist == Toggle(old(wishlist), id)
      ensures activeCategory == old(activeCategory) && cartItems == old(cartItems) && isCartOpen == old(isCartOpen)
    {
      ToggleKeepsDistinct(wishlist, id);
      wishlist := Toggle(wishlist, id);
    }

    /** The cart button of the header. */
    method OpenCart()
      requires Valid()
      modifies this
      ensures Valid() && isCartOpen
      ensures activeCategory == old(activeCategory) && cartItems == old(cartItems) && wishlist == old(wishlist)
    {
      isCartOpen := true;
    }

    /** The close button of the cart. */
    method CloseCart()
      requires Valid()
      modifies this
      ensures Valid() && !isCartOpen
      ensures activeCategory == old(activeCategory) && cartItems == old(cartItems) && wishlist == old(wishlist)
    {
      isCartOpen := false;
    }
  }
}
