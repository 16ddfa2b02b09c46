/** `Header`: the cart badge (the number of items in the cart, shown as "99+"
    past 99) and the navigation links filtered by sign-in state. */
module Header {
  import opened Opt
  import opened ApiDto
  import Text

  /** `(acc, item) => acc + (item.quantity || 0)`, folded from the left. */
  function SumQuantities(acc: int, items: seq<CartItemDto>): int
    decreases |items|
  {
    if |items| == 0 then acc else SumQuantities(acc + OrElse(items[0].quantity, 0), items[1..])
  }

  /** The number of items: the quantities summed, a missing one counting 0. */
  function ItemCount(items: seq<CartItemDto>): int {
    if |items| == 0 then 0 else items[0].quantity.GetOr(0) + ItemCount(items[1..])
  }

  lemma {:induction false} SumQuantitiesIsCount(acc: int, items: seq<CartItemDto>)
    ensures SumQuantities(acc, items) == acc + ItemCount(items)
    decreases |items|
  {
    if |items| > 0 {
      OrElseZero(items[0].quantity);
      SumQuantitiesIsCount(acc + OrElse(items[0].quantity, 0), items[1..]);
    }
  }

  /** `cartData?.cart?.reduce(...) ?? 0`. */
  function CartCount(cartData: Option<CartResponseDto>): (n: int)
    ensures cartData.None? || cartData.value.cart.None? ==> n == 0
    ensures cartData.Some? && cartData.value.cart.Some? ==> n == ItemCount(cartData.value.cart.value)
  {
    if cartData.None? || cartData.value.cart.None? then 0
    else
      SumQuantitiesIsCount(0, cartData.value.cart.value);
      SumQuantities(0, cartData.value.cart.value)
  }

  /** `cartCount > 99 ? "99+" : String(cartCount)`: at most three characters
      for any count that is not negative, and up to 99 the count's own decimal
      spelling (no leading zero, a minus sign only for a negative count). */
  function DisplayCartCount(n: int): (s: string)
    ensures n > 99 ==> s == "99+"
    ensures n <= 99 ==> Text.IsDecimalOf(s, n) && Text.ParseInt(s) == Some(n)
    ensures 0 <= n ==> 1 <= |s| <= 3
  {
    if n > 99 then "99+"
    else
      Text.ParseIntRoundTrip(n);
      if n >= 0 then Text.NatToStringShort(n); Text.IntToString(n) else Text.IntToString(n)
  }

  /** The badge sits on the cart icon, which only a signed-in user sees, and
      only with something in the cart. */
  predicate ShowsBadge(isAuthenticated: bool, count: int) {
    isAuthenticated && count > 0
  }

  datatype NavLink = NavLink(href: string, caption: string, requiresAuth: bool)

  const NavLinks: seq<NavLink> := [
    NavLink("/products", "Products", false),
    NavLink("/cart", "Cart", true),
    NavLink("/orders", "Orders", true)
  ]

  /** `navLinks.filter(link => !link.requiresAuth || isAuthenticated)`. */
  function VisibleLinks(links: seq<NavLink>, isAuthenticated: bool): (r: seq<NavLink>)
    ensures |r| <= |links|
    ensures forall l :: l in r <==> l in links && (!l.requiresAuth || isAuthenticated)
  {
    if |links| == 0 then []
    else
      var rest := VisibleLinks(links[1..], isAuthenticated);
      assert forall l :: l in links <==> l == links[0] || l in links[1..];
      if !links[0].requiresAuth || isAuthenticated then [links[0]] + rest else rest
  }

  /** Signed in, every link shows, in order; signed out, only the catalogue. */
  lemma NavLinksByState()
    ensures VisibleLinks(NavLinks, true) == NavLinks
    ensures VisibleLinks(NavLinks, false) == [NavLink("/products", "Products", false)]
  {
    VisibleAll(NavLinks);
    assert NavLinks[1..][1..][1..] == [];
  }

  /** Signed in, the filter keeps everything. */
  lemma {:induction false} VisibleAll(links: seq<NavLink>)
    ensures VisibleLinks(links, true) == links
  {
    if |links| > 0 {
      VisibleAll(links[1..]);
      assert links == [links[0]] + links[1..];
    }
  }
}
