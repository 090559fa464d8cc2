/** The cart page: the +/- buttons (a clamped absolute update followed by a
    local merge, or a re-fetch when the reply is not the expected one), the
    remove button (a local filter, or a re-fetch on failure) and the total.
    Each request's reply and each re-fetch's outcome are parameters. */
module CartPage {
  import opened Wrappers
  import opened Catalog
  import opened ServerState
  import opened CartService

  /** The page state: the listed items and the error banner. */
  datatype View = View(items: seq<CartLine>, error: Option<string>)

  /** The outcome of `fetchCartItems`: a fresh listing, or a failed request. */
  datatype Fetch = Fetched(lines: seq<CartLine>) | FetchFailed

  const LoadFailed := "Failed to load cart items"
  const RemoveFailed := "Failed to remove item from cart"

  /** `fetchCartItems`: a listing replaces the items, a failure sets the
      banner and keeps the items. A successful fetch never clears a banner
      an earlier failure set. */
  function Refresh(v: View, f: Fetch): (r: View)
    ensures f.Fetched? ==> r.items == f.lines && r.error == v.error
    ensures f.FetchFailed? ==> r.items == v.items && r.error == Some(LoadFailed)
  {
    match f
    case Fetched(lines) => v.(items := lines)
    case FetchFailed => v.(error := Some(LoadFailed))
  }

  /** `item.sr_number`, the key the page matches items by. */
  function Sr(item: CartLine): int {
    item.product.srNumber
  }

  /** `cartItems.find(item => item.sr_number === productId)` as an index,
      `|items|` when there is none. */
  function FindItem(items: seq<CartLine>, p: int): (i: nat)
    ensures i <= |items|
    ensures forall k :: 0 <= k < i ==> Sr(items[k]) != p
    ensures i < |items| ==> Sr(items[i]) == p
    decreases |items|
  {
    if |items| == 0 || Sr(items[0]) == p then 0 else 1 + FindItem(items[1..], p)
  }

  /** The quantity `updateQuantity` sends for a +/- of `delta`, or `None`
      when no item has that serial number (no request). The value is
      `Math.max(1, item.quantity + delta)`. */
  function UpdateRequest(items: seq<CartLine>, p: int, delta: int): (r: Option<int>)
    ensures r.None? <==> forall k :: 0 <= k < |items| ==> Sr(items[k]) != p
    ensures r.Some? ==> r.value >= 1
    ensures r.Some? ==> r.value >= items[FindItem(items, p)].quantity + delta
    ensures r.Some? && r.value > 1 ==> r.value == items[FindItem(items, p)].quantity + delta
  {
    var i := FindItem(items, p);
    if i == |items| then None
    else Some(if items[i].quantity + delta > 1 then items[i].quantity + delta else 1)
  }

  /** The local merge: every item with serial number `p` gets quantity `n`,
      every other item is kept as it is. */
  function SetLocalQuantity(items: seq<CartLine>, p: int, n: int): (r: seq<CartLine>)
    ensures |r| == |items|
    ensures forall k :: 0 <= k < |items| && Sr(items[k]) != p ==> r[k] == items[k]
    ensures forall k :: 0 <= k < |items| && Sr(items[k]) == p ==> r[k] == items[k].(quantity := n)
    decreases |items|
  {
    if |items| == 0 then []
    else
      var rest := SetLocalQuantity(items[1..], p, n);
      var r := [if Sr(items[0]) == p then items[0].(quantity := n) else items[0]] + rest;
      assert forall k :: 1 <= k < |r| ==> r[k] == rest[k - 1];
      r
  }

  /** The reply `updateQuantity` treats as success: a 2xx whose message is
      the update's confirmation. */
  predicate Confirmed(reply: Option<Reply>) {
    reply.Some? && reply.value.Success? && reply.value.message == ItemUpdated.message
  }

  /** `updateQuantity(productId, delta)`: the request sent (if any) and the
      page state once its reply (`None` for a failed request) and, when
      needed, the re-fetch have arrived. */
  function UpdateQuantity(v: View, p: int, delta: int, reply: Option<Reply>, refetch: Fetch): (res: (Option<int>, View))
    ensures res.0 == UpdateRequest(v.items, p, delta)
    ensures res.0.None? ==> res.1 == v
    ensures res.0.Some? && Confirmed(reply) ==> res.1 == v.(items := SetLocalQuantity(v.items, p, res.0.value))
    ensures res.0.Some? && !Confirmed(reply) ==> res.1 == Refresh(v, refetch)
  {
    match UpdateRequest(v.items, p, delta)
    case None => (None, v)
    case Some(n) =>
      if Confirmed(reply) then (Some(n), v.(items := SetLocalQuantity(v.items, p, n)))
      else (Some(n), Refresh(v, refetch))
  }

  /** The local filter of remove: the items whose serial number is not `p`,
      in their order. */
  function RemoveLocal(items: seq<CartLine>, p: int): (r: seq<CartLine>)
    ensures |r| <= |items|
    ensures forall x :: x in r ==> x in items && Sr(x) != p
    ensures forall k :: 0 <= k < |items| && Sr(items[k]) != p ==> items[k] in r
    decreases |items|
  {
    if |items| == 0 then []
    else
      var rest := RemoveLocal(items[1..], p);
      assert forall k :: 1 <= k < |items| ==> items[k] == items[1..][k - 1];
      if Sr(items[0]) == p then rest else [items[0]] + rest
  }

  /** The filter keeps the relative order: it distributes over `+`. */
  lemma {:induction false} RemoveLocalAppend(a: seq<CartLine>, b: seq<CartLine>, p: int)
    ensures RemoveLocal(a + b, p) == RemoveLocal(a, p) + RemoveLocal(b, p)
    decreases |a|
  {
    if |a| == 0 {
      assert a + b == b;
    } else {
      assert (a + b)[1..] == a[1..] + b;
      RemoveLocalAppend(a[1..], b, p);
    }
  }

  /** Removing a serial number no item carries leaves the list as it was. */
  lemma {:induction false} RemoveLocalNoMatch(items: seq<CartLine>, p: int)
    requires forall k :: 0 <= k < |items| ==> Sr(items[k]) != p
    ensures RemoveLocal(items, p) == items
    decreases |items|
  {
    if |items| != 0 {
      assert forall k :: 0 <= k < |items[1..]| ==> items[1..][k] == items[k + 1];
      RemoveLocalNoMatch(items[1..], p);
      assert [items[0]] + items[1..] == items;
    }
  }

  /** `handleRemoveItem(productId)`: any 2xx reply filters the item out
      locally, exactly as `RemoveLocal` does (so the order of the rest is kept,
      see `RemoveLocalAppend`); a failed request sets the banner and re-fetches. */
  function HandleRemove(v: View, p: int, reply: Option<Reply>, refetch: Fetch): (r: View)
    ensures reply.Some? && reply.value.Success? ==>
      && r.error == v.error
      && (forall x :: x in r.items ==> x in v.items && Sr(x) != p)
      && (forall k :: 0 <= k < |v.items| && Sr(v.items[k]) != p ==> v.items[k] in r.items)
    ensures reply.Some? && reply.value.Success? ==> r == v.(items := RemoveLocal(v.items, p))
    ensures !(reply.Some? && reply.value.Success?) ==> r == Refresh(v.(error := Some(RemoveFailed)), refetch)
  {
    if reply.Some? && reply.value.Success? then v.(items := RemoveLocal(v.items, p))
    else Refresh(v.(error := Some(RemoveFailed)), refetch)
  }

  // ---------------------------------------------------------------------
  // Totals
  // ---------------------------------------------------------------------

  /** `getTotal`: the sum of unit price times quantity, 0 for no items;
      never negative when no price or quantity is. */
  function Total(items: seq<CartLine>): (t: int)
    ensures (forall k :: 0 <= k < |items| ==> items[k].product.price >= 0 && items[k].quantity >= 0) ==> t >= 0
    decreases |items|
  {
    if |items| == 0 then 0
    else items[0].product.price * items[0].quantity + Total(items[1..])
  }

  /** The items with serial number `p`. */
  function Only(items: seq<CartLine>, p: int): seq<CartLine>
    decreases |items|
  {
    if |items| == 0 then []
    else if Sr(items[0]) == p then [items[0]] + Only(items[1..], p)
    else Only(items[1..], p)
  }

  /** The sum of the unit prices of `items`. */
  function PriceSum(items: seq<CartLine>): int
    decreases |items|
  {
    if |items| == 0 then 0 else items[0].product.price + PriceSum(items[1..])
  }

  lemma {:induction false} TotalAppend(a: seq<CartLine>, b: seq<CartLine>)
    ensures Total(a + b) == Total(a) + Total(b)
    decreases |a|
  {
    if |a| == 0 {
      assert a + b == b;
    } else {
      assert (a + b)[1..] == a[1..] + b;
      TotalAppend(a[1..], b);
    }
  }

  /** Removing `p` takes exactly its items' share off the total. */
  lemma {:induction false} TotalAfterRemove(items: seq<CartLine>, p: int)
    ensures Total(items) == Total(RemoveLocal(items, p)) + Total(Only(items, p))
    decreases |items|
  {
    if |items| > 0 {
      TotalAfterRemove(items[1..], p);
    }
  }

  /** Setting the quantity of `p` to `n` makes its share `n` times its unit
      prices and leaves the rest of the total alone. */
  lemma {:induction false} TotalAfterSet(items: seq<CartLine>, p: int, n: int)
    ensures Total(SetLocalQuantity(items, p, n)) == Total(RemoveLocal(items, p)) + n * PriceSum(Only(items, p))
    decreases |items|
  {
    if |items| > 0 {
      var r := SetLocalQuantity(items, p, n);
      var x := items[0];
      assert r[1..] == SetLocalQuantity(items[1..], p, n);
      TotalAfterSet(items[1..], p, n);
      if Sr(x) == p {
        TotalAfterSetHead(items, p, n);
      } else {
        assert r[0] == x;
        assert RemoveLocal(items, p) == [x] + RemoveLocal(items[1..], p);
        assert ([x] + RemoveLocal(items[1..], p))[1..] == RemoveLocal(items[1..], p);
        assert Only(items, p) == Only(items[1..], p);
      }
    }
  }

  /** The step of `TotalAfterSet` when the first item is one of `p`'s. */
  lemma TotalAfterSetHead(items: seq<CartLine>, p: int, n: int)
    requires |items| > 0 && Sr(items[0]) == p
    requires Total(SetLocalQuantity(items[1..], p, n))
      == Total(RemoveLocal(items[1..], p)) + n * PriceSum(Only(items[1..], p))
    ensures Total(SetLocalQuantity(items, p, n)) == Total(RemoveLocal(items, p)) + n * PriceSum(Only(items, p))
  {
    var r := SetLocalQuantity(items, p, n);
    var a := items[0].product.price;
    var b := PriceSum(Only(items[1..], p));
    assert r[1..] == SetLocalQuantity(items[1..], p, n);
    assert r[0].product.price == a && r[0].quantity == n;
    assert Total(r) == a * n + Total(r[1..]);
    assert RemoveLocal(items, p) == RemoveLocal(items[1..], p);
    assert PriceSum(Only(items, p)) == a + b;
    ScaleSum(n, a, b);
  }

  /** `n * (a + b)`, with the first product written price-first as `Total`
      writes it. */
  lemma ScaleSum(n: int, a: int, b: int)
    ensures n * (a + b) == a * n + n * b
  {
  }

  // ---------------------------------------------------------------------
  // The page against the server
  // ---------------------------------------------------------------------

  lemma {:induction false} LinesAfterSet(cart: seq<Row>, u: int, p: int, n: int, m: Medicines)
    requires WellKeyed(m)
    ensures Lines(SetQuantity(cart, u, p, n), u, m) == SetLocalQuantity(Lines(cart, u, m), p, n)
    decreases |cart|
  {
    if |cart| > 0 {
      var c := SetQuantity(cart, u, p, n);
      assert c[1..] == SetQuantity(cart[1..], u, p, n);
      LinesAfterSet(cart[1..], u, p, n, m);
      if Joinable(cart[0], u, m) {
        var rest := Lines(cart[1..], u, m);
        assert Lines(cart, u, m) == [Join(cart[0], m)] + rest;
        assert (Lines(cart, u, m))[1..] == rest;
      }
    }
  }

  lemma {:induction false} LinesAfterDelete(cart: seq<Row>, u: int, p: int, m: Medicines)
    requires WellKeyed(m)
    ensures Lines(Others(cart, u, p), u, m) == RemoveLocal(Lines(cart, u, m), p)
    decreases |cart|
  {
    if |cart| > 0 {
      LinesAfterDelete(cart[1..], u, p, m);
      if !Matches(cart[0], u, p) {
        assert ([cart[0]] + Others(cart[1..], u, p))[1..] == Others(cart[1..], u, p);
      }
      if Joinable(cart[0], u, m) {
        var rest := Lines(cart[1..], u, m);
        assert Lines(cart, u, m) == [Join(cart[0], m)] + rest;
        assert (Lines(cart, u, m))[1..] == rest;
      }
    }
  }

  /** A +/- on a page showing the server's listing leaves the page showing
      the server's new listing, whether the update was confirmed (local
      merge) or not (re-fetch). */
  lemma UpdateKeepsPageInSync(s: State, v: View, p: int, delta: int)
    requires s.session.Some? && WellKeyed(s.medicines)
    requires v.items == ListItems(s).lines
    ensures var n := UpdateRequest(v.items, p, delta);
      n.Some? ==>
        var server := UpdateItem(s, Some(p), Some(n.value));
        var page := UpdateQuantity(v, p, delta, Some(server.0), Fetched(ListItems(server.1).lines)).1;
        page.items == ListItems(server.1).lines
  {
    var n := UpdateRequest(v.items, p, delta);
    if n.Some? {
      var server := UpdateItem(s, Some(p), Some(n.value));
      if server.0 == ItemUpdated {
        LinesAfterSet(s.cart, s.session.value.id, p, n.value, s.medicines);
      }
    }
  }

  /** A remove on a page showing the server's listing leaves the page
      showing the server's new listing when the re-fetch succeeds. */
  lemma RemoveKeepsPageInSync(s: State, v: View, p: int)
    requires s.session.Some? && WellKeyed(s.medicines)
    requires v.items == ListItems(s).lines
    ensures var server := RemoveItem(s, p);
      HandleRemove(v, p, Some(server.0), Fetched(ListItems(server.1).lines)).items == ListItems(server.1).lines
  {
    if RemoveItem(s, p).0.Success? {
      LinesAfterDelete(s.cart, s.session.value.id, p, s.medicines);
    }
  }
}
