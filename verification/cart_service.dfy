/** The cart handlers of the Express server: `POST /api/cart` (add, which
    merges), `POST /api/cart/update` (update, which sets),
    `DELETE /api/cart/remove/:productId` (remove) and `GET /api/cart` (list,
    an inner join with the medicines table). Each is a pure function from the
    server state and the request to the reply and the next state; every one
    is gated on the session user. */
module CartService {
  import opened Wrappers
  import opened JsValues
  import opened Catalog
  import opened ServerState

  // ---------------------------------------------------------------------
  // The cart table, as SQL sees it
  // ---------------------------------------------------------------------

  /** Some row belongs to (u, p). */
  predicate Has(cart: seq<Row>, u: int, p: int) {
    exists i :: 0 <= i < |cart| && Matches(cart[i], u, p)
  }

  /** The index of the first row of (u, p), or `|cart|` when there is none. */
  function FirstIndex(cart: seq<Row>, u: int, p: int): (i: nat)
    ensures i <= |cart|
    ensures forall j :: 0 <= j < i ==> !Matches(cart[j], u, p)
    ensures i < |cart| ==> Matches(cart[i], u, p)
    ensures i == |cart| <==> !Has(cart, u, p)
    decreases |cart|
  {
    if |cart| == 0 || Matches(cart[0], u, p) then 0
    else 1 + FirstIndex(cart[1..], u, p)
  }

  /** The quantity of the first row of (u, p) (what `existingCart[0]` reads). */
  function QuantityOf(cart: seq<Row>, u: int, p: int): Option<int> {
    var i := FirstIndex(cart, u, p);
    if i < |cart| then Some(cart[i].quantity) else None
  }

  /** Two tables with the same (user, product) keys row by row. */
  predicate SameKeys(a: seq<Row>, b: seq<Row>) {
    |a| == |b|
    && forall i :: 0 <= i < |a| ==> a[i].userId == b[i].userId && a[i].productId == b[i].productId
  }

  /** Every row that does not belong to (u, p), in table order. */
  function Others(cart: seq<Row>, u: int, p: int): (r: seq<Row>)
    ensures |r| <= |cart|
    ensures !Has(r, u, p)
    ensures forall x :: x in r ==> x in cart
    ensures !Has(cart, u, p) ==> r == cart
    decreases |cart|
  {
    if |cart| == 0 then []
    else if Matches(cart[0], u, p) then Others(cart[1..], u, p)
    else [cart[0]] + Others(cart[1..], u, p)
  }

  /** `DELETE` keeps each row of another pair as often as the table holds
      it, and no row of (u, p). */
  lemma {:induction false} OthersCounts(cart: seq<Row>, u: int, p: int)
    ensures forall x :: multiset(Others(cart, u, p))[x] == if Matches(x, u, p) then 0 else multiset(cart)[x]
    decreases |cart|
  {
    if |cart| > 0 {
      assert cart == [cart[0]] + cart[1..];
      OthersCounts(cart[1..], u, p);
    }
  }

  /** `UPDATE cart SET quantity = q WHERE user_id = u AND product_id = p`. */
  function SetQuantity(cart: seq<Row>, u: int, p: int, q: int): (r: seq<Row>)
    ensures SameKeys(r, cart)
    ensures forall i :: 0 <= i < |cart| && Matches(cart[i], u, p) ==> r[i].quantity == q
    ensures forall i :: 0 <= i < |cart| && !Matches(cart[i], u, p) ==> r[i] == cart[i]
    ensures Others(r, u, p) == Others(cart, u, p)
    decreases |cart|
  {
    if |cart| == 0 then []
    else
      var head := if Matches(cart[0], u, p) then cart[0].(quantity := q) else cart[0];
      var r := [head] + SetQuantity(cart[1..], u, p, q);
      assert r[1..] == SetQuantity(cart[1..], u, p, q);
      r
  }

  /** Tables with the same keys have their first (u, p) row at the same index. */
  lemma FirstIndexOfSameKeys(a: seq<Row>, b: seq<Row>, u: int, p: int)
    requires SameKeys(a, b)
    ensures FirstIndex(a, u, p) == FirstIndex(b, u, p)
  {
  }

  /** After the UPDATE, reading (u, p) gives `q` when some row matched. */
  lemma QuantityAfterSet(cart: seq<Row>, u: int, p: int, q: int)
    requires Has(cart, u, p)
    ensures QuantityOf(SetQuantity(cart, u, p, q), u, p) == Some(q)
    ensures Has(SetQuantity(cart, u, p, q), u, p)
  {
    FirstIndexOfSameKeys(SetQuantity(cart, u, p, q), cart, u, p);
  }

  /** Appending the first row of a pair makes it readable, leaves the others. */
  lemma {:induction false} OthersAfterAppend(cart: seq<Row>, row: Row, u: int, p: int)
    requires Matches(row, u, p)
    ensures Others(cart + [row], u, p) == Others(cart, u, p)
    decreases |cart|
  {
    if |cart| == 0 {
      assert cart + [row] == [row];
    } else {
      assert (cart + [row])[1..] == cart[1..] + [row];
      OthersAfterAppend(cart[1..], row, u, p);
    }
  }

  lemma QuantityAfterAppend(cart: seq<Row>, u: int, p: int, q: int)
    requires !Has(cart, u, p)
    ensures QuantityOf(cart + [Row(u, p, q)], u, p) == Some(q)
  {
    var c := cart + [Row(u, p, q)];
    assert Matches(c[|cart|], u, p);
  }

  // ---------------------------------------------------------------------
  // Handlers
  // ---------------------------------------------------------------------

  /** The body check shared by add and update:
      `!productId || !quantity || quantity <= 0` rejects. For an integer
      quantity it lets through exactly a present non-zero product id and a
      quantity of at least 1. */
  predicate ValidItem(productId: Option<int>, quantity: Option<int>): (b: bool)
    ensures b <==> productId.Some? && productId.value != 0 && quantity.Some? && quantity.value >= 1
  {
    Truthy(productId) && Truthy(quantity) && quantity.value > 0
  }

  /** The write of add: the quantity of the first row of (u, p) plus `q` is
      written to every row of the pair (the read-then-UPDATE), or a new row
      is inserted when the pair has none. */
  function MergeRow(cart: seq<Row>, u: int, p: int, q: int): (r: seq<Row>)
    ensures QuantityOf(r, u, p) == Some(QuantityOf(cart, u, p).GetOr(0) + q)
    ensures Others(r, u, p) == Others(cart, u, p)
    ensures Has(cart, u, p) ==> SameKeys(r, cart)
    ensures !Has(cart, u, p) ==> r == cart + [Row(u, p, q)]
  {
    QuantityOfHas(cart, u, p);
    match QuantityOf(cart, u, p)
    case Some(existing) =>
      QuantityAfterSet(cart, u, p, existing + q);
      SetQuantity(cart, u, p, existing + q)
    case None =>
      MergeFresh(cart, u, p, q);
      cart + [Row(u, p, q)]
  }

  /** With a row for the pair, the merge is the UPDATE of its quantity plus
      `q`; without one, it is the INSERT. */
  lemma MergeRowCases(cart: seq<Row>, u: int, p: int, q: int)
    ensures Has(cart, u, p) ==> QuantityOf(cart, u, p).Some?
    ensures Has(cart, u, p) ==> MergeRow(cart, u, p, q) == SetQuantity(cart, u, p, QuantityOf(cart, u, p).value + q)
    ensures !Has(cart, u, p) ==> MergeRow(cart, u, p, q) == cart + [Row(u, p, q)]
  {
    QuantityOfHas(cart, u, p);
  }

  /** A pair has a quantity to read exactly when it has a row. */
  lemma QuantityOfHas(cart: seq<Row>, u: int, p: int)
    ensures Has(cart, u, p) <==> QuantityOf(cart, u, p).Some?
  {
  }

  lemma MergeFresh(cart: seq<Row>, u: int, p: int, q: int)
    requires !Has(cart, u, p)
    ensures QuantityOf(cart, u, p) == None
    ensures QuantityOf(cart + [Row(u, p, q)], u, p) == Some(q)
    ensures Others(cart + [Row(u, p, q)], u, p) == Others(cart, u, p)
  {
    QuantityAfterAppend(cart, u, p, q);
    OthersAfterAppend(cart, Row(u, p, q), u, p);
  }

  /** `POST /api/cart`: after the session gate and the body check, the
      product must exist in the medicines table; then the row is merged. */
  function AddItem(s: State, productId: Option<int>, quantity: Option<int>): (res: (Reply, State))
    ensures s.session.None? ==> res == (NotLoggedIn, s)
    ensures s.session.Some? && !ValidItem(productId, quantity) ==> res == (InvalidItem, s)
    ensures s.session.Some? && ValidItem(productId, quantity) && productId.value !in s.medicines
      ==> res == (ProductNotFound, s)
    ensures res.0.Failure? ==> res.1 == s
    ensures res.0.Success? <==>
      s.session.Some? && ValidItem(productId, quantity) && productId.value in s.medicines
    ensures res.0.Success? ==>
      var u, p := s.session.value.id, productId.value;
      && res.1 == s.(cart := MergeRow(s.cart, u, p, quantity.value))
      && (res.0 == QuantityMerged <==> Has(s.cart, u, p))
      && (res.0 == ItemAdded <==> !Has(s.cart, u, p))
  {
    if s.session.None? then (NotLoggedIn, s)
    else if !ValidItem(productId, quantity) then (InvalidItem, s)
    else if productId.value !in s.medicines then (ProductNotFound, s)
    else
      var u, p := s.session.value.id, productId.value;
      (if Has(s.cart, u, p) then QuantityMerged else ItemAdded,
       s.(cart := MergeRow(s.cart, u, p, quantity.value)))
  }

  /** `POST /api/cart/update`: after the session gate and the body check,
      every row of (user, product) is set to the new quantity; no catalog
      lookup; a miss is 404. */
  function UpdateItem(s: State, productId: Option<int>, quantity: Option<int>): (res: (Reply, State))
    ensures s.session.None? ==> res == (NotLoggedIn, s)
    ensures s.session.Some? && !ValidItem(productId, quantity) ==> res == (InvalidItem, s)
    ensures s.session.Some? && ValidItem(productId, quantity) && !Has(s.cart, s.session.value.id, productId.value)
      ==> res == (ItemNotFound, s)
    ensures res.0.Failure? ==> res.1 == s
    ensures res.0 == ItemUpdated <==>
      s.session.Some? && ValidItem(productId, quantity) && Has(s.cart, s.session.value.id, productId.value)
    ensures res.0 == ItemUpdated ==>
      var u, p, q := s.session.value.id, productId.value, quantity.value;
      && res.1 == s.(cart := res.1.cart)
      && QuantityOf(res.1.cart, u, p) == Some(q)
      && Others(res.1.cart, u, p) == Others(s.cart, u, p)
      && SameKeys(res.1.cart, s.cart)
  {
    if s.session.None? then (NotLoggedIn, s)
    else if !ValidItem(productId, quantity) then (InvalidItem, s)
    else
      var u, p, q := s.session.value.id, productId.value, quantity.value;
      if !Has(s.cart, u, p) then (ItemNotFound, s)
      else
        QuantityAfterSet(s.cart, u, p, q);
        (ItemUpdated, s.(cart := SetQuantity(s.cart, u, p, q)))
  }

  /** `DELETE /api/cart/remove/:productId`: after the session gate, every row
      of (user, product) is deleted; no row deleted is 404. */
  function RemoveItem(s: State, productId: int): (res: (Reply, State))
    ensures s.session.None? ==> res == (NotLoggedIn, s)
    ensures res.0.Failure? ==> res.1 == s
    ensures res.0 == ItemRemoved <==> s.session.Some? && Has(s.cart, s.session.value.id, productId)
    ensures s.session.Some? && !Has(s.cart, s.session.value.id, productId) ==> res == (ItemNotFound, s)
    ensures res.0 == ItemRemoved ==>
      var u := s.session.value.id;
      && res.1 == s.(cart := res.1.cart)
      && !Has(res.1.cart, u, productId)
      && Others(res.1.cart, u, productId) == Others(s.cart, u, productId)
      && |res.1.cart| < |s.cart|
  {
    if s.session.None? then (NotLoggedIn, s)
    else
      var u := s.session.value.id;
      if !Has(s.cart, u, productId) then (ItemNotFound, s)
      else
        OthersShrinks(s.cart, u, productId);
        (ItemRemoved, s.(cart := Others(s.cart, u, productId)))
  }

  lemma {:induction false} OthersShrinks(cart: seq<Row>, u: int, p: int)
    requires Has(cart, u, p)
    ensures |Others(cart, u, p)| < |cart|
    ensures Others(Others(cart, u, p), u, p) == Others(cart, u, p)
    decreases |cart|
  {
    if !Matches(cart[0], u, p) {
      var i :| 0 <= i < |cart| && Matches(cart[i], u, p);
      assert Matches(cart[1..][i - 1], u, p);
      OthersShrinks(cart[1..], u, p);
    }
  }

  /** One line of the `GET /api/cart` result: the cart row joined with its
      medicine record (row id and timestamp left out). */
  datatype CartLine = CartLine(productId: int, quantity: int, product: Product)

  function Join(row: Row, m: Medicines): CartLine
    requires row.productId in m
  {
    CartLine(row.productId, row.quantity, m[row.productId])
  }

  /** The caller's row joins a catalog entry. */
  predicate Joinable(row: Row, u: int, m: Medicines) {
    row.userId == u && row.productId in m
  }

  /** `line` is the join of one of u's rows with its catalog record. */
  ghost predicate FromCallerRow(line: CartLine, cart: seq<Row>, u: int, m: Medicines) {
    exists i :: 0 <= i < |cart| && Joinable(cart[i], u, m) && line == Join(cart[i], m)
  }

  /** `SELECT ... FROM cart c JOIN medicines m ON c.product_id = m.sr_number
      WHERE c.user_id = u`, in table order: one line per joinable row. */
  function Lines(cart: seq<Row>, u: int, m: Medicines): (r: seq<CartLine>)
    ensures |r| <= |cart|
    ensures forall line :: line in r ==> FromCallerRow(line, cart, u, m)
    ensures forall i :: 0 <= i < |cart| && Joinable(cart[i], u, m) ==> Join(cart[i], m) in r
    decreases |cart|
  {
    if |cart| == 0 then []
    else
      var rest := Lines(cart[1..], u, m);
      assert forall line :: line in rest ==> FromCallerRow(line, cart, u, m) by {
        forall line | line in rest
          ensures FromCallerRow(line, cart, u, m)
        {
          var i :| 0 <= i < |cart[1..]| && Joinable(cart[1..][i], u, m) && line == Join(cart[1..][i], m);
          assert cart[1..][i] == cart[i + 1];
        }
      }
      assert forall i :: 1 <= i < |cart| ==> cart[i] == cart[1..][i - 1];
      if Joinable(cart[0], u, m) then [Join(cart[0], m)] + rest else rest
  }

  /** The reply of `GET /api/cart`. */
  datatype Listing = Listed(lines: seq<CartLine>) | Refused(reply: Reply)

  /** `GET /api/cart`: every line comes from one of the caller's rows whose
      product is in the catalog, carrying the live catalog record, and every
      such row is listed; other users' rows never appear (`LinesCounts`
      gives the multiplicities). */
  function ListItems(s: State): (r: Listing)
    ensures s.session.None? <==> r == Refused(NotLoggedIn)
    ensures r.Listed? ==>
      var u := s.session.value.id;
      && (forall line :: line in r.lines ==> FromCallerRow(line, s.cart, u, s.medicines))
      && (forall i :: 0 <= i < |s.cart| && Joinable(s.cart[i], u, s.medicines) ==> Join(s.cart[i], s.medicines) in r.lines)
  {
    if s.session.None? then Refused(NotLoggedIn)
    else Listed(Lines(s.cart, s.session.value.id, s.medicines))
  }
}
