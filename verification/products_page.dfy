/** The products page: the per-product quantity pickers, the add-to-cart
    guard, and the search and recommendation filters. */
module ProductsPage {
  import opened Wrappers
  import opened JsValues
  import opened Catalog
  import ServerState
  import CartService
  import Recommender

  // ---------------------------------------------------------------------
  // Quantity pickers
  // ---------------------------------------------------------------------

  /** The `quantities` state: serial number to chosen quantity. */
  type Quantities = map<int, int>

  /** `quantities[p] || 1`: the quantity the picker shows and add-to-cart sends. */
  function Shown(m: Quantities, p: int): (r: int)
    ensures p in m && m[p] != 0 ==> r == m[p]
    ensures (p !in m || m[p] == 0) ==> r == 1
    ensures AtLeastOne(m) ==> r >= 1
  {
    Or(if p in m then Some(m[p]) else None, 1)
  }

  /** Every chosen quantity is at least 1. */
  predicate AtLeastOne(m: Quantities) {
    forall p :: p in m ==> m[p] >= 1
  }

  ghost function SrNumbers(products: seq<Product>): set<int> {
    set i | 0 <= i < |products| :: products[i].srNumber
  }

  /** The default-quantity step after the products load: 1 for each product
      without an entry, existing entries untouched. */
  function InitDefaults(m: Quantities, products: seq<Product>): (r: Quantities)
    ensures r.Keys == m.Keys + SrNumbers(products)
    ensures forall p :: p in m ==> r[p] == m[p]
    ensures forall p :: p in r && p !in m ==> r[p] == 1
    decreases |products|
  {
    if |products| == 0 then m
    else
      var p := products[0].srNumber;
      var next := if p in m then m else m[p := 1];
      var r := InitDefaults(next, products[1..]);
      assert SrNumbers(products) == {p} + SrNumbers(products[1..]) by {
        forall q | q in SrNumbers(products)
          ensures q in {p} + SrNumbers(products[1..])
        {
          var i :| 0 <= i < |products| && products[i].srNumber == q;
          if i > 0 {
            assert products[1..][i - 1] == products[i];
          }
        }
        forall q | q in SrNumbers(products[1..])
          ensures q in SrNumbers(products)
        {
          var i :| 0 <= i < |products[1..]| && products[1..][i].srNumber == q;
          assert products[i + 1] == products[1..][i];
        }
      }
      r
  }

  /** `handleQuantityChange(p, value)`: stored only when `parseInt(value)`
      is a number greater than 0. */
  function ChangeQuantity(m: Quantities, p: int, value: string): (r: Quantities)
    ensures ParseInt(value).Some? && ParseInt(value).value > 0 ==> r == m[p := ParseInt(value).value]
    ensures !(ParseInt(value).Some? && ParseInt(value).value > 0) ==> r == m
  {
    StorePositive(m, p, ParseInt(value))
  }

  /** The store step of the change handler, given the parsed value. */
  function StorePositive(m: Quantities, p: int, n: Option<int>): (r: Quantities)
    ensures n.Some? && n.value > 0 ==> r == m[p := n.value]
    ensures !(n.Some? && n.value > 0) ==> r == m
  {
    match n
    case Some(k) => if k > 0 then m[p := k] else m
    case None => m
  }

  /** Typing the decimal digits of a positive number stores that number,
      and a trailing fraction or exponent is dropped; typing nothing, or a
      number that is not positive, changes nothing. */
  lemma TypedQuantity(m: Quantities, p: int, k: int, rest: string)
    requires |rest| > 0 ==> !IsDigit(rest[0], 10) && rest[0] != 'x' && rest[0] != 'X'
    ensures k >= 1 ==> ChangeQuantity(m, p, Decimal(k) + rest) == m[p := k]
    ensures k == 0 ==> ChangeQuantity(m, p, Decimal(k) + rest) == m
    ensures k < 0 ==> ChangeQuantity(m, p, "-" + Decimal(-k)) == m
    ensures ChangeQuantity(m, p, "") == m
  {
    if k >= 0 {
      ParseIntStopsAtNonDigit(k, rest);
    } else {
      ParseIntOfDecimal(k);
    }
  }

  /** `increaseQuantity(p)`: `(prev[p] || 1) + 1`. */
  function Increase(m: Quantities, p: int): (r: Quantities)
    ensures r.Keys == m.Keys + {p}
    ensures forall q :: q in m && q != p ==> r[q] == m[q]
    ensures r[p] == Shown(m, p) + 1
  {
    m[p := Shown(m, p) + 1]
  }

  /** `decreaseQuantity(p)`: one less than `prev[p] || 1`, but never below 1. */
  function Decrease(m: Quantities, p: int): (r: Quantities)
    ensures r.Keys == m.Keys + {p}
    ensures forall q :: q in m && q != p ==> r[q] == m[q]
    ensures r[p] >= 1
    ensures Shown(m, p) > 1 ==> r[p] == Shown(m, p) - 1
    ensures Shown(m, p) <= 1 ==> r[p] == 1
  {
    var current := Shown(m, p);
    m[p := if current > 1 then current - 1 else 1]
  }

  /** `Math.ceil` of a predicted quantity given in hundredths. */
  function RecommendedQuantity(hundredths: int): (k: int)
    ensures 100 * (k - 1) < hundredths <= 100 * k
  {
    -((-hundredths) / 100)
  }

  /** "Use Recommended" as written: the rounded-up prediction is stored as
      it is, even when it is 0 or negative. */
  function UseRecommendedAsWritten(m: Quantities, p: int, k: int): (r: Quantities)
    ensures r.Keys == m.Keys + {p} && r[p] == k
    ensures forall q :: q in m && q != p ==> r[q] == m[q]
  {
    m[p := k]
  }

  /** A prediction of -1.5 stores -1: the floor of 1 is broken, the picker
      shows -1 and add-to-cart sends a quantity the server rejects. */
  lemma UseRecommendedBreaksFloor(m: Quantities, p: int)
    requires AtLeastOne(m)
    ensures RecommendedQuantity(-150) == -1
    ensures !AtLeastOne(UseRecommendedAsWritten(m, p, RecommendedQuantity(-150)))
    ensures Shown(UseRecommendedAsWritten(m, p, RecommendedQuantity(-150)), p) == -1
    ensures !CartService.ValidItem(Some(p), Some(-1))
  {
  }

  /** "Use Recommended" with the floor the picker keeps everywhere else. */
  function UseRecommended(m: Quantities, p: int, k: int): (r: Quantities)
    ensures r.Keys == m.Keys + {p}
    ensures forall q :: q in m && q != p ==> r[q] == m[q]
    ensures r[p] >= 1 && (k >= 1 ==> r[p] == k)
  {
    m[p := if k >= 1 then k else 1]
  }

  /** Every picker operation keeps all quantities at least 1. */
  lemma QuantitiesStayAtLeastOne(m: Quantities, p: int, value: string, k: int, products: seq<Product>)
    requires AtLeastOne(m)
    ensures AtLeastOne(InitDefaults(m, products))
    ensures AtLeastOne(ChangeQuantity(m, p, value))
    ensures AtLeastOne(Increase(m, p))
    ensures AtLeastOne(Decrease(m, p))
    ensures AtLeastOne(UseRecommended(m, p, k))
    ensures Shown(m, p) >= 1
  {
  }

  /** + then - returns to the starting quantity once it has an entry. */
  lemma IncreaseThenDecrease(m: Quantities, p: int)
    requires AtLeastOne(m) && p in m
    ensures Decrease(Increase(m, p), p) == m
  {
  }

  // ---------------------------------------------------------------------
  // Add to cart
  // ---------------------------------------------------------------------

  /** The body `handleAddToCart` posts to `/api/cart`. */
  datatype CartRequest = CartRequest(productId: int, quantity: int)

  /** `handleAddToCart(product, quantity)`: nothing is sent without a user
      or without an id; the id is `sr_number || product_id`. */
  function AddToCart(loggedIn: bool, srNumber: Option<int>, productId: Option<int>, quantity: int): (r: Option<CartRequest>)
    ensures r.Some? <==> loggedIn && (Truthy(srNumber) || Truthy(productId))
    ensures r.Some? ==> r.value.quantity == quantity && r.value.productId != 0
    ensures r.Some? && Truthy(srNumber) ==> r.value.productId == srNumber.value
    ensures r.Some? && !Truthy(srNumber) ==> r.value.productId == productId.value
  {
    if !loggedIn then None
    else
      var id := Or(srNumber, Or(productId, 0));
      if id == 0 then None else Some(CartRequest(id, quantity))
  }

  /** Adding a catalog product from its card, with the pickers' invariant,
      sends a request the server accepts for a logged-in user. */
  lemma CardAddAccepted(s: ServerState.State, m: Quantities, product: Product)
    requires s.session.Some? && AtLeastOne(m)
    requires product.srNumber != 0 && product.srNumber in s.medicines
    ensures var r := AddToCart(true, Some(product.srNumber), None, Shown(m, product.srNumber));
      && r == Some(CartRequest(product.srNumber, Shown(m, product.srNumber)))
      && CartService.AddItem(s, Some(r.value.productId), Some(r.value.quantity)).0.Success?
  {
  }

  // ---------------------------------------------------------------------
  // Search and recommendations
  // ---------------------------------------------------------------------

  /** `name?.toLowerCase().includes(term) || generic?.toLowerCase().includes(term)`
      with `term` already lower-cased; an absent name never matches. */
  predicate SearchHit(name: Option<string>, genericName: Option<string>, term: string) {
    (name.Some? && Includes(ToLower(name.value), term))
    || (genericName.Some? && Includes(ToLower(genericName.value), term))
  }

  /** A recommendation as the page receives it: `product_id` and
      `sr_number` are both optional keys of the JSON object. */
  datatype Recommendation = Recommendation(productId: Option<int>, srNumber: Option<int>,
                                           name: Option<string>, genericName: Option<string>)

  /** The JSON object the recommendation service sends for a served product:
      its serial number under `product_id` and no `sr_number`. */
  function Received(x: Recommender.Served): Recommendation {
    Recommendation(Some(x.product.srNumber), None, x.product.name, x.product.genericName)
  }

  /** `filteredRecommendations`. */
  function FilterRecommendations(recs: seq<Recommendation>, term: string): (r: seq<Recommendation>)
    ensures forall x :: x in r <==> x in recs && SearchHit(x.name, x.genericName, ToLower(term))
    decreases |recs|
  {
    if |recs| == 0 then []
    else
      var rest := FilterRecommendations(recs[1..], term);
      assert forall x :: x in recs <==> x == recs[0] || x in recs[1..];
      if SearchHit(recs[0].name, recs[0].genericName, ToLower(term)) then [recs[0]] + rest else rest
  }

  /** The products not excluded whose names match, in catalog order. */
  function Keep(products: seq<Product>, excluded: set<Option<int>>, term: string): (r: seq<Product>)
    ensures forall x :: x in r <==> x in products && Some(x.srNumber) !in excluded && SearchHit(x.name, x.genericName, term)
    decreases |products|
  {
    if |products| == 0 then []
    else
      var rest := Keep(products[1..], excluded, term);
      var x := products[0];
      assert forall y :: y in products <==> y == x || y in products[1..];
      if Some(x.srNumber) !in excluded && SearchHit(x.name, x.genericName, term) then [x] + rest else rest
  }

  /** `recommendedIds` as written: the recommendations' `sr_number` keys. */
  function RecommendedIdsAsWritten(recs: seq<Recommendation>): set<Option<int>> {
    set r | r in recs :: r.srNumber
  }

  /** `filteredProducts` as written. */
  function FilterProductsAsWritten(products: seq<Product>, recs: seq<Recommendation>, term: string): (r: seq<Product>)
    ensures forall x, y :: x in r && y in recs ==> y.srNumber != Some(x.srNumber)
    ensures forall x :: x in r <==> (x in products && SearchHit(x.name, x.genericName, ToLower(term))
                                     && forall y :: y in recs ==> y.srNumber != Some(x.srNumber))
  {
    Keep(products, RecommendedIdsAsWritten(recs), ToLower(term))
  }

  /** A served recommendation is still listed among the ordinary products:
      the page looks for `sr_number`, the service sends `product_id`. */
  lemma RecommendedProductShownTwice(x: Recommender.Served)
    requires x.product.name.Some?
    ensures x.product in FilterProductsAsWritten([x.product], [Received(x)], "")
  {
    assert ToLower("") == "";
  }

  /** The id a recommendation is known by, read as its card reads it:
      `product_id || sr_number`. */
  function RecommendedKey(r: Recommendation): Option<int> {
    if Truthy(r.productId) then r.productId else r.srNumber
  }

  /** `filteredProducts` with recommendations identified by their key. */
  function FilterProducts(products: seq<Product>, recs: seq<Recommendation>, term: string): (r: seq<Product>)
    ensures forall x :: x in r <==> (x in products && SearchHit(x.name, x.genericName, ToLower(term))
                                     && forall y :: y in recs ==> RecommendedKey(y) != Some(x.srNumber))
  {
    Keep(products, set y | y in recs :: RecommendedKey(y), ToLower(term))
  }

  /** No product the service recommended is listed again among the
      ordinary products (serial numbers are non-zero, as `product_id || …`
      reads 0 as missing). */
  lemma RecommendedProductsNotRepeated(products: seq<Product>, served: seq<Recommender.Served>, term: string)
    requires forall y :: y in served ==> y.product.srNumber != 0
    ensures forall x, y :: x in FilterProducts(products, MapReceived(served), term) && y in served ==>
      x.srNumber != y.product.srNumber
  {
    forall x, y | x in FilterProducts(products, MapReceived(served), term) && y in served
      ensures x.srNumber != y.product.srNumber
    {
      var i :| 0 <= i < |served| && served[i] == y;
      var recs := MapReceived(served);
      assert recs[i] == Received(y) && Received(y) in recs;
      assert RecommendedKey(Received(y)) == Some(y.product.srNumber);
    }
  }

  /** The recommendations as received, in order. */
  function MapReceived(served: seq<Recommender.Served>): (r: seq<Recommendation>)
    ensures |r| == |served|
    ensures forall i :: 0 <= i < |served| ==> r[i] == Received(served[i])
  {
    seq(|served|, i requires 0 <= i < |served| => Received(served[i]))
  }

  /** An empty search keeps exactly the products that have a name or a
      generic name. */
  lemma EmptySearch(name: Option<string>, genericName: Option<string>)
    ensures SearchHit(name, genericName, ToLower("")) <==> name.Some? || genericName.Some?
  {
    assert ToLower("") == "";
  }

  /** Two optional names that agree up to ASCII case. */
  predicate SameUpToCase(a: Option<string>, b: Option<string>) {
    a.Some? == b.Some? && (a.Some? ==> ToLower(a.value) == ToLower(b.value))
  }

  /** The search ignores case on both sides: terms that agree up to case
      select the same products, and so do names that agree up to case. */
  lemma SearchIgnoresCase(name1: Option<string>, name2: Option<string>,
                          genericName1: Option<string>, genericName2: Option<string>,
                          term1: string, term2: string)
    requires SameUpToCase(name1, name2) && SameUpToCase(genericName1, genericName2)
    requires ToLower(term1) == ToLower(term2)
    ensures SearchHit(name1, genericName1, ToLower(term1)) == SearchHit(name2, genericName2, ToLower(term2))
  {
  }

  /** A product matches exactly when the typed term, lower-cased, occurs
      somewhere in its lower-cased name or generic name. */
  lemma SearchFindsSubstring(name: Option<string>, genericName: Option<string>, term: string)
    ensures SearchHit(name, genericName, ToLower(term)) <==>
      (name.Some? && exists i :: OccursAt(ToLower(name.value), ToLower(term), i))
      || (genericName.Some? && exists i :: OccursAt(ToLower(genericName.value), ToLower(term), i))
  {
    if name.Some? {
      IncludesIffOccurs(ToLower(name.value), ToLower(term));
    }
    if genericName.Some? {
      IncludesIffOccurs(ToLower(genericName.value), ToLower(term));
    }
  }

  /** Typing "ASP" finds "Aspirin". */
  lemma SearchExample()
    ensures SearchHit(Some("Aspirin"), None, ToLower("ASP"))
  {
    var name := ToLower("Aspirin");
    var term := ToLower("ASP");
    assert name[..3] == "asp" == term;
    assert OccursAt(name, term, 0);
    SearchFindsSubstring(Some("Aspirin"), None, "ASP");
  }

}
