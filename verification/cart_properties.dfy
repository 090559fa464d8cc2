/** Properties of the cart handlers that relate several calls: the table
    invariant they keep, merge-add against absolute-set, remove reporting a
    miss, other users' rows untouched, and the scenario of one user's cart. */
module CartProperties {
  import opened Wrappers
  import opened Catalog
  import opened ServerState
  import opened Auth
  import opened CartService

  // ---------------------------------------------------------------------
  // The invariant
  // ---------------------------------------------------------------------

  lemma NoDuplicatesOfSameKeys(a: seq<Row>, b: seq<Row>)
    requires SameKeys(a, b) && NoDuplicates(b)
    ensures NoDuplicates(a)
  {
    forall i, j | 0 <= i < j < |a|
      ensures !Matches(a[j], a[i].userId, a[i].productId)
    {
      assert !Matches(b[j], b[i].userId, b[i].productId);
    }
  }

  lemma NoDuplicatesAfterAppend(cart: seq<Row>, row: Row)
    requires NoDuplicates(cart) && !Has(cart, row.userId, row.productId)
    ensures NoDuplicates(cart + [row])
  {
    var c := cart + [row];
    forall i, j | 0 <= i < j < |c|
      ensures !Matches(c[j], c[i].userId, c[i].productId)
    {
      if j == |cart| {
        assert !Matches(cart[i], row.userId, row.productId);
      }
    }
  }

  lemma AppendKeepsInvariant(cart: seq<Row>, row: Row)
    requires NoDuplicates(cart) && AllPositive(cart)
    requires !Has(cart, row.userId, row.productId) && row.quantity >= 1
    ensures NoDuplicates(cart + [row]) && AllPositive(cart + [row])
  {
    NoDuplicatesAfterAppend(cart, row);
    assert forall i :: 0 <= i < |cart| ==> (cart + [row])[i] == cart[i];
  }

  lemma {:induction false} OthersKeepsInvariant(cart: seq<Row>, u: int, p: int)
    requires NoDuplicates(cart) && AllPositive(cart)
    ensures NoDuplicates(Others(cart, u, p)) && AllPositive(Others(cart, u, p))
    decreases |cart|
  {
    if |cart| > 0 {
      var tail := cart[1..];
      assert NoDuplicates(tail) by {
        forall i, j | 0 <= i < j < |tail|
          ensures !Matches(tail[j], tail[i].userId, tail[i].productId)
        {
          assert tail[i] == cart[i + 1] && tail[j] == cart[j + 1];
        }
      }
      OthersKeepsInvariant(tail, u, p);
      var rest := Others(tail, u, p);
      if !Matches(cart[0], u, p) {
        var r := [cart[0]] + rest;
        forall i, j | 0 <= i < j < |r|
          ensures !Matches(r[j], r[i].userId, r[i].productId)
        {
          if i == 0 {
            assert r[j] in tail;
            var k :| 0 <= k < |tail| && tail[k] == r[j];
            assert cart[k + 1] == r[j];
          } else {
            assert r[i] == rest[i - 1] && r[j] == rest[j - 1];
          }
        }
        forall i | 0 <= i < |r|
          ensures r[i].quantity >= 1
        {
          if i > 0 {
            assert r[i] == rest[i - 1];
          }
        }
      }
    }
  }

  lemma SetQuantityKeepsInvariant(cart: seq<Row>, u: int, p: int, n: int)
    requires NoDuplicates(cart) && AllPositive(cart) && n >= 1
    ensures NoDuplicates(SetQuantity(cart, u, p, n)) && AllPositive(SetQuantity(cart, u, p, n))
  {
    NoDuplicatesOfSameKeys(SetQuantity(cart, u, p, n), cart);
  }

  lemma MergeRowKeepsInvariant(cart: seq<Row>, u: int, p: int, q: int)
    requires NoDuplicates(cart) && AllPositive(cart) && q > 0
    ensures NoDuplicates(MergeRow(cart, u, p, q)) && AllPositive(MergeRow(cart, u, p, q))
  {
    MergeRowCases(cart, u, p, q);
    if Has(cart, u, p) {
      var n := QuantityOf(cart, u, p).value + q;
      assert n >= 1 by {
        var i := FirstIndex(cart, u, p);
        assert QuantityOf(cart, u, p) == Some(cart[i].quantity);
      }
      SetQuantityKeepsInvariant(cart, u, p, n);
    } else {
      AppendKeepsInvariant(cart, Row(u, p, q));
    }
  }

  /** Add keeps the table invariant: it never creates a second row for a
      pair and never stores a quantity below 1. */
  lemma AddKeepsValid(s: State, productId: Option<int>, quantity: Option<int>)
    requires Valid(s)
    ensures Valid(AddItem(s, productId, quantity).1)
  {
    if AddItem(s, productId, quantity).0.Success? {
      MergeRowKeepsInvariant(s.cart, s.session.value.id, productId.value, quantity.value);
    }
  }

  /** Update keeps the table invariant. */
  lemma UpdateKeepsValid(s: State, productId: Option<int>, quantity: Option<int>)
    requires Valid(s)
    ensures Valid(UpdateItem(s, productId, quantity).1)
  {
    var res := UpdateItem(s, productId, quantity);
    if res.0.Success? {
      NoDuplicatesOfSameKeys(res.1.cart, s.cart);
    }
  }

  /** Remove keeps the table invariant. */
  lemma RemoveKeepsValid(s: State, productId: int)
    requires Valid(s)
    ensures Valid(RemoveItem(s, productId).1)
  {
    if s.session.Some? {
      OthersKeepsInvariant(s.cart, s.session.value.id, productId);
    }
  }

  /** Signup and login keep the invariant too (signup keeps emails unique). */
  lemma AuthKeepsValid(s: State, name: Option<string>, email: Option<string>, password: Option<string>,
                       hash: string -> string, check: (string, string) -> bool, newId: int)
    requires Valid(s)
    ensures Valid(Signup(s, name, email, password, hash, newId).1)
    ensures Valid(Login(s, email, password, check).1)
    ensures Valid(Logout(s).1)
  {
    SignupKeepsEmailsUnique(s, name, email, password, hash, newId);
  }

  // ---------------------------------------------------------------------
  // Merge-add against absolute-set
  // ---------------------------------------------------------------------

  /** An accepted add of a catalog product: the pair reads its prior
      quantity plus `q` and has a row. */
  lemma AddOnce(s: State, p: int, q: int)
    requires s.session.Some? && p != 0 && p in s.medicines && q > 0
    ensures var a := AddItem(s, Some(p), Some(q));
      && a.0.Success? && a.1.session == s.session && a.1.medicines == s.medicines
      && (a.0 == QuantityMerged <==> Has(s.cart, s.session.value.id, p))
      && QuantityOf(a.1.cart, s.session.value.id, p) == Some(QuantityOf(s.cart, s.session.value.id, p).GetOr(0) + q)
      && Has(a.1.cart, s.session.value.id, p)
  {
    var u := s.session.value.id;
    var a := AddItem(s, Some(p), Some(q));
    assert a.1 == s.(cart := MergeRow(s.cart, u, p, q));
    QuantityOfHas(a.1.cart, u, p);
  }

  /** Two adds of the same product accumulate. */
  lemma AddTwiceAccumulates(s: State, p: int, q1: int, q2: int)
    requires s.session.Some? && p != 0 && p in s.medicines && q1 > 0 && q2 > 0
    ensures var s2 := AddItem(AddItem(s, Some(p), Some(q1)).1, Some(p), Some(q2));
      && s2.0 == QuantityMerged
      && QuantityOf(s2.1.cart, s.session.value.id, p) == Some(QuantityOf(s.cart, s.session.value.id, p).GetOr(0) + q1 + q2)
  {
    AddOnce(s, p, q1);
    AddOnce(AddItem(s, Some(p), Some(q1)).1, p, q2);
  }

  lemma {:induction false} SetQuantityTwice(cart: seq<Row>, u: int, p: int, a: int, b: int)
    ensures SetQuantity(SetQuantity(cart, u, p, a), u, p, b) == SetQuantity(cart, u, p, b)
    decreases |cart|
  {
    if |cart| > 0 {
      var once := SetQuantity(cart, u, p, a);
      assert once[1..] == SetQuantity(cart[1..], u, p, a);
      SetQuantityTwice(cart[1..], u, p, a, b);
    }
  }

  /** Update sets: the last update wins whatever came before, so updating
      twice to the same quantity is the same as updating once. */
  lemma UpdateOverwrites(s: State, p: Option<int>, a: Option<int>, b: Option<int>)
    requires UpdateItem(s, p, a).0 == ItemUpdated && ValidItem(p, b)
    ensures UpdateItem(UpdateItem(s, p, a).1, p, b) == UpdateItem(s, p, b)
  {
    var u := s.session.value.id;
    SetQuantityTwice(s.cart, u, p.value, a.value, b.value);
    assert Has(UpdateItem(s, p, a).1.cart, u, p.value) by {
      QuantityAfterSet(s.cart, u, p.value, a.value);
    }
  }

  /** Update never consults the catalog: it behaves the same whatever the
      medicines table holds. */
  lemma UpdateIgnoresCatalog(s: State, p: Option<int>, q: Option<int>, m: Medicines)
    ensures var r := UpdateItem(s, p, q);
      UpdateItem(s.(medicines := m), p, q) == (r.0, r.1.(medicines := m))
  {
  }

  // ---------------------------------------------------------------------
  // Remove
  // ---------------------------------------------------------------------

  /** A second remove of the same product reports 404 and changes nothing. */
  lemma RemoveTwiceNotFound(s: State, p: int)
    requires RemoveItem(s, p).0 == ItemRemoved
    ensures var s1 := RemoveItem(s, p).1; RemoveItem(s1, p) == (ItemNotFound, s1)
  {
  }

  // ---------------------------------------------------------------------
  // Ownership
  // ---------------------------------------------------------------------

  /** The rows of user v, in table order. */
  function RowsOf(cart: seq<Row>, v: int): (r: seq<Row>)
    ensures forall x :: x in r <==> x in cart && x.userId == v
    decreases |cart|
  {
    if |cart| == 0 then []
    else if cart[0].userId == v then [cart[0]] + RowsOf(cart[1..], v)
    else RowsOf(cart[1..], v)
  }

  /** The rows of v, each as often as the table holds it, and no row of
      another user. */
  lemma {:induction false} RowsOfCounts(cart: seq<Row>, v: int)
    ensures forall x :: multiset(RowsOf(cart, v))[x] == if x.userId == v then multiset(cart)[x] else 0
    decreases |cart|
  {
    if |cart| > 0 {
      assert cart == [cart[0]] + cart[1..];
      RowsOfCounts(cart[1..], v);
    }
  }

  lemma {:induction false} RowsOfOthers(cart: seq<Row>, u: int, p: int, v: int)
    requires v != u
    ensures RowsOf(Others(cart, u, p), v) == RowsOf(cart, v)
    decreases |cart|
  {
    if |cart| > 0 {
      RowsOfOthers(cart[1..], u, p, v);
      if !Matches(cart[0], u, p) {
        assert ([cart[0]] + Others(cart[1..], u, p))[1..] == Others(cart[1..], u, p);
      }
    }
  }

  /** No cart handler touches another user's rows. */
  lemma OtherUsersUntouched(s: State, p: Option<int>, q: Option<int>, r: int, v: int)
    requires s.session.Some? && v != s.session.value.id
    ensures RowsOf(AddItem(s, p, q).1.cart, v) == RowsOf(s.cart, v)
    ensures RowsOf(UpdateItem(s, p, q).1.cart, v) == RowsOf(s.cart, v)
    ensures RowsOf(RemoveItem(s, r).1.cart, v) == RowsOf(s.cart, v)
  {
    var u := s.session.value.id;
    if AddItem(s, p, q).0.Success? {
      RowsOfOthers(AddItem(s, p, q).1.cart, u, p.value, v);
      RowsOfOthers(s.cart, u, p.value, v);
    }
    if UpdateItem(s, p, q).0.Success? {
      RowsOfOthers(UpdateItem(s, p, q).1.cart, u, p.value, v);
      RowsOfOthers(s.cart, u, p.value, v);
    }
    if RemoveItem(s, r).0.Success? {
      RowsOfOthers(s.cart, u, r, v);
    }
  }

  /** The listing never shows a line of another user's row. */
  lemma ListingIsOwnRows(s: State, line: CartLine)
    requires ListItems(s).Listed? && line in ListItems(s).lines
    ensures exists i :: (0 <= i < |s.cart| && s.cart[i].userId == s.session.value.id
      && s.cart[i].productId == line.productId && s.cart[i].quantity == line.quantity)
  {
  }

  /** The join lists each line once per row of u it comes from: a row of u
      with product p and quantity q gives the line for (p, q) with p's
      catalog record, and a row whose product is missing gives none. */
  lemma {:induction false} LinesCounts(cart: seq<Row>, u: int, m: Medicines)
    ensures forall line ::
      multiset(Lines(cart, u, m))[line] ==
        if line.productId in m && line.product == m[line.productId]
        then multiset(cart)[Row(u, line.productId, line.quantity)] else 0
    decreases |cart|
  {
    if |cart| > 0 {
      assert cart == [cart[0]] + cart[1..];
      LinesCounts(cart[1..], u, m);
      assert forall line :: Joinable(cart[0], u, m) && line == Join(cart[0], m) <==>
        line.productId in m && line.product == m[line.productId] && cart[0] == Row(u, line.productId, line.quantity);
    }
  }

  /** `GET /api/cart` lists each of the caller's rows whose product is in
      the catalog exactly once, as its join with the catalog record. */
  lemma ListingCounts(s: State)
    requires s.session.Some?
    ensures forall line ::
      multiset(ListItems(s).lines)[line] ==
        if line.productId in s.medicines && line.product == s.medicines[line.productId]
        then multiset(s.cart)[Row(s.session.value.id, line.productId, line.quantity)] else 0
  {
    LinesCounts(s.cart, s.session.value.id, s.medicines);
  }

  // ---------------------------------------------------------------------
  // One user's cart, end to end
  // ---------------------------------------------------------------------

  /** A user adds product p twice (2, then 3), updates it to 1, then removes
      it: the row holds 5, then 1, and finally the listing shows no line for
      p while the remove of a second time is a 404. */
  lemma CartScenario(s: State, p: int)
    requires Valid(s) && s.session.Some? && p != 0 && p in s.medicines
    requires !Has(s.cart, s.session.value.id, p)
    ensures var u := s.session.value.id;
      var a := AddItem(s, Some(p), Some(2));
      var b := AddItem(a.1, Some(p), Some(3));
      var c := UpdateItem(b.1, Some(p), Some(1));
      var d := RemoveItem(c.1, p);
      && a.0 == ItemAdded && b.0 == QuantityMerged && QuantityOf(b.1.cart, u, p) == Some(5)
      && c.0 == ItemUpdated && QuantityOf(c.1.cart, u, p) == Some(1)
      && d.0 == ItemRemoved
      && (forall line :: line in ListItems(d.1).lines ==> line.productId != p)
      && RemoveItem(d.1, p) == (ItemNotFound, d.1)
  {
    var u := s.session.value.id;
    var a := AddItem(s, Some(p), Some(2));
    assert a.0 == ItemAdded && a.1.session == s.session && a.1.medicines == s.medicines;
    assert QuantityOf(a.1.cart, u, p) == Some(2);
    assert Has(a.1.cart, u, p);
    var b := AddItem(a.1, Some(p), Some(3));
    assert b.0 == QuantityMerged && b.1.session == s.session && QuantityOf(b.1.cart, u, p) == Some(5);
    assert Has(b.1.cart, u, p);
    var c := UpdateItem(b.1, Some(p), Some(1));
    assert c.0 == ItemUpdated && c.1.session == s.session;
    var d := RemoveItem(c.1, p);
    assert d.0 == ItemRemoved && !Has(d.1.cart, u, p);
    forall line | line in ListItems(d.1).lines
      ensures line.productId != p
    {
      var i :| 0 <= i < |d.1.cart| && Joinable(d.1.cart[i], u, d.1.medicines) && line == Join(d.1.cart[i], d.1.medicines);
    }
  }
}
