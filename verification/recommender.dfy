/** The pure parts of the Flask service: the request check and the
    pad-or-truncate of a feature sequence to five records (`/predict`), the
    per-product grouping of a user's order history, the top three products
    by prediction, the predicted-quantity lookup, and the assembly of the
    `/user_recommendations` reply. The demand model itself is a parameter
    `predict` (`None` when prediction fails for a product, which is then
    skipped). Predictions are integers: the service rounds them to two
    decimals, so they are exact hundredths. */
module Recommender {
  import opened Wrappers
  import opened JsValues
  import opened Catalog

  // ---------------------------------------------------------------------
  // Feature sequences
  // ---------------------------------------------------------------------

  /** One time step of the model input. */
  datatype Feature = Feature(rollingQuantity: int, dayOfWeek: int, month: int, day: int, weekOfYear: int)

  /** The record padding appends. */
  const Blank := Feature(0, 0, 1, 1, 1)

  /** The sequence length the model takes. */
  const SeqLength := 5

  /** `seq[:5] + [blank] * max(0, 5 - len(seq))`. */
  function Pad(s: seq<Feature>): (r: seq<Feature>)
    ensures |r| == SeqLength
    ensures forall i :: 0 <= i < |s| && i < SeqLength ==> r[i] == s[i]
    ensures forall i :: |s| <= i < SeqLength ==> r[i] == Blank
  {
    var k := if |s| < SeqLength then |s| else SeqLength;
    s[..k] + seq(SeqLength - k, _ => Blank)
  }

  /** Padding a padded sequence changes nothing, a five-record sequence is
      its own padding, and records past the fifth are ignored. */
  lemma PadLaws(s: seq<Feature>, t: seq<Feature>)
    ensures Pad(Pad(s)) == Pad(s)
    ensures |s| == SeqLength ==> Pad(s) == s
    ensures |s| >= SeqLength ==> Pad(s + t) == Pad(s)
  {
    assert Pad(Pad(s)) == Pad(s);
    if |s| >= SeqLength {
      assert Pad(s + t) == Pad(s);
    }
  }

  /** What `/predict` hands to the model, or why it refuses (both 400). */
  datatype PredictInput = MissingFields | Unrecognized(productId: int) | Ready(productId: int, features: seq<Feature>)

  /** `/predict`: `product_id` and a non-empty `seq` are required (`not`
      rejects `None`, `0` and `[]`), the product must be one the encoder
      knows, and the sequence is padded or truncated to five records. */
  function PredictRequest(productId: Option<int>, sequence: Option<seq<Feature>>, known: set<int>): (r: PredictInput)
    ensures !Truthy(productId) || sequence.None? || |sequence.value| == 0 <==> r == MissingFields
    ensures r.Unrecognized? <==> r != MissingFields && productId.value !in known
    ensures r.Ready? ==>
      && r.productId in known && r.productId == productId.value
      && |r.features| == SeqLength && r.features == Pad(sequence.value)
  {
    if !Truthy(productId) || sequence.None? || |sequence.value| == 0 then MissingFields
    else if productId.value !in known then Unrecognized(productId.value)
    else Ready(productId.value, Pad(sequence.value))
  }

  // ---------------------------------------------------------------------
  // History grouping
  // ---------------------------------------------------------------------

  /** The calendar parts of an order date (weekday, month, day, ISO week);
      extracting them from the date is left to the environment. */
  datatype DateParts = DateParts(weekday: int, month: int, day: int, isoWeek: int)

  /** One row of the history query: a product and its order's date. */
  datatype OrderRow = OrderRow(productId: int, date: DateParts)

  /** The record a history row contributes (rolling quantity 1). */
  function RowFeature(row: OrderRow): Feature {
    Feature(1, row.date.weekday, row.date.month, row.date.day, row.date.isoWeek)
  }

  /** One entry of `history`: a product and its records. */
  datatype Group = Group(productId: int, features: seq<Feature>)

  /** The records of product `p`, in query order. */
  function FeaturesOf(rows: seq<OrderRow>, p: int): seq<Feature>
    decreases |rows|
  {
    if |rows| == 0 then []
    else
      var last := rows[|rows| - 1];
      FeaturesOf(rows[..|rows| - 1], p) + (if last.productId == p then [RowFeature(last)] else [])
  }

  lemma {:induction false} FeaturesOfAbsent(rows: seq<OrderRow>, p: int)
    requires forall i :: 0 <= i < |rows| ==> rows[i].productId != p
    ensures FeaturesOf(rows, p) == []
    decreases |rows|
  {
    if |rows| > 0 {
      FeaturesOfAbsent(rows[..|rows| - 1], p);
    }
  }

  predicate DistinctKeys(groups: seq<Group>) {
    forall i, j :: 0 <= i < j < |groups| ==> groups[i].productId != groups[j].productId
  }

  /** The index of the group of `p`, or `|groups|`. */
  function KeyIndex(groups: seq<Group>, p: int): (i: nat)
    ensures i <= |groups|
    ensures forall k :: 0 <= k < i ==> groups[k].productId != p
    ensures i < |groups| ==> groups[i].productId == p
    decreases |groups|
  {
    if |groups| == 0 || groups[0].productId == p then 0 else 1 + KeyIndex(groups[1..], p)
  }

  /** Some group belongs to product `p`. */
  predicate Keyed(groups: seq<Group>, p: int) {
    KeyIndex(groups, p) < |groups|
  }

  /** Groups with the same keys in the same places find a key at the same
      index. */
  lemma {:induction false} KeyIndexOfSameKeys(a: seq<Group>, b: seq<Group>, p: int)
    requires |a| == |b| && forall k :: 0 <= k < |a| ==> a[k].productId == b[k].productId
    ensures KeyIndex(a, p) == KeyIndex(b, p)
    decreases |a|
  {
    if |a| > 0 && a[0].productId != p {
      KeyIndexOfSameKeys(a[1..], b[1..], p);
    }
  }

  /** Appending a group keeps every key already present where it was. */
  lemma {:induction false} KeyIndexAppend(g: seq<Group>, added: Group, p: int)
    ensures KeyIndex(g, p) < |g| ==> KeyIndex(g + [added], p) == KeyIndex(g, p)
    ensures KeyIndex(g, p) == |g| && added.productId == p ==> KeyIndex(g + [added], p) == |g|
    decreases |g|
  {
    if |g| == 0 {
      assert g + [added] == [added];
    } else {
      assert (g + [added])[1..] == g[1..] + [added];
      if g[0].productId != p {
        KeyIndexAppend(g[1..], added, p);
      }
    }
  }

  /** `history[row.product_id].append(record)` on an insertion-ordered dict. */
  function Record(groups: seq<Group>, row: OrderRow): seq<Group> {
    var i := KeyIndex(groups, row.productId);
    if i < |groups| then groups[i := Group(row.productId, groups[i].features + [RowFeature(row)])]
    else groups + [Group(row.productId, [RowFeature(row)])]
  }

  /** Every group holds exactly its product's records, in query order. */
  ghost predicate Tracks(groups: seq<Group>, rows: seq<OrderRow>) {
    forall k :: 0 <= k < |groups| ==> groups[k].features == FeaturesOf(rows, groups[k].productId)
  }

  /** Every row's product has a group. */
  predicate Covers(groups: seq<Group>, rows: seq<OrderRow>) {
    forall i :: 0 <= i < |rows| ==> Keyed(groups, rows[i].productId)
  }

  predicate NonEmptyGroups(groups: seq<Group>) {
    forall k :: 0 <= k < |groups| ==> |groups[k].features| > 0
  }

  /** `groups` is the grouping of `rows`: one group per product, each
      holding exactly that product's records in query order, and every row's
      product has a group. */
  ghost predicate GroupsOf(groups: seq<Group>, rows: seq<OrderRow>) {
    DistinctKeys(groups) && Tracks(groups, rows) && Covers(groups, rows) && NonEmptyGroups(groups)
  }

  lemma FeaturesOfSnoc(rows: seq<OrderRow>, x: OrderRow, p: int)
    ensures FeaturesOf(rows + [x], p) == FeaturesOf(rows, p) + (if x.productId == p then [RowFeature(x)] else [])
  {
    assert (rows + [x])[..|rows|] == rows;
  }

  lemma RecordExistingTracks(g: seq<Group>, rows: seq<OrderRow>, x: OrderRow)
    requires DistinctKeys(g) && Tracks(g, rows) && Keyed(g, x.productId)
    ensures Tracks(Record(g, x), rows + [x])
  {
    var r := Record(g, x);
    var i := KeyIndex(g, x.productId);
    forall k | 0 <= k < |r|
      ensures r[k].features == FeaturesOf(rows + [x], r[k].productId)
    {
      FeaturesOfSnoc(rows, x, r[k].productId);
      if k != i {
        assert r[k] == g[k] && g[k].productId != g[i].productId;
      }
    }
  }

  lemma RecordExistingCovers(g: seq<Group>, rows: seq<OrderRow>, x: OrderRow)
    requires Covers(g, rows) && Keyed(g, x.productId)
    ensures Covers(Record(g, x), rows + [x])
  {
    var r := Record(g, x);
    forall j | 0 <= j < |rows + [x]|
      ensures Keyed(r, (rows + [x])[j].productId)
    {
      KeyIndexOfSameKeys(r, g, (rows + [x])[j].productId);
      if j < |rows| {
        assert (rows + [x])[j] == rows[j];
      }
    }
  }

  lemma RecordExisting(g: seq<Group>, rows: seq<OrderRow>, x: OrderRow)
    requires GroupsOf(g, rows) && Keyed(g, x.productId)
    ensures GroupsOf(Record(g, x), rows + [x])
  {
    var r := Record(g, x);
    assert |r| == |g| && forall k :: 0 <= k < |r| ==> r[k].productId == g[k].productId;
    RecordExistingTracks(g, rows, x);
    RecordExistingCovers(g, rows, x);
  }

  lemma RecordFreshTracks(g: seq<Group>, rows: seq<OrderRow>, x: OrderRow)
    requires Tracks(g, rows) && Covers(g, rows) && !Keyed(g, x.productId)
    ensures Tracks(Record(g, x), rows + [x])
  {
    var r := Record(g, x);
    assert forall j :: 0 <= j < |rows| ==> rows[j].productId != x.productId;
    FeaturesOfAbsent(rows, x.productId);
    forall k | 0 <= k < |r|
      ensures r[k].features == FeaturesOf(rows + [x], r[k].productId)
    {
      FeaturesOfSnoc(rows, x, r[k].productId);
      if k < |g| {
        assert r[k] == g[k];
      }
    }
  }

  lemma RecordFreshCovers(g: seq<Group>, rows: seq<OrderRow>, x: OrderRow)
    requires Covers(g, rows) && !Keyed(g, x.productId)
    ensures Covers(Record(g, x), rows + [x])
  {
    var added := Group(x.productId, [RowFeature(x)]);
    assert Record(g, x) == g + [added];
    forall j | 0 <= j < |rows + [x]|
      ensures Keyed(g + [added], (rows + [x])[j].productId)
    {
      KeyIndexAppend(g, added, (rows + [x])[j].productId);
      if j < |rows| {
        assert (rows + [x])[j] == rows[j];
      }
    }
  }

  lemma RecordFreshDistinct(g: seq<Group>, x: OrderRow)
    requires DistinctKeys(g) && NonEmptyGroups(g) && !Keyed(g, x.productId)
    ensures DistinctKeys(Record(g, x)) && NonEmptyGroups(Record(g, x))
  {
    var r := Record(g, x);
    forall i, j | 0 <= i < j < |r|
      ensures r[i].productId != r[j].productId
    {
      assert r[i] == g[i];
      if j < |g| {
        assert r[j] == g[j];
      }
    }
    forall k | 0 <= k < |r|
      ensures |r[k].features| > 0
    {
      if k < |g| {
        assert r[k] == g[k];
      }
    }
  }

  lemma RecordFresh(g: seq<Group>, rows: seq<OrderRow>, x: OrderRow)
    requires GroupsOf(g, rows) && !Keyed(g, x.productId)
    ensures GroupsOf(Record(g, x), rows + [x])
  {
    RecordFreshTracks(g, rows, x);
    RecordFreshCovers(g, rows, x);
    RecordFreshDistinct(g, x);
  }

  /** The grouping loop over the query rows (`history[pid].append(...)` on
      an insertion-ordered dict): one group per product, in order of first
      appearance. */
  function History(rows: seq<OrderRow>): (r: seq<Group>)
    ensures GroupsOf(r, rows)
    decreases |rows|
  {
    if |rows| == 0 then []
    else
      var prefix := rows[..|rows| - 1];
      var last := rows[|rows| - 1];
      assert rows == prefix + [last];
      var g := History(prefix);
      if Keyed(g, last.productId) then
        RecordExisting(g, prefix, last);
        Record(g, last)
      else
        RecordFresh(g, prefix, last);
        Record(g, last)
  }

  /** The total number of records over all groups. */
  function SizeSum(groups: seq<Group>): nat
    decreases |groups|
  {
    if |groups| == 0 then 0 else |groups[0].features| + SizeSum(groups[1..])
  }

  lemma {:induction false} SizeSumAppend(groups: seq<Group>, g: Group)
    ensures SizeSum(groups + [g]) == SizeSum(groups) + |g.features|
    decreases |groups|
  {
    if |groups| == 0 {
      assert groups + [g] == [g];
    } else {
      assert (groups + [g])[1..] == groups[1..] + [g];
      SizeSumAppend(groups[1..], g);
    }
  }

  lemma {:induction false} SizeSumUpdate(groups: seq<Group>, i: nat, g: Group)
    requires i < |groups|
    ensures SizeSum(groups[i := g]) == SizeSum(groups) - |groups[i].features| + |g.features|
    decreases |groups|
  {
    if i > 0 {
      assert groups[i := g][1..] == groups[1..][i - 1 := g];
      SizeSumUpdate(groups[1..], i - 1, g);
    }
  }

  /** Grouping loses no row: the group sizes sum to the number of rows. */
  lemma {:induction false} HistoryKeepsEveryRow(rows: seq<OrderRow>)
    ensures SizeSum(History(rows)) == |rows|
    decreases |rows|
  {
    if |rows| > 0 {
      var prefix := rows[..|rows| - 1];
      var last := rows[|rows| - 1];
      var g := History(prefix);
      HistoryKeepsEveryRow(prefix);
      var i := KeyIndex(g, last.productId);
      if i < |g| {
        SizeSumUpdate(g, i, Group(last.productId, g[i].features + [RowFeature(last)]));
      } else {
        SizeSumAppend(g, Group(last.productId, [RowFeature(last)]));
      }
    }
  }

  // ---------------------------------------------------------------------
  // Predictions and the top three
  // ---------------------------------------------------------------------

  /** A product's predicted demand, in hundredths. */
  datatype Prediction = Prediction(productId: int, value: int)

  /** The prediction loop: each group's padded records go to the model; a
      group whose prediction fails is skipped. */
  function Collect(groups: seq<Group>, predict: (int, seq<Feature>) -> Option<int>): (r: seq<Prediction>)
    ensures |r| <= |groups|
    ensures forall x :: x in r ==>
      exists g :: g in groups && g.productId == x.productId && predict(g.productId, Pad(g.features)) == Some(x.value)
    ensures forall g :: g in groups && predict(g.productId, Pad(g.features)).Some? ==>
      Prediction(g.productId, predict(g.productId, Pad(g.features)).value) in r
    decreases |groups|
  {
    if |groups| == 0 then []
    else
      var g := groups[0];
      var rest := Collect(groups[1..], predict);
      assert forall h :: h in groups[1..] ==> h in groups;
      assert forall h :: h in groups ==> h == g || h in groups[1..];
      match predict(g.productId, Pad(g.features))
      case Some(v) => [Prediction(g.productId, v)] + rest
      case None => rest
  }

  /** No two predictions are for the same product. */
  predicate DistinctIds(preds: seq<Prediction>) {
    forall i, j :: 0 <= i < j < |preds| ==> preds[i].productId != preds[j].productId
  }

  /** A prediction for a new product in front of distinct ones keeps them
      distinct, and dropping the first keeps them distinct. */
  lemma DistinctIdsCons(x: Prediction, rest: seq<Prediction>)
    ensures DistinctIds([x] + rest) <==>
      DistinctIds(rest) && forall y :: y in rest ==> y.productId != x.productId
  {
    var r := [x] + rest;
    assert forall k :: 0 <= k < |rest| ==> r[k + 1] == rest[k];
    if DistinctIds(rest) && forall y :: y in rest ==> y.productId != x.productId {
      forall i, j | 0 <= i < j < |r|
        ensures r[i].productId != r[j].productId
      {
        assert r[j] in rest;
      }
    }
    if DistinctIds(r) {
      forall y | y in rest
        ensures y.productId != x.productId
      {
        var k :| 0 <= k < |rest| && rest[k] == y;
        assert r[0] == x && r[k + 1] == y;
      }
      forall i, j | 0 <= i < j < |rest|
        ensures rest[i].productId != rest[j].productId
      {
        assert r[i + 1] == rest[i] && r[j + 1] == rest[j];
      }
    }
  }

  /** Groups with distinct products give at most one prediction per product,
      so with the membership clauses of `Collect` the predictions are fixed
      up to order. */
  lemma {:induction false} CollectDistinct(groups: seq<Group>, predict: (int, seq<Feature>) -> Option<int>)
    requires DistinctKeys(groups)
    ensures DistinctIds(Collect(groups, predict))
    decreases |groups|
  {
    if |groups| > 0 {
      var g := groups[0];
      var tail := groups[1..];
      var rest := Collect(tail, predict);
      assert forall k :: 0 <= k < |tail| ==> tail[k] == groups[k + 1];
      CollectDistinct(tail, predict);
      if predict(g.productId, Pad(g.features)).Some? {
        forall y | y in rest
          ensures y.productId != g.productId
        {
          var h :| h in tail && h.productId == y.productId && predict(h.productId, Pad(h.features)) == Some(y.value);
          var k :| 0 <= k < |tail| && tail[k] == h;
        }
        DistinctIdsCons(Prediction(g.productId, predict(g.productId, Pad(g.features)).value), rest);
      }
    }
  }

  /** Ordered by value, largest first. */
  predicate NonIncreasing(s: seq<Prediction>) {
    forall i, j :: 0 <= i < j < |s| ==> s[i].value >= s[j].value
  }

  /** Insert after every element of at least the same value (so equal
      values keep their order). */
  function Insert(x: Prediction, s: seq<Prediction>): (r: seq<Prediction>)
    requires NonIncreasing(s)
    ensures |r| == |s| + 1
    ensures forall y :: y in r ==> y in s || y == x
    ensures NonIncreasing(r)
    ensures multiset(r) == multiset(s) + multiset{x}
    decreases |s|
  {
    if |s| == 0 then [x]
    else if s[0].value >= x.value then
      var rest := Insert(x, s[1..]);
      var r := [s[0]] + rest;
      assert s == [s[0]] + s[1..];
      InsertHeadIsLargest(x, s, rest);
      r
    else
      [x] + s
  }

  lemma InsertHeadIsLargest(x: Prediction, s: seq<Prediction>, rest: seq<Prediction>)
    requires NonIncreasing(s) && |s| > 0 && s[0].value >= x.value
    requires NonIncreasing(rest) && forall y :: y in rest ==> y in s[1..] || y == x
    ensures NonIncreasing([s[0]] + rest)
  {
    var r := [s[0]] + rest;
    forall i, j | 0 <= i < j < |r|
      ensures r[i].value >= r[j].value
    {
      assert r[j] == rest[j - 1];
      if i == 0 {
        assert r[j] in rest;
        if r[j] in s[1..] {
          var k :| 0 <= k < |s[1..]| && s[1..][k] == r[j];
          assert s[k + 1] == r[j];
        }
      } else {
        assert r[i] == rest[i - 1];
      }
    }
  }

  /** `sorted(predictions, key=value, reverse=True)`. */
  function SortDescending(s: seq<Prediction>): (r: seq<Prediction>)
    ensures NonIncreasing(r)
    ensures multiset(r) == multiset(s)
    decreases |s|
  {
    if |s| == 0 then []
    else
      assert s == s[..|s| - 1] + [s[|s| - 1]];
      Insert(s[|s| - 1], SortDescending(s[..|s| - 1]))
  }

  /** How many products are recommended at most. */
  const TopCount := 3

  /** `sorted(...)[:3]`: the first three predictions by value. */
  function Top(preds: seq<Prediction>): (r: seq<Prediction>)
    ensures |r| == if |preds| < TopCount then |preds| else TopCount
    ensures NonIncreasing(r)
    ensures multiset(r) <= multiset(preds)
    ensures forall x :: x in preds ==> x in r || forall y :: y in r ==> y.value >= x.value
  {
    var sorted := SortDescending(preds);
    var k := if |sorted| < TopCount then |sorted| else TopCount;
    var r := sorted[..k];
    assert sorted == r + sorted[k..];
    forall x | x in preds && x !in r
      ensures forall y :: y in r ==> y.value >= x.value
    {
      assert x in multiset(sorted);
      var j :| 0 <= j < |sorted| && sorted[j] == x;
      assert j >= k;
      forall y | y in r
        ensures y.value >= x.value
      {
        var i :| 0 <= i < k && r[i] == y;
      }
    }
    r
  }

  /** A value listed twice in a sequence is counted twice. */
  lemma CountsRepeat(t: seq<Prediction>, i: int, j: int)
    requires 0 <= i < j < |t| && t[i] == t[j]
    ensures multiset(t)[t[i]] >= 2
  {
    assert t == t[..j] + [t[j]] + t[j + 1..];
    assert t[..j][i] == t[i];
  }

  /** Each prediction of a list with distinct products is counted once. */
  lemma {:induction false} DistinctIdsCountOnce(s: seq<Prediction>, x: Prediction)
    requires DistinctIds(s)
    ensures multiset(s)[x] <= 1
    decreases |s|
  {
    if |s| > 0 {
      assert s == [s[0]] + s[1..];
      DistinctIdsCons(s[0], s[1..]);
      DistinctIdsCountOnce(s[1..], x);
    }
  }

  /** Taking some of the predictions, in any order, keeps products distinct. */
  lemma DistinctIdsOfSubMultiset(s: seq<Prediction>, t: seq<Prediction>)
    requires DistinctIds(s) && multiset(t) <= multiset(s)
    ensures DistinctIds(t)
  {
    forall i, j | 0 <= i < j < |t|
      ensures t[i].productId != t[j].productId
    {
      if t[i] == t[j] {
        CountsRepeat(t, i, j);
        DistinctIdsCountOnce(s, t[i]);
      } else {
        assert t[i] in multiset(s) && t[j] in multiset(s);
        var a :| 0 <= a < |s| && s[a] == t[i];
        var b :| 0 <= b < |s| && s[b] == t[j];
        assert a != b;
      }
    }
  }

  /** The product ids of the top three, best first: no id twice when the
      predictions are for distinct products, and each id is that of a
      prediction at least as large as every prediction left out. */
  function TopIds(preds: seq<Prediction>): (ids: seq<int>)
    ensures |ids| == |Top(preds)|
    ensures forall i :: 0 <= i < |ids| ==> ids[i] == Top(preds)[i].productId
    ensures DistinctIds(preds) ==> forall i, j :: 0 <= i < j < |ids| ==> ids[i] != ids[j]
  {
    var top := Top(preds);
    assert DistinctIds(preds) ==> DistinctIds(top) by {
      if DistinctIds(preds) {
        DistinctIdsOfSubMultiset(preds, top);
      }
    }
    seq(|top|, i requires 0 <= i < |top| => top[i].productId)
  }

  /** `next((q for pid, q in predictions if pid == product_id), 0)`. */
  function PredictedQuantity(preds: seq<Prediction>, p: int): (q: int)
    ensures (forall i :: 0 <= i < |preds| ==> preds[i].productId != p) ==> q == 0
    ensures forall i :: (0 <= i < |preds| && preds[i].productId == p
      && (forall j :: 0 <= j < i ==> preds[j].productId != p)) ==> q == preds[i].value
    decreases |preds|
  {
    if |preds| == 0 then 0
    else if preds[0].productId == p then preds[0].value
    else
      var q := PredictedQuantity(preds[1..], p);
      assert forall i :: 1 <= i < |preds| ==> preds[i] == preds[1..][i - 1];
      q
  }

  // ---------------------------------------------------------------------
  // /user_recommendations
  // ---------------------------------------------------------------------

  /** A recommended medicine with its predicted quantity. */
  datatype Served = Served(product: Product, predictedQuantity: int)

  /** The reply: 400 for a missing user id, otherwise the recommendations. */
  datatype RecommendReply = MissingUser | Recommended(products: seq<Served>)

  /** The medicines among `ids`, each with the prediction looked up for it. */
  function Describe(ids: seq<int>, m: Medicines, preds: seq<Prediction>): (r: seq<Served>)
    ensures |r| <= |ids|
    ensures forall x :: x in r ==> exists id :: id in ids && id in m && x == Served(m[id], PredictedQuantity(preds, id))
    ensures forall id :: id in ids && id in m ==> Served(m[id], PredictedQuantity(preds, id)) in r
    decreases |ids|
  {
    if |ids| == 0 then []
    else
      var rest := Describe(ids[1..], m, preds);
      assert forall id :: id in ids[1..] ==> id in ids;
      assert forall id :: id in ids ==> id == ids[0] || id in ids[1..];
      if ids[0] in m then [Served(m[ids[0]], PredictedQuantity(preds, ids[0]))] + rest else rest
  }

  /** No serial number is served twice. */
  predicate DistinctServed(r: seq<Served>) {
    forall i, j :: 0 <= i < j < |r| ==> r[i].product.srNumber != r[j].product.srNumber
  }

  /** Distinct ids of a catalog keyed by serial number give distinct
      medicines, so with the membership clauses of `Describe` the reply is
      fixed up to order. */
  lemma {:induction false} DescribeDistinct(ids: seq<int>, m: Medicines, preds: seq<Prediction>)
    requires WellKeyed(m) && forall i, j :: 0 <= i < j < |ids| ==> ids[i] != ids[j]
    ensures DistinctServed(Describe(ids, m, preds))
    decreases |ids|
  {
    if |ids| > 0 {
      var tail := ids[1..];
      assert forall k :: 0 <= k < |tail| ==> tail[k] == ids[k + 1];
      DescribeDistinct(tail, m, preds);
      var rest := Describe(tail, m, preds);
      if ids[0] in m {
        var r := [Served(m[ids[0]], PredictedQuantity(preds, ids[0]))] + rest;
        assert forall k :: 0 <= k < |rest| ==> r[k + 1] == rest[k];
        forall i, j | 0 <= i < j < |r|
          ensures r[i].product.srNumber != r[j].product.srNumber
        {
          if i == 0 {
            assert r[j] in rest;
            var id :| id in tail && id in m && r[j] == Served(m[id], PredictedQuantity(preds, id));
            var k :| 0 <= k < |tail| && tail[k] == id;
          }
        }
      }
    }
  }

  /** The predictions made for a user's order history: at most one per
      product, since the history is grouped by product. */
  function Predictions(rows: seq<OrderRow>, predict: (int, seq<Feature>) -> Option<int>): (r: seq<Prediction>)
    ensures DistinctIds(r)
  {
    var groups := History(rows);
    CollectDistinct(groups, predict);
    Collect(groups, predict)
  }

  /** `/user_recommendations` never serves a medicine twice. */
  lemma RecommendationsDistinct(userId: Option<int>, rows: seq<OrderRow>,
                                predict: (int, seq<Feature>) -> Option<int>, m: Medicines)
    requires WellKeyed(m)
    ensures var r := UserRecommendations(userId, rows, predict, m);
      r.Recommended? ==> DistinctServed(r.products)
  {
    var preds := Predictions(rows, predict);
    if Truthy(userId) && |preds| > 0 {
      DescribeDistinct(TopIds(preds), m, preds);
    }
  }

  /** `/user_recommendations`: a missing or zero `user_id` is refused; no
      prediction gives no recommendation; otherwise the medicines of the
      three best-predicted products, each with its predicted quantity. The
      rows of the order query are a parameter (the query keeps the user's
      latest fifty order lines). */
  function UserRecommendations(userId: Option<int>, rows: seq<OrderRow>,
                               predict: (int, seq<Feature>) -> Option<int>, m: Medicines): (r: RecommendReply)
    ensures r == MissingUser <==> !Truthy(userId)
    ensures (r.Recommended? && |Predictions(rows, predict)| == 0) ==> r.products == []
    ensures r.Recommended? ==> |r.products| <= TopCount
    ensures r.Recommended? ==> forall x :: x in r.products ==>
      exists id :: (id in TopIds(Predictions(rows, predict)) && id in m
        && x == Served(m[id], PredictedQuantity(Predictions(rows, predict), id)))
    ensures r.Recommended? ==> forall id :: id in TopIds(Predictions(rows, predict)) && id in m ==>
      Served(m[id], PredictedQuantity(Predictions(rows, predict), id)) in r.products
  {
    if !Truthy(userId) then MissingUser
    else
      var preds := Predictions(rows, predict);
      if |preds| == 0 then Recommended([])
      else Recommended(Describe(TopIds(preds), m, preds))
  }
}
