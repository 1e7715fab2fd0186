// Splitting a collection into `_id` ranges that cover every document once.
module Partition {
  import opened Wrappers
  import opened B = BsonModel
  import opened Arrow
  import opened MongoFilter
  import opened Pushdown

  // `{_id: {$gte: lo, $lt: hi}}`, or no filter at all.
  function IdRange(lo: Option<Bson>, hi: Option<Bson>): Option<Filter> {
    var conds := (if lo.Some? then [Cmp(Gte, lo.value)] else []) + (if hi.Some? then [Cmp(Lt, hi.value)] else []);
    if conds == [] then None else Some(On("_id", conds))
  }

  function CutIndex(i: nat, len: nat, n: nat): (k: nat)
    requires i < n <= len
    ensures k < len
  {
    IndexInRange(i, len, n);
    i * len / n
  }

  // The first i cut points of n, a candidate equal to its predecessor left out.
  function CutsUpTo(ids: seq<Bson>, n: nat, i: nat): seq<Bson>
    requires i < n <= |ids|
  {
    if i == 0 then []
    else
      var before := CutsUpTo(ids, n, i - 1);
      var candidate := ids[CutIndex(i, |ids|, n)];
      if before == [] || before[|before| - 1] != candidate then before + [candidate] else before
  }

  function CutPoints(ids: seq<Bson>, n: nat): seq<Bson> {
    if n <= 1 || |ids| < 2 then [] else CutsUpTo(ids, MinNat(n, |ids|), MinNat(n, |ids|) - 1)
  }

  // The ranges between consecutive cut points, open at both ends.
  function BoundsOf(cuts: seq<Bson>): (bounds: seq<Option<Filter>>)
    ensures |bounds| == |cuts| + 1
  {
    seq(|cuts| + 1, k requires 0 <= k <= |cuts| =>
      IdRange(if k == 0 then None else Some(cuts[k - 1]), if k == |cuts| then None else Some(cuts[k])))
  }

  // The ranges that end at a cut point.
  method RangesUpTo(cuts: seq<Bson>) returns (bounds: seq<Option<Filter>>, prev: Option<Bson>)
    ensures bounds == BoundsOf(cuts)[..|cuts|]
    ensures prev == if cuts == [] then None else Some(cuts[|cuts| - 1])
  {
    bounds := [];
    prev := None;
    for k := 0 to |cuts|
      invariant |bounds| == k && prev == if k == 0 then None else Some(cuts[k - 1])
      invariant forall j :: 0 <= j < k ==> bounds[j] == BoundsOf(cuts)[j]
    {
      bounds := bounds + [IdRange(prev, Some(cuts[k]))];
      prev := Some(cuts[k]);
    }
  }

  method PartitionBounds(ids: seq<Bson>, n: nat) returns (bounds: seq<Option<Filter>>)
    ensures bounds == BoundsOf(CutPoints(ids, n))
  {
    if n <= 1 || |ids| < 2 {
      bounds := [None];
      assert IdRange(None, None) == None;
      assert CutPoints(ids, n) == [];
      return;
    }
    var cuts := CollectCuts(ids, MinNat(n, |ids|));
    var prev;
    bounds, prev := RangesUpTo(cuts);
    bounds := bounds + [IdRange(prev, None)];
    assert cuts == CutPoints(ids, n) && BoundsOf(cuts)[|cuts|] == IdRange(prev, None);
  }

  // The loop over the quantiles of the sample.
  method CollectCuts(ids: seq<Bson>, m: nat) returns (cuts: seq<Bson>)
    requires 1 < m <= |ids|
    ensures cuts == CutsUpTo(ids, m, m - 1)
  {
    cuts := [];
    for i := 1 to m
      invariant cuts == CutsUpTo(ids, m, i - 1)
    {
      var candidate := ids[CutIndex(i, |ids|, m)];
      if cuts == [] || cuts[|cuts| - 1] != candidate {
        cuts := cuts + [candidate];
      }
    }
  }

  // ---- index arithmetic ----

  lemma IndexInRange(i: nat, len: nat, n: nat)
    requires i < n <= len
    ensures i * len / n < len
  {
    assert i * len < n * len;
    DivBelow(i * len, len, n);
  }

  lemma DivBelow(x: nat, q: nat, n: nat)
    requires n > 0 && x < n * q
    ensures x / n < q
  {
    assert x == x / n * n + x % n;
    if x / n >= q {
      MulMonotone(q, x / n, n);
    }
  }

  lemma MulMonotone(a: nat, b: nat, n: nat)
    requires a <= b
    ensures a * n <= b * n
  {
  }

  lemma IndexGrows(i: nat, len: nat, n: nat)
    requires 0 < i < n <= len
    ensures CutIndex(i - 1, len, n) <= CutIndex(i, len, n)
  {
    var x, y := (i - 1) * len, i * len;
    assert y == x + len;
    DivMonotone(x, y, n);
  }

  lemma DivMonotone(x: nat, y: nat, n: nat)
    requires n > 0 && x <= y
    ensures x / n <= y / n
  {
    assert x == x / n * n + x % n;
    assert y == y / n * n + y % n;
    assert (y / n + 1) * n == y / n * n + n;
    if x / n > y / n {
      MulMonotone(y / n + 1, x / n, n);
    }
  }

  // ---- what the partitions accept ----

  predicate HasKey(id: Bson) { BsonKey(id).Some? }

  // One id sorts before the other, as `$sort` puts them: by bracket, then by key.
  predicate Before(a: Bson, b: Bson) {
    HasKey(a) && HasKey(b) && SortsBefore(BsonKey(a).value, BsonKey(b).value)
  }

  ghost predicate AtMost(a: Bson, b: Bson) { HasKey(a) && HasKey(b) && !Before(b, a) }

  // Ids as they come back sorted, of one bracket or several; equal ids may repeat.
  ghost predicate Ordered(ids: seq<Bson>) {
    forall i, j :: 0 <= i <= j < |ids| ==> AtMost(ids[i], ids[j])
  }

  ghost predicate InBracket(ids: seq<Bson>, id: Bson) {
    forall i :: 0 <= i < |ids| ==> SameBracket(ids[i], id)
  }

  ghost predicate Accepts(bounds: seq<Option<Filter>>, k: nat, d: Doc)
    requires k < |bounds|
  {
    MatchesAll(bounds[k], d)
  }

  ghost predicate ExactlyOne(bounds: seq<Option<Filter>>, d: Doc) {
    exists k :: 0 <= k < |bounds| && Accepts(bounds, k, d) &&
      forall j :: 0 <= j < |bounds| && Accepts(bounds, j, d) ==> j == k
  }

  lemma IdLookup(d: Doc)
    ensures LookupPath(d, "_id") == Get(d, "_id")
  {
    SplitDotFree("_id");
  }

  // The range operators see the bound's bracket only.
  lemma BoundAccepts(id: Bson, bound: Bson)
    ensures Holds(Cmp(Gte, bound), Some(id)) <==> SameBracket(id, bound) && !Before(id, bound)
    ensures Holds(Cmp(Lt, bound), Some(id)) <==> SameBracket(id, bound) && Before(id, bound)
  {
    if SameBracket(id, bound) {
      KeyTotal(BsonKey(id).value, BsonKey(bound).value);
    }
  }

  lemma RangeAccepts(lo: Option<Bson>, hi: Option<Bson>, d: Doc)
    requires "_id" in d
    ensures MatchesAll(IdRange(lo, hi), d) <==>
      && (lo.Some? ==> SameBracket(d["_id"], lo.value) && !Before(d["_id"], lo.value))
      && (hi.Some? ==> SameBracket(d["_id"], hi.value) && Before(d["_id"], hi.value))
  {
    IdLookup(d);
    var conds := (if lo.Some? then [Cmp(Gte, lo.value)] else []) + (if hi.Some? then [Cmp(Lt, hi.value)] else []);
    if lo.Some? {
      assert conds[0] in conds;
      BoundAccepts(d["_id"], lo.value);
    }
    if hi.Some? {
      assert conds[|conds| - 1] in conds;
      BoundAccepts(d["_id"], hi.value);
    }
  }

  // From cut k - 1 up to, not including, cut k.
  predicate Between(cuts: seq<Bson>, id: Bson, k: nat)
    requires k <= |cuts|
  {
    (k > 0 ==> !Before(id, cuts[k - 1])) && (k < |cuts| ==> Before(id, cuts[k]))
  }

  // Whether the cut points on both sides share the id's bracket.
  predicate SharesBounds(cuts: seq<Bson>, id: Bson, k: nat)
    requires k <= |cuts|
  {
    (k > 0 ==> SameBracket(id, cuts[k - 1])) && (k < |cuts| ==> SameBracket(id, cuts[k]))
  }

  // Partition k holds the ids between its cuts that share the bracket of both.
  lemma PartitionAccepts(cuts: seq<Bson>, d: Doc, k: nat)
    requires "_id" in d && k <= |cuts|
    ensures Accepts(BoundsOf(cuts), k, d) <==> Between(cuts, d["_id"], k) && SharesBounds(cuts, d["_id"], k)
  {
    RangeAccepts(if k == 0 then None else Some(cuts[k - 1]), if k == |cuts| then None else Some(cuts[k]), d);
  }

  // Where the id stands among the cut points: how many lie at or below it.
  function Place(cuts: seq<Bson>, id: Bson): (k: nat)
    ensures k <= |cuts|
    ensures forall i :: 0 <= i < k ==> !Before(id, cuts[i])
    ensures k < |cuts| ==> Before(id, cuts[k])
  {
    if cuts == [] || Before(id, cuts[0]) then 0 else 1 + Place(cuts[1..], id)
  }

  lemma BeforePropagates(id: Bson, a: Bson, b: Bson)
    requires AtMost(a, b) && Before(id, a)
    ensures Before(id, b)
  {
    SortIsTotal(BsonKey(a).value, BsonKey(b).value);
    if BsonKey(a) != BsonKey(b) {
      SortIsTransitive(BsonKey(id).value, BsonKey(a).value, BsonKey(b).value);
    }
  }

  // Of sorted cut points, whatever their brackets, only the range at the id's
  // place can accept it, and it does if and only if both its bounds share the bracket.
  lemma RangeAcceptsIff(cuts: seq<Bson>, d: Doc, j: nat)
    requires "_id" in d && Ordered(cuts) && j <= |cuts|
    ensures Accepts(BoundsOf(cuts), j, d) <==> j == Place(cuts, d["_id"]) && SharesBounds(cuts, d["_id"], j)
  {
    PartitionAccepts(cuts, d, j);
    PlaceIsBetween(cuts, d["_id"], j);
  }

  lemma PlaceIsBetween(cuts: seq<Bson>, id: Bson, j: nat)
    requires Ordered(cuts) && j <= |cuts|
    ensures j == Place(cuts, id) <==> Between(cuts, id, j)
  {
    var k := Place(cuts, id);
    if j > k {
      assert AtMost(cuts[k], cuts[j - 1]);
      BeforePropagates(id, cuts[k], cuts[j - 1]);
    }
  }

  // ---- the cut points ----

  lemma {:induction false} CutsAreSampled(ids: seq<Bson>, n: nat, i: nat)
    requires i < n <= |ids|
    ensures var cuts := CutsUpTo(ids, n, i);
      && |cuts| <= i && (forall c :: c in cuts ==> c in ids)
      && (i > 0 ==> cuts != [] && cuts[|cuts| - 1] == ids[CutIndex(i, |ids|, n)])
  {
    if i > 0 {
      CutsAreSampled(ids, n, i - 1);
    }
  }

  // A new cut point comes from a later position of the sample.
  lemma CandidateIsLater(ids: seq<Bson>, n: nat, i: nat)
    requires 1 < i < n <= |ids| && Ordered(ids)
    ensures AtMost(ids[CutIndex(i - 1, |ids|, n)], ids[CutIndex(i, |ids|, n)])
  {
    IndexGrows(i, |ids|, n);
  }

  lemma {:induction false} CutsAreOrdered(ids: seq<Bson>, n: nat, i: nat)
    requires i < n <= |ids| && Ordered(ids)
    ensures Ordered(CutsUpTo(ids, n, i))
  {
    if i > 0 {
      CutsAreOrdered(ids, n, i - 1);
      NextCutIsOrdered(ids, n, i);
    }
  }

  lemma NextCutIsOrdered(ids: seq<Bson>, n: nat, i: nat)
    requires 0 < i < n <= |ids| && Ordered(ids) && Ordered(CutsUpTo(ids, n, i - 1))
    ensures Ordered(CutsUpTo(ids, n, i))
  {
    if CutsUpTo(ids, n, i - 1) != [] {
      LastCutIsEarlier(ids, n, i);
    }
    AddOrdered(CutsUpTo(ids, n, i - 1), ids[CutIndex(i, |ids|, n)]);
  }

  lemma LastCutIsEarlier(ids: seq<Bson>, n: nat, i: nat)
    requires 0 < i < n <= |ids| && Ordered(ids) && CutsUpTo(ids, n, i - 1) != []
    ensures var before := CutsUpTo(ids, n, i - 1);
      AtMost(before[|before| - 1], ids[CutIndex(i, |ids|, n)])
  {
    CutsAreSampled(ids, n, i - 1);
    CandidateIsLater(ids, n, i);
  }

  lemma AddOrdered(cuts: seq<Bson>, c: Bson)
    requires HasKey(c) && Ordered(cuts) && (cuts != [] ==> AtMost(cuts[|cuts| - 1], c))
    ensures Ordered(if cuts == [] || cuts[|cuts| - 1] != c then cuts + [c] else cuts)
  {
    SortIsTotal(BsonKey(c).value, BsonKey(c).value);
    if cuts != [] && cuts[|cuts| - 1] != c {
      ExtendOrdered(cuts, c);
    }
  }

  lemma ExtendOrdered(cuts: seq<Bson>, c: Bson)
    requires cuts != [] && Ordered(cuts) && AtMost(cuts[|cuts| - 1], c)
    ensures Ordered(cuts + [c])
  {
    var last := cuts[|cuts| - 1];
    SortIsTotal(BsonKey(c).value, BsonKey(c).value);
    forall i | 0 <= i < |cuts| ensures AtMost(cuts[i], c) {
      assert AtMost(cuts[i], last);
      AtMostTransitive(cuts[i], last, c);
    }
    var all := cuts + [c];
    forall i, j | 0 <= i <= j < |all| ensures AtMost(all[i], all[j]) {
      if j < |cuts| {
        assert AtMost(cuts[i], cuts[j]);
      }
    }
  }

  lemma AtMostTransitive(a: Bson, b: Bson, c: Bson)
    requires AtMost(a, b) && AtMost(b, c)
    ensures AtMost(a, c)
  {
    if Before(c, a) {
      BeforePropagates(c, a, b);
    }
  }

  // With at least two partitions to make, the cut points are those of the index rule.
  lemma CutPointsAre(ids: seq<Bson>, n: nat, m: nat)
    requires n > 1 && |ids| >= 2 && m == MinNat(n, |ids|)
    ensures CutPoints(ids, n) == CutsUpTo(ids, m, m - 1)
  {
  }

  // Ordered ids of the sample, and not too many.
  ghost predicate SoundCuts(cuts: seq<Bson>, ids: seq<Bson>, most: nat) {
    Ordered(cuts) && |cuts| <= most && forall c :: c in cuts ==> c in ids
  }

  lemma CutsSound(ids: seq<Bson>, n: nat, i: nat)
    requires i < n <= |ids| && Ordered(ids)
    ensures SoundCuts(CutsUpTo(ids, n, i), ids, i)
  {
    CutsAreOrdered(ids, n, i);
    CutsAreSampled(ids, n, i);
  }

  lemma FewerAreSound(cuts: seq<Bson>, ids: seq<Bson>, few: nat, most: nat)
    requires SoundCuts(cuts, ids, few) && few <= most
    ensures SoundCuts(cuts, ids, most)
  {
  }

  lemma CutPointsSound(ids: seq<Bson>, n: nat)
    requires Ordered(ids)
    ensures SoundCuts(CutPoints(ids, n), ids, if n == 0 then 0 else n - 1)
  {
    if n > 1 && |ids| >= 2 {
      var m := MinNat(n, |ids|);
      CutsSound(ids, m, m - 1);
      FewerAreSound(CutsUpTo(ids, m, m - 1), ids, m - 1, n - 1);
      CutPointsAre(ids, n, m);
    }
  }

  // ---- which documents the partitions reach ----

  // Without a cut point there is one partition and no filter. With one, an id is
  // reached where the cut points beside its place share its bracket.
  predicate Reached(cuts: seq<Bson>, d: Doc) {
    cuts == [] || ("_id" in d && SharesBounds(cuts, d["_id"], Place(cuts, d["_id"])))
  }

  lemma AllAccepted(d: Doc)
    ensures ExactlyOne(BoundsOf([]), d)
  {
    assert IdRange(None, None) == None && BoundsOf([])[0] == IdRange(None, None);
    assert Accepts(BoundsOf([]), 0, d);
  }

  lemma RangeNeedsId(lo: Option<Bson>, hi: Option<Bson>, d: Doc)
    requires (lo.Some? || hi.Some?) && "_id" !in d
    ensures !MatchesAll(IdRange(lo, hi), d)
  {
    IdLookup(d);
    var conds := (if lo.Some? then [Cmp(Gte, lo.value)] else []) + (if hi.Some? then [Cmp(Lt, hi.value)] else []);
    assert conds[0] in conds;
  }

  lemma WithoutIdIsLost(cuts: seq<Bson>, d: Doc, k: nat)
    requires cuts != [] && k <= |cuts| && "_id" !in d
    ensures !Accepts(BoundsOf(cuts), k, d)
  {
    RangeNeedsId(if k == 0 then None else Some(cuts[k - 1]), if k == |cuts| then None else Some(cuts[k]), d);
  }

  lemma SortedCutsReach(cuts: seq<Bson>, d: Doc)
    requires Ordered(cuts)
    ensures Reached(cuts, d) ==> ExactlyOne(BoundsOf(cuts), d)
    ensures !Reached(cuts, d) ==> forall k :: 0 <= k < |BoundsOf(cuts)| ==> !Accepts(BoundsOf(cuts), k, d)
  {
    if cuts == [] {
      AllAccepted(d);
    } else if "_id" in d {
      forall j | 0 <= j <= |cuts|
        ensures Accepts(BoundsOf(cuts), j, d) <==> j == Place(cuts, d["_id"]) && SharesBounds(cuts, d["_id"], j)
      {
        RangeAcceptsIff(cuts, d, j);
      }
      if Reached(cuts, d) {
        assert Accepts(BoundsOf(cuts), Place(cuts, d["_id"]), d);
      }
    } else {
      forall j | 0 <= j <= |cuts| ensures !Accepts(BoundsOf(cuts), j, d) {
        WithoutIdIsLost(cuts, d, j);
      }
    }
  }

  // For every sorted sample and every n a document satisfies exactly one range if
  // it is reached, and none otherwise; there are at most max(1, n).
  lemma PartitionsReach(ids: seq<Bson>, n: nat, d: Doc)
    requires Ordered(ids)
    ensures var cuts := CutPoints(ids, n);
      && (Reached(cuts, d) ==> ExactlyOne(BoundsOf(cuts), d))
      && (!Reached(cuts, d) ==> forall k :: 0 <= k < |BoundsOf(cuts)| ==> !Accepts(BoundsOf(cuts), k, d))
      && |BoundsOf(cuts)| <= if n == 0 then 1 else n
  {
    CutPointsSound(ids, n);
    SortedCutsReach(CutPoints(ids, n), d);
  }

  // Where all cut points share a bracket, exactly the ids of that bracket are reached.
  lemma OneBracketReaches(cuts: seq<Bson>, d: Doc)
    requires cuts != [] && "_id" in d && InBracket(cuts, cuts[0])
    ensures Reached(cuts, d) <==> SameBracket(cuts[0], d["_id"])
  {
    var k := Place(cuts, d["_id"]);
    if k > 0 {
      assert SameBracket(cuts[k - 1], cuts[0]);
    }
    if k < |cuts| {
      assert SameBracket(cuts[k], cuts[0]);
    }
  }

  // So for a sample of one bracket each document of the bracket, sampled or not,
  // falls in exactly one partition.
  lemma PartitionsCoverOnce(ids: seq<Bson>, n: nat, d: Doc)
    requires Ordered(ids) && "_id" in d && InBracket(ids, d["_id"])
    ensures ExactlyOne(BoundsOf(CutPoints(ids, n)), d)
    ensures |BoundsOf(CutPoints(ids, n))| <= if n == 0 then 1 else n
  {
    var cuts := CutPoints(ids, n);
    CutPointsSound(ids, n);
    PartitionsReach(ids, n, d);
    if cuts != [] {
      CutsInBracket(ids, cuts, d["_id"]);
      assert SameBracket(cuts[0], d["_id"]);
      OneBracketReaches(cuts, d);
    }
  }

  lemma CutsInBracket(ids: seq<Bson>, cuts: seq<Bson>, id: Bson)
    requires InBracket(ids, id) && forall c :: c in cuts ==> c in ids
    ensures InBracket(cuts, id)
    ensures cuts != [] ==> InBracket(cuts, cuts[0])
  {
    forall i | 0 <= i < |cuts| ensures SameBracket(cuts[i], id) {
      assert cuts[i] in ids;
    }
  }

  const NUMBERS_AND_TEXTS :=
    [Bson.Int32(1), Bson.Int32(2), Bson.Int32(3), Bson.String("a"), Bson.String("b"), Bson.String("c")]

  // In a collection of integers and texts as ids, what lies between the last
  // integer cut and the first text cut is in no partition: the integers from the
  // one up, and the texts before the other.
  lemma MixedIdsAreLost(i: i32, t: string)
    requires i >= 3 && TextLess(t, "b")
    ensures Ordered(NUMBERS_AND_TEXTS)
    ensures var cuts := CutPoints(NUMBERS_AND_TEXTS, 3);
      && cuts == [Bson.Int32(3), Bson.String("b")]
      && !Reached(cuts, map["_id" := Bson.Int32(i)]) && !Reached(cuts, map["_id" := Bson.String(t)])
  {
    NumbersThenTexts();
    var cuts := MixedCuts();
    PlaceBetween(cuts, Bson.Int32(i));
    PlaceBetween(cuts, Bson.String(t));
  }

  lemma NumbersThenTexts()
    ensures Ordered(NUMBERS_AND_TEXTS)
  {
    var ids := NUMBERS_AND_TEXTS;
    forall i, j | 0 <= i <= j < |ids| ensures AtMost(ids[i], ids[j]) {
      if j >= 3 && i >= 3 {
        LetterSorts(ids[i].s, ids[j].s);
      }
    }
  }

  lemma LetterSorts(a: string, b: string)
    requires |a| == |b| == 1 && a[0] <= b[0]
    ensures AtMost(Bson.String(a), Bson.String(b))
  {
    assert a[1..] == b[1..] == "" && !TextLess("", "");
  }

  lemma MixedCuts() returns (cuts: seq<Bson>)
    ensures cuts == CutPoints(NUMBERS_AND_TEXTS, 3) == [Bson.Int32(3), Bson.String("b")]
  {
    var ids := NUMBERS_AND_TEXTS;
    assert CutIndex(1, 6, 3) == 2 && CutIndex(2, 6, 3) == 4;
    assert CutsUpTo(ids, 3, 0) == [];
    assert CutsUpTo(ids, 3, 1) == [ids[2]];
    assert CutsUpTo(ids, 3, 2) == [ids[2], ids[4]];
    cuts := CutsUpTo(ids, 3, 2);
  }

  lemma PlaceBetween(cuts: seq<Bson>, id: Bson)
    requires |cuts| == 2 && !Before(id, cuts[0]) && Before(id, cuts[1])
    ensures Place(cuts, id) == 1
  {
    assert Place(cuts, id) != 0 && Place(cuts, id) != 2;
  }

  // Ids that compare equal are the same value, as in a uniquely indexed sample.
  ghost predicate Canonical(ids: seq<Bson>) {
    forall x, y :: x in ids && y in ids && BsonKey(x) == BsonKey(y) ==> x == y
  }

  ghost predicate Increasing(cuts: seq<Bson>) {
    forall a, b :: 0 <= a < b < |cuts| ==> Before(cuts[a], cuts[b])
  }

  lemma ExtendIncreasing(cuts: seq<Bson>, c: Bson)
    requires cuts != [] && Increasing(cuts) && Before(cuts[|cuts| - 1], c)
    ensures Increasing(cuts + [c])
  {
    var n := |cuts|;
    forall a | 0 <= a < n ensures Before(cuts[a], c) {
      if a < n - 1 {
        assert Before(cuts[a], cuts[n - 1]);
        SortIsTransitive(BsonKey(cuts[a]).value, BsonKey(cuts[n - 1]).value, BsonKey(c).value);
      }
    }
  }

  lemma DifferentIdsIncrease(ids: seq<Bson>, x: Bson, y: Bson)
    requires Canonical(ids) && x in ids && y in ids && x != y && AtMost(x, y)
    ensures Before(x, y)
  {
    SortIsTotal(BsonKey(x).value, BsonKey(y).value);
  }

  // Then no two cut points coincide: they strictly increase.
  lemma {:induction false} CutsIncrease(ids: seq<Bson>, n: nat, i: nat)
    requires i < n <= |ids| && Ordered(ids) && Canonical(ids)
    ensures Increasing(CutsUpTo(ids, n, i))
  {
    if i > 0 {
      CutsIncrease(ids, n, i - 1);
      CutStep(ids, n, i);
    }
  }

  lemma CutStep(ids: seq<Bson>, n: nat, i: nat)
    requires 0 < i < n <= |ids| && Ordered(ids) && Canonical(ids)
    requires Increasing(CutsUpTo(ids, n, i - 1))
    ensures Increasing(CutsUpTo(ids, n, i))
  {
    var before := CutsUpTo(ids, n, i - 1);
    var candidate := ids[CutIndex(i, |ids|, n)];
    if before != [] && before[|before| - 1] != candidate {
      CutsAreSampled(ids, n, i - 1);
      CandidateIsLater(ids, n, i);
      DifferentIdsIncrease(ids, before[|before| - 1], candidate);
      ExtendIncreasing(before, candidate);
    }
  }

  lemma CutPointsIncrease(ids: seq<Bson>, n: nat)
    requires Ordered(ids) && Canonical(ids)
    ensures Increasing(CutPoints(ids, n))
  {
    if n > 1 && |ids| >= 2 {
      CutsIncrease(ids, MinNat(n, |ids|), MinNat(n, |ids|) - 1);
    }
  }
}
