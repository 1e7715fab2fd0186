// What a run of the sampler guarantees, over every stream of documents.
module SamplerLaws {
  import B = BsonModel
  import opened Shapes
  import opened ShapeLaws
  import opened ShapeFold
  import opened Sampling

  // ---- one field at a time ----

  function Step(f: FieldShape, doc: B.Doc, k: string): FieldShape {
    if k in doc then ObserveValue(f, doc[k]) else f
  }

  function FieldRun(docs: seq<B.Doc>, k: string): FieldShape {
    if docs == [] then EmptyField
    else Step(FieldRun(docs[..|docs| - 1], k), docs[|docs| - 1], k)
  }

  lemma {:induction false} RootIsFieldRun(docs: seq<B.Doc>, k: string)
    ensures Slot(ObserveAll(docs), k) == FieldRun(docs, k)
    ensures k in ObserveAll(docs) <==> exists i :: 0 <= i < |docs| && k in docs[i]
  {
    if docs != [] {
      var n := |docs| - 1;
      RootIsFieldRun(docs[..n], k);
      assert docs == docs[..n] + [docs[n]];
    }
  }

  // ---- soundness ----

  // Every sampled value's shape lies below its field's inferred shape, and a
  // field left unmixed coerced none of them.
  ghost predicate Covers(f: FieldShape, v: B.Bson) {
    IsNullValue(v) ||
    (Below(ShapeOf(v), f.shape) && (Coerced(ShapeOf(v), f.shape) ==> f.mixed))
  }

  lemma ObserveKeepsCovered(f: FieldShape, v: B.Bson, w: B.Bson)
    requires Covers(f, w)
    ensures Covers(ObserveValue(f, v), w)
  {
    if !IsNullValue(v) && !IsNullValue(w) {
      UnifyIsAbove(f.shape, ShapeOf(v));
      BelowTransitive(ShapeOf(w), f.shape, Unify(f.shape, ShapeOf(v)).shape);
    }
  }

  lemma ObserveCovers(f: FieldShape, v: B.Bson)
    ensures Covers(ObserveValue(f, v), v)
  {
    if !IsNullValue(v) {
      UnifyCommutes(f.shape, ShapeOf(v));
      UnifyIsAbove(ShapeOf(v), f.shape);
    }
  }

  lemma {:induction false} FieldRunCovers(docs: seq<B.Doc>, k: string, i: nat)
    requires i < |docs| && k in docs[i]
    ensures Covers(FieldRun(docs, k), docs[i][k])
  {
    var n := |docs| - 1;
    if i == n {
      ObserveCovers(FieldRun(docs[..n], k), docs[n][k]);
    } else {
      FieldRunCovers(docs[..n], k, i);
      if k in docs[n] {
        ObserveKeepsCovered(FieldRun(docs[..n], k), docs[n][k], docs[i][k]);
      }
    }
  }

  lemma InferenceIsSound(docs: seq<B.Doc>, i: nat, k: string)
    requires i < |docs| && k in docs[i]
    ensures k in ObserveAll(docs)
    ensures !IsNullValue(docs[i][k]) ==> Leq(ShapeOf(docs[i][k]), ObserveAll(docs)[k].shape)
    ensures Covers(ObserveAll(docs)[k], docs[i][k])
  {
    RootIsFieldRun(docs, k);
    FieldRunCovers(docs, k, i);
    BelowIsLeq(ShapeOf(docs[i][k]), ObserveAll(docs)[k].shape);
  }

  // The elements of an array value lie below its element shape.
  lemma {:induction false} ElementsBelow(items: seq<B.Bson>, i: nat)
    requires i < |items|
    ensures Below(ShapeOf(items[i]), ElementShape(items).shape)
  {
    var n := |items| - 1;
    var before := ElementShape(items[..n]).shape;
    if i == n {
      UnifyCommutes(before, ShapeOf(items[n]));
      UnifyIsAbove(ShapeOf(items[n]), before);
    } else {
      ElementsBelow(items[..n], i);
      UnifyIsAbove(before, ShapeOf(items[n]));
      BelowTransitive(ShapeOf(items[i]), before, ElementShape(items).shape);
    }
  }

  // ---- the root counters ----

  function Count(docs: seq<B.Doc>, k: string, nullsOnly: bool): nat {
    if docs == [] then 0
    else
      var d := docs[|docs| - 1];
      Count(docs[..|docs| - 1], k, nullsOnly) +
      if k in d && (nullsOnly ==> IsNullValue(d[k])) then 1 else 0
  }

  lemma {:induction false} CountersAreExact(docs: seq<B.Doc>, k: string)
    requires k in ObserveAll(docs)
    ensures ObserveAll(docs)[k].present == Count(docs, k, false)
    ensures ObserveAll(docs)[k].nulls == Count(docs, k, true)
  {
    RootIsFieldRun(docs, k);
    FieldRunCounts(docs, k);
  }

  lemma {:induction false} FieldRunCounts(docs: seq<B.Doc>, k: string)
    ensures FieldRun(docs, k).present == Count(docs, k, false)
    ensures FieldRun(docs, k).nulls == Count(docs, k, true)
  {
    if docs != [] {
      FieldRunCounts(docs[..|docs| - 1], k);
    }
  }

  // ---- order of documents ----

  // Equal up to the counters of nested fields.
  ghost predicate SameSlot(f: FieldShape, g: FieldShape) {
    Same(f.shape, g.shape) && f.present == g.present && f.nulls == g.nulls && f.mixed == g.mixed
  }

  function ShapeIn(d: B.Doc, k: string): Shape { if k in d then ShapeOf(d[k]) else Unknown }

  // What the documents hold under a key, Unknown where they hold nothing.
  function ShapesAt(docs: seq<B.Doc>, k: string): seq<Shape> {
    seq(|docs|, i requires 0 <= i < |docs| => ShapeIn(docs[i], k))
  }

  lemma {:induction false} RunIsFold(docs: seq<B.Doc>, k: string)
    ensures FieldRun(docs, k).shape == Fold(ShapesAt(docs, k)).shape
    ensures FieldRun(docs, k).mixed == Fold(ShapesAt(docs, k)).conflict
  {
    if docs != [] {
      var n := |docs| - 1;
      RunIsFold(docs[..n], k);
      assert ShapesAt(docs, k)[..n] == ShapesAt(docs[..n], k);
    }
  }

  // A field is marked mixed if and only if two of its sampled values clash.
  lemma MixedIffClash(docs: seq<B.Doc>, k: string)
    ensures FieldRun(docs, k).mixed <==> Clash(ShapesAt(docs, k))
  {
    RunIsFold(docs, k);
    ConflictIffClash(ShapesAt(docs, k));
  }

  lemma {:induction false} CountReordered(docs: seq<B.Doc>, docs': seq<B.Doc>, k: string, nullsOnly: bool)
    requires multiset(docs) == multiset(docs')
    ensures Count(docs, k, nullsOnly) == Count(docs', k, nullsOnly)
    decreases |docs|
  {
    Reordered(docs, docs');
    if docs != [] {
      var n := |docs| - 1;
      assert docs[n] in docs';
      var j :| 0 <= j < |docs'| && docs'[j] == docs[n];
      RestIsReordered(docs, docs', j);
      CountReordered(docs[..n], Dropped(docs', j), k, nullsOnly);
      CountWithout(docs', j, k, nullsOnly);
    }
  }

  // Taking the same document out of two orders of a sample leaves two orders of the rest.
  lemma RestIsReordered(docs: seq<B.Doc>, docs': seq<B.Doc>, j: nat)
    requires docs != [] && j < |docs'| && docs'[j] == docs[|docs| - 1] && multiset(docs) == multiset(docs')
    ensures multiset(docs[..|docs| - 1]) == multiset(Dropped(docs', j))
  {
    var n := |docs| - 1;
    assert docs == docs[..n] + [docs[n]];
    DroppedMultiset(docs', j);
    assert multiset(docs[..n]) == multiset(docs) - multiset{docs[n]};
    assert multiset(Dropped(docs', j)) == multiset(docs') - multiset{docs[n]};
  }

  lemma {:induction false} CountWithout(docs: seq<B.Doc>, j: nat, k: string, nullsOnly: bool)
    requires j < |docs|
    ensures Count(docs, k, nullsOnly) == Count(Dropped(docs, j), k, nullsOnly) + Count([docs[j]], k, nullsOnly)
  {
    var n := |docs| - 1;
    assert [docs[j]][..0] == [];
    if j == n {
      assert Dropped(docs, j) == docs[..n];
    } else {
      CountWithout(docs[..n], j, k, nullsOnly);
      assert Dropped(docs, j)[..n - 1] == Dropped(docs[..n], j);
    }
  }

  lemma SameKeysSeen(docs: seq<B.Doc>, docs': seq<B.Doc>, k: string)
    requires multiset(docs) == multiset(docs')
    ensures k in ObserveAll(docs) <==> k in ObserveAll(docs')
  {
    RootIsFieldRun(docs, k);
    RootIsFieldRun(docs', k);
    Reordered(docs, docs');
    forall i | 0 <= i < |docs| ensures docs[i] in docs' {
    }
    forall i | 0 <= i < |docs'| ensures docs'[i] in docs {
    }
  }

  lemma ShapesReordered(docs: seq<B.Doc>, docs': seq<B.Doc>, k: string)
    requires multiset(docs) == multiset(docs')
    ensures SameMembers(ShapesAt(docs, k), ShapesAt(docs', k))
  {
    Reordered(docs, docs');
    ShapesFrom(docs, docs', k);
    ShapesFrom(docs', docs, k);
  }

  lemma ShapesFrom(docs: seq<B.Doc>, docs': seq<B.Doc>, k: string)
    requires forall d :: d in docs ==> d in docs'
    ensures forall x :: x in ShapesAt(docs, k) ==> x in ShapesAt(docs', k)
  {
    forall x | x in ShapesAt(docs, k) ensures x in ShapesAt(docs', k) {
      var i :| 0 <= i < |docs| && ShapesAt(docs, k)[i] == x;
      assert docs[i] in docs';
      var j :| 0 <= j < |docs'| && docs'[j] == docs[i];
      assert ShapesAt(docs', k)[j] == x;
    }
  }

  // Two orders of a sample give a field the same counters and flag, and a shape
  // that looks the same as far down as what was sampled is settled.
  lemma RunReordered(docs: seq<B.Doc>, docs': seq<B.Doc>, k: string, n: nat)
    requires multiset(docs) == multiset(docs')
    ensures var (f, g) := (FieldRun(docs, k), FieldRun(docs', k));
      && f.present == g.present && f.nulls == g.nulls && f.mixed == g.mixed
      && (SettledTo(ShapesAt(docs', k), n) ==> Trunc(f.shape, n) == Trunc(g.shape, n))
  {
    RunIsFold(docs, k);
    RunIsFold(docs', k);
    FieldRunCounts(docs, k);
    FieldRunCounts(docs', k);
    CountReordered(docs, docs', k, false);
    CountReordered(docs, docs', k, true);
    ShapesReordered(docs, docs', k);
    SameClash(ShapesAt(docs, k), ShapesAt(docs', k));
    if SettledTo(ShapesAt(docs', k), n) {
      SettledFoldsAlike(ShapesAt(docs', k), ShapesAt(docs, k), n);
    }
  }

  // On settled samples the inferred field does not depend on the order in which
  // the documents arrive.
  lemma OrderDoesNotMatter(docs: seq<B.Doc>, docs': seq<B.Doc>, k: string)
    requires multiset(docs) == multiset(docs') && Settled(ShapesAt(docs', k))
    ensures SameSlot(FieldRun(docs, k), FieldRun(docs', k))
    ensures k in ObserveAll(docs) <==> k in ObserveAll(docs')
    ensures SameSlot(Slot(ObserveAll(docs), k), Slot(ObserveAll(docs'), k))
  {
    forall n: nat ensures Trunc(FieldRun(docs, k).shape, n) == Trunc(FieldRun(docs', k).shape, n) {
      RunReordered(docs, docs', k, n);
    }
    RunReordered(docs, docs', k, 0);
    AlikeAtAllDepths(FieldRun(docs, k).shape, FieldRun(docs', k).shape);
    RootIsFieldRun(docs, k);
    RootIsFieldRun(docs', k);
    SameKeysSeen(docs, docs', k);
  }

  lemma LiftShapes(docs: seq<B.Doc>, k: string, u: seq<Shape>) returns (a: seq<B.Doc>)
    requires multiset(u) == multiset(ShapesAt(docs, k))
    ensures multiset(a) == multiset(docs) && ShapesAt(a, k) == u
  {
    a := Lift(docs, ShapesAt(docs, k), u);
    forall i | 0 <= i < |a| ensures ShapeIn(a[i], k) == u[i] {
      assert Paired(docs, ShapesAt(docs, k), a[i], u[i]);
    }
  }

  // Of an unsettled sample two orders infer Json and an array at the same place.
  lemma UnsettledRuns(docs: seq<B.Doc>, k: string, n: nat) returns (a: seq<B.Doc>, b: seq<B.Doc>)
    requires !SettledTo(ShapesAt(docs, k), n)
    ensures multiset(a) == multiset(docs) == multiset(b)
    ensures Differ(FieldRun(a, k).shape, FieldRun(b, k).shape, n)
  {
    var t, u := UnsettledDiffers(ShapesAt(docs, k), n);
    a := LiftShapes(docs, k, t);
    b := LiftShapes(docs, k, u);
    RunIsFold(a, k);
    RunIsFold(b, k);
  }

  ghost predicate FieldIgnoresOrder(docs: seq<B.Doc>, k: string) {
    forall a, b :: multiset(a) == multiset(docs) == multiset(b) ==> SameSlot(FieldRun(a, k), FieldRun(b, k))
  }

  // All orders of a sample infer the same field if and only if what the
  // documents hold under its key is settled.
  lemma FieldIgnoresOrderIff(docs: seq<B.Doc>, k: string)
    ensures FieldIgnoresOrder(docs, k) <==> Settled(ShapesAt(docs, k))
  {
    if Settled(ShapesAt(docs, k)) {
      forall a, b | multiset(a) == multiset(docs) == multiset(b) ensures SameSlot(FieldRun(a, k), FieldRun(b, k)) {
        OrderDoesNotMatter(a, docs, k);
        OrderDoesNotMatter(b, docs, k);
      }
    } else {
      var n: nat :| !SettledTo(ShapesAt(docs, k), n);
      var a, b := UnsettledRuns(docs, k, n);
      DifferTruncates(FieldRun(a, k).shape, FieldRun(b, k).shape, n);
      if SameSlot(FieldRun(a, k), FieldRun(b, k)) {
        SameTruncates(FieldRun(a, k).shape, FieldRun(b, k).shape, n);
      }
    }
  }

  // So are samples without arrays under the key, and samples that leave no Json there.
  lemma TameSamplesSettle(docs: seq<B.Doc>, k: string)
    requires (forall d :: d in docs && k in d ==> ArrayFree(ShapeOf(d[k]))) || JsonFree(FieldRun(docs, k).shape)
    ensures Settled(ShapesAt(docs, k))
  {
    RunIsFold(docs, k);
    forall n: nat ensures SettledTo(ShapesAt(docs, k), n) {
      if JsonFree(FieldRun(docs, k).shape) {
        JsonFreeSettles(ShapesAt(docs, k), n);
      } else {
        ArrayFreeSettles(ShapesAt(docs, k), n);
      }
    }
  }

  // ---- depth ----

  lemma {:induction false} ObservationsStayShallow(docs: seq<B.Doc>, k: string, run: nat, nest: nat)
    requires forall i :: 0 <= i < |docs| && k in docs[i] ==>
      RunAtMost(ShapeOf(docs[i][k]), run) && NestAtMost(ShapeOf(docs[i][k]), nest)
    ensures RunAtMost(FieldRun(docs, k).shape, run) && NestAtMost(FieldRun(docs, k).shape, nest)
  {
    if docs != [] {
      var n := |docs| - 1;
      ObservationsStayShallow(docs[..n], k, run, nest);
      if k in docs[n] && !IsNullValue(docs[n][k]) {
        UnifyKeepsRun(FieldRun(docs[..n], k).shape, ShapeOf(docs[n][k]), run);
        UnifyKeepsNesting(FieldRun(docs[..n], k).shape, ShapeOf(docs[n][k]), nest);
      }
    }
  }
}
