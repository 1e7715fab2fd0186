// Inference and conversion together: a schema keeps every value it was sampled from.
module NoLoss {
  import opened Wrappers
  import B = BsonModel
  import opened Shapes
  import opened ShapeLaws
  import opened Sampling
  import opened SamplerLaws
  import opened Arrow
  import opened ArrowSchema
  import opened Convert

  // NULL appears only where the document is null, undefined or silent, at every
  // struct and list position, and no key of a struct's document is dropped.
  ghost predicate NothingLost(ty: DataType, v: Option<B.Bson>, r: Rendering)
    decreases ty
  {
    B.NullLike(v) ||
    (Decode(ty, v, r) != VNull &&
     match ty
     case StructType(children) =>
       && v.value.Document?
       && (forall k :: k in v.value.fields ==> exists c :: c in children && c.name == k)
       && forall c :: c in children ==> NothingLost(c.ty, B.Get(v.value.fields, c.name), r)
     case ListType(item) =>
       forall x :: x in ListItems(v.value) ==> NothingLost(item.ty, Some(x), r)
     case _ => true)
  }

  // ---- decimals are the exception, and only decimals bring decimals ----

  ghost predicate DecimalFree(s: Shape) {
    match s
    case Decimal => false
    case Array(e) => DecimalFree(e)
    case Document(fs) => forall k :: k in fs ==> DecimalFree(fs[k].shape)
    case _ => true
  }

  lemma {:induction false} UnifyKeepsDecimalFree(a: Shape, b: Shape)
    requires DecimalFree(a) && DecimalFree(b)
    ensures DecimalFree(Unify(a, b).shape)
    decreases Height(a) + Height(b)
  {
    if a == b || a.Unknown? || b.Unknown? || a.Json? || b.Json? {
    } else if a.Array? && b.Array? {
      UnifyKeepsDecimalFree(a.elem, b.elem);
    } else if a.Array? {
      UnifyKeepsDecimalFree(a.elem, b);
    } else if b.Array? {
      UnifyKeepsDecimalFree(b.elem, a);
    } else if a.Document? && b.Document? {
      var m := MergeFields(a.fields, b.fields);
      forall k | k in m ensures DecimalFree(m[k].shape) {
        if k in a.fields && k in b.fields {
          ChildHeight(a.fields, k);
          ChildHeight(b.fields, k);
          UnifyKeepsDecimalFree(a.fields[k].shape, b.fields[k].shape);
          assert m[k] == MergeField(a.fields[k], b.fields[k]);
        }
      }
    }
  }

  lemma {:induction false} FieldRunDecimalFree(docs: seq<B.Doc>, k: string)
    requires forall i :: 0 <= i < |docs| && k in docs[i] ==> DecimalFree(ShapeOf(docs[i][k]))
    ensures DecimalFree(FieldRun(docs, k).shape)
  {
    if docs != [] {
      var n := |docs| - 1;
      FieldRunDecimalFree(docs[..n], k);
      if k in docs[n] && !IsNullValue(docs[n][k]) {
        UnifyKeepsDecimalFree(FieldRun(docs[..n], k).shape, ShapeOf(docs[n][k]));
      }
    }
  }

  // Every number that meets a decimal column fits it.
  ghost predicate DecimalsFit(v: B.Bson, s: Shape, depth: nat, maxDepth: nat, r: Rendering)
    decreases s
  {
    IsNullValue(v) ||
    match s
    case Decimal => AsDecimal(v, DECIMAL_SCALE, r).Some?
    case Array(e) => depth < maxDepth ==> forall x :: x in ListItems(v) ==> DecimalsFit(x, e, depth + 1, maxDepth, r)
    case Document(fs) =>
      depth < maxDepth && v.Document? ==>
        forall k :: k in v.fields && k in fs ==> DecimalsFit(v.fields[k], fs[k].shape, depth + 1, maxDepth, r)
    case _ => true
  }

  lemma {:induction false} DecimalFreeFits(v: B.Bson, s: Shape, depth: nat, maxDepth: nat, r: Rendering)
    requires DecimalFree(s)
    ensures DecimalsFit(v, s, depth, maxDepth, r)
    decreases s
  {
    if s.Array? && depth < maxDepth {
      forall x | x in ListItems(v) ensures DecimalsFit(x, s.elem, depth + 1, maxDepth, r) {
        DecimalFreeFits(x, s.elem, depth + 1, maxDepth, r);
      }
    } else if s.Document? && v.Document? && depth < maxDepth {
      forall k | k in v.fields && k in s.fields
        ensures DecimalsFit(v.fields[k], s.fields[k].shape, depth + 1, maxDepth, r)
      {
        DecimalFreeFits(v.fields[k], s.fields[k].shape, depth + 1, maxDepth, r);
      }
    }
  }

  // ---- one value against the lowered type of a shape above it ----

  lemma LeafKept(v: B.Bson, s: Shape, path: string, depth: nat, maxDepth: nat, freq: Freq, r: Rendering)
    requires !IsNullValue(v) && Below(ShapeOf(v), s)
    requires !s.Array? && !s.Document?
    ensures NothingLost(ArrowType(s, path, depth, maxDepth, freq).0, Some(v), r)
      <==> DecimalsFit(v, s, depth, maxDepth, r)
  {
    assert ArrowType(s, path, depth, maxDepth, freq) == LeafType(s);
    LeafDecides(v, s, depth, maxDepth, r);
    if LeafType(s).0.Utf8Type? {
      TextKept(v, r);
    } else if s.Decimal? {
      DecimalKept(v, r);
    } else {
      TypedLeafKept(v, s, r);
    }
  }

  lemma LeafDecides(v: B.Bson, s: Shape, depth: nat, maxDepth: nat, r: Rendering)
    requires !IsNullValue(v) && !s.Array? && !s.Document?
    ensures DecimalsFit(v, s, depth, maxDepth, r) <==> (s.Decimal? ==> AsDecimal(v, DECIMAL_SCALE, r).Some?)
  {
  }

  lemma DecimalKept(v: B.Bson, r: Rendering)
    requires !IsNullValue(v)
    ensures NothingLost(LeafType(Shape.Decimal).0, Some(v), r) <==> AsDecimal(v, DECIMAL_SCALE, r).Some?
  {
  }

  lemma TextKept(v: B.Bson, r: Rendering)
    ensures NothingLost(Utf8Type, Some(v), r)
  {
  }

  lemma TypedLeafKept(v: B.Bson, s: Shape, r: Rendering)
    requires !IsNullValue(v) && Below(ShapeOf(v), s)
    requires !s.Array? && !s.Document? && !LeafType(s).0.Utf8Type? && !s.Decimal?
    ensures NothingLost(LeafType(s).0, Some(v), r)
  {
  }

  lemma {:induction false} ValueKept(v: B.Bson, s: Shape, path: string, depth: nat, maxDepth: nat, freq: Freq,
                                     r: Rendering)
    requires IsNullValue(v) || Below(ShapeOf(v), s)
    ensures NothingLost(ArrowType(s, path, depth, maxDepth, freq).0, Some(v), r)
      <==> DecimalsFit(v, s, depth, maxDepth, r)
    decreases s, 3
  {
    if IsNullValue(v) {
    } else if s.Array? {
      if depth < maxDepth {
        ElementsKept(v, s.elem, path, depth, maxDepth, freq, r);
      }
    } else if s.Document? {
      if depth < maxDepth && s.fields != map[] {
        assert v.Document?;
        DocumentKept(v.fields, s.fields, path, depth, maxDepth, freq, r);
      }
    } else {
      LeafKept(v, s, path, depth, maxDepth, freq, r);
    }
  }

  lemma {:induction false} ElementsKept(v: B.Bson, e: Shape, path: string, depth: nat, maxDepth: nat, freq: Freq,
                                        r: Rendering)
    requires !IsNullValue(v) && Below(ShapeOf(v), Shape.Array(e)) && depth < maxDepth
    ensures NothingLost(ArrowType(Shape.Array(e), path, depth, maxDepth, freq).0, Some(v), r)
      <==> DecimalsFit(v, Shape.Array(e), depth, maxDepth, r)
    decreases Shape.Array(e), 0
  {
    forall x | x in ListItems(v)
      ensures NothingLost(ArrowType(e, path, depth + 1, maxDepth, freq).0, Some(x), r)
        <==> DecimalsFit(x, e, depth + 1, maxDepth, r)
    {
      if v.Array? {
        ItemBelow(v.items, x, e);
      }
      ValueKept(x, e, path, depth + 1, maxDepth, freq, r);
    }
    ItemsDecide(v, e, path, depth, maxDepth, freq, r);
  }

  lemma ItemsDecide(v: B.Bson, e: Shape, path: string, depth: nat, maxDepth: nat, freq: Freq, r: Rendering)
    requires !IsNullValue(v) && depth < maxDepth
    requires forall x :: x in ListItems(v) ==>
      (NothingLost(ArrowType(e, path, depth + 1, maxDepth, freq).0, Some(x), r) <==>
        DecimalsFit(x, e, depth + 1, maxDepth, r))
    ensures NothingLost(ArrowType(Shape.Array(e), path, depth, maxDepth, freq).0, Some(v), r)
      <==> DecimalsFit(v, Shape.Array(e), depth, maxDepth, r)
  {
  }

  lemma ItemBelow(items: seq<B.Bson>, x: B.Bson, s: Shape)
    requires x in items && Below(ElementShape(items).shape, s)
    ensures Below(ShapeOf(x), s)
  {
    var i :| 0 <= i < |items| && items[i] == x;
    ElementsBelow(items, i);
    BelowTransitive(ShapeOf(x), ElementShape(items).shape, s);
  }

  ghost predicate FieldFits(d: B.Doc, fs: map<string, FieldShape>, k: string, depth: nat, maxDepth: nat, r: Rendering)
    requires k in fs
  {
    k in d ==> DecimalsFit(d[k], fs[k].shape, depth, maxDepth, r)
  }

  lemma {:induction false} ChildKept(d: B.Doc, fs: map<string, FieldShape>, path: string, total: nat,
                                     depth: nat, maxDepth: nat, freq: Freq, k: string, r: Rendering)
    requires Below(ShapeOf(B.Document(d)), Shape.Document(fs)) && k in fs
    ensures NothingLost(BuildField(k, path + "." + k, fs[k], total, depth, maxDepth, freq).ty, B.Get(d, k), r)
      <==> FieldFits(d, fs, k, depth, maxDepth, r)
    decreases Shape.Document(fs), 0
  {
    if k in d {
      assert ShapeOf(B.Document(d)).fields[k] == ObserveValue(EmptyField, d[k]);
      ValueKept(d[k], fs[k].shape, path + "." + k, depth, maxDepth, freq, r);
    }
  }

  ghost predicate Decides(c: Field, d: B.Doc, fs: map<string, FieldShape>, depth: nat, maxDepth: nat, r: Rendering) {
    c.name in fs && (NothingLost(c.ty, B.Get(d, c.name), r) <==> FieldFits(d, fs, c.name, depth, maxDepth, r))
  }

  lemma ChildrenDecide(children: seq<Field>, d: B.Doc, fs: map<string, FieldShape>, depth: nat, maxDepth: nat,
                       r: Rendering)
    requires depth < maxDepth && forall k :: k in d ==> k in fs
    requires forall k :: k in fs ==> HasName(children, k)
    requires forall c :: c in children ==> Decides(c, d, fs, depth + 1, maxDepth, r)
    ensures NothingLost(StructType(children), Some(B.Document(d)), r)
      <==> DecimalsFit(B.Document(d), Shape.Document(fs), depth, maxDepth, r)
  {
    assert DecimalsFit(B.Document(d), Shape.Document(fs), depth, maxDepth, r)
      <==> forall k :: k in fs ==> FieldFits(d, fs, k, depth + 1, maxDepth, r);
    assert NothingLost(StructType(children), Some(B.Document(d)), r)
      <==> forall c :: c in children ==> NothingLost(c.ty, B.Get(d, c.name), r);
  }

  lemma KeysAreKnown(d: B.Doc, fs: map<string, FieldShape>)
    requires Below(ShapeOf(B.Document(d)), Shape.Document(fs))
    ensures forall k :: k in d ==> k in fs
  {
    assert forall k :: k in d ==> k in ShapeOf(B.Document(d)).fields;
  }

  lemma KeysAreBuilt(fs: map<string, FieldShape>, path: string, depth: nat, maxDepth: nat, freq: Freq)
    ensures forall k :: k in fs ==> HasName(BuildDocument(fs, path, depth, maxDepth, freq), k)
  {
    forall k | k in fs ensures HasName(BuildDocument(fs, path, depth, maxDepth, freq), k) {
      KeyIsBuilt(fs, path, depth, maxDepth, freq, k);
    }
  }

  lemma {:induction false} DocumentKept(d: B.Doc, fs: map<string, FieldShape>, path: string,
                                        depth: nat, maxDepth: nat, freq: Freq, r: Rendering)
    requires Below(ShapeOf(B.Document(d)), Shape.Document(fs))
    requires depth < maxDepth && fs != map[]
    ensures NothingLost(ArrowType(Shape.Document(fs), path, depth, maxDepth, freq).0, Some(B.Document(d)), r)
      <==> DecimalsFit(B.Document(d), Shape.Document(fs), depth, maxDepth, r)
    decreases Shape.Document(fs), 2
  {
    var children := BuildDocument(fs, path, depth + 1, maxDepth, freq);
    DocumentLowers(fs, path, depth, maxDepth, freq);
    KeysAreKnown(d, fs);
    KeysAreBuilt(fs, path, depth + 1, maxDepth, freq);
    forall c | c in children ensures Decides(c, d, fs, depth + 1, maxDepth, r) {
      BuiltIsKey(fs, path, depth + 1, maxDepth, freq, c);
      ChildKept(d, fs, path, MaxPresent(fs), depth + 1, maxDepth, freq, c.name, r);
    }
    ChildrenDecide(children, d, fs, depth, maxDepth, r);
  }

  // ---- whole documents ----

  // Every key of a sampled document is a column, and under the inferred schema its
  // value decodes without loss if and only if its decimals fit.
  lemma SampledValueIsKeptIff(docs: seq<B.Doc>, i: nat, k: string, maxDepth: nat, freq: Freq, r: Rendering)
    returns (f: Field)
    requires i < |docs| && k in docs[i] && DotFree(k)
    ensures f in Inferred(docs, maxDepth, freq) && f.name == k && k in ObserveAll(docs)
    ensures LookupPath(docs[i], PathOf(f)) == Some(docs[i][k])
    ensures NothingLost(f.ty, LookupPath(docs[i], PathOf(f)), r)
      <==> DecimalsFit(docs[i][k], ObserveAll(docs)[k].shape, 0, maxDepth, r)
  {
    InferenceIsSound(docs, i, k);
    ColumnOfKey(docs, k, maxDepth, freq);
    f := BuildField(k, k, ObserveAll(docs)[k], |docs|, 0, maxDepth, freq);
    SplitDotFree(k);
    ValueKept(docs[i][k], ObserveAll(docs)[k].shape, k, 0, maxDepth, freq, r);
  }

  // In particular nothing is lost where no decimal was sampled.
  lemma NoSampledValueIsLost(docs: seq<B.Doc>, i: nat, k: string, maxDepth: nat, freq: Freq, r: Rendering)
    returns (f: Field)
    requires i < |docs| && k in docs[i] && DotFree(k)
    requires forall j :: 0 <= j < |docs| && k in docs[j] ==> DecimalFree(ShapeOf(docs[j][k]))
    ensures f in Inferred(docs, maxDepth, freq) && f.name == k
    ensures LookupPath(docs[i], PathOf(f)) == Some(docs[i][k])
    ensures NothingLost(f.ty, LookupPath(docs[i], PathOf(f)), r)
  {
    f := SampledValueIsKeptIff(docs, i, k, maxDepth, freq, r);
    RootIsFieldRun(docs, k);
    FieldRunDecimalFree(docs, k);
    DecimalFreeFits(docs[i][k], ObserveAll(docs)[k].shape, 0, maxDepth, r);
  }
}
