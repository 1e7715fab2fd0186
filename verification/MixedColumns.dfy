// Which columns an inferred schema can mark as mixed.
module MixedColumns {
  import B = BsonModel
  import opened Shapes
  import opened ShapeLaws
  import opened Sampling
  import opened SamplerLaws
  import opened Arrow
  import opened ArrowSchema
  import SampleConforms

  // What a conflict leaves: text, JSON, or an array around them.
  predicate Coercible(s: Shape) { s.Json? || s.Utf8? || s.Array? }

  predicate FlagFits(f: FieldShape) { f.mixed ==> Coercible(f.shape) }

  ghost predicate FlagsFit(s: Shape) {
    match s
    case Document(fs) => forall k :: k in fs ==> FlagFits(fs[k]) && FlagsFit(fs[k].shape)
    case Array(e) => FlagsFit(e)
    case _ => true
  }

  lemma ConflictsAreCoercible(a: Shape, b: Shape)
    ensures Unify(a, b).conflict ==> Coercible(Unify(a, b).shape)
    ensures Coercible(a) || Coercible(b) ==> Coercible(Unify(a, b).shape)
  {
  }

  lemma {:induction false} UnifyFlagsFit(a: Shape, b: Shape)
    requires FlagsFit(a) && FlagsFit(b)
    ensures FlagsFit(Unify(a, b).shape)
    decreases Height(a) + Height(b)
  {
    if a == b || a.Unknown? || b.Unknown? || a.Json? || b.Json? {
    } else if a.Array? || b.Array? {
      UnifyOnArray(a, b);
      UnifyFlagsFit(Inner(a), Inner(b));
    } else if a.Document? && b.Document? {
      MergeFlagsFit(a.fields, b.fields);
    }
  }

  lemma {:induction false} MergeFlagsFit(l: map<string, FieldShape>, r: map<string, FieldShape>)
    requires FlagsFit(Document(l)) && FlagsFit(Document(r))
    ensures FlagsFit(Document(MergeFields(l, r)))
    decreases Height(Document(l)) + Height(Document(r)), 0
  {
    var m := MergeFields(l, r);
    forall k | k in m ensures FlagFits(m[k]) && FlagsFit(m[k].shape) {
      if k in l && k in r {
        ChildHeight(l, k);
        ChildHeight(r, k);
        assert m[k] == MergeField(l[k], r[k]);
        UnifyFlagsFit(l[k].shape, r[k].shape);
        ConflictsAreCoercible(l[k].shape, r[k].shape);
      }
    }
  }

  lemma {:induction false} ObservedFlagsFit(f: FieldShape, v: B.Bson)
    requires FlagFits(f) && FlagsFit(f.shape)
    ensures FlagFits(ObserveValue(f, v)) && FlagsFit(ObserveValue(f, v).shape)
    decreases v, 2
  {
    if !IsNullValue(v) {
      ShapeFlagsFit(v);
      UnifyFlagsFit(f.shape, ShapeOf(v));
      ConflictsAreCoercible(f.shape, ShapeOf(v));
    }
  }

  lemma {:induction false} ShapeFlagsFit(v: B.Bson)
    ensures FlagsFit(ShapeOf(v))
    decreases v, 1
  {
    match v
    case Document(d) =>
      forall k | k in d
        ensures FlagFits(ObserveValue(EmptyField, d[k])) && FlagsFit(ObserveValue(EmptyField, d[k]).shape)
      {
        ObservedFlagsFit(EmptyField, d[k]);
      }
    case Array(items) => ElementFlagsFit(items);
    case _ =>
  }

  lemma {:induction false} ElementFlagsFit(items: seq<B.Bson>)
    ensures FlagsFit(ElementShape(items).shape)
    decreases items, 0
  {
    if items != [] {
      ElementFlagsFit(items[..|items| - 1]);
      ShapeFlagsFit(items[|items| - 1]);
      UnifyFlagsFit(ElementShape(items[..|items| - 1]).shape, ShapeOf(items[|items| - 1]));
    }
  }

  lemma {:induction false} RunFlagsFit(docs: seq<B.Doc>, k: string)
    ensures FlagFits(FieldRun(docs, k)) && FlagsFit(FieldRun(docs, k).shape)
  {
    if docs != [] {
      var n := |docs| - 1;
      RunFlagsFit(docs[..n], k);
      if k in docs[n] {
        ObservedFlagsFit(FieldRun(docs[..n], k), docs[n][k]);
      }
    }
  }

  // ---- mixed columns are text, or lists ----

  ghost predicate MixedIsText(f: Field)
    decreases f
  {
    && (IsMixed(f) ==> f.ty.Utf8Type? || f.ty.ListType?)
    && (f.ty.StructType? ==> forall c :: c in f.ty.children ==> MixedIsText(c))
  }

  lemma {:induction false} BuiltMixedIsText(name: string, path: string, fs: FieldShape, total: nat,
                                            depth: nat, maxDepth: nat, freq: Freq)
    requires FlagFits(fs) && FlagsFit(fs.shape)
    ensures MixedIsText(BuildField(name, path, fs, total, depth, maxDepth, freq))
    decreases fs.shape
  {
    SampleConforms.BuiltFieldReads(name, path, fs, total, depth, maxDepth, freq);
    if fs.shape.Document? && depth < maxDepth && fs.shape.fields != map[] {
      var fields := fs.shape.fields;
      DocumentLowers(fields, path, depth, maxDepth, freq);
      forall c | c in BuildDocument(fields, path, depth + 1, maxDepth, freq) ensures MixedIsText(c) {
        BuiltIsKey(fields, path, depth + 1, maxDepth, freq, c);
        BuiltMixedIsText(c.name, path + "." + c.name, fields[c.name], MaxPresent(fields), depth + 1, maxDepth, freq);
      }
    } else {
      FlatOrList(fs.shape, path, depth, maxDepth, freq);
    }
  }

  lemma FlatOrList(s: Shape, path: string, depth: nat, maxDepth: nat, freq: Freq)
    requires depth >= maxDepth || !s.Document? || s.fields == map[]
    ensures !ArrowType(s, path, depth, maxDepth, freq).0.StructType?
    ensures Coercible(s) ==> var ty := ArrowType(s, path, depth, maxDepth, freq).0; ty.Utf8Type? || ty.ListType?
  {
  }

  // Every column an inferred schema marks as mixed, at any depth, is text or a
  // list: so the comparisons a mixed column takes are those of texts.
  lemma InferredMixedIsText(docs: seq<B.Doc>, maxDepth: nat, freq: Freq, f: Field)
    requires f in Inferred(docs, maxDepth, freq)
    ensures MixedIsText(f)
  {
    SampleConforms.InferredField(docs, maxDepth, freq, f);
    RootIsFieldRun(docs, f.name);
    RunFlagsFit(docs, f.name);
    BuiltMixedIsText(f.name, f.name, ObserveAll(docs)[f.name], |docs|, 0, maxDepth, freq);
  }
}
