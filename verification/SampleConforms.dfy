// Inference meets pushdown: the inferred schema is one the translator can rely
// on, and the documents it was sampled from conform to it.
module SampleConforms {
  import opened Wrappers
  import B = BsonModel
  import opened Shapes
  import opened ShapeLaws
  import opened Sampling
  import opened SamplerLaws
  import opened Arrow
  import opened ArrowSchema
  import opened PushdownLaws
  import Scan

  // ---- the metadata of a built field ----

  lemma MetaKeysDiffer()
    ensures META_BSON != META_PATH && META_BSON != META_FREQ && META_BSON != META_MIXED
    ensures META_PATH != META_FREQ && META_PATH != META_MIXED && META_FREQ != META_MIXED
  {
    assert META_BSON[6] == 'b' && META_PATH[6] == 'p' && META_FREQ[6] == 'f' && META_MIXED[6] == 'm';
  }

  lemma BuiltFieldReads(name: string, path: string, fs: FieldShape, total: nat, depth: nat, maxDepth: nat, freq: Freq)
    ensures var f := BuildField(name, path, fs, total, depth, maxDepth, freq);
      && TagOf(f) == ArrowType(fs.shape, path, depth, maxDepth, freq).1
      && PathOf(f) == path
      && (IsMixed(f) <==> fs.mixed)
  {
    MetaKeysDiffer();
    TagRoundTrip(ArrowType(fs.shape, path, depth, maxDepth, freq).1);
  }

  // ---- well-formedness ----

  ghost predicate DotFreeKeys(s: Shape) {
    match s
    case Array(e) => DotFreeKeys(e)
    case Document(fs) => forall k :: k in fs ==> DotFree(k) && DotFreeKeys(fs[k].shape)
    case _ => true
  }

  lemma TagFitsType(s: Shape, path: string, depth: nat, maxDepth: nat, freq: Freq)
    ensures TagFits(ArrowType(s, path, depth, maxDepth, freq).0, ArrowType(s, path, depth, maxDepth, freq).1)
  {
  }

  lemma {:induction false} BuiltFieldWellFormed(name: string, path: string, fs: FieldShape, total: nat,
                                                depth: nat, maxDepth: nat, freq: Freq)
    requires DotFree(name) && DotFreeKeys(fs.shape)
    ensures WellFormedField(BuildField(name, path, fs, total, depth, maxDepth, freq), path)
    decreases fs.shape
  {
    BuiltFieldReads(name, path, fs, total, depth, maxDepth, freq);
    TagFitsType(fs.shape, path, depth, maxDepth, freq);
    if fs.shape.Document? && depth < maxDepth && fs.shape.fields != map[] {
      ChildrenWellFormed(path, fs.shape.fields, depth + 1, maxDepth, freq);
    }
  }

  lemma {:induction false} ChildrenWellFormed(path: string, children: map<string, FieldShape>,
                                              depth: nat, maxDepth: nat, freq: Freq)
    requires DotFreeKeys(Document(children))
    ensures forall c ::
      c in BuildChildren(SortedKeys(children.Keys), children, path, MaxPresent(children), depth, maxDepth, freq) ==>
        WellFormedField(c, path + "." + c.name)
    decreases Document(children), 0
  {
    var keys := SortedKeys(children.Keys);
    var built := BuildChildren(keys, children, path, MaxPresent(children), depth, maxDepth, freq);
    forall c | c in built ensures WellFormedField(c, path + "." + c.name) {
      var i :| 0 <= i < |built| && built[i] == c;
      BuiltFieldWellFormed(keys[i], path + "." + keys[i], children[keys[i]], MaxPresent(children), depth, maxDepth,
                           freq);
    }
  }

  // ---- conformance ----

  // No BSON timestamp stands where the schema has an unmixed date column. Deeper
  // than the schema goes, everything is text.
  ghost predicate DatesAreDates(v: B.Bson, s: Shape, depth: nat, maxDepth: nat)
    decreases s
  {
    match s
    case DateTime => !v.Timestamp?
    case Document(fs) =>
      depth < maxDepth && v.Document? ==>
        forall k :: k in v.fields && k in fs && !fs[k].mixed && !IsNullValue(v.fields[k]) ==>
          DatesAreDates(v.fields[k], fs[k].shape, depth + 1, maxDepth)
    case _ => true
  }

  lemma LeafConforms(v: B.Bson, s: Shape, path: string, depth: nat, maxDepth: nat, freq: Freq)
    requires !IsNullValue(v) && Below(ShapeOf(v), s) && !Coerced(ShapeOf(v), s)
    requires !s.Document?
    ensures Conforms(ArrowType(s, path, depth, maxDepth, freq).0, ArrowType(s, path, depth, maxDepth, freq).1, Some(v))
      <==> DatesAreDates(v, s, depth, maxDepth)
  {
  }

  lemma {:induction false} ValueConforms(v: B.Bson, s: Shape, path: string, depth: nat, maxDepth: nat, freq: Freq)
    requires !IsNullValue(v) && Below(ShapeOf(v), s) && !Coerced(ShapeOf(v), s)
    ensures Conforms(ArrowType(s, path, depth, maxDepth, freq).0, ArrowType(s, path, depth, maxDepth, freq).1, Some(v))
      <==> DatesAreDates(v, s, depth, maxDepth)
    decreases s, 2
  {
    if s.Document? {
      assert v.Document?;
      if depth < maxDepth && s.fields != map[] {
        DocumentConforms(v.fields, s.fields, path, depth, maxDepth, freq);
      }
    } else {
      LeafConforms(v, s, path, depth, maxDepth, freq);
    }
  }

  lemma {:induction false} DocumentConforms(d: B.Doc, fs: map<string, FieldShape>, path: string,
                                            depth: nat, maxDepth: nat, freq: Freq)
    requires Below(ShapeOf(B.Document(d)), Document(fs)) && depth < maxDepth && fs != map[]
    ensures Conforms(ArrowType(Document(fs), path, depth, maxDepth, freq).0, TagDocument, Some(B.Document(d)))
      <==> DatesAreDates(B.Document(d), Document(fs), depth, maxDepth)
    decreases Document(fs), 1
  {
    DocumentLowers(fs, path, depth, maxDepth, freq);
    var built := BuildDocument(fs, path, depth + 1, maxDepth, freq);
    forall k | k in fs ensures HasName(built, k) {
      KeyIsBuilt(fs, path, depth + 1, maxDepth, freq, k);
    }
    forall c | c in built
      ensures c.name in fs && (ChildFits(c, d) <==> FieldFits(d, fs, c.name, depth + 1, maxDepth))
    {
      BuiltIsKey(fs, path, depth + 1, maxDepth, freq, c);
      ChildConforms(d, fs, path, MaxPresent(fs), depth + 1, maxDepth, freq, c.name);
    }
    ChildrenDecide(built, d, fs, depth, maxDepth);
  }

  ghost predicate ChildFits(c: Field, d: B.Doc) { !IsMixed(c) ==> Conforms(c.ty, TagOf(c), B.Get(d, c.name)) }

  ghost predicate FieldFits(d: B.Doc, fs: map<string, FieldShape>, k: string, depth: nat, maxDepth: nat)
    requires k in fs
  {
    k in d && !fs[k].mixed && !IsNullValue(d[k]) ==> DatesAreDates(d[k], fs[k].shape, depth, maxDepth)
  }

  // The children of a struct stand for the keys of the merged document.
  lemma ChildrenDecide(built: seq<Field>, d: B.Doc, fs: map<string, FieldShape>, depth: nat, maxDepth: nat)
    requires depth < maxDepth
    requires forall k :: k in fs ==> HasName(built, k)
    requires forall c :: c in built ==>
      c.name in fs && (ChildFits(c, d) <==> FieldFits(d, fs, c.name, depth + 1, maxDepth))
    ensures Conforms(StructType(built), TagDocument, Some(B.Document(d)))
      <==> DatesAreDates(B.Document(d), Document(fs), depth, maxDepth)
  {
    assert DatesAreDates(B.Document(d), Document(fs), depth, maxDepth)
      <==> forall k :: k in fs ==> FieldFits(d, fs, k, depth + 1, maxDepth);
    assert Conforms(StructType(built), TagDocument, Some(B.Document(d)))
      <==> forall c :: c in built ==> ChildFits(c, d);
  }

  lemma {:induction false} ChildConforms(d: B.Doc, fs: map<string, FieldShape>, path: string, total: nat,
                                         depth: nat, maxDepth: nat, freq: Freq, k: string)
    requires Below(ShapeOf(B.Document(d)), Document(fs)) && k in fs
    ensures ChildFits(BuildField(k, path + "." + k, fs[k], total, depth, maxDepth, freq), d)
      <==> FieldFits(d, fs, k, depth, maxDepth)
    decreases Document(fs), 0
  {
    BuiltFieldReads(k, path + "." + k, fs[k], total, depth, maxDepth, freq);
    if k in d && !fs[k].mixed && !IsNullValue(d[k]) {
      assert ShapeOf(B.Document(d)).fields[k] == ObserveValue(EmptyField, d[k]);
      ValueConforms(d[k], fs[k].shape, path + "." + k, depth, maxDepth, freq);
    }
  }

  // ---- a sample and its schema ----

  lemma InferredField(docs: seq<B.Doc>, maxDepth: nat, freq: Freq, f: Field)
    requires f in Inferred(docs, maxDepth, freq)
    ensures f.name in ObserveAll(docs)
    ensures f == BuildField(f.name, f.name, ObserveAll(docs)[f.name], |docs|, 0, maxDepth, freq)
  {
    var schema := Inferred(docs, maxDepth, freq);
    var i :| 0 <= i < |schema| && schema[i] == f;
    assert ColumnNames(ObserveAll(docs))[i] == f.name;
  }

  // The inferred schema is well formed and names its columns apart.
  lemma InferredIsWellFormed(docs: seq<B.Doc>, maxDepth: nat, freq: Freq)
    requires forall k :: k in ObserveAll(docs) ==> DotFree(k) && DotFreeKeys(ObserveAll(docs)[k].shape)
    ensures WellFormedSchema(Inferred(docs, maxDepth, freq))
    ensures Scan.DistinctNames(Inferred(docs, maxDepth, freq))
  {
    forall f | f in Inferred(docs, maxDepth, freq) ensures WellFormedField(f, f.name) {
      InferredField(docs, maxDepth, freq, f);
      BuiltFieldWellFormed(f.name, f.name, ObserveAll(docs)[f.name], |docs|, 0, maxDepth, freq);
    }
    forall f, g | f in Inferred(docs, maxDepth, freq) && g in Inferred(docs, maxDepth, freq) && f.name == g.name
      ensures f == g
    {
      InferredField(docs, maxDepth, freq, f);
      InferredField(docs, maxDepth, freq, g);
    }
  }

  ghost predicate DatesKept(root: Root, d: B.Doc, maxDepth: nat) {
    forall k :: k in d && k in root && !root[k].mixed && !IsNullValue(d[k]) ==>
      DatesAreDates(d[k], root[k].shape, 0, maxDepth)
  }

  lemma SampledValueConforms(docs: seq<B.Doc>, i: nat, k: string, maxDepth: nat, freq: Freq)
    requires i < |docs| && k in ObserveAll(docs) && DotFree(k)
    ensures var f := BuildField(k, k, ObserveAll(docs)[k], |docs|, 0, maxDepth, freq);
      (!IsMixed(f) ==> Conforms(f.ty, TagOf(f), LookupPath(docs[i], PathOf(f))))
      <==> FieldFits(docs[i], ObserveAll(docs), k, 0, maxDepth)
  {
    BuiltFieldReads(k, k, ObserveAll(docs)[k], |docs|, 0, maxDepth, freq);
    SplitDotFree(k);
    if k in docs[i] && !ObserveAll(docs)[k].mixed && !IsNullValue(docs[i][k]) {
      InferenceIsSound(docs, i, k);
      ValueConforms(docs[i][k], ObserveAll(docs)[k].shape, k, 0, maxDepth, freq);
    }
  }

  // A sampled document conforms to it if and only if no BSON timestamp of its
  // stands in an unmixed date column.
  lemma SampledDocumentsConform(docs: seq<B.Doc>, i: nat, maxDepth: nat, freq: Freq)
    requires i < |docs|
    requires forall k :: k in ObserveAll(docs) ==> DotFree(k)
    ensures ConformsDoc(Inferred(docs, maxDepth, freq), docs[i]) <==> DatesKept(ObserveAll(docs), docs[i], maxDepth)
  {
    var (root, schema) := (ObserveAll(docs), Inferred(docs, maxDepth, freq));
    if ConformsDoc(schema, docs[i]) {
      forall k | k in root ensures FieldFits(docs[i], root, k, 0, maxDepth) {
        ColumnOfKey(docs, k, maxDepth, freq);
        SampledValueConforms(docs, i, k, maxDepth, freq);
      }
      assert forall k :: k in root ==> FieldFits(docs[i], root, k, 0, maxDepth);
    }
    if DatesKept(root, docs[i], maxDepth) {
      forall f | f in schema && !IsMixed(f) ensures Conforms(f.ty, TagOf(f), LookupPath(docs[i], PathOf(f))) {
        InferredField(docs, maxDepth, freq, f);
        SampledValueConforms(docs, i, f.name, maxDepth, freq);
      }
    }
  }
}
