// The inferred schema does not depend on the order of the sample.
module SchemaOrder {
  import B = BsonModel
  import opened Shapes
  import opened ShapeFold
  import opened Sampling
  import opened SamplerLaws
  import opened Arrow
  import opened ArrowSchema
  import SampleConforms

  // ---- types equal up to the frequencies of nested fields ----

  ghost predicate AlikeTypes(a: DataType, b: DataType)
    decreases a
  {
    match (a, b)
    case (StructType(l), StructType(r)) => |l| == |r| && forall i :: 0 <= i < |l| ==> AlikeFields(l[i], r[i])
    case (ListType(x), ListType(y)) => AlikeFields(x, y)
    case _ => a == b
  }

  ghost predicate AlikeFields(f: Field, g: Field)
    decreases f
  {
    && f.name == g.name && f.nullable == g.nullable
    && f.metadata - {META_FREQ} == g.metadata - {META_FREQ}
    && AlikeTypes(f.ty, g.ty)
  }

  // ---- shapes that look alike lower to such types ----

  lemma {:induction false} LowersAlike(s: Shape, t: Shape, n: nat, path: string, depth: nat, maxDepth: nat, freq: Freq)
    requires depth + n == maxDepth && Trunc(s, n) == Trunc(t, n)
    ensures AlikeTypes(ArrowType(s, path, depth, maxDepth, freq).0, ArrowType(t, path, depth, maxDepth, freq).0)
    ensures ArrowType(s, path, depth, maxDepth, freq).1 == ArrowType(t, path, depth, maxDepth, freq).1
    decreases n, 3
  {
    if n > 0 && s.Document? && s.fields != map[] {
      TruncatedFields(s, t, n);
      DocumentsLowerAlike(s.fields, t.fields, n - 1, path, depth, maxDepth, freq);
    } else if n > 0 && s.Array? {
      TruncatedArray(s, t, n);
      LowersAlike(s.elem, t.elem, n - 1, path, depth + 1, maxDepth, freq);
      ArraysLowerAlike(s.elem, t.elem, path, depth, maxDepth, freq);
    } else {
      FlatLowersAlike(s, t, n, path, depth, maxDepth, freq);
      AlikeItself(ArrowType(s, path, depth, maxDepth, freq).0);
    }
  }

  // What has no structure, or lies too deep to keep it.
  lemma FlatLowersAlike(s: Shape, t: Shape, n: nat, path: string, depth: nat, maxDepth: nat, freq: Freq)
    requires depth + n == maxDepth && Trunc(s, n) == Trunc(t, n)
    requires n == 0 || (!s.Array? && (s.Document? ==> s.fields == map[]))
    ensures ArrowType(s, path, depth, maxDepth, freq) == ArrowType(t, path, depth, maxDepth, freq)
  {
    if n > 0 && s.Document? {
      TruncatedFields(s, t, n);
      NoKeys(s.fields, t.fields);
    }
  }

  lemma ArraysLowerAlike(x: Shape, y: Shape, path: string, depth: nat, maxDepth: nat, freq: Freq)
    requires depth < maxDepth
    requires AlikeTypes(ArrowType(x, path, depth + 1, maxDepth, freq).0,
                        ArrowType(y, path, depth + 1, maxDepth, freq).0)
    requires ArrowType(x, path, depth + 1, maxDepth, freq).1 == ArrowType(y, path, depth + 1, maxDepth, freq).1
    ensures AlikeTypes(ArrowType(Array(x), path, depth, maxDepth, freq).0,
                       ArrowType(Array(y), path, depth, maxDepth, freq).0)
    ensures ArrowType(Array(x), path, depth, maxDepth, freq).1 == ArrowType(Array(y), path, depth, maxDepth, freq).1
  {
    var (a, b) := (ArrowType(x, path, depth + 1, maxDepth, freq), ArrowType(y, path, depth + 1, maxDepth, freq));
    ArrayLowers(x, path, depth, maxDepth, freq);
    ArrayLowers(y, path, depth, maxDepth, freq);
    ListsAlike(a.0, b.0, map[META_BSON := TagText(a.1)]);
  }

  lemma ArrayLowers(x: Shape, path: string, depth: nat, maxDepth: nat, freq: Freq)
    requires depth < maxDepth
    ensures var (ty, tag) := ArrowType(x, path, depth + 1, maxDepth, freq);
      ArrowType(Array(x), path, depth, maxDepth, freq)
      == (ListType(Field("item", ty, true, map[META_BSON := TagText(tag)])), TagArray)
  {
  }

  lemma ListsAlike(a: DataType, b: DataType, m: map<string, string>)
    requires AlikeTypes(a, b)
    ensures AlikeTypes(ListType(Field("item", a, true, m)), ListType(Field("item", b, true, m)))
  {
  }

  lemma {:induction false} AlikeItself(a: DataType)
    ensures AlikeTypes(a, a)
  {
    match a
    case StructType(l) =>
      forall i | 0 <= i < |l| ensures AlikeFields(l[i], l[i]) {
        AlikeItself(l[i].ty);
      }
    case ListType(x) => AlikeItself(x.ty);
    case _ =>
  }

  lemma NoKeys(l: map<string, FieldShape>, r: map<string, FieldShape>)
    requires l.Keys == r.Keys
    ensures l == map[] ==> r == map[]
  {
    if l == map[] {
      assert r.Keys == {};
    }
  }

  // The same keys, with shapes that look alike down to n levels.
  ghost predicate LookAlike(l: map<string, FieldShape>, r: map<string, FieldShape>, n: nat) {
    && l.Keys == r.Keys
    && forall k :: k in l ==> l[k].mixed == r[k].mixed && Trunc(l[k].shape, n) == Trunc(r[k].shape, n)
  }

  lemma FieldTruncated(s: Shape, n: nat, k: string)
    requires n > 0 && s.Document?
    ensures Trunc(s, n).Document? && (k in s.fields <==> k in Trunc(s, n).fields)
    ensures k in s.fields ==>
      Trunc(s, n).fields[k] == FieldShape(Trunc(s.fields[k].shape, n - 1), 0, 0, s.fields[k].mixed)
  {
  }

  lemma TruncatedFields(s: Shape, t: Shape, n: nat)
    requires n > 0 && s.Document? && Trunc(s, n) == Trunc(t, n)
    ensures t.Document? && LookAlike(s.fields, t.fields, n - 1)
  {
    forall k: string
      ensures k in s.fields <==> k in t.fields
      ensures k in s.fields ==> s.fields[k].mixed == t.fields[k].mixed
      ensures k in s.fields ==> Trunc(s.fields[k].shape, n - 1) == Trunc(t.fields[k].shape, n - 1)
    {
      FieldTruncated(s, n, k);
      FieldTruncated(t, n, k);
    }
  }

  lemma TruncatedArray(s: Shape, t: Shape, n: nat)
    requires n > 0 && s.Array? && Trunc(s, n) == Trunc(t, n)
    ensures t.Array? && Trunc(s.elem, n - 1) == Trunc(t.elem, n - 1)
  {
  }

  lemma {:induction false} DocumentsLowerAlike(l: map<string, FieldShape>, r: map<string, FieldShape>, n: nat,
                                               path: string, depth: nat, maxDepth: nat, freq: Freq)
    requires depth + 1 + n == maxDepth && l != map[] && LookAlike(l, r, n)
    ensures AlikeTypes(ArrowType(Document(l), path, depth, maxDepth, freq).0,
                       ArrowType(Document(r), path, depth, maxDepth, freq).0)
    ensures ArrowType(Document(l), path, depth, maxDepth, freq).1
         == ArrowType(Document(r), path, depth, maxDepth, freq).1
    decreases n, 6
  {
    NoKeys(r, l);
    DocumentLowers(l, path, depth, maxDepth, freq);
    DocumentLowers(r, path, depth, maxDepth, freq);
    ChildrenLowerAlike(l, r, n, path, depth + 1, maxDepth, freq);
  }

  lemma {:induction false} ChildrenLowerAlike(l: map<string, FieldShape>, r: map<string, FieldShape>, n: nat,
                                              path: string, depth: nat, maxDepth: nat, freq: Freq)
    requires depth + n == maxDepth && LookAlike(l, r, n)
    ensures AlikeTypes(StructType(BuildDocument(l, path, depth, maxDepth, freq)),
                       StructType(BuildDocument(r, path, depth, maxDepth, freq)))
    decreases n, 5
  {
    var keys := SortedKeys(l.Keys);
    assert keys == SortedKeys(r.Keys);
    var (a, b) := (BuildDocument(l, path, depth, maxDepth, freq), BuildDocument(r, path, depth, maxDepth, freq));
    forall i | 0 <= i < |keys| ensures AlikeFields(a[i], b[i]) {
      FieldLowersAlike(l, r, keys[i], n, path + "." + keys[i], MaxPresent(l), MaxPresent(r), depth, maxDepth, freq);
    }
  }

  lemma {:induction false} FieldLowersAlike(l: map<string, FieldShape>, r: map<string, FieldShape>, k: string, n: nat,
                                            path: string, total: nat, total': nat, depth: nat, maxDepth: nat,
                                            freq: Freq)
    requires depth + n == maxDepth && LookAlike(l, r, n) && k in l
    ensures AlikeFields(BuildField(k, path, l[k], total, depth, maxDepth, freq),
                        BuildField(k, path, r[k], total', depth, maxDepth, freq))
    decreases n, 4
  {
    LowersAlike(l[k].shape, r[k].shape, n, path, depth, maxDepth, freq);
    MetadataAlike(k, path, l[k], r[k], total, total', depth, maxDepth, freq);
  }

  lemma MetadataAlike(name: string, path: string, f: FieldShape, g: FieldShape, total: nat, total': nat,
                      depth: nat, maxDepth: nat, freq: Freq)
    requires f.mixed == g.mixed
    requires ArrowType(f.shape, path, depth, maxDepth, freq).1 == ArrowType(g.shape, path, depth, maxDepth, freq).1
    ensures BuildField(name, path, f, total, depth, maxDepth, freq).metadata - {META_FREQ}
         == BuildField(name, path, g, total', depth, maxDepth, freq).metadata - {META_FREQ}
  {
    SampleConforms.MetaKeysDiffer();
  }

  // ---- the schema ----

  // Two columns with the same name, nullability, tag, path, mixed flag and
  // frequency, whose types differ at most in the frequencies of nested fields.
  ghost predicate AlikeColumns(f: Field, g: Field) {
    f.name == g.name && f.nullable == g.nullable && f.metadata == g.metadata && AlikeTypes(f.ty, g.ty)
  }

  ghost predicate AlikeSchemas(s: Schema, t: Schema) {
    |s| == |t| && forall i :: 0 <= i < |s| ==> AlikeColumns(s[i], t[i])
  }

  lemma ColumnAlike(k: string, f: FieldShape, g: FieldShape, total: nat, maxDepth: nat, freq: Freq)
    requires f.present == g.present && f.mixed == g.mixed && Trunc(f.shape, maxDepth) == Trunc(g.shape, maxDepth)
    ensures AlikeColumns(BuildField(k, k, f, total, 0, maxDepth, freq), BuildField(k, k, g, total, 0, maxDepth, freq))
  {
    LowersAlike(f.shape, g.shape, maxDepth, k, 0, maxDepth, freq);
  }

  // What the documents hold is settled, key by key, as far down as the schema goes.
  ghost predicate SettledSample(docs: seq<B.Doc>, maxDepth: nat) {
    forall k :: k in ObserveAll(docs) ==> SettledTo(ShapesAt(docs, k), maxDepth)
  }

  lemma SameColumnNames(docs: seq<B.Doc>, docs': seq<B.Doc>)
    requires multiset(docs) == multiset(docs')
    ensures |docs| == |docs'| && ObserveAll(docs).Keys == ObserveAll(docs').Keys
    ensures ColumnNames(ObserveAll(docs)) == ColumnNames(ObserveAll(docs'))
  {
    Reordered(docs, docs');
    forall k ensures k in ObserveAll(docs) <==> k in ObserveAll(docs') {
      SameKeysSeen(docs, docs', k);
    }
  }

  // Of such a sample any order infers the same schema.
  lemma SchemaIgnoresOrder(docs: seq<B.Doc>, docs': seq<B.Doc>, maxDepth: nat, freq: Freq)
    requires multiset(docs) == multiset(docs') && SettledSample(docs', maxDepth)
    ensures AlikeSchemas(Inferred(docs, maxDepth, freq), Inferred(docs', maxDepth, freq))
  {
    var (root, root') := (ObserveAll(docs), ObserveAll(docs'));
    SameColumnNames(docs, docs');
    var names := ColumnNames(root);
    forall i | 0 <= i < |names|
      ensures AlikeColumns(Inferred(docs, maxDepth, freq)[i], Inferred(docs', maxDepth, freq)[i])
    {
      var k := names[i];
      assert k in names;
      RunReordered(docs, docs', k, maxDepth);
      RootIsFieldRun(docs, k);
      RootIsFieldRun(docs', k);
      ColumnAlike(k, root[k], root'[k], |docs|, maxDepth, freq);
    }
  }

  // ---- and of no other ----

  // Json is text where an array is a list.
  lemma {:induction false} DifferLowers(x: Shape, y: Shape, path: string, depth: nat, maxDepth: nat, freq: Freq)
    requires depth <= maxDepth && Differ(x, y, maxDepth - depth)
    ensures !AlikeTypes(ArrowType(x, path, depth, maxDepth, freq).0, ArrowType(y, path, depth, maxDepth, freq).0)
    decreases maxDepth - depth
  {
    if x.Array? && y.Array? {
      DifferLowers(x.elem, y.elem, path, depth + 1, maxDepth, freq);
      ArrayLowers(x.elem, path, depth, maxDepth, freq);
      ArrayLowers(y.elem, path, depth, maxDepth, freq);
    } else if x.Document? {
      var k :| DifferAt(x, y, k, maxDepth - depth);
      DifferLowers(AtKey(x, k), AtKey(y, k), path + "." + k, depth + 1, maxDepth, freq);
      DocumentLowers(x.fields, path, depth, maxDepth, freq);
      DocumentLowers(y.fields, path, depth, maxDepth, freq);
      ChildrenDiffer(x.fields, y.fields, k, path, depth + 1, maxDepth, freq);
    }
  }

  lemma FieldsDiffer(a: seq<Field>, b: seq<Field>, c: Field)
    requires c in a && forall f :: f in b && f.name == c.name ==> !AlikeTypes(c.ty, f.ty)
    ensures !AlikeTypes(StructType(a), StructType(b))
  {
    var i :| 0 <= i < |a| && a[i] == c;
    if |a| == |b| {
      assert !AlikeFields(a[i], b[i]);
    }
  }

  lemma ChildrenDiffer(l: map<string, FieldShape>, r: map<string, FieldShape>, k: string, path: string,
                       depth: nat, maxDepth: nat, freq: Freq)
    requires k in l && k in r
    requires !AlikeTypes(ArrowType(l[k].shape, path + "." + k, depth, maxDepth, freq).0,
                         ArrowType(r[k].shape, path + "." + k, depth, maxDepth, freq).0)
    ensures !AlikeTypes(StructType(BuildDocument(l, path, depth, maxDepth, freq)),
                        StructType(BuildDocument(r, path, depth, maxDepth, freq)))
  {
    var (a, b) := (BuildDocument(l, path, depth, maxDepth, freq), BuildDocument(r, path, depth, maxDepth, freq));
    KeyIsBuilt(l, path, depth, maxDepth, freq, k);
    var c :| c in a && c.name == k;
    BuiltIsKey(l, path, depth, maxDepth, freq, c);
    forall f | f in b && f.name == c.name ensures !AlikeTypes(c.ty, f.ty) {
      BuiltIsKey(r, path, depth, maxDepth, freq, f);
    }
    FieldsDiffer(a, b, c);
  }

  lemma ColumnsDiffer(a: seq<B.Doc>, b: seq<B.Doc>, k: string, maxDepth: nat, freq: Freq)
    requires multiset(a) == multiset(b) && k in ObserveAll(a)
    requires Differ(FieldRun(a, k).shape, FieldRun(b, k).shape, maxDepth)
    ensures !AlikeSchemas(Inferred(a, maxDepth, freq), Inferred(b, maxDepth, freq))
  {
    SameColumnNames(a, b);
    RootIsFieldRun(a, k);
    RootIsFieldRun(b, k);
    var names := ColumnNames(ObserveAll(a));
    var i :| 0 <= i < |names| && names[i] == k;
    DifferLowers(FieldRun(a, k).shape, FieldRun(b, k).shape, k, 0, maxDepth, freq);
    assert !AlikeColumns(Inferred(a, maxDepth, freq)[i], Inferred(b, maxDepth, freq)[i]);
  }

  ghost predicate IgnoresOrder(docs: seq<B.Doc>, maxDepth: nat, freq: Freq) {
    forall a, b :: multiset(a) == multiset(docs) == multiset(b) ==>
      AlikeSchemas(Inferred(a, maxDepth, freq), Inferred(b, maxDepth, freq))
  }

  // All orders of a sample infer the same schema, up to the frequencies of nested
  // fields, if and only if the sample is settled: whatever the depth limit.
  lemma SchemaIgnoresOrderIff(docs: seq<B.Doc>, maxDepth: nat, freq: Freq)
    ensures IgnoresOrder(docs, maxDepth, freq) <==> SettledSample(docs, maxDepth)
  {
    if SettledSample(docs, maxDepth) {
      forall a, b | multiset(a) == multiset(docs) == multiset(b)
        ensures AlikeSchemas(Inferred(a, maxDepth, freq), Inferred(b, maxDepth, freq))
      {
        SettledReorders(docs, b, maxDepth);
        SchemaIgnoresOrder(a, b, maxDepth, freq);
      }
    } else {
      var k :| k in ObserveAll(docs) && !SettledTo(ShapesAt(docs, k), maxDepth);
      var a, b := UnsettledRuns(docs, k, maxDepth);
      SameKeysSeen(docs, a, k);
      ColumnsDiffer(a, b, k, maxDepth, freq);
    }
  }

  lemma SettledReorders(docs: seq<B.Doc>, docs': seq<B.Doc>, maxDepth: nat)
    requires multiset(docs) == multiset(docs') && SettledSample(docs, maxDepth)
    ensures SettledSample(docs', maxDepth)
  {
    forall k | k in ObserveAll(docs') ensures SettledTo(ShapesAt(docs', k), maxDepth) {
      SameKeysSeen(docs, docs', k);
      ShapesReordered(docs, docs', k);
      SettledByMembers(ShapesAt(docs, k), ShapesAt(docs', k), maxDepth);
    }
  }

  // ---- what does depend on the order ----

  const WITH_X: B.Doc := map["x" := B.Int32(1)]
  const WITH_XY: B.Doc := map["x" := B.Int32(1), "y" := B.Int32(1)]

  function InField(d: B.Doc): B.Doc { map["f" := B.Document(d)] }

  const SEEN_ONCE := FieldShape(Int32, 1, 0, false)

  lemma ShapesOfXY()
    ensures ShapeOf(B.Document(WITH_X)) == Document(map["x" := SEEN_ONCE])
    ensures ShapeOf(B.Document(WITH_XY)) == Document(map["x" := SEEN_ONCE, "y" := SEEN_ONCE])
  {
    assert ObserveValue(EmptyField, B.Int32(1)) == SEEN_ONCE;
    assert ShapeOf(B.Document(WITH_X)).fields == map["x" := SEEN_ONCE];
    assert ShapeOf(B.Document(WITH_XY)).fields == map["x" := SEEN_ONCE, "y" := SEEN_ONCE];
  }

  // One more document merged into a field.
  lemma RunGrows(docs: seq<B.Doc>, d: B.Doc)
    ensures FieldRun(docs + [InField(d)], "f") == ObserveValue(FieldRun(docs, "f"), B.Document(d))
  {
    assert (docs + [InField(d)])[..|docs|] == docs;
  }

  function Counted(n: nat): FieldShape { FieldShape(Int32, n, 0, false) }

  lemma MergedXY(n: nat, m: nat)
    ensures Unify(Document(map["x" := Counted(n), "y" := SEEN_ONCE]), Document(map["x" := Counted(m)])).shape
         == Document(map["x" := Counted(n + m), "y" := SEEN_ONCE])
    ensures Unify(Document(map["x" := Counted(m)]), Document(map["x" := Counted(n), "y" := SEEN_ONCE])).shape
         == Document(map["x" := Counted(n + m), "y" := SEEN_ONCE])
  {
    var (l, r) := (map["x" := Counted(n), "y" := SEEN_ONCE], map["x" := Counted(m)]);
    assert "y" in l && "y" !in r;
    assert MergeField(Counted(n), Counted(m)) == Counted(n + m) == MergeField(Counted(m), Counted(n));
    assert MergeFields(l, r) == map["x" := Counted(n + m), "y" := SEEN_ONCE];
    assert MergeFields(r, l) == map["x" := Counted(n + m), "y" := SEEN_ONCE];
  }

  const NARROW_FIRST := [InField(WITH_X), InField(WITH_X), InField(WITH_XY)]
  const WIDE_FIRST := [InField(WITH_XY), InField(WITH_X), InField(WITH_X)]

  lemma NarrowFirst()
    ensures FieldRun(NARROW_FIRST, "f").shape == Document(map["x" := Counted(2), "y" := SEEN_ONCE])
  {
    ShapesOfXY();
    RunGrows([], WITH_X);
    RunGrows([InField(WITH_X)], WITH_X);
    RunGrows([InField(WITH_X), InField(WITH_X)], WITH_XY);
    assert [] + [InField(WITH_X)] == [InField(WITH_X)];
    assert [InField(WITH_X)] + [InField(WITH_X)] == [InField(WITH_X), InField(WITH_X)];
    assert [InField(WITH_X), InField(WITH_X)] + [InField(WITH_XY)] == NARROW_FIRST;
    MergedXY(1, 1);
  }

  lemma WideFirst()
    ensures FieldRun(WIDE_FIRST, "f").shape == Document(map["x" := Counted(3), "y" := SEEN_ONCE])
  {
    ShapesOfXY();
    RunGrows([], WITH_XY);
    RunGrows([InField(WITH_XY)], WITH_X);
    RunGrows([InField(WITH_XY), InField(WITH_X)], WITH_X);
    assert [] + [InField(WITH_XY)] == [InField(WITH_XY)];
    assert [InField(WITH_XY)] + [InField(WITH_X)] == [InField(WITH_XY), InField(WITH_X)];
    assert [InField(WITH_XY), InField(WITH_X)] + [InField(WITH_X)] == WIDE_FIRST;
    MergedXY(1, 1);
    MergedXY(2, 1);
  }

  // The counters of a key both documents hold add up if and only if the documents
  // differ, counters included, or the second has not seen the key.
  lemma CountersAddIff(l: map<string, FieldShape>, r: map<string, FieldShape>, k: string)
    requires k in l && k in r
    ensures Unify(Document(l), Document(r)).shape.Document? && k in Unify(Document(l), Document(r)).shape.fields
    ensures Unify(Document(l), Document(r)).shape.fields[k].present == l[k].present + r[k].present
      <==> l != r || r[k].present == 0
  {
    assert MergeFields(l, r)[k] == MergeField(l[k], r[k]);
  }

  // Merging equal documents does not add their counters: x was seen three times,
  // which only one of two orders of the same three documents reports.
  lemma NestedCountersDependOnOrder()
    ensures multiset(NARROW_FIRST) == multiset(WIDE_FIRST)
    ensures FieldRun(NARROW_FIRST, "f").shape == Document(map["x" := Counted(2), "y" := SEEN_ONCE])
    ensures FieldRun(WIDE_FIRST, "f").shape == Document(map["x" := Counted(3), "y" := SEEN_ONCE])
  {
    NarrowFirst();
    WideFirst();
  }

  lemma {:induction false} MaxIsMember(s: set<nat>)
    requires s != {}
    ensures MaxOf(s) in s
  {
    var x :| x in s && MaxOf(s) == if x <= MaxOf(s - {x}) then MaxOf(s - {x}) else x;
    if s - {x} != {} {
      MaxIsMember(s - {x});
    } else {
      assert MaxOf(s - {x}) == 0;
    }
  }

  lemma MaxOfXY(n: nat)
    requires n > 1
    ensures MaxPresent(map["x" := Counted(n), "y" := SEEN_ONCE]) == n
  {
    var children := map["x" := Counted(n), "y" := SEEN_ONCE];
    var counts := set k | k in children :: children[k].present;
    assert children["x"].present in counts;
    MaxIsMember(counts);
  }

  lemma IndexOfY() returns (i: nat)
    ensures i < |SortedKeys({"x", "y"})| && SortedKeys({"x", "y"})[i] == "y"
  {
    var keys := SortedKeys({"x", "y"});
    assert "y" in keys;
    i :| 0 <= i < |keys| && keys[i] == "y";
  }

  lemma FrequencyOfY(n: nat, i: nat, maxDepth: nat, freq: Freq)
    requires n > 1 && i < |SortedKeys({"x", "y"})| && SortedKeys({"x", "y"})[i] == "y"
    ensures var built := BuildDocument(map["x" := Counted(n), "y" := SEEN_ONCE], "f", 1, maxDepth, freq);
      i < |built| && META_FREQ in built[i].metadata && built[i].metadata[META_FREQ] == freq(1, n)
  {
    var children := map["x" := Counted(n), "y" := SEEN_ONCE];
    assert children.Keys == {"x", "y"};
    MaxOfXY(n);
    SampleConforms.MetaKeysDiffer();
  }

  lemma ColumnOf(docs: seq<B.Doc>, k: string, maxDepth: nat, freq: Freq)
    requires docs != [] && forall d :: d in docs ==> d.Keys == {k}
    ensures |Inferred(docs, maxDepth, freq)| == 1
    ensures Inferred(docs, maxDepth, freq)[0].ty == ArrowType(FieldRun(docs, k).shape, k, 0, maxDepth, freq).0
  {
    OnlyKey(docs, k);
    var names := ColumnNames(ObserveAll(docs));
    forall i | 0 <= i < |names| ensures names[i] == k {
      assert names[i] in names;
      assert names[i] in ObserveAll(docs).Keys;
    }
    assert k in names;
    assert names[0] == names[|names| - 1];
  }

  lemma TypeOfF(docs: seq<B.Doc>, fields: map<string, FieldShape>, maxDepth: nat, freq: Freq)
    requires maxDepth > 0 && fields != map[]
    requires docs != [] && forall d :: d in docs ==> d.Keys == {"f"}
    requires FieldRun(docs, "f").shape == Document(fields)
    ensures |Inferred(docs, maxDepth, freq)| == 1
    ensures Inferred(docs, maxDepth, freq)[0].ty == StructType(BuildDocument(fields, "f", 1, maxDepth, freq))
  {
    ColumnOf(docs, "f", maxDepth, freq);
    DocumentLowers(fields, "f", 0, maxDepth, freq);
  }

  lemma OnlyKey(docs: seq<B.Doc>, k: string)
    requires docs != [] && forall d :: d in docs ==> d.Keys == {k}
    ensures ObserveAll(docs).Keys == {k} && ObserveAll(docs)[k] == FieldRun(docs, k)
  {
    forall j ensures j in ObserveAll(docs) <==> j == k {
      RootIsFieldRun(docs, j);
      assert docs[0] in docs;
    }
    RootIsFieldRun(docs, k);
  }

  // Child i of the one column says it was found at that frequency.
  ghost predicate ChildFrequency(schema: Schema, i: nat, frequency: string) {
    && |schema| == 1 && schema[0].ty.StructType? && i < |schema[0].ty.children|
    && META_FREQ in schema[0].ty.children[i].metadata
    && schema[0].ty.children[i].metadata[META_FREQ] == frequency
  }

  lemma FrequencyInSchema(docs: seq<B.Doc>, n: nat, i: nat, maxDepth: nat, freq: Freq)
    requires maxDepth > 0 && n > 1 && i < |SortedKeys({"x", "y"})| && SortedKeys({"x", "y"})[i] == "y"
    requires docs != [] && forall d :: d in docs ==> d.Keys == {"f"}
    requires FieldRun(docs, "f").shape == Document(map["x" := Counted(n), "y" := SEEN_ONCE])
    ensures ChildFrequency(Inferred(docs, maxDepth, freq), i, freq(1, n))
  {
    var fields := map["x" := Counted(n), "y" := SEEN_ONCE];
    assert "x" in fields;
    TypeOfF(docs, fields, maxDepth, freq);
    FrequencyOfY(n, i, maxDepth, freq);
  }

  lemma OnlyF()
    ensures forall d :: d in NARROW_FIRST ==> d.Keys == {"f"}
    ensures forall d :: d in WIDE_FIRST ==> d.Keys == {"f"}
  {
  }

  // So the two orders infer different frequencies.
  lemma FrequenciesDependOnOrder(maxDepth: nat, freq: Freq)
    requires maxDepth > 0 && freq(1, 2) != freq(1, 3)
    ensures Inferred(NARROW_FIRST, maxDepth, freq) != Inferred(WIDE_FIRST, maxDepth, freq)
  {
    NestedCountersDependOnOrder();
    OnlyF();
    var i := IndexOfY();
    FrequencyInSchema(NARROW_FIRST, 2, i, maxDepth, freq);
    FrequencyInSchema(WIDE_FIRST, 3, i, maxDepth, freq);
  }

  // ---- where merging does not associate ----

  const CLASHING := [map["v" := B.Int32(1)], map["v" := B.String("a")], map["v" := B.Array([])]]
  const ARRAY_FIRST := [map["v" := B.Array([])], map["v" := B.Int32(1)], map["v" := B.String("a")]]

  lemma ClashingRun()
    ensures FieldRun(CLASHING, "v").shape == Json
  {
    assert CLASHING[..2][..1] == CLASHING[..1] && CLASHING[..1][..0] == [];
    assert FieldRun(CLASHING[..1], "v").shape == Int32;
    assert FieldRun(CLASHING[..2], "v").shape == Json;
  }

  lemma ArrayFirstRun()
    ensures FieldRun(ARRAY_FIRST, "v").shape == Array(Json)
  {
    ArrayThenInt();
    assert FieldRun(ARRAY_FIRST[..2], "v").shape == Array(Int32);
  }

  lemma ArrayThenInt()
    ensures FieldRun(ARRAY_FIRST[..2], "v").shape == Array(Int32)
  {
    assert ARRAY_FIRST[..2][..1] == ARRAY_FIRST[..1] && ARRAY_FIRST[..1][..0] == [];
    assert ShapeOf(B.Array([])) == Array(Unknown);
    assert FieldRun(ARRAY_FIRST[..1], "v").shape == Array(Unknown);
  }

  lemma OnlyV()
    ensures forall d :: d in CLASHING ==> d.Keys == {"v"}
    ensures forall d :: d in ARRAY_FIRST ==> d.Keys == {"v"}
  {
  }

  lemma SameDocumentsOtherOrder()
    ensures multiset(CLASHING) == multiset(ARRAY_FIRST)
  {
  }

  // This sample is not settled, and its type depends on the order: text of JSON, or a
  // list of it.
  lemma TypeDependsOnOrder(maxDepth: nat, freq: Freq)
    requires maxDepth > 0
    ensures multiset(CLASHING) == multiset(ARRAY_FIRST)
    ensures |Inferred(CLASHING, maxDepth, freq)| == 1 && Inferred(CLASHING, maxDepth, freq)[0].ty.Utf8Type?
    ensures |Inferred(ARRAY_FIRST, maxDepth, freq)| == 1 && Inferred(ARRAY_FIRST, maxDepth, freq)[0].ty.ListType?
  {
    SameDocumentsOtherOrder();
    OnlyV();
    ClashingRun();
    ArrayFirstRun();
    ColumnOf(CLASHING, "v", maxDepth, freq);
    ColumnOf(ARRAY_FIRST, "v", maxDepth, freq);
    ArrayLowers(Json, "v", 0, maxDepth, freq);
  }
}
