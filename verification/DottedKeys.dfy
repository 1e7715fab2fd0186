// Keys that hold a dot, which a dotted path cannot name.
module DottedKeys {
  import opened Wrappers
  import opened Arrow
  import opened ArrowSchema
  import opened Sampling
  import opened SamplerLaws
  import opened SampleConforms
  import opened Convert
  import opened Sql
  import opened MongoFilter
  import opened Pushdown
  import opened PushdownLaws
  import opened PushdownFindings
  import B = BsonModel

  lemma {:induction false} PartsAreDotFree(s: string)
    ensures forall p :: p in Split(s) ==> DotFree(p)
  {
    if s != "" {
      var rest := Split(s[1..]);
      PartsAreDotFree(s[1..]);
      assert rest[0] in rest && forall p :: p in rest[1..] ==> p in rest;
    }
  }

  lemma OtherHead(k: string)
    requires !DotFree(k)
    ensures Split(k)[0] != k
  {
    PartsAreDotFree(k);
    assert Split(k)[0] in Split(k);
  }

  // A column reads the key it was inferred from if and only if that has no dot.
  lemma ColumnReadsItsKeyIff(k: string)
    ensures (forall d: B.Doc :: LookupPath(d, k) == B.Get(d, k)) <==> DotFree(k)
  {
    if DotFree(k) {
      SplitDotFree(k);
    } else {
      OtherHead(k);
      var d: B.Doc := map[k := B.Int32(0)];
      assert LookupPath(d, k) == None;
    }
  }

  lemma NeverRead(d: B.Doc, k: string, v: B.Bson)
    requires !DotFree(k)
    ensures LookupPath(d[k := v], k) == LookupPath(d, k)
  {
    OtherHead(k);
    assert B.Get(d[k := v], Split(k)[0]) == B.Get(d, Split(k)[0]);
  }

  // A sampled key with a dot gets a column, but no document's value under that
  // key ever reaches it.
  lemma DottedKeyIsNeverRead(docs: seq<B.Doc>, i: nat, k: string, v: B.Bson, maxDepth: nat, freq: Freq)
    returns (f: Field)
    requires i < |docs| && k in docs[i] && !DotFree(k)
    ensures f in Inferred(docs, maxDepth, freq) && f.name == k
    ensures forall d: B.Doc :: LookupPath(d[k := v], PathOf(f)) == LookupPath(d, PathOf(f))
  {
    InferenceIsSound(docs, i, k);
    ColumnOfKey(docs, k, maxDepth, freq);
    f := BuildField(k, k, ObserveAll(docs)[k], |docs|, 0, maxDepth, freq);
    forall d: B.Doc ensures LookupPath(d[k := v], k) == LookupPath(d, k) {
      NeverRead(d, k, v);
    }
    BuiltFieldReads(k, k, ObserveAll(docs)[k], |docs|, 0, maxDepth, freq);
  }

  // ---- below the root ----

  // What decoding reads of a struct's child, by its own name.
  function ChildValue(d: B.Doc, path: string, k: string): Option<B.Bson> {
    match LookupPath(d, path)
    case Some(v) => if v.Document? then B.Get(v.fields, k) else None
    case None => None
  }

  lemma DottedPathMisses(path: string, k: string, v: B.Bson)
    requires !DotFree(k)
    ensures var d := Holding(Split(path), B.Document(map[k := v]));
      ChildValue(d, path, k) == Some(v) && LookupPath(d, path + "." + k) == None
  {
    var inner: B.Doc := map[k := v];
    var d := Holding(Split(path), B.Document(inner));
    HoldingHolds(Split(path), B.Document(inner));
    SplitJoined(path, k);
    WalkOn(d, Split(path), Split(k));
    OtherHead(k);
  }

  // A filter on the child sends its dotted path. That leads every document to what
  // decoding reads if and only if the key has no dot.
  lemma ChildReadsItsKeyIff(path: string, k: string)
    ensures (forall d: B.Doc :: LookupPath(d, path + "." + k) == ChildValue(d, path, k)) <==> DotFree(k)
  {
    if DotFree(k) {
      forall d: B.Doc ensures LookupPath(d, path + "." + k) == ChildValue(d, path, k) {
        ChildLookup(d, path, k);
      }
    } else {
      DottedPathMisses(path, k, B.Int32(0));
      var d := Holding(Split(path), B.Document(map[k := B.Int32(0)]));
      assert LookupPath(d, path + "." + k) != ChildValue(d, path, k);
    }
  }

  // An unmixed struct column at the root with an unmixed integer child.
  ghost predicate IntChild(schema: Schema, f: Field, name: string, c: Field, k: string) {
    && HasColumn(schema, f, name) && f.ty.StructType? && !IsMixed(f)
    && FindField(f.ty.children, k) == Some(c) && c.name == k && PathOf(c) == name + "." + k
    && c.ty.Int32Type? && TagOf(c).TagInt32? && !IsMixed(c)
  }

  function ChildEquals(name: string, k: string, i: B.i32): Expr {
    Binary(GetField(Column(name), k), OpCmp(Eq), Literal(SInt(i)))
  }

  lemma ChildTranslates(schema: Schema, f: Field, name: string, c: Field, k: string, i: B.i32)
    requires IntChild(schema, f, name, c, k)
    ensures Translate(ChildEquals(name, k, i), schema)
         == Some(Translated(CompareFilter(name + "." + k, Eq, B.Int32(i)), true))
  {
    assert |name + "." + k| > |k|;
    assert ResolveColumn(Column(name), schema) == Some(ColumnRefOf(f));
    assert ResolveColumn(GetField(Column(name), k), schema) == Some(ColumnRefOf(c));
    assert LiteralOf(Literal(SInt(i)), ColumnRefOf(c)) == Some(B.Int32(i));
  }

  // Where the key has a dot, the exact filter of an equality on the child loses the
  // document that holds just that number there.
  lemma DottedChildLosesRow(schema: Schema, f: Field, name: string, c: Field, k: string, i: B.i32, r: Rendering)
    requires IntChild(schema, f, name, c, k) && !DotFree(k)
    ensures ClaimsExact(ChildEquals(name, k, i), schema)
    ensures LosesRow(ChildEquals(name, k, i), schema, map[name := B.Document(map[k := B.Int32(i)])], r)
  {
    var inner: B.Doc := map[k := B.Int32(i)];
    var d: B.Doc := map[name := B.Document(inner)];
    ChildTranslates(schema, f, name, c, k, i);
    SplitDotFree(name);
    assert Holding(Split(name), B.Document(inner)) == d;
    DottedPathMisses(name, k, B.Int32(i));
    CompareFilterMatches(name + "." + k, Eq, B.Int32(i), d);
    ChildDecodes(schema, f, name, c, k, inner, i, r);
    ChildEvaluates(schema, name, k, i, DecodeRow(schema, d, r));
  }

  lemma ChildDecodes(schema: Schema, f: Field, name: string, c: Field, k: string, inner: B.Doc, i: B.i32, r: Rendering)
    requires IntChild(schema, f, name, c, k) && B.Get(inner, k) == Some(B.Int32(i))
    ensures FieldOf(Eval(Column(name), schema, DecodeRow(schema, map[name := B.Document(inner)], r)), k) == VInt(i)
  {
    ColumnReads(schema, f, name, map[name := B.Document(inner)], r);
    FirstNamedDecodes(f.ty.children, inner, r, k);
  }

  lemma ChildEvaluates(schema: Schema, name: string, k: string, i: B.i32, row: Row)
    requires FieldOf(Eval(Column(name), schema, row), k) == VInt(i)
    ensures IsTrueOn(ChildEquals(name, k, i), schema, row)
  {
    assert Eval(GetField(Column(name), k), schema, row) == VInt(i);
    assert Eval(Literal(SInt(i)), schema, row) == VInt(i);
  }
}
