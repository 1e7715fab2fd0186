// Every way of losing or adding rows occurs under a schema inferred from the very
// documents it happens to.
module SampleFindings {
  import opened Wrappers
  import opened Arrow
  import opened Convert
  import opened Sql
  import opened MongoFilter
  import opened Pushdown
  import opened PushdownFindings
  import opened Scan
  import opened Sampling
  import opened SamplerLaws
  import ScanFindings
  import ColumnAtoms
  import ColumnFindings
  import Conversion
  import Execute
  import PushdownLaws
  import NullTests
  import DecimalText
  import S = Shapes
  import A = ArrowSchema
  import C = SampleConforms
  import B = BsonModel

  // ---- one column of an inferred schema ----

  lemma SampledColumn(docs: seq<B.Doc>, k: string, maxDepth: nat, freq: A.Freq) returns (f: Field)
    requires DotFree(k) && exists d :: d in docs && k in d
    ensures var (s, t) := (FieldRun(docs, k), A.ArrowType(FieldRun(docs, k).shape, k, 0, maxDepth, freq));
      HasColumn(A.Inferred(docs, maxDepth, freq), f, k) && f.ty == t.0 && TagOf(f) == t.1 && (IsMixed(f) <==> s.mixed)
  {
    var (root, schema) := (ObserveAll(docs), A.Inferred(docs, maxDepth, freq));
    RootIsFieldRun(docs, k);
    f := A.BuildField(k, k, root[k], |docs|, 0, maxDepth, freq);
    C.BuiltFieldReads(k, k, root[k], |docs|, 0, maxDepth, freq);
    var i :| 0 <= i < |A.ColumnNames(root)| && A.ColumnNames(root)[i] == k;
    assert schema[i] == f && f in schema;
    var found := FindField(schema, k).value;
    C.InferredField(docs, maxDepth, freq, found);
  }

  lemma LeafColumn(docs: seq<B.Doc>, d: B.Doc, k: string, s: S.FieldShape, maxDepth: nat, freq: A.Freq)
    returns (f: Field)
    requires DotFree(k) && d in docs && k in d && FieldRun(docs, k) == s && !s.shape.Document? && !s.shape.Array?
    ensures HasColumn(A.Inferred(docs, maxDepth, freq), f, k)
    ensures f.ty == A.LeafType(s.shape).0 && TagOf(f) == A.LeafType(s.shape).1 && (IsMixed(f) <==> s.mixed)
  {
    f := SampledColumn(docs, k, maxDepth, freq);
  }

  lemma OneRun(x: B.Doc, k: string)
    ensures FieldRun([x], k) == Step(S.EmptyField, x, k)
  {
    assert [x][..0] == [];
  }

  lemma TwoRun(x: B.Doc, y: B.Doc, k: string)
    ensures FieldRun([x, y], k) == Step(Step(S.EmptyField, x, k), y, k)
  {
    assert [x, y][..1] == [x];
    OneRun(x, k);
  }

  lemma FirstSeen(d: B.Doc, k: string)
    requires k in d && !IsNullValue(d[k])
    ensures Step(S.EmptyField, d, k) == S.FieldShape(ShapeOf(d[k]), 1, 0, false)
  {
  }

  lemma ThenSeen(f: S.FieldShape, d: B.Doc, k: string)
    requires k in d && !IsNullValue(d[k])
    ensures var j := S.Unify(f.shape, ShapeOf(d[k]));
      Step(f, d, k) == S.FieldShape(j.shape, f.present + 1, f.nulls, f.mixed || j.conflict)
  {
  }

  // ---- negation ----

  const ONLY_A: B.Doc := map["a" := B.Int32(5)]
  const BOTH: B.Doc := map["a" := B.Int32(1), "b" := B.Int32(2)]

  lemma IntRuns()
    ensures "a" in BOTH && FieldRun([ONLY_A, BOTH], "a") == S.FieldShape(S.Int32, 2, 0, false)
    ensures "b" in BOTH && FieldRun([ONLY_A, BOTH], "b") == S.FieldShape(S.Int32, 1, 0, false)
  {
    assert "a" in ONLY_A && "a" in BOTH && "b" in BOTH && "b" !in ONLY_A;
    TwoRun(ONLY_A, BOTH, "a");
    TwoRun(ONLY_A, BOTH, "b");
    FirstSeen(ONLY_A, "a");
    ThenSeen(S.FieldShape(S.Int32, 1, 0, false), BOTH, "a");
    FirstSeen(BOTH, "b");
  }

  lemma IntColumn(docs: seq<B.Doc>, d: B.Doc, k: string, maxDepth: nat, freq: A.Freq) returns (f: Field)
    requires DotFree(k) && d in docs && k in d && FieldRun(docs, k).shape == S.Int32 && !FieldRun(docs, k).mixed
    ensures HasColumn(A.Inferred(docs, maxDepth, freq), f, k)
    ensures f.ty.Int32Type? && TagOf(f).TagInt32? && !IsMixed(f)
  {
    f := LeafColumn(docs, d, k, FieldRun(docs, k), maxDepth, freq);
  }

  lemma TwoIntsSampled(maxDepth: nat, freq: A.Freq) returns (f: Field, g: Field)
    ensures TwoInts(A.Inferred([ONLY_A, BOTH], maxDepth, freq), f, g)
  {
    IntRuns();
    f := IntColumn([ONLY_A, BOTH], BOTH, "a", maxDepth, freq);
    g := IntColumn([ONLY_A, BOTH], BOTH, "b", maxDepth, freq);
  }

  // NOT (a = 1 AND b = 2) loses the sampled document without b; with a half that
  // was dropped, NOT (a = 1 AND a = b) loses the other one.
  lemma NegationLosesSampledRows(maxDepth: nat, freq: A.Freq, r: Rendering)
    ensures var schema := A.Inferred([ONLY_A, BOTH], maxDepth, freq);
      && LosesRow(Not(Binary(CompareExpr("a", Eq, SInt(1)), OpAnd, CompareExpr("b", Eq, SInt(2)))), schema, ONLY_A, r)
      && LosesRow(Not(Binary(CompareExpr("a", Eq, SInt(1)), OpAnd, Binary(Column("a"), OpCmp(Eq), Column("b")))),
                  schema, BOTH, r)
  {
    var schema := A.Inferred([ONLY_A, BOTH], maxDepth, freq);
    var f, g := TwoIntsSampled(maxDepth, freq);
    NotOverAndLosesRow(schema, f, g, r);
    NotOverDroppedHalfLosesRow(schema, f, g, r);
  }

  // ---- columns of several kinds ----

  function NumberIn(i: B.i32): B.Doc { map["v" := B.Int32(i)] }

  function TextIn(s: string): B.Doc { map["v" := B.String(s)] }

  lemma NumberAndTextRun(i: B.i32, s: string)
    ensures FieldRun([NumberIn(i), TextIn(s)], "v") == S.FieldShape(S.Json, 2, 0, true)
  {
    TwoRun(NumberIn(i), TextIn(s), "v");
    FirstSeen(NumberIn(i), "v");
    ThenSeen(S.FieldShape(S.Int32, 1, 0, false), TextIn(s), "v");
    assert S.Unify(S.Int32, S.Utf8) == S.Joined(S.Json, true);
  }

  lemma JsonColumn(docs: seq<B.Doc>, d: B.Doc, k: string, maxDepth: nat, freq: A.Freq) returns (f: Field)
    requires DotFree(k) && d in docs && k in d && FieldRun(docs, k).shape == S.Json && FieldRun(docs, k).mixed
    ensures HasColumn(A.Inferred(docs, maxDepth, freq), f, k)
    ensures f.ty.Utf8Type? && TagOf(f).TagJson? && IsMixed(f)
  {
    f := LeafColumn(docs, d, k, FieldRun(docs, k), maxDepth, freq);
  }

  lemma NumberAndText(i: B.i32, s: string, maxDepth: nat, freq: A.Freq) returns (f: Field)
    ensures HasColumn(A.Inferred([NumberIn(i), TextIn(s)], maxDepth, freq), f, "v")
    ensures f.ty.Utf8Type? && TagOf(f).TagJson? && IsMixed(f)
  {
    NumberAndTextRun(i, s);
    f := JsonColumn([NumberIn(i), TextIn(s)], NumberIn(i), "v", maxDepth, freq);
  }

  // A number and a text merge to a mixed JSON column, whose filter loses the number.
  lemma MixedColumnLosesSampledRow(s: string, maxDepth: nat, freq: A.Freq, r: Rendering)
    ensures LosesRow(CompareExpr("v", Eq, SUtf8("7")), A.Inferred([NumberIn(7), TextIn(s)], maxDepth, freq),
                     NumberIn(7), r)
  {
    var f := NumberAndText(7, s, maxDepth, freq);
    MixedColumnLosesRow(A.Inferred([NumberIn(7), TextIn(s)], maxDepth, freq), f, r);
  }

  function IdIn(oid: B.Oid): B.Doc { map["id" := B.ObjectId(oid)] }

  lemma IdsAlone(oid: B.Oid, maxDepth: nat, freq: A.Freq) returns (f: Field)
    ensures HasColumn(A.Inferred([IdIn(oid)], maxDepth, freq), f, "id")
    ensures f.ty.Utf8Type? && TagOf(f).TagObjectId? && !IsMixed(f)
  {
    OneRun(IdIn(oid), "id");
    FirstSeen(IdIn(oid), "id");
    f := LeafColumn([IdIn(oid)], IdIn(oid), "id", S.FieldShape(S.ObjectId, 1, 0, false), maxDepth, freq);
  }

  lemma LikeLosesSampledId(oid: B.Oid, maxDepth: nat, freq: A.Freq, r: Rendering)
    ensures LosesRow(Like(Column("id"), Literal(SUtf8("%")), None, false), A.Inferred([IdIn(oid)], maxDepth, freq),
                     IdIn(oid), r)
  {
    var f := IdsAlone(oid, maxDepth, freq);
    LikeOnObjectIdLosesRow(A.Inferred([IdIn(oid)], maxDepth, freq), f, oid, r);
  }

  function DateAt(ms: B.i64): B.Doc { map["t" := B.DateTime(ms)] }

  function StampAt(time: B.u32, increment: B.u32): B.Doc { map["t" := B.Timestamp(time, increment)] }

  lemma DatesRun(ms: B.i64, time: B.u32, increment: B.u32)
    ensures FieldRun([DateAt(ms), StampAt(time, increment)], "t") == S.FieldShape(S.DateTime, 2, 0, false)
  {
    var (x, y) := (DateAt(ms), StampAt(time, increment));
    TwoRun(x, y, "t");
    FirstSeen(x, "t");
    ThenSeen(S.FieldShape(S.DateTime, 1, 0, false), y, "t");
    DatesAndTimestampsMerge();
  }

  lemma DatesAndStamps(ms: B.i64, time: B.u32, increment: B.u32, maxDepth: nat, freq: A.Freq) returns (f: Field)
    ensures HasColumn(A.Inferred([DateAt(ms), StampAt(time, increment)], maxDepth, freq), f, "t")
    ensures f.ty.TimestampMsType? && TagOf(f).TagDateTime? && !IsMixed(f)
  {
    var (x, y) := (DateAt(ms), StampAt(time, increment));
    DatesRun(ms, time, increment);
    f := LeafColumn([x, y], x, "t", S.FieldShape(S.DateTime, 2, 0, false), maxDepth, freq);
  }

  lemma DatesWellFormed(ms: B.i64, time: B.u32, increment: B.u32, maxDepth: nat, freq: A.Freq)
    ensures PushdownLaws.WellFormedSchema(A.Inferred([DateAt(ms), StampAt(time, increment)], maxDepth, freq))
  {
    var docs := [DateAt(ms), StampAt(time, increment)];
    DatesRun(ms, time, increment);
    forall k | k in ObserveAll(docs) ensures DotFree(k) && C.DotFreeKeys(ObserveAll(docs)[k].shape) {
      RootIsFieldRun(docs, k);
      assert k == "t";
    }
    C.InferredIsWellFormed(docs, maxDepth, freq);
  }

  // A date and a BSON timestamp merge to an unmixed date column: comparisons on it
  // claim to be exact, and lose every sampled timestamp that SQL selects.
  lemma DatesLoseSampledTimestamp(ms: B.i64, time: B.u32, increment: B.u32, op: CmpOp, s: Scalar,
                                  maxDepth: nat, freq: A.Freq, r: Rendering)
    requires PushdownLaws.IsInstant(s) && ScalarToBson(s, TagDateTime).Some?
    ensures var schema := A.Inferred([DateAt(ms), StampAt(time, increment)], maxDepth, freq);
      && ClaimsExact(CompareExpr("t", op, s), schema)
      && (LosesRow(CompareExpr("t", op, s), schema, StampAt(time, increment), r) <==>
          !op.Ne? && Compare(op, Instant(time * ColumnFindings.NANOS_PER_SECOND), Instant(ScalarValue(s).nanos)))
      && (ColumnAtoms.AddsRow(CompareExpr("t", op, s), schema, StampAt(time, increment), r) <==>
          op.Ne? && time * ColumnFindings.NANOS_PER_SECOND == ScalarValue(s).nanos)
  {
    var y := StampAt(time, increment);
    var schema := A.Inferred([DateAt(ms), y], maxDepth, freq);
    var f := DatesAndStamps(ms, time, increment, maxDepth, freq);
    DatesWellFormed(ms, time, increment, maxDepth, freq);
    ComparisonTranslates(schema, f, "t", op, s, ScalarToBson(s, TagDateTime).value);
    ColumnFindings.TimestampComparisonIff(schema, f, "t", op, s, time, increment, y, r);
  }

  // ---- decimals no column holds ----

  function DecimalIn(t: string): B.Doc { map["d" := B.Decimal128(t)] }

  lemma DecimalColumn(t: string, maxDepth: nat, freq: A.Freq) returns (f: Field)
    ensures HasColumn(A.Inferred([DecimalIn(t)], maxDepth, freq), f, "d")
    ensures f.ty == DecimalType(A.DECIMAL_PRECISION, A.DECIMAL_SCALE) && !IsMixed(f)
    ensures PushdownLaws.WellFormedSchema(A.Inferred([DecimalIn(t)], maxDepth, freq))
  {
    OneRun(DecimalIn(t), "d");
    FirstSeen(DecimalIn(t), "d");
    f := LeafColumn([DecimalIn(t)], DecimalIn(t), "d", S.FieldShape(S.Decimal, 1, 0, false), maxDepth, freq);
    forall k | k in ObserveAll([DecimalIn(t)])
      ensures DotFree(k) && C.DotFreeKeys(ObserveAll([DecimalIn(t)])[k].shape)
    {
      RootIsFieldRun([DecimalIn(t)], k);
    }
    C.InferredIsWellFormed([DecimalIn(t)], maxDepth, freq);
  }

  // The exact filter of IS NULL loses the sampled decimal if and only if its text
  // does not parse; that of a NaN does not.
  lemma NullTestLosesSampledDecimal(t: string, maxDepth: nat, freq: A.Freq, r: Rendering)
    ensures var schema := A.Inferred([DecimalIn(t)], maxDepth, freq);
      && ClaimsExact(IsNull(Column("d")), schema)
      && (LosesRow(IsNull(Column("d")), schema, DecimalIn(t), r)
          <==> DecimalText.ParseDecimal(t, A.DECIMAL_SCALE).None?)
      && (t == "NaN" ==> LosesRow(IsNull(Column("d")), schema, DecimalIn(t), r))
  {
    var schema := A.Inferred([DecimalIn(t)], maxDepth, freq);
    var f := DecimalColumn(t, maxDepth, freq);
    NullTests.DecimalNullTest(schema, f, "d", t, r);
    NotANumber();
  }

  lemma NotANumber()
    ensures DecimalText.ParseDecimal("NaN", A.DECIMAL_SCALE).None?
  {
  }

  // ---- filters switched off ----

  // Without filter pushdown a scan of the one sampled document returns it for a
  // predicate it fails.
  lemma UnpushedScanAddsSampledRow(config: PushdownConfig, maxDepth: nat, freq: A.Freq, r: Rendering)
    requires !config.filters
    ensures var schema := A.Inferred([ONLY_A], maxDepth, freq);
      !ScanFindings.Faithful(config, schema, None, schema, [CompareExpr("a", Eq, SInt(1))], [ONLY_A], r)
  {
    var schema := A.Inferred([ONLY_A], maxDepth, freq);
    OneRun(ONLY_A, "a");
    FirstSeen(ONLY_A, "a");
    var f := IntColumn([ONLY_A], ONLY_A, "a", maxDepth, freq);
    forall k | k in ObserveAll([ONLY_A]) ensures DotFree(k) && C.DotFreeKeys(ObserveAll([ONLY_A])[k].shape) {
      RootIsFieldRun([ONLY_A], k);
    }
    C.InferredIsWellFormed([ONLY_A], maxDepth, freq);
    ScanFindings.DroppedFilterKeepsRow(config, schema, f, r);
  }

  // ---- ids of another kind ----

  const NUMBERED: B.Doc := map["_id" := B.Int32(1)]

  // Where integers were sampled as ids, a single document with a text as its id
  // makes its whole batch fail.
  lemma UnsampledIdFailsBatch(docs: seq<B.Doc>, d: B.Doc, maxDepth: nat, freq: A.Freq, r: Rendering)
    requires d in docs && "_id" in d && d["_id"].String?
    ensures !Execute.Converts(A.Inferred([NUMBERED], maxDepth, freq), docs, r)
  {
    var schema := A.Inferred([NUMBERED], maxDepth, freq);
    OneRun(NUMBERED, "_id");
    FirstSeen(NUMBERED, "_id");
    var f := IntColumn([NUMBERED], NUMBERED, "_id", maxDepth, freq);
    Conversion.InferredConvertsIff([NUMBERED], maxDepth, freq, schema, docs, r);
    var i :| 0 <= i < |docs| && docs[i] == d;
    TextIdIsNull(f, d, r);
    assert f in schema && !Conversion.IdDecodes(f, docs, r);
  }

  lemma TextIdIsNull(f: Field, d: B.Doc, r: Rendering)
    requires f.ty.Int32Type? && PathOf(f) == "_id" && "_id" in d && d["_id"].String?
    ensures Decode(f.ty, LookupPath(d, PathOf(f)), r).VNull?
  {
    assert DotFree("_id");
    SplitDotFree("_id");
  }
}
