// Where the translation does not mean what it claims: one input for each way,
// and the condition under which it does.
module PushdownFindings {
  import opened Wrappers
  import opened Arrow
  import opened Convert
  import opened Sql
  import opened MongoFilter
  import opened LikePattern
  import opened Pushdown
  import opened PushdownLaws
  import Shapes
  import B = BsonModel
  import Text

  // ---- which literals are faithful ----

  // Every operator agrees with SQL on every conforming value.
  ghost predicate AgreesEverywhere(ty: DataType, tag: BsonTag, s: Scalar, b: B.Bson, r: Rendering) {
    forall op: CmpOp, x: B.Bson :: Conforms(ty, tag, Some(x)) ==>
      (CondHolds(op, b, Some(x)) <==> CompareTo(ty, op, Some(x), s, r) == VBool(true))
  }

  // A comparison filter agrees with SQL on a column of one of these types if and
  // only if the literal is faithful: an ObjectId in lower case, an instant of
  // whole milliseconds, and not a column of BSON timestamps or of JSON text.
  lemma LiteralAgreesIffFaithful(ty: DataType, tag: BsonTag, s: Scalar, b: B.Bson, r: Rendering)
    requires tag in {TagBool, TagInt32, TagInt64, TagDouble, TagString, TagObjectId, TagDateTime, TagTimestamp, TagJson}
    requires TagFits(ty, tag) && LiteralFits(tag, s) && ScalarToBson(s, tag) == Some(b)
    ensures AgreesEverywhere(ty, tag, s, b, r) <==> LiteralFaithful(tag, s)
  {
    if LiteralFaithful(tag, s) {
      forall op: CmpOp, x: B.Bson | Conforms(ty, tag, Some(x))
        ensures CondHolds(op, b, Some(x)) <==> CompareTo(ty, op, Some(x), s, r) == VBool(true)
      {
        CompareAtom(ColumnRef("", tag, ty, false), op, s, b, Some(x), r);
      }
    } else if tag.TagTimestamp? {
      TimestampDisagrees(ty, s, b, r);
    } else if tag.TagJson? {
      JsonDisagrees(ty, s, b, r);
    } else {
      // The literal's own BSON value is equal to it in Mongo, not in SQL.
      assert Conforms(ty, tag, Some(b));
      assert CondHolds(Eq, b, Some(b));
      assert CompareTo(ty, Eq, Some(b), s, r) != VBool(true);
    }
  }

  // Mongo puts BSON timestamps and dates in different brackets.
  lemma TimestampDisagrees(ty: DataType, s: Scalar, b: B.Bson, r: Rendering)
    requires TagFits(ty, TagTimestamp) && LiteralFits(TagTimestamp, s) && ScalarToBson(s, TagTimestamp) == Some(b)
    ensures !AgreesEverywhere(ty, TagTimestamp, s, b, r)
  {
    var x := B.Timestamp(0, 0);
    assert Conforms(ty, TagTimestamp, Some(x));
    var op := if ScalarValue(s).nanos > 0 then Lt else Gte;
    EpochCompares(ty, op, s, r);
    StampIsNoDate(op, b);
    assert CompareTo(ty, op, Some(x), s, r) == VBool(true) && !CondHolds(op, b, Some(x));
  }

  lemma EpochCompares(ty: DataType, op: CmpOp, s: Scalar, r: Rendering)
    requires ty.TimestampMsType? && IsInstant(s)
    ensures CompareTo(ty, op, Some(B.Timestamp(0, 0)), s, r)
         == VBool(Compare(op, Instant(0), Instant(ScalarValue(s).nanos)))
  {
    assert Decode(ty, Some(B.Timestamp(0, 0)), r) == VTime(0);
  }

  lemma StampIsNoDate(op: CmpOp, b: B.Bson)
    requires b.DateTime?
    ensures CondHolds(op, b, Some(B.Timestamp(0, 0))) <==> op.Ne?
  {
  }

  // A column read as JSON text compares renderings; Mongo compares the values.
  lemma JsonDisagrees(ty: DataType, s: Scalar, b: B.Bson, r: Rendering)
    requires TagFits(ty, TagJson) && LiteralFits(TagJson, s) && ScalarToBson(s, TagJson) == Some(b)
    ensures !AgreesEverywhere(ty, TagJson, s, b, r)
  {
    var x := B.Boolean(true);
    assert Conforms(ty, TagJson, Some(x));
    assert Decode(ty, Some(x), r) == VText("true");
    B.TextLessTotal("true", s.s);
    if B.TextLess("true", s.s) {
      assert CompareTo(ty, Lt, Some(x), s, r) == VBool(true) && !CondHolds(Lt, b, Some(x));
    } else {
      assert CompareTo(ty, Gte, Some(x), s, r) == VBool(true) && !CondHolds(Gte, b, Some(x));
    }
  }

  // ---- one column of a document ----

  // The schema holds the field, under its own name, and it is the first of that name.
  ghost predicate HasColumn(schema: Schema, f: Field, name: string) {
    FindField(schema, name) == Some(f) && PathOf(f) == name && DotFree(name)
  }

  lemma ColumnReads(schema: Schema, f: Field, name: string, d: B.Doc, r: Rendering)
    requires HasColumn(schema, f, name)
    ensures ResolveColumn(Column(name), schema) == Some(ColumnRef(name, TagOf(f), f.ty, IsMixed(f)))
    ensures Eval(Column(name), schema, DecodeRow(schema, d, r)) == Decode(f.ty, B.Get(d, name), r)
    ensures LookupPath(d, name) == B.Get(d, name)
  {
    FieldByName(schema, d, r, name);
    SplitDotFree(name);
  }

  function CompareExpr(name: string, op: CmpOp, s: Scalar): Expr {
    Binary(Column(name), OpCmp(op), Literal(s))
  }

  lemma ComparisonTranslates(schema: Schema, f: Field, name: string, op: CmpOp, s: Scalar, b: B.Bson)
    requires HasColumn(schema, f, name) && ScalarToBson(s, TagOf(f)) == Some(b)
    ensures Translate(CompareExpr(name, op, s), schema) == Some(Translated(CompareFilter(name, op, b), !IsMixed(f)))
  {
  }

  lemma ComparisonGuards(schema: Schema, f: Field, name: string, op: CmpOp, s: Scalar)
    requires HasColumn(schema, f, name)
    ensures GuardColumns(CompareExpr(name, op, s), schema) == Some([ColumnRefOf(f)])
  {
    var c := ColumnRefOf(f);
    assert [c] + [] == [c];
    assert GuardColumns(Column(name), schema) == Some([c]);
  }

  lemma ComparisonEvaluates(schema: Schema, f: Field, name: string, op: CmpOp, s: Scalar, d: B.Doc, r: Rendering)
    requires HasColumn(schema, f, name)
    ensures Eval(CompareExpr(name, op, s), schema, DecodeRow(schema, d, r)) == CompareTo(f.ty, op, B.Get(d, name), s, r)
  {
    ColumnReads(schema, f, name, d, r);
    ComparesColumn(name, op, s, schema, DecodeRow(schema, d, r));
  }

  lemma ComparesColumn(name: string, op: CmpOp, s: Scalar, schema: Schema, row: Row)
    ensures Eval(CompareExpr(name, op, s), schema, row)
         == CompareValues(op, Eval(Column(name), schema, row), ScalarValue(s))
  {
  }

  // A row SQL selects and the filter sent to the server rejects.
  ghost predicate LosesRow(e: Expr, schema: Schema, d: B.Doc, r: Rendering) {
    && Translate(e, schema).Some?
    && IsTrueOn(e, schema, DecodeRow(schema, d, r))
    && !Matches(Translate(e, schema).value.filter, d)
  }

  lemma ComparisonLosesRow(schema: Schema, f: Field, name: string, op: CmpOp, s: Scalar, b: B.Bson, d: B.Doc,
                           r: Rendering)
    requires HasColumn(schema, f, name) && ScalarToBson(s, TagOf(f)) == Some(b)
    requires CompareTo(f.ty, op, B.Get(d, name), s, r) == VBool(true) && !CondHolds(op, b, B.Get(d, name))
    ensures LosesRow(CompareExpr(name, op, s), schema, d, r)
    ensures ClaimsExact(CompareExpr(name, op, s), schema) <==> !IsMixed(f)
  {
    ComparisonTranslates(schema, f, name, op, s, b);
    ComparisonEvaluates(schema, f, name, op, s, d, r);
    ColumnReads(schema, f, name, d, r);
    CompareFilterMatches(name, op, b, d);
  }

  ghost predicate ClaimsExact(e: Expr, schema: Schema) {
    Translate(e, schema).Some? && Translate(e, schema).value.exact
  }

  // ---- negation ----

  ghost predicate TwoInts(schema: Schema, f: Field, g: Field) {
    && HasColumn(schema, f, "a") && HasColumn(schema, g, "b")
    && f.ty == g.ty == Int32Type && TagOf(f) == TagOf(g) == TagInt32 && !IsMixed(f) && !IsMixed(g)
  }

  lemma NotReads(i: Expr, schema: Schema, d: B.Doc, r: Rendering)
    requires Translate(i, schema).Some? && GuardColumns(i, schema).Some?
    ensures var t := Translate(Not(i), schema);
      && t.Some? && t.value.exact == Translate(i, schema).value.exact
      && (Matches(t.value.filter, d) <==>
        !Matches(Translate(i, schema).value.filter, d) && GuardsHold(GuardColumns(i, schema).value, d))
    ensures IsTrueOn(Not(i), schema, DecodeRow(schema, d, r))
      <==> Eval(i, schema, DecodeRow(schema, d, r)) == VBool(false)
  {
    NotMatches(Translate(i, schema).value.filter, GuardColumns(i, schema).value, d);
  }

  lemma AndReads(l: Expr, rt: Expr, schema: Schema, row: Row)
    requires GuardColumns(l, schema).Some? && GuardColumns(rt, schema).Some? && Translate(l, schema).Some?
    ensures var i := Binary(l, OpAnd, rt);
      && GuardColumns(i, schema) == Some(GuardColumns(l, schema).value + GuardColumns(rt, schema).value)
      && Translate(i, schema).Some?
      && (Translate(rt, schema).None? ==>
        Translate(i, schema).value == Translated(Translate(l, schema).value.filter, false))
      && (Translate(rt, schema).Some? ==>
        Translate(i, schema).value.exact == (Translate(l, schema).value.exact && Translate(rt, schema).value.exact))
      && (Eval(l, schema, row) == VBool(false) || Eval(rt, schema, row) == VBool(false) ==>
        Eval(i, schema, row) == VBool(false))
  {
  }

  // NOT (a = 1 AND b = 2) on {a: 5}: SQL selects the row; the filter, reported
  // exact, rejects it because b is missing.
  lemma NotOverAndLosesRow(schema: Schema, f: Field, g: Field, r: Rendering)
    requires TwoInts(schema, f, g)
    ensures var e := Not(Binary(CompareExpr("a", Eq, SInt(1)), OpAnd, CompareExpr("b", Eq, SInt(2))));
      LosesRow(e, schema, map["a" := B.Int32(5)], r) && ClaimsExact(e, schema)
  {
    var d: B.Doc := map["a" := B.Int32(5)];
    var (l, rt) := (CompareExpr("a", Eq, SInt(1)), CompareExpr("b", Eq, SInt(2)));
    ComparisonTranslates(schema, f, "a", Eq, SInt(1), B.Int32(1));
    ComparisonTranslates(schema, g, "b", Eq, SInt(2), B.Int32(2));
    ComparisonGuards(schema, f, "a", Eq, SInt(1));
    ComparisonGuards(schema, g, "b", Eq, SInt(2));
    ComparisonEvaluates(schema, f, "a", Eq, SInt(1), d, r);
    FiveIsNotOne(r);
    MissingGuard(ColumnRefOf(f), ColumnRefOf(g), d);
    NegatedJunction(schema, l, rt, d, r);
  }

  lemma FiveIsNotOne(r: Rendering)
    ensures B.Get(map["a" := B.Int32(5)], "a") == Some(B.Int32(5)) && "b" !in map["a" := B.Int32(5)]
    ensures CompareTo(Int32Type, Eq, Some(B.Int32(5)), SInt(1), r) == VBool(false)
  {
    assert "a"[0] != "b"[0];
  }

  lemma MissingGuard(a: ColumnRef, b: ColumnRef, d: B.Doc)
    requires b.path !in d && DotFree(b.path)
    ensures !GuardsHold([a] + [b], d)
  {
    SplitDotFree(b.path);
    assert b in [a] + [b];
  }

  lemma NegatedJunction(schema: Schema, l: Expr, rt: Expr, d: B.Doc, r: Rendering)
    requires Translate(l, schema).Some? && Translate(rt, schema).Some?
    requires Translate(l, schema).value.exact && Translate(rt, schema).value.exact
    requires GuardColumns(l, schema).Some? && GuardColumns(rt, schema).Some?
    requires !GuardsHold(GuardColumns(l, schema).value + GuardColumns(rt, schema).value, d)
    requires Eval(l, schema, DecodeRow(schema, d, r)) == VBool(false)
    ensures var e := Not(Binary(l, OpAnd, rt)); LosesRow(e, schema, d, r) && ClaimsExact(e, schema)
  {
    AndReads(l, rt, schema, DecodeRow(schema, d, r));
    NotReads(Binary(l, OpAnd, rt), schema, d, r);
  }

  // NOT (a = 1 AND <a predicate Mongo cannot express>): only a = 1 is negated, so
  // the filter, sent although inexact, drops a row SQL selects; rechecking the
  // rows that come back cannot restore it.
  lemma NotOverDroppedHalfLosesRow(schema: Schema, f: Field, g: Field, r: Rendering)
    requires TwoInts(schema, f, g)
    ensures var e := Not(Binary(CompareExpr("a", Eq, SInt(1)), OpAnd, Binary(Column("a"), OpCmp(Eq), Column("b"))));
      LosesRow(e, schema, map["a" := B.Int32(1), "b" := B.Int32(2)], r) && !ClaimsExact(e, schema)
  {
    var d: B.Doc := map["a" := B.Int32(1), "b" := B.Int32(2)];
    var l := CompareExpr("a", Eq, SInt(1));
    ComparisonTranslates(schema, f, "a", Eq, SInt(1), B.Int32(1));
    ComparisonGuards(schema, f, "a", Eq, SInt(1));
    ColumnReads(schema, f, "a", d, r);
    ColumnReads(schema, g, "b", d, r);
    OneAndTwo(r);
    CompareFilterMatches("a", Eq, B.Int32(1), d);
    ColumnToColumn("a", "b", schema, DecodeRow(schema, d, r));
    NegatedHalf(schema, l, Binary(Column("a"), OpCmp(Eq), Column("b")), d, r);
  }

  lemma OneAndTwo(r: Rendering)
    ensures var d: B.Doc := map["a" := B.Int32(1), "b" := B.Int32(2)];
      && B.Get(d, "a") == Some(B.Int32(1)) && B.Get(d, "b") == Some(B.Int32(2))
      && CondHolds(Eq, B.Int32(1), B.Get(d, "a"))
      && CompareValues(Eq, Decode(Int32Type, B.Get(d, "a"), r), Decode(Int32Type, B.Get(d, "b"), r)) == VBool(false)
  {
    assert "a"[0] != "b"[0];
  }

  // Two columns compared have no filter, yet both have guards.
  lemma ColumnToColumn(a: string, b: string, schema: Schema, row: Row)
    requires FindField(schema, a).Some? && FindField(schema, b).Some?
    ensures var e := Binary(Column(a), OpCmp(Eq), Column(b));
      && Translate(e, schema).None? && GuardColumns(e, schema).Some?
      && Eval(e, schema, row) == CompareValues(Eq, Eval(Column(a), schema, row), Eval(Column(b), schema, row))
  {
  }

  lemma NegatedHalf(schema: Schema, l: Expr, rt: Expr, d: B.Doc, r: Rendering)
    requires Translate(l, schema).Some? && Translate(rt, schema).None?
    requires GuardColumns(l, schema).Some? && GuardColumns(rt, schema).Some?
    requires Matches(Translate(l, schema).value.filter, d)
    requires Eval(rt, schema, DecodeRow(schema, d, r)) == VBool(false)
    ensures LosesRow(Not(Binary(l, OpAnd, rt)), schema, d, r) && !ClaimsExact(Not(Binary(l, OpAnd, rt)), schema)
  {
    AndReads(l, rt, schema, DecodeRow(schema, d, r));
    NotReads(Binary(l, OpAnd, rt), schema, d, r);
  }

  // ---- columns whose values are not of the column's type ----

  // A mixed column is pushed down inexactly, yet its filter can reject a row SQL
  // selects: a number read as text equals the text in SQL only.
  lemma MixedColumnLosesRow(schema: Schema, f: Field, r: Rendering)
    requires HasColumn(schema, f, "v") && f.ty.Utf8Type? && TagOf(f).TagJson? && IsMixed(f)
    ensures LosesRow(CompareExpr("v", Eq, SUtf8("7")), schema, map["v" := B.Int32(7)], r)
    ensures !ClaimsExact(CompareExpr("v", Eq, SUtf8("7")), schema)
  {
    var d: B.Doc := map["v" := B.Int32(7)];
    SevenAsText(r);
    ComparisonLosesRow(schema, f, "v", Eq, SUtf8("7"), B.String("7"), d, r);
  }

  lemma SevenAsText(r: Rendering)
    ensures CompareTo(Utf8Type, Eq, Some(B.Int32(7)), SUtf8("7"), r) == VBool(true)
    ensures !CondHolds(Eq, B.String("7"), Some(B.Int32(7)))
  {
    assert Text.IntText(7) == "7";
  }

  // LIKE on an ObjectId column: every value matches '%' in SQL, none in Mongo.
  lemma LikeOnObjectIdLosesRow(schema: Schema, f: Field, oid: B.Oid, r: Rendering)
    requires HasColumn(schema, f, "id") && f.ty.Utf8Type? && TagOf(f).TagObjectId? && !IsMixed(f)
    ensures var e := Like(Column("id"), Literal(SUtf8("%")), None, false);
      LosesRow(e, schema, map["id" := B.ObjectId(oid)], r) && ClaimsExact(e, schema)
  {
    var d: B.Doc := map["id" := B.ObjectId(oid)];
    ColumnReads(schema, f, "id", d, r);
    AnyRunMatches(oid);
    AnyIdTranslates(schema, f);
    OneMatches("id", Regex(LikeRegex("%", None).value), d);
    AnyIdSelects(oid, r);
    LikeEvaluates("id", "%", schema, DecodeRow(schema, d, r));
  }

  lemma LikeEvaluates(name: string, pattern: string, schema: Schema, row: Row)
    ensures Eval(Like(Column(name), Literal(SUtf8(pattern)), None, false), schema, row)
         == Negate(false, LikeValue(Eval(Column(name), schema, row), VText(pattern), None))
  {
  }

  lemma AnyIdTranslates(schema: Schema, f: Field)
    requires HasColumn(schema, f, "id") && f.ty.Utf8Type? && !IsMixed(f) && LikeRegex("%", None).Some?
    ensures Translate(Like(Column("id"), Literal(SUtf8("%")), None, false), schema)
         == Some(Translated(One("id", Regex(LikeRegex("%", None).value)), true))
  {
  }

  lemma AnyIdSelects(oid: B.Oid, r: Rendering)
    requires LikeMatches("%", None, oid)
    ensures Negate(false, LikeValue(Decode(Utf8Type, Some(B.ObjectId(oid)), r), VText("%"), None)) == VBool(true)
    ensures !Holds(Regex(LikeRegex("%", None).value), Some(B.ObjectId(oid)))
  {
  }

  lemma AnyRunMatches(s: string)
    ensures LikeMatches("%", None, s) && !Dangling("%", None) && LikeRegex("%", None).Some?
  {
    assert "%"[1..] == "";
    assert s[|s|..] == "";
    assert LikeMatches("%"[1..], None, s[|s|..]);
    LikeCompiles("%", None, s);
  }

  lemma TimestampIsAfterEpoch(ty: DataType, r: Rendering)
    requires ty.TimestampMsType?
    ensures CompareTo(ty, Gte, Some(B.Timestamp(1, 1)), SMilli(0), r) == VBool(true)
    ensures !CondHolds(Gte, B.DateTime(0), Some(B.Timestamp(1, 1)))
  {
  }

  lemma DatesAndTimestampsMerge()
    ensures Shapes.Unify(Shapes.DateTime, Shapes.BsonTimestamp) == Shapes.Joined(Shapes.DateTime, false)
  {
  }

  // A date and a BSON timestamp merge into an unmixed date column, so its filters
  // claim to be exact; but the timestamp they were inferred from never matches.
  lemma TimestampInDateColumnLosesRow(schema: Schema, f: Field, r: Rendering)
    requires HasColumn(schema, f, "t") && f.ty.TimestampMsType? && TagOf(f).TagDateTime? && !IsMixed(f)
    ensures LosesRow(CompareExpr("t", Gte, SMilli(0)), schema, map["t" := B.Timestamp(1, 1)], r)
    ensures ClaimsExact(CompareExpr("t", Gte, SMilli(0)), schema)
  {
    var d: B.Doc := map["t" := B.Timestamp(1, 1)];
    TimestampIsAfterEpoch(f.ty, r);
    ComparisonLosesRow(schema, f, "t", Gte, SMilli(0), B.DateTime(0), d, r);
  }
}
