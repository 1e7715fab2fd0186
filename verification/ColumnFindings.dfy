// Columns that hold values of another kind than their literals: exactly when
// the filter and SQL disagree.
module ColumnFindings {
  import opened Wrappers
  import opened Arrow
  import opened Convert
  import opened Sql
  import opened MongoFilter
  import opened LikePattern
  import opened Pushdown
  import opened PushdownLaws
  import opened PushdownFindings
  import opened ColumnAtoms
  import B = BsonModel

  // ---- text columns ----

  predicate IsText(x: B.Bson) { x.String? || x.Symbol? }

  predicate NotText(x: Option<B.Bson>) { !B.NullLike(x) && !IsText(x.value) }

  // A text column, mixed or not and at any depth, compared as text.
  ghost predicate TextAtom(e: Expr, schema: Schema) {
    && IsAtom(e) && Translate(e, schema).Some? && ResolveColumn(Operand(e), schema).Some?
    && ResolveColumn(Operand(e), schema).value.ty.Utf8Type?
    && !ResolveColumn(Operand(e), schema).value.tag.TagObjectId?
    && forall l :: l in AtomLiterals(e) ==> l.Literal? && l.s.SUtf8?
  }

  lemma TextKeysFit(e: Expr, schema: Schema, t: string)
    requires TextAtom(e, schema)
    ensures KeysFit(e, TextKey(t))
  {
  }

  // What SQL says of a text.
  ghost predicate TextVerdict(e: Expr, schema: Schema, t: string)
    requires TextAtom(e, schema)
  {
    TextKeysFit(e, schema, t);
    KeyVerdict(e, TextKey(t))
  }

  lemma TextLiterals(e: Expr, schema: Schema, x: B.Bson)
    requires TextAtom(e, schema) && !B.NullLike(Some(x))
    ensures IsText(x) ==> AllNative(e, schema, x)
    ensures !IsText(x) ==> AllForeign(e, schema, x)
  {
  }

  lemma TextDecodes(x: Option<B.Bson>, r: Rendering)
    ensures Decode(Utf8Type, x, r) == if B.NullLike(x) then VNull else VText(RenderText(x.value, r))
  {
  }

  // SQL decides by the rendering, whatever the value.
  lemma TextInSql(e: Expr, schema: Schema, d: B.Doc, r: Rendering)
    requires WellFormedSchema(schema) && TextAtom(e, schema) && !B.NullLike(AtomValue(e, schema, d))
    ensures Eval(e, schema, DecodeRow(schema, d, r))
         == VBool(TextVerdict(e, schema, RenderText(AtomValue(e, schema, d).value, r)))
  {
    var t := RenderText(AtomValue(e, schema, d).value, r);
    ColumnReadsPath(Operand(e), schema, d, r);
    TextDecodes(AtomValue(e, schema, d), r);
    TextAnswers(e, schema, DecodeRow(schema, d, r), t);
  }

  lemma TextAnswers(e: Expr, schema: Schema, row: Row, t: string)
    requires TextAtom(e, schema) && Eval(Operand(e), schema, row) == VText(t)
    ensures Eval(e, schema, row) == VBool(TextVerdict(e, schema, t))
  {
    TextKeysFit(e, schema, t);
    SqlVerdict(e, schema, row, TextKey(t));
  }

  // Mongo compares texts with texts; of any other value only <> and NOT IN hold.
  lemma TextInMongo(e: Expr, schema: Schema, d: B.Doc)
    requires TextAtom(e, schema) && !B.NullLike(AtomValue(e, schema, d))
    ensures var x := AtomValue(e, schema, d).value;
      Matches(Translate(e, schema).value.filter, d) <==>
        if IsText(x) then TextVerdict(e, schema, x.s) else ForeignVerdict(e)
  {
    var x := AtomValue(e, schema, d).value;
    TextLiterals(e, schema, x);
    if IsText(x) {
      TextKeysFit(e, schema, x.s);
      NativeFilter(e, schema, d, TextKey(x.s));
    } else {
      ForeignFilter(e, schema, d);
    }
  }

  // A comparison, BETWEEN or IN on such a column loses a row exactly where the
  // column holds no text, SQL's verdict on the rendering is TRUE and Mongo's is
  // not; it adds one exactly where Mongo's is and SQL's is not.
  lemma TextAtomIff(e: Expr, schema: Schema, d: B.Doc, r: Rendering)
    requires WellFormedSchema(schema) && TextAtom(e, schema)
    ensures var x := AtomValue(e, schema, d);
      && (LosesRow(e, schema, d, r) <==>
          NotText(x) && TextVerdict(e, schema, RenderText(x.value, r)) && !ForeignVerdict(e))
      && (AddsRow(e, schema, d, r) <==>
          NotText(x) && !TextVerdict(e, schema, RenderText(x.value, r)) && ForeignVerdict(e))
  {
    TextFares(e, schema, d, r);
  }

  // For its negation the two change places.
  lemma NegatedTextAtomIff(e: Expr, schema: Schema, d: B.Doc, r: Rendering)
    requires WellFormedSchema(schema) && TextAtom(e, schema) && GuardColumns(e, schema).Some?
    ensures var x := AtomValue(e, schema, d);
      && (LosesRow(Not(e), schema, d, r) <==>
          NotText(x) && !TextVerdict(e, schema, RenderText(x.value, r)) && ForeignVerdict(e))
      && (AddsRow(Not(e), schema, d, r) <==>
          NotText(x) && TextVerdict(e, schema, RenderText(x.value, r)) && !ForeignVerdict(e))
  {
    TextFares(e, schema, d, r);
  }

  lemma TextFares(e: Expr, schema: Schema, d: B.Doc, r: Rendering)
    requires WellFormedSchema(schema) && TextAtom(e, schema)
    ensures var x := AtomValue(e, schema, d);
      Fares(e, schema, d, r, NotText(x) && TextVerdict(e, schema, RenderText(x.value, r)) && !ForeignVerdict(e),
            NotText(x) && !TextVerdict(e, schema, RenderText(x.value, r)) && ForeignVerdict(e))
  {
    if B.NullLike(AtomValue(e, schema, d)) {
      ColumnReadsPath(Operand(e), schema, d, r);
      TextDecodes(AtomValue(e, schema, d), r);
      NullDecides(e, schema, d, r);
    } else {
      KnownTextFares(e, schema, d, r);
    }
  }

  lemma KnownTextFares(e: Expr, schema: Schema, d: B.Doc, r: Rendering)
    requires WellFormedSchema(schema) && TextAtom(e, schema) && !B.NullLike(AtomValue(e, schema, d))
    ensures var x := AtomValue(e, schema, d);
      Fares(e, schema, d, r, NotText(x) && TextVerdict(e, schema, RenderText(x.value, r)) && !ForeignVerdict(e),
            NotText(x) && !TextVerdict(e, schema, RenderText(x.value, r)) && ForeignVerdict(e))
  {
    var x := AtomValue(e, schema, d).value;
    var v := TextVerdict(e, schema, RenderText(x, r));
    TextInSql(e, schema, d, r);
    TextInMongo(e, schema, d);
    if IsText(x) {
      TextRendersAsItself(x, r);
      VerdictsDecide(e, schema, d, r, v, v);
    } else {
      VerdictsDecide(e, schema, d, r, v, ForeignVerdict(e));
    }
  }

  lemma TextRendersAsItself(x: B.Bson, r: Rendering)
    requires IsText(x)
    ensures RenderText(x, r) == x.s
  {
  }

  // Spelled out for a comparison.
  lemma TextComparisonLosesIff(column: Expr, op: CmpOp, s: string, schema: Schema, d: B.Doc, r: Rendering)
    requires WellFormedSchema(schema) && TextAtom(Binary(column, OpCmp(op), Literal(SUtf8(s))), schema)
    ensures var e := Binary(column, OpCmp(op), Literal(SUtf8(s)));
      var x := AtomValue(e, schema, d);
      && (LosesRow(e, schema, d, r) <==>
          NotText(x) && !op.Ne? && Compare(op, TextKey(RenderText(x.value, r)), TextKey(s)))
      && (GuardColumns(e, schema).Some? ==>
          (LosesRow(Not(e), schema, d, r) <==> NotText(x) && op.Ne? && RenderText(x.value, r) == s))
  {
    TextFares(Binary(column, OpCmp(op), Literal(SUtf8(s))), schema, d, r);
    var x := AtomValue(Binary(column, OpCmp(op), Literal(SUtf8(s))), schema, d);
    if NotText(x) {
      ComparisonVerdict(column, op, s, schema, RenderText(x.value, r));
    }
  }

  lemma ComparisonVerdict(column: Expr, op: CmpOp, s: string, schema: Schema, t: string)
    requires TextAtom(Binary(column, OpCmp(op), Literal(SUtf8(s))), schema)
    ensures TextVerdict(Binary(column, OpCmp(op), Literal(SUtf8(s))), schema, t)
      <==> Compare(op, TextKey(t), TextKey(s))
  {
  }

  // The kinds of values a column may hold: anything, or what ObjectIds and texts
  // merge to.
  ghost predicate Holdable(tag: BsonTag, x: Option<B.Bson>) {
    B.NullLike(x) || (tag.TagString? ==> IsText(x.value) || x.value.ObjectId?)
  }

  ghost predicate NeverLoses(e: Expr, schema: Schema, r: Rendering)
    requires TextAtom(e, schema)
  {
    forall d: B.Doc :: Holdable(ResolveColumn(Operand(e), schema).value.tag, AtomValue(e, schema, d)) ==>
      !LosesRow(e, schema, d, r)
  }

  // No value that is not text renders as a text SQL would select.
  ghost predicate RenderingsFail(e: Expr, schema: Schema, r: Rendering)
    requires TextAtom(e, schema)
  {
    forall x: B.Bson :: NotText(Some(x)) && Holdable(ResolveColumn(Operand(e), schema).value.tag, Some(x)) ==>
      !TextVerdict(e, schema, RenderText(x, r))
  }

  lemma LosesSomewhere(e: Expr, schema: Schema, x: B.Bson, r: Rendering) returns (d: B.Doc)
    requires WellFormedSchema(schema) && TextAtom(e, schema)
    requires NotText(Some(x)) && TextVerdict(e, schema, RenderText(x, r)) && !ForeignVerdict(e)
    ensures AtomValue(e, schema, d) == Some(x) && LosesRow(e, schema, d, r)
  {
    var path := ResolveColumn(Operand(e), schema).value.path;
    d := Holding(Split(path), x);
    HoldingHolds(Split(path), x);
    TextAtomIff(e, schema, d, r);
  }

  lemma LosesNowhere(e: Expr, schema: Schema, d: B.Doc, r: Rendering)
    requires WellFormedSchema(schema) && TextAtom(e, schema)
    requires Holdable(ResolveColumn(Operand(e), schema).value.tag, AtomValue(e, schema, d))
    requires ForeignVerdict(e) || RenderingsFail(e, schema, r)
    ensures !LosesRow(e, schema, d, r)
  {
    NothingPasses(e, schema, AtomValue(e, schema, d), r);
    TextAtomIff(e, schema, d, r);
  }

  lemma NothingPasses(e: Expr, schema: Schema, x: Option<B.Bson>, r: Rendering)
    requires TextAtom(e, schema) && Holdable(ResolveColumn(Operand(e), schema).value.tag, x)
    requires ForeignVerdict(e) || RenderingsFail(e, schema, r)
    ensures !(NotText(x) && TextVerdict(e, schema, RenderText(x.value, r)) && !ForeignVerdict(e))
  {
  }

  // A filter on such a column is a superset of SQL's rows on every document if
  // and only if it is <> or NOT IN, or no rendering passes it.
  lemma MixedColumnNeverLosesIff(e: Expr, schema: Schema, r: Rendering)
    requires WellFormedSchema(schema) && TextAtom(e, schema)
    ensures NeverLoses(e, schema, r) <==> ForeignVerdict(e) || RenderingsFail(e, schema, r)
  {
    if ForeignVerdict(e) || RenderingsFail(e, schema, r) {
      forall d: B.Doc | Holdable(ResolveColumn(Operand(e), schema).value.tag, AtomValue(e, schema, d))
        ensures !LosesRow(e, schema, d, r)
      {
        LosesNowhere(e, schema, d, r);
      }
    } else {
      var x: B.Bson :| NotText(Some(x)) && Holdable(ResolveColumn(Operand(e), schema).value.tag, Some(x))
        && TextVerdict(e, schema, RenderText(x, r));
      var d := LosesSomewhere(e, schema, x, r);
    }
  }

  // Where ObjectIds merged with texts, an equality loses no row if and only if
  // its literal is not the rendering of an ObjectId.
  lemma MergedIdEqualityNeverLosesIff(column: Expr, s: string, schema: Schema, r: Rendering)
    requires WellFormedSchema(schema) && TextAtom(Binary(column, OpCmp(Eq), Literal(SUtf8(s))), schema)
    requires ResolveColumn(column, schema).Some? && ResolveColumn(column, schema).value.tag.TagString?
    ensures NeverLoses(Binary(column, OpCmp(Eq), Literal(SUtf8(s))), schema, r) <==> !B.IsOidText(s)
  {
    MixedColumnNeverLosesIff(Binary(column, OpCmp(Eq), Literal(SUtf8(s))), schema, r);
    IdRenderings(column, s, schema, r);
  }

  lemma IdRenderings(column: Expr, s: string, schema: Schema, r: Rendering)
    requires TextAtom(Binary(column, OpCmp(Eq), Literal(SUtf8(s))), schema)
    requires ResolveColumn(column, schema).Some? && ResolveColumn(column, schema).value.tag.TagString?
    ensures RenderingsFail(Binary(column, OpCmp(Eq), Literal(SUtf8(s))), schema, r) <==> !B.IsOidText(s)
  {
    var e := Binary(column, OpCmp(Eq), Literal(SUtf8(s)));
    if B.IsOidText(s) {
      var x := B.ObjectId(s);
      EqualityVerdict(column, s, schema, s);
      assert RenderText(x, r) == s && NotText(Some(x));
    } else {
      forall x: B.Bson | NotText(Some(x)) && Holdable(TagString, Some(x))
        ensures !TextVerdict(e, schema, RenderText(x, r))
      {
        EqualityVerdict(column, s, schema, RenderText(x, r));
        assert B.IsOidText(x.oid);
      }
    }
  }

  lemma EqualityVerdict(column: Expr, s: string, schema: Schema, t: string)
    requires TextAtom(Binary(column, OpCmp(Eq), Literal(SUtf8(s))), schema)
    ensures TextVerdict(Binary(column, OpCmp(Eq), Literal(SUtf8(s))), schema, t) <==> t == s
  {
  }

  // ---- dates ----

  // A date column, at any depth, compared with instants.
  ghost predicate DateAtom(e: Expr, schema: Schema) {
    && IsAtom(e) && Translate(e, schema).Some? && ResolveColumn(Operand(e), schema).Some?
    && ResolveColumn(Operand(e), schema).value.ty.TimestampMsType?
    && ResolveColumn(Operand(e), schema).value.tag.TagDateTime?
    && forall l :: l in AtomLiterals(e) ==> l.Literal? && IsInstant(l.s)
  }

  const NANOS_PER_SECOND: int := 1_000_000_000

  lemma DateKeysFit(e: Expr, schema: Schema, nanos: int)
    requires DateAtom(e, schema)
    ensures KeysFit(e, Instant(nanos))
  {
  }

  // What SQL says of an instant.
  ghost predicate InstantVerdict(e: Expr, schema: Schema, nanos: int)
    requires DateAtom(e, schema)
  {
    DateKeysFit(e, schema, nanos);
    KeyVerdict(e, Instant(nanos))
  }

  lemma TimestampDecodes(ty: DataType, time: B.u32, increment: B.u32, r: Rendering)
    requires ty.TimestampMsType?
    ensures SqlKey(Decode(ty, Some(B.Timestamp(time, increment)), r)) == Some(Instant(time * NANOS_PER_SECOND))
  {
    var ms: int := time * 1000;
    assert ms * NANOS_PER_MS == time * NANOS_PER_SECOND;
  }

  lemma TimestampIsForeign(e: Expr, schema: Schema, time: B.u32, increment: B.u32)
    requires DateAtom(e, schema)
    ensures AllForeign(e, schema, B.Timestamp(time, increment))
  {
    AtomTranslates(e, schema);
    forall l | l in AtomLiterals(e)
      ensures Foreign(l, ResolveColumn(Operand(e), schema).value, B.Timestamp(time, increment))
    {
      InstantIsDate(l.s, ResolveColumn(Operand(e), schema).value.tag);
    }
  }

  lemma InstantIsDate(s: Scalar, tag: BsonTag)
    requires IsInstant(s) && ScalarToBson(s, tag).Some?
    ensures ScalarToBson(s, tag).value.DateTime?
  {
  }

  // On a BSON timestamp in a date column SQL compares its seconds and Mongo finds
  // it in another bracket: the row is lost exactly where SQL selects it, unless by
  // <> or NOT IN, which keep the row they should reject. Under NOT likewise.
  lemma TimestampInDateColumnIff(e: Expr, schema: Schema, time: B.u32, increment: B.u32, d: B.Doc, r: Rendering)
    requires WellFormedSchema(schema) && DateAtom(e, schema)
    requires AtomValue(e, schema, d) == Some(B.Timestamp(time, increment))
    ensures Fares(e, schema, d, r, InstantVerdict(e, schema, time * NANOS_PER_SECOND) && !ForeignVerdict(e),
                  !InstantVerdict(e, schema, time * NANOS_PER_SECOND) && ForeignVerdict(e))
  {
    var nanos := time * NANOS_PER_SECOND;
    ColumnReadsPath(Operand(e), schema, d, r);
    TimestampDecodes(ResolveColumn(Operand(e), schema).value.ty, time, increment, r);
    DateKeysFit(e, schema, nanos);
    SqlVerdict(e, schema, DecodeRow(schema, d, r), Instant(nanos));
    TimestampIsForeign(e, schema, time, increment);
    ForeignFilter(e, schema, d);
    VerdictsDecide(e, schema, d, r, InstantVerdict(e, schema, nanos), ForeignVerdict(e));
  }

  // Spelled out for a comparison of a root column.
  lemma TimestampComparisonIff(schema: Schema, f: Field, name: string, op: CmpOp, s: Scalar,
                               time: B.u32, increment: B.u32, d: B.Doc, r: Rendering)
    requires WellFormedSchema(schema) && HasColumn(schema, f, name) && f.ty.TimestampMsType? && TagOf(f).TagDateTime?
    requires IsInstant(s) && ScalarToBson(s, TagDateTime).Some?
    requires B.Get(d, name) == Some(B.Timestamp(time, increment))
    ensures LosesRow(CompareExpr(name, op, s), schema, d, r) <==>
      !op.Ne? && Compare(op, Instant(time * NANOS_PER_SECOND), Instant(ScalarValue(s).nanos))
    ensures AddsRow(CompareExpr(name, op, s), schema, d, r) <==>
      op.Ne? && time * NANOS_PER_SECOND == ScalarValue(s).nanos
  {
    ComparisonTranslates(schema, f, name, op, s, ScalarToBson(s, TagDateTime).value);
    ColumnReads(schema, f, name, d, r);
    TimestampInDateColumnIff(CompareExpr(name, op, s), schema, time, increment, d, r);
    InstantCompares(name, op, s, schema, time * NANOS_PER_SECOND);
  }

  lemma InstantCompares(name: string, op: CmpOp, s: Scalar, schema: Schema, nanos: int)
    requires DateAtom(CompareExpr(name, op, s), schema)
    ensures InstantVerdict(CompareExpr(name, op, s), schema, nanos) <==>
      Compare(op, Instant(nanos), Instant(ScalarValue(s).nanos))
    ensures ForeignVerdict(CompareExpr(name, op, s)) <==> op.Ne?
  {
  }

  // ---- LIKE on columns that are not text ----

  // How LIKE's filter and LIKE itself fare on one value.
  predicate LikeAccepts(negated: bool, regex: string, x: Option<B.Bson>) {
    if negated then !B.NullLike(x) && Holds(NotRegex(regex), x) else Holds(Regex(regex), x)
  }

  predicate LikeAgrees(pattern: string, escape: Option<char>, negated: bool, x: Option<B.Bson>, r: Rendering)
    requires LikeRegex(pattern, escape).Some?
  {
    LikeAccepts(negated, LikeRegex(pattern, escape).value, x) <==>
      Negate(negated, LikeValue(Decode(Utf8Type, x, r), VText(pattern), escape)) == VBool(true)
  }

  // They agree if and only if the value is text or null, or its rendering does
  // not match. LIKE then loses a row, NOT LIKE keeps one.
  lemma LikeValueAgreesIff(pattern: string, escape: Option<char>, negated: bool, x: Option<B.Bson>, r: Rendering)
    requires LikeRegex(pattern, escape).Some?
    ensures LikeAgrees(pattern, escape, negated, x, r) <==>
      B.NullLike(x) || IsText(x.value) || !LikeMatches(pattern, escape, RenderText(x.value, r))
  {
    LikeCompiles(pattern, escape, "");
    if !B.NullLike(x) && IsText(x.value) {
      LikeCompiles(pattern, escape, x.value.s);
    }
  }

  lemma LikeReadsColumn(e: Expr, schema: Schema, d: B.Doc, r: Rendering)
    requires Setting(schema, d) && ResolveColumn(e, schema).Some?
    requires ResolveColumn(e, schema).value.ty.Utf8Type? || ResolveColumn(e, schema).value.ty.LargeUtf8Type?
    ensures Eval(e, schema, DecodeRow(schema, d, r))
         == Decode(Utf8Type, LookupPath(d, ResolveColumn(e, schema).value.path), r)
  {
    ColumnMeaning(e, schema, d, r);
  }

  // For every pattern, escape and document, and any text column.
  lemma LikeAgreesIff(e: Expr, schema: Schema, d: B.Doc, r: Rendering)
    requires e.Like? && Setting(schema, d) && Translate(e, schema).Some?
    ensures ResolveColumn(e.e, schema).Some? && e.pattern.Literal? && e.pattern.s.SUtf8?
    ensures var x := LookupPath(d, ResolveColumn(e.e, schema).value.path);
      (Matches(Translate(e, schema).value.filter, d) <==> IsTrueOn(e, schema, DecodeRow(schema, d, r))) <==>
      B.NullLike(x) || IsText(x.value) || !LikeMatches(e.pattern.s.s, e.escape, RenderText(x.value, r))
  {
    var row := DecodeRow(schema, d, r);
    LikeTranslates(e, schema, row);
    var path := ResolveColumn(e.e, schema).value.path;
    LikeReadsColumn(e.e, schema, d, r);
    LikeFilterMatches(path, LikeRegex(e.pattern.s.s, e.escape).value, e.negated, d);
    LikeValueAgreesIff(e.pattern.s.s, e.escape, e.negated, LookupPath(d, path), r);
  }

  // A value that is no text, yet whose rendering matches.
  predicate Clashes(pattern: string, escape: Option<char>, x: B.Bson, r: Rendering) {
    !B.NullLike(Some(x)) && !IsText(x) && LikeMatches(pattern, escape, RenderText(x, r))
  }

  ghost predicate LikeAgreesEverywhere(tag: BsonTag, pattern: string, escape: Option<char>, negated: bool, r: Rendering)
    requires LikeRegex(pattern, escape).Some?
  {
    forall x: B.Bson :: Conforms(Utf8Type, tag, Some(x)) ==> LikeAgrees(pattern, escape, negated, Some(x), r)
  }

  lemma EverywhereIffNoClash(tag: BsonTag, pattern: string, escape: Option<char>, negated: bool, r: Rendering)
    requires LikeRegex(pattern, escape).Some?
    ensures LikeAgreesEverywhere(tag, pattern, escape, negated, r) <==>
      forall x: B.Bson :: Conforms(Utf8Type, tag, Some(x)) ==> !Clashes(pattern, escape, x, r)
  {
    forall x: B.Bson ensures LikeAgrees(pattern, escape, negated, Some(x), r) <==> !Clashes(pattern, escape, x, r) {
      LikeValueAgreesIff(pattern, escape, negated, Some(x), r);
    }
  }

  // What may clash, by the column's tag: nothing, ObjectIds of which some match,
  // or any value of a JSON column.
  ghost predicate MayClash(tag: BsonTag, pattern: string, escape: Option<char>, r: Rendering) {
    || (tag.TagObjectId? && exists oid: B.Oid :: LikeMatches(pattern, escape, oid))
    || (tag.TagJson? && exists x: B.Bson :: Clashes(pattern, escape, x, r))
  }

  lemma IdClashes(pattern: string, escape: Option<char>, oid: B.Oid, r: Rendering)
    ensures Clashes(pattern, escape, B.ObjectId(oid), r) <==> LikeMatches(pattern, escape, oid)
    ensures Conforms(Utf8Type, TagObjectId, Some(B.ObjectId(oid)))
  {
  }

  // On all values of a column of texts or of nothing LIKE agrees; on ObjectIds if
  // and only if no text of 24 digits matches; on JSON if and only if no rendering
  // of another value does.
  lemma LikeColumnAgreesIff(tag: BsonTag, pattern: string, escape: Option<char>, negated: bool, r: Rendering)
    requires TagFits(Utf8Type, tag) && LikeRegex(pattern, escape).Some?
    ensures LikeAgreesEverywhere(tag, pattern, escape, negated, r) <==> !MayClash(tag, pattern, escape, r)
  {
    EverywhereIffNoClash(tag, pattern, escape, negated, r);
    forall oid: B.Oid
      ensures Clashes(pattern, escape, B.ObjectId(oid), r) <==> LikeMatches(pattern, escape, oid)
      ensures Conforms(Utf8Type, TagObjectId, Some(B.ObjectId(oid)))
    {
      IdClashes(pattern, escape, oid, r);
    }
    forall x: B.Bson | Conforms(Utf8Type, tag, Some(x)) && Clashes(pattern, escape, x, r)
      ensures MayClash(tag, pattern, escape, r)
    {
      if tag.TagObjectId? {
        assert x == B.ObjectId(x.oid);
      }
    }
    if tag.TagJson? {
      forall x: B.Bson ensures Conforms(Utf8Type, tag, Some(x)) {
      }
    }
  }
}
