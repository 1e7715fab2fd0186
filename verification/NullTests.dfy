// IS NULL and IS NOT NULL, reported exact on every column.
module NullTests {
  import opened Wrappers
  import opened Arrow
  import opened Convert
  import opened Sql
  import opened MongoFilter
  import opened Pushdown
  import opened PushdownLaws
  import opened PushdownFindings
  import opened ColumnAtoms
  import B = BsonModel
  import DecimalText

  // A value is there, but the column's type cannot read it.
  predicate Unread(ty: DataType, x: Option<B.Bson>, r: Rendering) { !B.NullLike(x) && Decode(ty, x, r).VNull? }

  lemma NullFilters(path: string, d: B.Doc)
    ensures Matches(One(path, Cmp(Eq, B.Null)), d) <==> B.NullLike(LookupPath(d, path))
    ensures Matches(NotNull(path), d) <==> !B.NullLike(LookupPath(d, path))
  {
    OneMatches(path, Cmp(Eq, B.Null), d);
    OneMatches(path, Cmp(Ne, B.Null), d);
  }

  lemma NullDecodes(ty: DataType, x: Option<B.Bson>, r: Rendering)
    requires B.NullLike(x)
    ensures Decode(ty, x, r).VNull?
  {
  }

  lemma NullTestReads(i: Expr, schema: Schema, row: Row)
    requires ResolveColumn(i, schema).Some?
    ensures var path := ResolveColumn(i, schema).value.path;
      && Translate(IsNull(i), schema) == Some(Translated(One(path, Cmp(Eq, B.Null)), true))
      && Translate(IsNotNull(i), schema) == Some(Translated(NotNull(path), true))
    ensures IsTrueOn(IsNull(i), schema, row) <==> Eval(i, schema, row).VNull?
    ensures IsTrueOn(IsNotNull(i), schema, row) <==> !Eval(i, schema, row).VNull?
  {
  }

  // For any column and document: IS NULL loses the row, and IS NOT NULL adds it,
  // exactly where the column cannot read what is stored. Nothing else goes wrong.
  lemma NullTestIff(i: Expr, schema: Schema, d: B.Doc, r: Rendering)
    requires WellFormedSchema(schema) && ResolveColumn(i, schema).Some?
    ensures ClaimsExact(IsNull(i), schema) && ClaimsExact(IsNotNull(i), schema)
    ensures var c := ResolveColumn(i, schema).value;
      var unread := Unread(c.ty, LookupPath(d, c.path), r);
      && (LosesRow(IsNull(i), schema, d, r) <==> unread) && (AddsRow(IsNotNull(i), schema, d, r) <==> unread)
      && !AddsRow(IsNull(i), schema, d, r) && !LosesRow(IsNotNull(i), schema, d, r)
  {
    var c := ResolveColumn(i, schema).value;
    var x := LookupPath(d, c.path);
    NullTestReads(i, schema, DecodeRow(schema, d, r));
    ColumnReadsPath(i, schema, d, r);
    NullFilters(c.path, d);
    if B.NullLike(x) {
      NullDecodes(c.ty, x, r);
    }
  }

  // What each type cannot read.
  lemma UnreadByType(ty: DataType, v: B.Bson, r: Rendering)
    requires !B.NullLike(Some(v))
    ensures Unread(ty, Some(v), r) <==>
      match ty
      case BooleanType => !v.Boolean?
      case Int32Type => AsI64(v).None? || !B.FitsI32(AsI64(v).value)
      case Int64Type => AsI64(v).None?
      case Float64Type => AsF64(v, r).None?
      case Utf8Type => false
      case BinaryType => !v.Binary?
      case TimestampMsType(_) => AsMillis(v).None?
      case DecimalType(_, scale) => AsDecimal(v, scale, r).None?
      case StructType(_) => !v.Document?
      case ListType(_) => false
      case _ => true
  {
  }

  // On a conforming document a type reads all that its column may hold, except
  // decimals that do not fit.
  lemma ConformingUnreadIff(c: ColumnRef, x: Option<B.Bson>, r: Rendering)
    requires TagFits(c.ty, c.tag) && Conforms(c.ty, c.tag, x)
    ensures Unread(c.ty, x, r) <==>
      !B.NullLike(x) && c.ty.DecimalType? && AsDecimal(x.value, c.ty.scale, r).None?
  {
    if !B.NullLike(x) {
      UnreadByType(c.ty, x.value, r);
    }
  }

  // So on an unmixed column of a conforming document the null tests mean what they
  // say, unless it is a decimal column holding what is no decimal.
  lemma ConformingNullTestIff(i: Expr, schema: Schema, d: B.Doc, r: Rendering)
    requires WellFormedSchema(schema) && ConformsDoc(schema, d) && ResolveColumn(i, schema).Some?
    requires !ResolveColumn(i, schema).value.mixed
    ensures var c := ResolveColumn(i, schema).value;
      var x := LookupPath(d, c.path);
      LosesRow(IsNull(i), schema, d, r) <==>
        !B.NullLike(x) && c.ty.DecimalType? && AsDecimal(x.value, c.ty.scale, r).None?
  {
    ColumnMeaning(i, schema, d, r);
    NullTestIff(i, schema, d, r);
    ConformingUnreadIff(ResolveColumn(i, schema).value, LookupPath(d, ResolveColumn(i, schema).value.path), r);
  }

  // A root column of decimals, and one document.
  lemma DecimalNullTest(schema: Schema, f: Field, name: string, t: string, r: Rendering)
    requires WellFormedSchema(schema) && HasColumn(schema, f, name) && f.ty.DecimalType?
    ensures ClaimsExact(IsNull(Column(name)), schema)
    ensures LosesRow(IsNull(Column(name)), schema, map[name := B.Decimal128(t)], r) <==>
      DecimalText.ParseDecimal(t, f.ty.scale).None?
  {
    var d: B.Doc := map[name := B.Decimal128(t)];
    ColumnReads(schema, f, name, d, r);
    NullTestIff(Column(name), schema, d, r);
    DecimalUnread(f.ty, t, r);
  }

  lemma DecimalUnread(ty: DataType, t: string, r: Rendering)
    requires ty.DecimalType?
    ensures Unread(ty, Some(B.Decimal128(t)), r) <==> DecimalText.ParseDecimal(t, ty.scale).None?
  {
  }
}
