// The translation keeps the meaning of every predicate in its fragment.
module PushdownLaws {
  import opened Wrappers
  import opened Arrow
  import opened Convert
  import opened Sql
  import opened MongoFilter
  import opened LikePattern
  import opened Pushdown
  import B = BsonModel
  import Text

  // ---- documents that conform to a schema ----

  // What a value of an unmixed column may be.
  ghost predicate Conforms(ty: DataType, tag: BsonTag, v: Option<B.Bson>)
    decreases ty
  {
    B.NullLike(v) ||
    match tag
    case TagBool => v.value.Boolean?
    case TagInt32 => v.value.Int32?
    case TagInt64 => v.value.Int32? || v.value.Int64?
    case TagDouble => v.value.Int32? || v.value.Int64? || v.value.Double?
    case TagString => v.value.String? || v.value.Symbol?
    case TagObjectId => v.value.ObjectId?
    case TagDateTime => v.value.DateTime?
    case TagTimestamp => v.value.Timestamp?
    case TagBinary => v.value.Binary?
    case TagUnknown => false
    case TagDocument =>
      && v.value.Document?
      && (ty.StructType? ==> forall c :: c in ty.children && !IsMixed(c) ==>
        Conforms(c.ty, TagOf(c), B.Get(v.value.fields, c.name)))
    case _ => true
  }

  // A tag and the type inference gives it.
  predicate TagFits(ty: DataType, tag: BsonTag) {
    match tag
    case TagBool => ty.BooleanType?
    case TagInt32 => ty.Int32Type?
    case TagInt64 => ty.Int64Type?
    case TagDouble => ty.Float64Type?
    case TagString => ty.Utf8Type?
    case TagObjectId => ty.Utf8Type?
    case TagUnknown => ty.Utf8Type?
    case TagJson => ty.Utf8Type?
    case TagDateTime => ty.TimestampMsType?
    case TagTimestamp => ty.TimestampMsType?
    case TagBinary => ty.BinaryType?
    case TagDecimal => ty.DecimalType?
    case TagDocument => ty.StructType?
    case TagArray => ty.ListType?
  }

  // Nested fields record their dotted path, or leave it to be composed.
  ghost predicate WellFormedField(f: Field, path: string)
    decreases f
  {
    && DotFree(f.name)
    && (PathOf(f) == path || PathOf(f) == f.name)
    && TagFits(f.ty, TagOf(f))
    && (f.ty.StructType? ==> forall c :: c in f.ty.children ==> WellFormedField(c, path + "." + c.name))
  }

  ghost predicate WellFormedSchema(schema: Schema) {
    forall f :: f in schema ==> WellFormedField(f, f.name)
  }

  ghost predicate ConformsDoc(schema: Schema, d: B.Doc) {
    forall f :: f in schema && !IsMixed(f) ==> Conforms(f.ty, TagOf(f), LookupPath(d, PathOf(f)))
  }

  // ---- columns ----

  lemma FieldByName(schema: Schema, d: B.Doc, r: Rendering, name: string)
    requires FindField(schema, name).Some?
    ensures name in DecodeRow(schema, d, r)
    ensures var f := FindField(schema, name).value;
      DecodeRow(schema, d, r)[name] == Decode(f.ty, LookupPath(d, PathOf(f)), r)
  {
    assert FindField(schema, name).value in schema;
  }

  lemma {:induction false} FirstNamedDecodes(children: seq<Field>, d: B.Doc, r: Rendering, key: string)
    ensures FirstNamed(DecodeChildren(children, d, r), key) ==
      match FindField(children, key)
      case Some(c) => Decode(c.ty, B.Get(d, key), r)
      case None => VNull
  {
    if children != [] && children[0].name != key {
      FirstNamedDecodes(children[1..], d, r, key);
      assert DecodeChildren(children, d, r)[1..] == DecodeChildren(children[1..], d, r);
    }
  }

  lemma ChildLookup(d: B.Doc, path: string, name: string)
    requires DotFree(name)
    ensures LookupPath(d, path + "." + name) ==
      match LookupPath(d, path)
      case Some(v) => if v.Document? then B.Get(v.fields, name) else None
      case None => None
  {
    SplitJoined(path, name);
    SplitDotFree(name);
    WalkOn(d, Split(path), [name]);
  }

  lemma {:induction false} ResolvedType(e: Expr, schema: Schema)
    requires ResolveColumn(e, schema).Some?
    ensures ExprType(e, schema) == Some(ResolveColumn(e, schema).value.ty)
  {
    match e
    case Alias(i) => ResolvedType(i, schema);
    case Cast(i, _, _) => ResolvedType(i, schema);
    case GetField(base, _) => ResolvedType(base, schema);
    case Column(_) =>
  }

  // What resolving a column promises of its type, and of the fields below it.
  ghost predicate FitColumn(c: ColumnRef) {
    && TagFits(c.ty, c.tag)
    && (c.ty.StructType? ==> forall f :: f in c.ty.children ==> WellFormedField(f, c.path + "." + f.name))
  }

  lemma FieldColumnFits(parent: ColumnRef, child: Field)
    requires parent.ty.StructType? && child in parent.ty.children && FitColumn(parent)
    ensures FitColumn(FieldColumn(parent, child)) && DotFree(child.name)
    ensures FieldColumn(parent, child).path == parent.path + "." + child.name
  {
    assert WellFormedField(child, parent.path + "." + child.name);
    DottedIsNotName(parent.path, child.name);
  }

  lemma {:induction false} ColumnFits(e: Expr, schema: Schema)
    requires WellFormedSchema(schema) && ResolveColumn(e, schema).Some?
    ensures FitColumn(ResolveColumn(e, schema).value)
  {
    match e
    case Column(name) => NamedIsIn(schema, name);
    case Alias(i) => ColumnFits(i, schema);
    case Cast(i, _, _) => ColumnFits(i, schema);
    case GetField(base, key) =>
      ColumnFits(base, schema);
      var parent := ResolveColumn(base, schema).value;
      NamedIsIn(parent.ty.children, key);
      FieldColumnFits(parent, FindField(parent.ty.children, key).value);
  }

  lemma {:induction false} NamedIsIn(fields: seq<Field>, name: string)
    requires FindField(fields, name).Some?
    ensures FindField(fields, name).value in fields && FindField(fields, name).value.name == name
  {
    if fields[0].name != name {
      NamedIsIn(fields[1..], name);
    }
  }

  // A field of a decoded struct is the value its longer path leads to, decoded.
  lemma FieldReads(parent: ColumnRef, key: string, d: B.Doc, r: Rendering)
    requires parent.ty.StructType? && FindField(parent.ty.children, key).Some? && FitColumn(parent)
    ensures var c := FieldColumn(parent, FindField(parent.ty.children, key).value);
      FieldOf(Decode(parent.ty, LookupPath(d, parent.path), r), key) == Decode(c.ty, LookupPath(d, c.path), r)
  {
    var child := FindField(parent.ty.children, key).value;
    NamedIsIn(parent.ty.children, key);
    FieldColumnFits(parent, child);
    ChildLookup(d, parent.path, child.name);
    var v := LookupPath(d, parent.path);
    if v.Some? && v.value.Document? {
      FirstNamedDecodes(parent.ty.children, v.value.fields, r, key);
    }
  }

  // A resolved column evaluates to its path's value decoded, whatever that is.
  lemma {:induction false} ColumnReadsPath(e: Expr, schema: Schema, d: B.Doc, r: Rendering)
    requires WellFormedSchema(schema) && ResolveColumn(e, schema).Some?
    ensures var c := ResolveColumn(e, schema).value;
      Eval(e, schema, DecodeRow(schema, d, r)) == Decode(c.ty, LookupPath(d, c.path), r)
  {
    match e
    case Column(name) => FieldByName(schema, d, r, name);
    case Alias(i) => ColumnReadsPath(i, schema, d, r);
    case Cast(i, _, _) =>
      ColumnReadsPath(i, schema, d, r);
      ResolvedType(i, schema);
    case GetField(base, key) =>
      ColumnReadsPath(base, schema, d, r);
      ColumnFits(base, schema);
      FieldReads(ResolveColumn(base, schema).value, key, d, r);
  }

  ghost predicate ColumnConforms(c: ColumnRef, d: B.Doc) { !c.mixed ==> Conforms(c.ty, c.tag, LookupPath(d, c.path)) }

  lemma FieldConforms(parent: ColumnRef, child: Field, d: B.Doc)
    requires parent.ty.StructType? && child in parent.ty.children && FitColumn(parent) && ColumnConforms(parent, d)
    ensures ColumnConforms(FieldColumn(parent, child), d)
  {
    FieldColumnFits(parent, child);
    ChildLookup(d, parent.path, child.name);
  }

  lemma {:induction false} UnmixedConforms(e: Expr, schema: Schema, d: B.Doc)
    requires WellFormedSchema(schema) && ConformsDoc(schema, d) && ResolveColumn(e, schema).Some?
    ensures ColumnConforms(ResolveColumn(e, schema).value, d)
  {
    match e
    case Column(name) => NamedIsIn(schema, name);
    case Alias(i) => UnmixedConforms(i, schema, d);
    case Cast(i, _, _) => UnmixedConforms(i, schema, d);
    case GetField(base, key) =>
      UnmixedConforms(base, schema, d);
      ColumnFits(base, schema);
      var parent := ResolveColumn(base, schema).value;
      NamedIsIn(parent.ty.children, key);
      FieldConforms(parent, FindField(parent.ty.children, key).value, d);
  }

  // A resolved column evaluates to its path's value decoded, and an unmixed one
  // to a conforming value.
  lemma ColumnMeaning(e: Expr, schema: Schema, d: B.Doc, r: Rendering)
    requires WellFormedSchema(schema) && ConformsDoc(schema, d)
    requires ResolveColumn(e, schema).Some?
    ensures var c := ResolveColumn(e, schema).value;
      && Eval(e, schema, DecodeRow(schema, d, r)) == Decode(c.ty, LookupPath(d, c.path), r)
      && TagFits(c.ty, c.tag)
      && (!c.mixed ==> Conforms(c.ty, c.tag, LookupPath(d, c.path)))
      && (c.ty.StructType? ==> forall f :: f in c.ty.children ==> WellFormedField(f, c.path + "." + f.name))
  {
    ColumnReadsPath(e, schema, d, r);
    ColumnFits(e, schema);
    UnmixedConforms(e, schema, d);
  }

  lemma DottedIsNotName(p: string, name: string)
    requires DotFree(name)
    ensures p + "." + name != name
  {
    assert |p + "." + name| > |name|;
  }

  // ---- literals ----

  // The planner lets a column meet literals of its own kind only.
  predicate LiteralFits(tag: BsonTag, s: Scalar) {
    match tag
    case TagBool => s.SBool?
    case TagInt32 => s.SInt? || s.SUInt64? || s.SFloat?
    case TagInt64 => s.SInt? || s.SUInt64? || s.SFloat?
    case TagDouble => s.SInt? || s.SUInt64? || s.SFloat?
    case TagString => s.SUtf8?
    case TagObjectId => s.SUtf8?
    case TagDateTime => IsInstant(s)
    case TagTimestamp => IsInstant(s)
    case TagJson => s.SUtf8?
    case TagUnknown => true
    case _ => false
  }

  predicate IsInstant(s: Scalar) {
    s.SSecond? || s.SMilli? || s.SMicro? || s.SNano? || s.SDate32? || s.SDate64?
  }

  // Which literals mean in BSON what they mean in SQL: ObjectIds spelled in lower
  // case and instants of whole milliseconds, on columns decoded without loss.
  predicate LiteralFaithful(tag: BsonTag, s: Scalar) {
    match tag
    case TagObjectId => s.SUtf8? && B.IsOidText(s.s)
    case TagDateTime => (s.SMicro? ==> s.v % 1_000 == 0) && (s.SNano? ==> s.v % 1_000_000 == 0)
    case TagTimestamp => false
    case TagJson => false
    case _ => true
  }

  predicate Comparable(c: ColumnRef) {
    && !c.mixed
    && c.tag in {TagBool, TagInt32, TagInt64, TagDouble, TagString, TagObjectId, TagDateTime, TagUnknown}
  }

  lemma {:induction false} LowerOfLower(s: string)
    requires forall c :: c in s ==> B.IsLowerHex(c)
    ensures Text.LowerAscii(s) == s
  {
    if s != "" {
      LowerOfLower(s[1..]);
      assert s[0] in s;
    }
  }

  // A faithful literal stands to every conforming value in BSON as it does in SQL.
  lemma KeysAgree(ty: DataType, tag: BsonTag, x: B.Bson, s: Scalar, b: B.Bson, r: Rendering)
    requires tag in {TagBool, TagInt32, TagInt64, TagDouble, TagString, TagDateTime}
    requires TagFits(ty, tag) && Conforms(ty, tag, Some(x)) && !B.NullLike(Some(x))
    requires LiteralFits(tag, s) && LiteralFaithful(tag, s) && ScalarToBson(s, tag) == Some(b)
    ensures SqlKey(Decode(ty, Some(x), r)) == BsonKey(x) && BsonKey(x).Some?
    ensures SqlKey(ScalarValue(s)) == BsonKey(b) && BsonKey(b).Some?
    ensures SameBracket(x, b)
  {
    ColumnKey(ty, tag, x, r);
    LiteralKey(tag, s, b);
  }

  lemma ColumnKey(ty: DataType, tag: BsonTag, x: B.Bson, r: Rendering)
    requires tag in {TagBool, TagInt32, TagInt64, TagDouble, TagString, TagDateTime}
    requires TagFits(ty, tag) && Conforms(ty, tag, Some(x)) && !B.NullLike(Some(x))
    ensures SqlKey(Decode(ty, Some(x), r)) == BsonKey(x) && BsonKey(x).Some?
  {
  }

  lemma LiteralKey(tag: BsonTag, s: Scalar, b: B.Bson)
    requires tag in {TagBool, TagInt32, TagInt64, TagDouble, TagString, TagDateTime}
    requires LiteralFits(tag, s) && LiteralFaithful(tag, s) && ScalarToBson(s, tag) == Some(b)
    ensures SqlKey(ScalarValue(s)) == BsonKey(b) && BsonKey(b).Some?
  {
  }

  // ---- atoms ----

  // A predicate that is NULL exactly on null input, and its filter then rejects.
  ghost predicate StrictAtom(v: Value, accepted: bool, x: Option<B.Bson>) {
    if B.NullLike(x) then v == VNull && !accepted else v == VBool(accepted)
  }

  function CompareTo(ty: DataType, op: CmpOp, x: Option<B.Bson>, s: Scalar, r: Rendering): Value {
    CompareValues(op, Decode(ty, x, r), ScalarValue(s))
  }

  predicate CondHolds(op: CmpOp, b: B.Bson, x: Option<B.Bson>) {
    Holds(Cmp(op, b), x) && (op.Ne? ==> !B.NullLike(x))
  }

  lemma LiteralIsNotNull(s: Scalar, tag: BsonTag)
    ensures ScalarToBson(s, tag).Some? ==> !B.NullLike(ScalarToBson(s, tag))
  {
  }

  lemma CompareAtom(c: ColumnRef, op: CmpOp, s: Scalar, b: B.Bson, x: Option<B.Bson>, r: Rendering)
    requires Comparable(c) && TagFits(c.ty, c.tag) && Conforms(c.ty, c.tag, x)
    requires LiteralFits(c.tag, s) && LiteralFaithful(c.tag, s) && ScalarToBson(s, c.tag) == Some(b)
    ensures StrictAtom(CompareTo(c.ty, op, x, s, r), CondHolds(op, b, x), x)
  {
    LiteralIsNotNull(s, c.tag);
    if B.NullLike(x) {
      NullAtom(c, op, s, b, x, r);
    } else if c.tag.TagObjectId? {
      OidAtom(c, op, s, b, x, r);
    } else {
      KeysAgree(c.ty, c.tag, x.value, s, b, r);
      KeyAtom(op, x.value, b);
    }
  }

  lemma NullAtom(c: ColumnRef, op: CmpOp, s: Scalar, b: B.Bson, x: Option<B.Bson>, r: Rendering)
    requires B.NullLike(x) && !B.NullLike(Some(b)) && TagFits(c.ty, c.tag)
    ensures CompareTo(c.ty, op, x, s, r) == VNull && !CondHolds(op, b, x)
  {
  }

  // Within a bracket the filter's condition is the comparison of keys.
  lemma KeyAtom(op: CmpOp, x: B.Bson, b: B.Bson)
    requires SameBracket(x, b)
    ensures CondHolds(op, b, Some(x)) <==> Compare(op, BsonKey(x).value, BsonKey(b).value)
  {
  }

  lemma OidAtom(c: ColumnRef, op: CmpOp, s: Scalar, b: B.Bson, x: Option<B.Bson>, r: Rendering)
    requires c.tag.TagObjectId? && TagFits(c.ty, c.tag) && Conforms(c.ty, c.tag, x) && !B.NullLike(x)
    requires LiteralFaithful(c.tag, s) && ScalarToBson(s, c.tag) == Some(b)
    ensures CompareTo(c.ty, op, x, s, r) == VBool(CondHolds(op, b, x))
  {
    LowerOfLower(s.s);
    assert b == B.ObjectId(s.s);
    KeyAtom(op, x.value, b);
  }

  // ---- the fragment ----

  ghost predicate LiteralInScope(c: ColumnRef, e: Expr) {
    e.Literal? && ScalarToBson(e.s, c.tag).Some? ==> LiteralFits(c.tag, e.s) && LiteralFaithful(c.tag, e.s)
  }

  ghost predicate ComparisonInScope(column: Expr, literal: Expr, schema: Schema) {
    ResolveColumn(column, schema).Some? ==>
      var c := ResolveColumn(column, schema).value;
      LiteralOf(literal, c).Some? ==> Comparable(c) && LiteralInScope(c, literal)
  }

  // Columns whose decoded value is NULL exactly when the stored one is.
  predicate NullTestable(c: ColumnRef) {
    Comparable(c) || (!c.mixed && c.tag in {TagBinary, TagTimestamp, TagDocument})
  }

  ghost predicate NullTestInScope(e: Expr, schema: Schema) {
    ResolveColumn(e, schema).Some? ==> NullTestable(ResolveColumn(e, schema).value)
  }

  ghost predicate BoolTestInScope(e: Expr, schema: Schema) {
    ResolveColumn(e, schema).Some? && ResolveColumn(e, schema).value.ty.BooleanType? ==>
      !ResolveColumn(e, schema).value.mixed && ResolveColumn(e, schema).value.tag.TagBool?
  }

  // Unmixed scalar columns, faithful literals, LIKE on string columns, and
  // negation of predicates that translate exactly. What does not translate may
  // be anything.
  ghost predicate InScope(e: Expr, schema: Schema)
    decreases e
  {
    match e
    case Binary(l, op, r) =>
      (match op
       case OpAnd => InScope(l, schema) && InScope(r, schema)
       case OpOr => InScope(l, schema) && InScope(r, schema)
       case OpCmp(_) => ComparisonInScope(l, r, schema) && ComparisonInScope(r, l, schema)
       case OpOther(_) => true)
    case Not(i) =>
      InScope(i, schema) && (Translate(e, schema).Some? ==> Translate(i, schema).value.exact)
    case IsNull(i) => NullTestInScope(i, schema)
    case IsNotNull(i) => NullTestInScope(i, schema)
    case IsTrue(i) => BoolTestInScope(i, schema)
    case IsFalse(i) => BoolTestInScope(i, schema)
    case IsNotTrue(i) => BoolTestInScope(i, schema)
    case IsNotFalse(i) => BoolTestInScope(i, schema)
    case Between(i, _, low, high) =>
      ComparisonInScope(i, low, schema) && ComparisonInScope(i, high, schema)
    case InList(i, list, _) =>
      && (ResolveColumn(i, schema).Some? ==> Comparable(ResolveColumn(i, schema).value))
      && forall x :: x in list ==> ComparisonInScope(i, x, schema)
    case Like(i, _, _, _) =>
      ResolveColumn(i, schema).Some? ==>
        !ResolveColumn(i, schema).value.mixed && ResolveColumn(i, schema).value.tag.TagString?
    case Column(_) => BoolTestInScope(e, schema)
    case Alias(i) => InScope(i, schema)
    case _ => true
  }

  // ---- what a translation means on one document ----

  ghost predicate GuardsHold(columns: seq<ColumnRef>, d: B.Doc) {
    forall c :: c in columns ==> !B.NullLike(LookupPath(d, c.path))
  }

  // An exact filter accepts nothing SQL rejects, and decides the predicate
  // wherever every column it names is present.
  ghost predicate Decides(e: Expr, schema: Schema, d: B.Doc, v: Value) {
    Translate(e, schema).Some? && Translate(e, schema).value.exact ==>
      var accepted := Matches(Translate(e, schema).value.filter, d);
      && (accepted ==> v == VBool(true))
      && (GuardColumns(e, schema).Some? && GuardsHold(GuardColumns(e, schema).value, d) ==> v == VBool(accepted))
  }

  ghost predicate Setting(schema: Schema, d: B.Doc) {
    WellFormedSchema(schema) && ConformsDoc(schema, d)
  }

  lemma {:induction false} OperandGuard(e: Expr, schema: Schema)
    requires ResolveColumn(e, schema).Some? && GuardColumns(e, schema).Some?
    ensures GuardColumns(e, schema).value == [ResolveColumn(e, schema).value]
  {
    match e
    case Alias(i) => OperandGuard(i, schema);
    case _ =>
  }

  // ---- one lemma per kind of predicate ----

  lemma CompareFilterMatches(path: string, op: CmpOp, b: B.Bson, d: B.Doc)
    ensures Matches(CompareFilter(path, op, b), d) <==> CondHolds(op, b, LookupPath(d, path))
  {
    OneMatches(path, Cmp(op, b), d);
    OneMatches(path, Cmp(Ne, B.Null), d);
    And2Matches(One(path, Cmp(Ne, b)), NotNull(path), d);
  }

  // `column op literal` means what it says.
  lemma ComparisonMeaning(column: Expr, op: CmpOp, literal: Expr, schema: Schema, d: B.Doc, r: Rendering)
    requires Setting(schema, d) && ComparisonInScope(column, literal, schema) && literal.Literal?
    requires TranslateComparison(column, op, literal, schema).Some?
    ensures var row := DecodeRow(schema, d, r);
      StrictAtom(CompareValues(op, Eval(column, schema, row), Eval(literal, schema, row)),
                 Matches(TranslateComparison(column, op, literal, schema).value.filter, d),
                 LookupPath(d, ResolveColumn(column, schema).value.path))
  {
    var c := ResolveColumn(column, schema).value;
    ColumnMeaning(column, schema, d, r);
    CompareAtom(c, op, literal.s, LiteralOf(literal, c).value, LookupPath(d, c.path), r);
    CompareFilterMatches(c.path, op, LiteralOf(literal, c).value, d);
  }

  // Putting the literal first flips the operator, which changes no outcome.
  lemma FlipCompares(op: CmpOp, a: Value, b: Value)
    ensures CompareValues(op, a, b) == CompareValues(Flip(op), b, a)
  {
  }

  lemma BinaryComparisonDecides(l: Expr, op: CmpOp, rt: Expr, schema: Schema, d: B.Doc, r: Rendering)
    requires Setting(schema, d) && InScope(Binary(l, OpCmp(op), rt), schema)
    requires Translate(Binary(l, OpCmp(op), rt), schema).Some?
    ensures var e := Binary(l, OpCmp(op), rt);
      var row := DecodeRow(schema, d, r);
      var column := if l.Literal? then rt else l;
      StrictAtom(Eval(e, schema, row), Matches(Translate(e, schema).value.filter, d),
                 LookupPath(d, ResolveColumn(column, schema).value.path))
  {
    var row := DecodeRow(schema, d, r);
    if l.Literal? {
      ComparisonMeaning(rt, Flip(op), l, schema, d, r);
      FlipCompares(op, Eval(l, schema, row), Eval(rt, schema, row));
    } else {
      ComparisonMeaning(l, op, rt, schema, d, r);
    }
  }

  lemma BetweenMatches(path: string, lo: B.Bson, hi: B.Bson, d: B.Doc)
    ensures Matches(On(path, [Cmp(Gte, lo), Cmp(Lte, hi)]), d) <==>
      CondHolds(Gte, lo, LookupPath(d, path)) && CondHolds(Lte, hi, LookupPath(d, path))
    ensures Matches(ExcludeNull(path, Or([One(path, Cmp(Lt, lo)), One(path, Cmp(Gt, hi))])), d) <==>
      !B.NullLike(LookupPath(d, path)) &&
      (CondHolds(Lt, lo, LookupPath(d, path)) || CondHolds(Gt, hi, LookupPath(d, path)))
  {
    var conds := [Cmp(Gte, lo), Cmp(Lte, hi)];
    assert conds[0] in conds && conds[1] in conds;
    OneMatches(path, Cmp(Lt, lo), d);
    OneMatches(path, Cmp(Gt, hi), d);
    OneMatches(path, Cmp(Ne, B.Null), d);
    Or2Matches(One(path, Cmp(Lt, lo)), One(path, Cmp(Gt, hi)), d);
    And2Matches(Or([One(path, Cmp(Lt, lo)), One(path, Cmp(Gt, hi))]), NotNull(path), d);
  }

  // Below is the negation of at-or-above, above of at-or-below.
  lemma Opposites(a: Value, b: Value)
    ensures Not3(CompareValues(Gte, a, b)) == CompareValues(Lt, a, b)
    ensures Not3(CompareValues(Lte, a, b)) == CompareValues(Gt, a, b)
  {
    if SqlKey(a).Some? && SqlKey(b).Some? && SameKind(SqlKey(a).value, SqlKey(b).value) {
      KeyTotal(SqlKey(a).value, SqlKey(b).value);
    }
  }

  ghost predicate LiteralReady(c: ColumnRef, s: Scalar, b: B.Bson) {
    LiteralFits(c.tag, s) && LiteralFaithful(c.tag, s) && ScalarToBson(s, c.tag) == Some(b)
  }

  lemma InsideAtom(c: ColumnRef, low: Scalar, lo: B.Bson, high: Scalar, hi: B.Bson, x: Option<B.Bson>, r: Rendering)
    requires Comparable(c) && TagFits(c.ty, c.tag) && Conforms(c.ty, c.tag, x)
    requires LiteralReady(c, low, lo) && LiteralReady(c, high, hi)
    ensures StrictAtom(And3(CompareTo(c.ty, Gte, x, low, r), CompareTo(c.ty, Lte, x, high, r)),
                       CondHolds(Gte, lo, x) && CondHolds(Lte, hi, x), x)
  {
    CompareAtom(c, Gte, low, lo, x, r);
    CompareAtom(c, Lte, high, hi, x, r);
  }

  lemma OutsideAtom(c: ColumnRef, low: Scalar, lo: B.Bson, high: Scalar, hi: B.Bson, x: Option<B.Bson>, r: Rendering)
    requires Comparable(c) && TagFits(c.ty, c.tag) && Conforms(c.ty, c.tag, x)
    requires LiteralReady(c, low, lo) && LiteralReady(c, high, hi)
    ensures StrictAtom(Not3(And3(CompareTo(c.ty, Gte, x, low, r), CompareTo(c.ty, Lte, x, high, r))),
                       !B.NullLike(x) && (CondHolds(Lt, lo, x) || CondHolds(Gt, hi, x)), x)
  {
    InsideAtom(c, low, lo, high, hi, x, r);
    CompareAtom(c, Gte, low, lo, x, r);
    CompareAtom(c, Lte, high, hi, x, r);
    CompareAtom(c, Lt, low, lo, x, r);
    CompareAtom(c, Gt, high, hi, x, r);
    Opposites(Decode(c.ty, x, r), ScalarValue(low));
    Opposites(Decode(c.ty, x, r), ScalarValue(high));
  }

  lemma BetweenDecides(i: Expr, negated: bool, low: Expr, high: Expr, schema: Schema, d: B.Doc, r: Rendering)
    requires Setting(schema, d) && InScope(Between(i, negated, low, high), schema)
    requires Translate(Between(i, negated, low, high), schema).Some?
    ensures var e := Between(i, negated, low, high);
      StrictAtom(Eval(e, schema, DecodeRow(schema, d, r)), Matches(Translate(e, schema).value.filter, d),
                 LookupPath(d, ResolveColumn(i, schema).value.path))
  {
    var c := ResolveColumn(i, schema).value;
    var x := LookupPath(d, c.path);
    var (lo, hi) := (LiteralOf(low, c).value, LiteralOf(high, c).value);
    ColumnMeaning(i, schema, d, r);
    BetweenMatches(c.path, lo, hi, d);
    if negated {
      OutsideAtom(c, low.s, lo, high.s, hi, x, r);
    } else {
      InsideAtom(c, low.s, lo, high.s, hi, x, r);
    }
  }

  lemma {:induction false} ListMeaning(c: ColumnRef, list: seq<Expr>, schema: Schema, x: Option<B.Bson>, row: Row,
                                       r: Rendering)
    requires Comparable(c) && TagFits(c.ty, c.tag) && Conforms(c.ty, c.tag, x) && !B.NullLike(x)
    requires LiteralsOf(list, c).Some? && forall e :: e in list ==> LiteralInScope(c, e)
    ensures EvalList(Decode(c.ty, x, r), list, schema, row)
         == VBool(exists b :: b in LiteralsOf(list, c).value && EqualTo(x, b))
  {
    if list != [] {
      assert list[0] in list;
      var b := LiteralOf(list[0], c).value;
      var rest := LiteralsOf(list[1..], c).value;
      CompareAtom(c, Eq, list[0].s, b, x, r);
      ListMeaning(c, list[1..], schema, x, row, r);
      assert LiteralsOf(list, c).value == [b] + rest;
    }
  }

  lemma {:induction false} NoLiteralMatchesNull(list: seq<Expr>, c: ColumnRef, x: Option<B.Bson>)
    requires LiteralsOf(list, c).Some? && B.NullLike(x)
    ensures !exists b :: b in LiteralsOf(list, c).value && EqualTo(x, b)
  {
    if list != [] {
      LiteralIsNotNull(list[0].s, c.tag);
      NoLiteralMatchesNull(list[1..], c, x);
    }
  }

  lemma InListMatches(path: string, values: seq<B.Bson>, d: B.Doc)
    ensures Matches(One(path, In(values)), d) <==>
      exists b :: b in values && EqualTo(LookupPath(d, path), b)
    ensures Matches(ExcludeNull(path, One(path, Nin(values))), d) <==>
      !B.NullLike(LookupPath(d, path)) && !exists b :: b in values && EqualTo(LookupPath(d, path), b)
  {
    OneMatches(path, In(values), d);
    OneMatches(path, Nin(values), d);
    OneMatches(path, Cmp(Ne, B.Null), d);
    And2Matches(One(path, Nin(values)), NotNull(path), d);
  }

  lemma InListDecides(i: Expr, list: seq<Expr>, negated: bool, schema: Schema, d: B.Doc, r: Rendering)
    requires Setting(schema, d) && InScope(InList(i, list, negated), schema)
    requires Translate(InList(i, list, negated), schema).Some?
    ensures var e := InList(i, list, negated);
      StrictAtom(Eval(e, schema, DecodeRow(schema, d, r)), Matches(Translate(e, schema).value.filter, d),
                 LookupPath(d, ResolveColumn(i, schema).value.path))
  {
    var c := ResolveColumn(i, schema).value;
    var x := LookupPath(d, c.path);
    var row := DecodeRow(schema, d, r);
    ColumnMeaning(i, schema, d, r);
    InListMatches(c.path, LiteralsOf(list, c).value, d);
    DecodedIsNotNull(c, x, r);
    if B.NullLike(x) {
      NoLiteralMatchesNull(list, c, x);
    } else {
      ListLiterals(i, list, schema);
      ListMeaning(c, list, schema, x, row, r);
    }
  }

  lemma {:induction false} ListLiterals(i: Expr, list: seq<Expr>, schema: Schema)
    requires ResolveColumn(i, schema).Some?
    requires forall x :: x in list ==> ComparisonInScope(i, x, schema)
    requires LiteralsOf(list, ResolveColumn(i, schema).value).Some?
    ensures forall e :: e in list ==> LiteralInScope(ResolveColumn(i, schema).value, e)
  {
    if list != [] {
      assert list[0] in list;
      ListLiterals(i, list[1..], schema);
    }
  }

  lemma DecodedIsNotNull(c: ColumnRef, x: Option<B.Bson>, r: Rendering)
    requires NullTestable(c) && TagFits(c.ty, c.tag) && Conforms(c.ty, c.tag, x)
    ensures Decode(c.ty, x, r).VNull? <==> B.NullLike(x)
  {
  }

  lemma LikeFilterMatches(path: string, regex: string, negated: bool, d: B.Doc)
    ensures var filter := if negated then ExcludeNull(path, One(path, NotRegex(regex))) else One(path, Regex(regex));
      Matches(filter, d) <==>
        if negated then !B.NullLike(LookupPath(d, path)) && Holds(NotRegex(regex), LookupPath(d, path))
        else Holds(Regex(regex), LookupPath(d, path))
  {
    OneMatches(path, Regex(regex), d);
    OneMatches(path, NotRegex(regex), d);
    OneMatches(path, Cmp(Ne, B.Null), d);
    And2Matches(One(path, NotRegex(regex)), NotNull(path), d);
  }

  // On a text, the generated regular expression is LIKE; on nothing it is NULL.
  lemma RegexIsLike(x: Option<B.Bson>, v: Value, pattern: string, escape: Option<char>, negated: bool)
    requires LikeRegex(pattern, escape).Some?
    requires if B.NullLike(x) then v == VNull else (x.value.String? || x.value.Symbol?) && v == VText(x.value.s)
    ensures var regex := LikeRegex(pattern, escape).value;
      StrictAtom(Negate(negated, LikeValue(v, VText(pattern), escape)),
                 if negated then !B.NullLike(x) && Holds(NotRegex(regex), x) else Holds(Regex(regex), x), x)
  {
    if !B.NullLike(x) {
      LikeCompiles(pattern, escape, x.value.s);
    }
  }

  lemma LikeTranslates(e: Expr, schema: Schema, row: Row)
    requires e.Like? && Translate(e, schema).Some?
    ensures ResolveColumn(e.e, schema).Some? && e.pattern.Literal? && e.pattern.s.SUtf8?
    ensures LikeRegex(e.pattern.s.s, e.escape).Some?
    ensures var path := ResolveColumn(e.e, schema).value.path;
      var regex := LikeRegex(e.pattern.s.s, e.escape).value;
      Translate(e, schema).value.filter ==
        if e.negated then ExcludeNull(path, One(path, NotRegex(regex))) else One(path, Regex(regex))
    ensures Eval(e, schema, row)
         == Negate(e.negated, LikeValue(Eval(e.e, schema, row), VText(e.pattern.s.s), e.escape))
  {
  }

  lemma LikeDecides(e: Expr, schema: Schema, d: B.Doc, r: Rendering)
    requires e.Like? && Setting(schema, d) && InScope(e, schema) && Translate(e, schema).Some?
    ensures StrictAtom(Eval(e, schema, DecodeRow(schema, d, r)), Matches(Translate(e, schema).value.filter, d),
                       LookupPath(d, ResolveColumn(e.e, schema).value.path))
  {
    var row := DecodeRow(schema, d, r);
    LikeTranslates(e, schema, row);
    var path := ResolveColumn(e.e, schema).value.path;
    StringReads(e.e, schema, d, r);
    LikeFilterMatches(path, LikeRegex(e.pattern.s.s, e.escape).value, e.negated, d);
    RegexIsLike(LookupPath(d, path), Eval(e.e, schema, row), e.pattern.s.s, e.escape, e.negated);
  }

  // A string column reads the text it holds.
  lemma StringReads(i: Expr, schema: Schema, d: B.Doc, r: Rendering)
    requires Setting(schema, d) && ResolveColumn(i, schema).Some?
    requires !ResolveColumn(i, schema).value.mixed && ResolveColumn(i, schema).value.tag.TagString?
    ensures var x := LookupPath(d, ResolveColumn(i, schema).value.path);
      var v := Eval(i, schema, DecodeRow(schema, d, r));
      if B.NullLike(x) then v == VNull else (x.value.String? || x.value.Symbol?) && v == VText(x.value.s)
  {
    ColumnMeaning(i, schema, d, r);
  }

  lemma BoolMeaning(i: Expr, schema: Schema, d: B.Doc, r: Rendering, want: bool)
    requires Setting(schema, d) && BoolTestInScope(i, schema)
    requires ResolveColumn(i, schema).Some? && ResolveColumn(i, schema).value.ty.BooleanType?
    ensures var c := ResolveColumn(i, schema).value;
      var v := Eval(i, schema, DecodeRow(schema, d, r));
      && (v == VNull <==> B.NullLike(LookupPath(d, c.path))) && (v == VNull || v.VBool?)
      && (Matches(One(c.path, Cmp(Eq, B.Boolean(want))), d) <==> v == VBool(want))
      && (Matches(One(c.path, Cmp(Eq, B.Null)), d) <==> v == VNull)
  {
    var c := ResolveColumn(i, schema).value;
    ColumnMeaning(i, schema, d, r);
    BoolFilters(c.path, want, d);
  }

  lemma BoolFilters(path: string, want: bool, d: B.Doc)
    requires B.NullLike(LookupPath(d, path)) || LookupPath(d, path).value.Boolean?
    ensures Matches(One(path, Cmp(Eq, B.Boolean(want))), d) <==> LookupPath(d, path) == Some(B.Boolean(want))
    ensures Matches(One(path, Cmp(Eq, B.Null)), d) <==> B.NullLike(LookupPath(d, path))
  {
    OneMatches(path, Cmp(Eq, B.Boolean(want)), d);
    OneMatches(path, Cmp(Eq, B.Null), d);
  }

  // ---- predicates whose outcome shows that their columns are present ----

  // If e is FALSE (TRUE), every column it names holds a value.
  predicate FalseNeedsColumns(e: Expr) {
    match e
    case Binary(l, op, r) =>
      op.OpCmp? || (op.OpOr? && FalseNeedsColumns(l) && FalseNeedsColumns(r))
    case Not(i) => TrueNeedsColumns(i)
    case IsNull(_) => true
    case IsNotTrue(_) => true
    case IsNotFalse(_) => true
    case Between(_, _, _, _) => true
    case InList(_, _, _) => true
    case Like(_, _, _, _) => true
    case Column(_) => true
    case Alias(i) => FalseNeedsColumns(i)
    case _ => false
  }

  predicate TrueNeedsColumns(e: Expr) {
    match e
    case Binary(l, op, r) =>
      op.OpCmp? || (op.OpAnd? && TrueNeedsColumns(l) && TrueNeedsColumns(r))
    case Not(i) => FalseNeedsColumns(i)
    case IsNotNull(_) => true
    case IsTrue(_) => true
    case IsFalse(_) => true
    case Between(_, _, _, _) => true
    case InList(_, _, _) => true
    case Like(_, _, _, _) => true
    case Column(_) => true
    case Alias(i) => TrueNeedsColumns(i)
    case _ => false
  }

  // Every negation is of a predicate that is FALSE only where its columns are present.
  predicate NullSafe(e: Expr) {
    match e
    case Binary(l, op, r) => (op.OpAnd? || op.OpOr?) ==> NullSafe(l) && NullSafe(r)
    case Not(i) => FalseNeedsColumns(i)
    case Alias(i) => NullSafe(i)
    case _ => true
  }

  predicate IsLeafPredicate(e: Expr) {
    !(e.Binary? && (e.op.OpAnd? || e.op.OpOr?)) && !e.Not? && !e.Alias?
  }

  // The operand of a predicate that is one column against literals.
  function Operand(e: Expr): Expr
    requires IsLeafPredicate(e)
  {
    match e
    case Binary(l, _, r) => if l.Literal? then r else l
    case IsNull(i) => i
    case IsNotNull(i) => i
    case IsTrue(i) => i
    case IsFalse(i) => i
    case IsNotTrue(i) => i
    case IsNotFalse(i) => i
    case Between(i, _, _, _) => i
    case InList(i, _, _) => i
    case Like(i, _, _, _) => i
    case _ => e
  }

  // A leaf is decided by its filter on every document: TRUE exactly when
  // accepted, and neither TRUE nor FALSE for want of the column.
  ghost predicate LeafMeaning(e: Expr, schema: Schema, d: B.Doc, v: Value)
    requires IsLeafPredicate(e) && Translate(e, schema).Some? && ResolveColumn(Operand(e), schema).Some?
  {
    var x := LookupPath(d, ResolveColumn(Operand(e), schema).value.path);
    var accepted := Matches(Translate(e, schema).value.filter, d);
    && (v == VBool(true) <==> accepted)
    && (!B.NullLike(x) ==> v == VBool(accepted))
    && (B.NullLike(x) && FalseNeedsColumns(e) ==> v != VBool(false))
    && (B.NullLike(x) && TrueNeedsColumns(e) ==> v != VBool(true))
  }

  lemma LeafHasColumn(e: Expr, schema: Schema)
    requires IsLeafPredicate(e) && Translate(e, schema).Some?
    ensures ResolveColumn(Operand(e), schema).Some?
  {
  }

  lemma StrictIsLeaf(e: Expr, schema: Schema, d: B.Doc, r: Rendering)
    requires Setting(schema, d) && InScope(e, schema) && IsLeafPredicate(e) && Translate(e, schema).Some?
    requires e.Binary? || e.Between? || e.InList? || e.Like?
    ensures ResolveColumn(Operand(e), schema).Some?
    ensures LeafMeaning(e, schema, d, Eval(e, schema, DecodeRow(schema, d, r)))
  {
    LeafHasColumn(e, schema);
    match e
    case Binary(l, op, rt) => BinaryComparisonDecides(l, op.op, rt, schema, d, r);
    case Between(i, negated, low, high) => BetweenDecides(i, negated, low, high, schema, d, r);
    case InList(i, list, negated) => InListDecides(i, list, negated, schema, d, r);
    case Like(_, _, _, _) => LikeDecides(e, schema, d, r);
  }

  lemma TestIsLeaf(e: Expr, schema: Schema, d: B.Doc, r: Rendering)
    requires Setting(schema, d) && InScope(e, schema) && IsLeafPredicate(e) && Translate(e, schema).Some?
    requires e.IsNull? || e.IsNotNull?
    ensures ResolveColumn(Operand(e), schema).Some?
    ensures LeafMeaning(e, schema, d, Eval(e, schema, DecodeRow(schema, d, r)))
  {
    LeafHasColumn(e, schema);
    var c := ResolveColumn(e.e, schema).value;
    ColumnMeaning(e.e, schema, d, r);
    DecodedIsNotNull(c, LookupPath(d, c.path), r);
    OneMatches(c.path, Cmp(Eq, B.Null), d);
    OneMatches(c.path, Cmp(Ne, B.Null), d);
  }

  lemma BoolIsLeaf(e: Expr, schema: Schema, d: B.Doc, r: Rendering)
    requires Setting(schema, d) && InScope(e, schema) && IsLeafPredicate(e) && Translate(e, schema).Some?
    requires e.IsTrue? || e.IsFalse? || e.IsNotTrue? || e.IsNotFalse? || e.Column?
    ensures ResolveColumn(Operand(e), schema).Some?
    ensures LeafMeaning(e, schema, d, Eval(e, schema, DecodeRow(schema, d, r)))
  {
    LeafHasColumn(e, schema);
    var i := Operand(e);
    var path := ResolveColumn(i, schema).value.path;
    BoolMeaning(i, schema, d, r, true);
    BoolMeaning(i, schema, d, r, false);
    Or2Matches(One(path, Cmp(Eq, B.Boolean(false))), One(path, Cmp(Eq, B.Null)), d);
    Or2Matches(One(path, Cmp(Eq, B.Boolean(true))), One(path, Cmp(Eq, B.Null)), d);
  }

  lemma LeafIsDecided(e: Expr, schema: Schema, d: B.Doc, r: Rendering)
    requires Setting(schema, d) && InScope(e, schema) && IsLeafPredicate(e) && Translate(e, schema).Some?
    ensures ResolveColumn(Operand(e), schema).Some?
    ensures LeafMeaning(e, schema, d, Eval(e, schema, DecodeRow(schema, d, r)))
  {
    if e.Binary? || e.Between? || e.InList? || e.Like? {
      StrictIsLeaf(e, schema, d, r);
    } else if e.IsNull? || e.IsNotNull? {
      TestIsLeaf(e, schema, d, r);
    } else {
      BoolIsLeaf(e, schema, d, r);
    }
  }

  // A leaf's guards are its one column's.
  lemma LeafGuards(e: Expr, schema: Schema)
    requires IsLeafPredicate(e) && Translate(e, schema).Some? && GuardColumns(e, schema).Some?
    ensures ResolveColumn(Operand(e), schema).Some?
    ensures GuardColumns(e, schema).value == [ResolveColumn(Operand(e), schema).value]
  {
    LeafHasColumn(e, schema);
    OperandGuard(Operand(e), schema);
  }

  lemma LeafDecides(e: Expr, schema: Schema, d: B.Doc, r: Rendering)
    requires Setting(schema, d) && InScope(e, schema) && IsLeafPredicate(e) && Translate(e, schema).Some?
    ensures Decides(e, schema, d, Eval(e, schema, DecodeRow(schema, d, r)))
  {
    LeafIsDecided(e, schema, d, r);
    if GuardColumns(e, schema).Some? {
      LeafGuards(e, schema);
    }
  }

  // ---- exactness ----

  lemma NotMatches(f: Filter, columns: seq<ColumnRef>, d: B.Doc)
    ensures Matches(And([Nor([f])] + Guards(columns)), d) <==> !Matches(f, d) && GuardsHold(columns, d)
  {
    var clauses := [Nor([f])] + Guards(columns);
    assert clauses[0] in clauses && f in [f];
    forall c | c in columns ensures Matches(NotNull(c.path), d) <==> !B.NullLike(LookupPath(d, c.path)) {
      OneMatches(c.path, Cmp(Ne, B.Null), d);
    }
    if Matches(And(clauses), d) {
      forall c | c in columns ensures !B.NullLike(LookupPath(d, c.path)) {
        var i :| 0 <= i < |columns| && columns[i] == c;
        assert clauses[i + 1] in clauses;
      }
    }
    if !Matches(f, d) && GuardsHold(columns, d) {
      forall g | g in clauses ensures Matches(g, d) {
        var i :| 0 <= i < |clauses| && clauses[i] == g;
        if i > 0 {
          assert columns[i - 1] in columns;
        }
      }
    }
  }

  lemma GuardsSplit(a: seq<ColumnRef>, b: seq<ColumnRef>, d: B.Doc)
    ensures GuardsHold(a + b, d) <==> GuardsHold(a, d) && GuardsHold(b, d)
  {
    assert forall c :: c in a + b <==> c in a || c in b;
  }

  // Every exact filter accepts only rows SQL selects, and decides the predicate
  // wherever all of its columns are present.
  lemma {:induction false} ExactFilterDecides(e: Expr, schema: Schema, d: B.Doc, r: Rendering)
    requires Setting(schema, d) && InScope(e, schema)
    ensures Decides(e, schema, d, Eval(e, schema, DecodeRow(schema, d, r)))
    decreases e
  {
    if Translate(e, schema).Some? && Translate(e, schema).value.exact {
      if IsLeafPredicate(e) {
        LeafDecides(e, schema, d, r);
      } else if e.Binary? {
        ExactFilterDecides(e.left, schema, d, r);
        ExactFilterDecides(e.right, schema, d, r);
        JunctionDecides(e, schema, d, r);
      } else {
        ExactFilterDecides(e.e, schema, d, r);
        WrapperDecides(e, schema, d, r);
      }
    }
  }

  // NOT and an alias of what is decided.
  lemma WrapperDecides(e: Expr, schema: Schema, d: B.Doc, r: Rendering)
    requires (e.Not? || e.Alias?) && Translate(e, schema).Some? && Translate(e, schema).value.exact
    requires Decides(e.e, schema, d, Eval(e.e, schema, DecodeRow(schema, d, r)))
    ensures Decides(e, schema, d, Eval(e, schema, DecodeRow(schema, d, r)))
  {
    if e.Not? {
      NotMatches(Translate(e.e, schema).value.filter, GuardColumns(e.e, schema).value, d);
    }
  }

  lemma JunctionDecides(e: Expr, schema: Schema, d: B.Doc, r: Rendering)
    requires e.Binary? && (e.op.OpAnd? || e.op.OpOr?)
    requires Translate(e, schema).Some? && Translate(e, schema).value.exact
    requires Decides(e.left, schema, d, Eval(e.left, schema, DecodeRow(schema, d, r)))
    requires Decides(e.right, schema, d, Eval(e.right, schema, DecodeRow(schema, d, r)))
    ensures Decides(e, schema, d, Eval(e, schema, DecodeRow(schema, d, r)))
  {
    var (f, g) := (Translate(e.left, schema).value.filter, Translate(e.right, schema).value.filter);
    And2Matches(f, g, d);
    Or2Matches(f, g, d);
    if GuardColumns(e, schema).Some? {
      GuardsSplit(GuardColumns(e.left, schema).value, GuardColumns(e.right, schema).value, d);
    }
  }

  // ---- completeness ----

  ghost predicate OutcomeNeedsColumns(e: Expr, schema: Schema, d: B.Doc, v: Value) {
    GuardColumns(e, schema).Some? ==>
      && (FalseNeedsColumns(e) && v == VBool(false) ==> GuardsHold(GuardColumns(e, schema).value, d))
      && (TrueNeedsColumns(e) && v == VBool(true) ==> GuardsHold(GuardColumns(e, schema).value, d))
  }

  lemma {:induction false} OutcomeShowsColumns(e: Expr, schema: Schema, d: B.Doc, r: Rendering)
    requires Setting(schema, d) && InScope(e, schema)
    requires Translate(e, schema).Some? && Translate(e, schema).value.exact
    ensures OutcomeNeedsColumns(e, schema, d, Eval(e, schema, DecodeRow(schema, d, r)))
    decreases e
  {
    if IsLeafPredicate(e) {
      LeafIsDecided(e, schema, d, r);
      if GuardColumns(e, schema).Some? {
        LeafGuards(e, schema);
      }
    } else if e.Binary? {
      OutcomeShowsColumns(e.left, schema, d, r);
      OutcomeShowsColumns(e.right, schema, d, r);
      if GuardColumns(e, schema).Some? {
        GuardsSplit(GuardColumns(e.left, schema).value, GuardColumns(e.right, schema).value, d);
      }
    } else {
      OutcomeShowsColumns(e.e, schema, d, r);
    }
  }

  // A null-safe predicate's filter accepts every row SQL selects, even where a
  // half of a conjunction was dropped.
  lemma {:induction false} FilterIsSuperset(e: Expr, schema: Schema, d: B.Doc, r: Rendering)
    requires Setting(schema, d) && InScope(e, schema) && NullSafe(e) && Translate(e, schema).Some?
    ensures IsTrueOn(e, schema, DecodeRow(schema, d, r)) ==> Matches(Translate(e, schema).value.filter, d)
    decreases e
  {
    if IsLeafPredicate(e) {
      LeafIsDecided(e, schema, d, r);
    } else if e.Binary? {
      JunctionIsSuperset(e, schema, d, r);
    } else if e.Not? {
      ExactFilterDecides(e.e, schema, d, r);
      OutcomeShowsColumns(e.e, schema, d, r);
      NotMatches(Translate(e.e, schema).value.filter, GuardColumns(e.e, schema).value, d);
    } else {
      FilterIsSuperset(e.e, schema, d, r);
    }
  }

  lemma {:induction false} JunctionIsSuperset(e: Expr, schema: Schema, d: B.Doc, r: Rendering)
    requires Setting(schema, d) && InScope(e, schema) && NullSafe(e) && Translate(e, schema).Some?
    requires e.Binary? && (e.op.OpAnd? || e.op.OpOr?)
    ensures IsTrueOn(e, schema, DecodeRow(schema, d, r)) ==> Matches(Translate(e, schema).value.filter, d)
    decreases e, 0
  {
    var (a, b) := (Translate(e.left, schema), Translate(e.right, schema));
    if a.Some? {
      FilterIsSuperset(e.left, schema, d, r);
    }
    if b.Some? {
      FilterIsSuperset(e.right, schema, d, r);
    }
    if a.Some? && b.Some? {
      And2Matches(a.value.filter, b.value.filter, d);
      Or2Matches(a.value.filter, b.value.filter, d);
    }
  }

  // ---- main results ----

  // For every predicate of the fragment and every conforming document: rows SQL
  // selects are accepted, and an exact filter accepts no others.
  lemma PushdownIsFaithful(e: Expr, schema: Schema, d: B.Doc, r: Rendering)
    requires WellFormedSchema(schema) && ConformsDoc(schema, d)
    requires InScope(e, schema) && NullSafe(e) && Translate(e, schema).Some?
    ensures IsTrueOn(e, schema, DecodeRow(schema, d, r)) ==> Matches(Translate(e, schema).value.filter, d)
    ensures Translate(e, schema).value.exact ==>
      (Matches(Translate(e, schema).value.filter, d) <==> IsTrueOn(e, schema, DecodeRow(schema, d, r)))
  {
    FilterIsSuperset(e, schema, d, r);
    ExactFilterDecides(e, schema, d, r);
  }

  // Without null safety an exact filter still accepts no row SQL rejects.
  lemma ExactNeverWidens(e: Expr, schema: Schema, d: B.Doc, r: Rendering)
    requires WellFormedSchema(schema) && ConformsDoc(schema, d) && InScope(e, schema)
    requires Translate(e, schema).Some? && Translate(e, schema).value.exact
    ensures Matches(Translate(e, schema).value.filter, d) ==> IsTrueOn(e, schema, DecodeRow(schema, d, r))
  {
    ExactFilterDecides(e, schema, d, r);
  }

  // A negation's filter agrees with SQL on a document if and only if it is not
  // the case that the operand is FALSE while a column it names is missing or null.
  lemma NegationIsFaithfulIff(i: Expr, schema: Schema, d: B.Doc, r: Rendering)
    requires WellFormedSchema(schema) && ConformsDoc(schema, d) && InScope(Not(i), schema)
    requires Translate(Not(i), schema).Some?
    ensures GuardColumns(i, schema).Some?
    ensures (Matches(Translate(Not(i), schema).value.filter, d) <==> IsTrueOn(Not(i), schema, DecodeRow(schema, d, r)))
      <==> !(Eval(i, schema, DecodeRow(schema, d, r)) == VBool(false) && !GuardsHold(GuardColumns(i, schema).value, d))
  {
    ExactFilterDecides(i, schema, d, r);
    NotMatches(Translate(i, schema).value.filter, GuardColumns(i, schema).value, d);
  }
}
