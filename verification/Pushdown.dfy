// Translating SQL predicates into `$match` filters.
module Pushdown {
  import opened Wrappers
  import opened Arrow
  import opened Sql
  import opened MongoFilter
  import opened LikePattern
  import B = BsonModel
  import Text

  // `exact` tells the planner it may drop its own copy of the predicate.
  datatype Translated = Translated(filter: Filter, exact: bool)

  // A column as Mongo knows it.
  datatype ColumnRef = ColumnRef(path: string, tag: BsonTag, ty: DataType, mixed: bool)

  function ColumnRefOf(f: Field): ColumnRef {
    ColumnRef(PathOf(f), TagOf(f), f.ty, IsMixed(f))
  }

  // The column a field of a struct column is.
  function FieldColumn(parent: ColumnRef, child: Field): ColumnRef {
    var c := ColumnRefOf(child);
    c.(path := if c.path == child.name then parent.path + "." + child.name else c.path,
       mixed := c.mixed || parent.mixed)
  }

  function ResolveColumn(e: Expr, schema: Schema): Option<ColumnRef> {
    match e
    case Column(name) =>
      var f :- FindField(schema, name);
      Some(ColumnRefOf(f))
    case Alias(i) => ResolveColumn(i, schema)
    case Cast(i, ty, _) =>
      var c :- ResolveColumn(i, schema);
      if ty == c.ty then Some(c) else None
    case GetField(base, key) =>
      var parent :- ResolveColumn(base, schema);
      if !parent.ty.StructType? then None
      else
        var child :- FindField(parent.ty.children, key);
        Some(FieldColumn(parent, child))
    case _ => None
  }

  // ---- literals in the representation the column stores ----

  predicate IsHex(c: char) { '0' <= c <= '9' || 'a' <= c <= 'f' || 'A' <= c <= 'F' }

  predicate IsOidSpelling(s: string) { |s| == 24 && forall c :: c in s ==> IsHex(c) }

  lemma {:induction false} LowerHexIsHex(s: string)
    requires forall c :: c in s ==> IsHex(c)
    ensures |Text.LowerAscii(s)| == |s| && forall c :: c in Text.LowerAscii(s) ==> B.IsLowerHex(c)
  {
    if s != "" {
      LowerHexIsHex(s[1..]);
      assert s[0] in s && IsHex(s[0]);
      assert B.IsLowerHex(Text.LowerAscii(s)[0]);
    }
  }

  // An ObjectId may be spelled in either case.
  function ParseOid(s: string): Option<B.Oid> {
    if IsOidSpelling(s) then
      LowerHexIsHex(s);
      Some(Text.LowerAscii(s))
    else None
  }

  function IntLiteral(v: B.i64, tag: BsonTag): B.Bson {
    match tag
    case TagInt32 => if B.FitsI32(v) then B.Int32(v) else B.Int64(v)
    case TagDouble => B.Double(v as real)
    case _ => B.Int64(v)
  }

  function Millis(ms: int): Option<B.Bson> {
    if B.FitsI64(ms) then Some(B.DateTime(ms)) else None
  }

  function ScalarToBson(s: Scalar, tag: BsonTag): Option<B.Bson> {
    match s
    case SNull => None
    case SUtf8(t) =>
      if tag.TagObjectId? then
        var oid :- ParseOid(t);
        Some(B.ObjectId(oid))
      else Some(B.String(t))
    case SBool(b) => Some(B.Boolean(b))
    case SInt(v) => Some(IntLiteral(v, tag))
    case SUInt64(n) => if B.FitsI64(n) then Some(IntLiteral(n, tag)) else None
    case SFloat(r) => Some(B.Double(r))
    case SMilli(v) => Millis(v)
    case SMicro(v) => Millis(v / 1_000)
    case SNano(v) => Millis(v / 1_000_000)
    case SSecond(v) => Millis(v * 1_000)
    case SDate32(days) => Millis(days * 86_400_000)
    case SDate64(ms) => Millis(ms)
    case SDecimal(_, _) => None
    case SOther => None
  }

  function LiteralOf(e: Expr, c: ColumnRef): Option<B.Bson> {
    if e.Literal? then ScalarToBson(e.s, c.tag) else None
  }

  function LiteralsOf(list: seq<Expr>, c: ColumnRef): Option<seq<B.Bson>> {
    if list == [] then Some([])
    else
      var first :- LiteralOf(list[0], c);
      var rest :- LiteralsOf(list[1..], c);
      Some([first] + rest)
  }

  // ---- null guards ----

  // The columns a predicate refers to; None if a leaf cannot be resolved.
  function GuardColumns(e: Expr, schema: Schema): Option<seq<ColumnRef>> {
    match e
    case Column(_) =>
      var c :- ResolveColumn(e, schema);
      Some([c])
    case GetField(_, _) =>
      var c :- ResolveColumn(e, schema);
      Some([c])
    case Literal(_) => Some([])
    case Binary(l, _, r) => Both(GuardColumns(l, schema), GuardColumns(r, schema))
    case Not(i) => GuardColumns(i, schema)
    case IsNull(i) => GuardColumns(i, schema)
    case IsNotNull(i) => GuardColumns(i, schema)
    case IsTrue(i) => GuardColumns(i, schema)
    case IsFalse(i) => GuardColumns(i, schema)
    case IsNotTrue(i) => GuardColumns(i, schema)
    case IsNotFalse(i) => GuardColumns(i, schema)
    case Between(i, _, low, high) =>
      Both(GuardColumns(i, schema), Both(GuardColumns(low, schema), GuardColumns(high, schema)))
    case InList(i, _, _) => GuardColumns(i, schema)
    case Like(i, _, _, _) => GuardColumns(i, schema)
    case Alias(i) => GuardColumns(i, schema)
    case _ => None
  }

  // The walk of the source, which pushes each guard onto a growing list.
  method CollectGuards(e: Expr, schema: Schema, out: seq<ColumnRef>) returns (found: bool, grown: seq<ColumnRef>)
    ensures found <==> GuardColumns(e, schema).Some?
    ensures found ==> grown == out + GuardColumns(e, schema).value
    decreases e
  {
    found, grown := false, out;
    match e
    case Literal(_) => found := true;
    case Binary(l, _, r) =>
      found, grown := CollectGuards(l, schema, out);
      if found {
        found, grown := CollectGuards(r, schema, grown);
      }
    case Not(i) => found, grown := CollectGuards(i, schema, out);
    case IsNull(i) => found, grown := CollectGuards(i, schema, out);
    case IsNotNull(i) => found, grown := CollectGuards(i, schema, out);
    case IsTrue(i) => found, grown := CollectGuards(i, schema, out);
    case IsFalse(i) => found, grown := CollectGuards(i, schema, out);
    case IsNotTrue(i) => found, grown := CollectGuards(i, schema, out);
    case IsNotFalse(i) => found, grown := CollectGuards(i, schema, out);
    case Between(i, _, low, high) =>
      found, grown := CollectGuards(i, schema, out);
      if found {
        found, grown := CollectGuards(low, schema, grown);
      }
      if found {
        found, grown := CollectGuards(high, schema, grown);
      }
    case InList(i, _, _) => found, grown := CollectGuards(i, schema, out);
    case Like(i, _, _, _) => found, grown := CollectGuards(i, schema, out);
    case Alias(i) => found, grown := CollectGuards(i, schema, out);
    case Column(_) => found, grown := PushGuard(e, schema, out);
    case GetField(_, _) => found, grown := PushGuard(e, schema, out);
    case _ =>
  }

  method PushGuard(e: Expr, schema: Schema, out: seq<ColumnRef>) returns (found: bool, grown: seq<ColumnRef>)
    ensures found <==> ResolveColumn(e, schema).Some?
    ensures found ==> grown == out + [ResolveColumn(e, schema).value]
  {
    var c := ResolveColumn(e, schema);
    found, grown := c.Some?, out;
    if c.Some? {
      grown := out + [c.value];
    }
  }

  function Both(a: Option<seq<ColumnRef>>, b: Option<seq<ColumnRef>>): Option<seq<ColumnRef>> {
    if a.Some? && b.Some? then Some(a.value + b.value) else None
  }

  function Guards(columns: seq<ColumnRef>): (filters: seq<Filter>)
    ensures |filters| == |columns| && forall i :: 0 <= i < |columns| ==> filters[i] == NotNull(columns[i].path)
  {
    seq(|columns|, i requires 0 <= i < |columns| => NotNull(columns[i].path))
  }

  function ExcludeNull(path: string, f: Filter): Filter { And([f, NotNull(path)]) }

  // ---- translation ----

  function BoolTest(e: Expr, schema: Schema, want: bool): Option<Translated> {
    var c :- ResolveColumn(e, schema);
    if c.ty.BooleanType? then Some(Translated(One(c.path, Cmp(Eq, B.Boolean(want))), !c.mixed)) else None
  }

  function NotBoolTest(e: Expr, schema: Schema, other: bool): Option<Translated> {
    var c :- ResolveColumn(e, schema);
    if c.ty.BooleanType? then
      Some(Translated(Or([One(c.path, Cmp(Eq, B.Boolean(other))), One(c.path, Cmp(Eq, B.Null))]), true))
    else None
  }

  function Flip(op: CmpOp): CmpOp {
    match op
    case Lt => Gt
    case Lte => Gte
    case Gt => Lt
    case Gte => Lte
    case _ => op
  }

  function CompareFilter(path: string, op: CmpOp, v: B.Bson): Filter {
    if op.Ne? then ExcludeNull(path, One(path, Cmp(Ne, v))) else One(path, Cmp(op, v))
  }

  // `column op literal`, in whichever order the planner left them.
  function TranslateComparison(column: Expr, op: CmpOp, literal: Expr, schema: Schema): Option<Translated> {
    var c :- ResolveColumn(column, schema);
    var v :- LiteralOf(literal, c);
    Some(Translated(CompareFilter(c.path, op, v), !c.mixed))
  }

  function TranslateLike(e: Expr, schema: Schema): Option<Translated>
    requires e.Like?
  {
    var c :- ResolveColumn(e.e, schema);
    if !(c.ty.Utf8Type? || c.ty.LargeUtf8Type?) || !(e.pattern.Literal? && e.pattern.s.SUtf8?) then None
    else
      var regex :- LikeRegex(e.pattern.s.s, e.escape);
      var filter := if e.negated then ExcludeNull(c.path, One(c.path, NotRegex(regex))) else One(c.path, Regex(regex));
      Some(Translated(filter, !c.mixed))
  }

  function Translate(e: Expr, schema: Schema): Option<Translated>
    decreases e
  {
    match e
    case Binary(l, op, r) =>
      (match op
       case OpAnd =>
         var (a, b) := (Translate(l, schema), Translate(r, schema));
         if a.Some? && b.Some? then
           Some(Translated(And([a.value.filter, b.value.filter]), a.value.exact && b.value.exact))
         else if a.Some? then Some(a.value.(exact := false))
         else if b.Some? then Some(b.value.(exact := false))
         else None
       case OpOr =>
         var a :- Translate(l, schema);
         var b :- Translate(r, schema);
         Some(Translated(Or([a.filter, b.filter]), a.exact && b.exact))
       case OpCmp(op) =>
         if !l.Literal? && r.Literal? then TranslateComparison(l, op, r, schema)
         else if l.Literal? && !r.Literal? then TranslateComparison(r, Flip(op), l, schema)
         else None
       case OpOther(_) => None)
    case Not(i) =>
      var t :- Translate(i, schema);
      var guards :- GuardColumns(i, schema);
      Some(Translated(And([Nor([t.filter])] + Guards(guards)), t.exact))
    case IsNull(i) =>
      var c :- ResolveColumn(i, schema);
      Some(Translated(One(c.path, Cmp(Eq, B.Null)), true))
    case IsNotNull(i) =>
      var c :- ResolveColumn(i, schema);
      Some(Translated(NotNull(c.path), true))
    case IsTrue(i) => BoolTest(i, schema, true)
    case IsFalse(i) => BoolTest(i, schema, false)
    case IsNotTrue(i) => NotBoolTest(i, schema, false)
    case IsNotFalse(i) => NotBoolTest(i, schema, true)
    case Between(i, negated, low, high) =>
      var c :- ResolveColumn(i, schema);
      var lo :- LiteralOf(low, c);
      var hi :- LiteralOf(high, c);
      var filter :=
        if negated then ExcludeNull(c.path, Or([One(c.path, Cmp(Lt, lo)), One(c.path, Cmp(Gt, hi))]))
        else On(c.path, [Cmp(Gte, lo), Cmp(Lte, hi)]);
      Some(Translated(filter, !c.mixed))
    case InList(i, list, negated) =>
      var c :- ResolveColumn(i, schema);
      var values :- LiteralsOf(list, c);
      var filter := if negated then ExcludeNull(c.path, One(c.path, Nin(values))) else One(c.path, In(values));
      Some(Translated(filter, !c.mixed))
    case Like(_, _, _, _) => TranslateLike(e, schema)
    case Column(_) => BoolTest(e, schema, true)
    case Alias(i) => Translate(i, schema)
    case _ => None
  }

  // ---- several predicates in one `$match` ----

  function Filters(ts: seq<Translated>): (fs: seq<Filter>)
    ensures |fs| == |ts| && forall i :: 0 <= i < |ts| ==> fs[i] == ts[i].filter
  {
    seq(|ts|, i requires 0 <= i < |ts| => ts[i].filter)
  }

  function Combine(ts: seq<Translated>): Option<Filter> {
    if |ts| == 0 then None
    else if |ts| == 1 then Some(ts[0].filter)
    else Some(And(Filters(ts)))
  }

  predicate MatchesAll(f: Option<Filter>, d: B.Doc) {
    f.Some? ==> Matches(f.value, d)
  }

  lemma CombineConjoins(ts: seq<Translated>, d: B.Doc)
    ensures MatchesAll(Combine(ts), d) <==> forall t :: t in ts ==> Matches(t.filter, d)
  {
    if |ts| > 1 {
      var fs := Filters(ts);
      forall f | f in fs ensures exists t :: t in ts && t.filter == f {
        var i :| 0 <= i < |fs| && fs[i] == f;
        assert ts[i] in ts;
      }
      forall t | t in ts ensures t.filter in fs {
        var i :| 0 <= i < |ts| && ts[i] == t;
        assert fs[i] in fs;
      }
    }
  }
}
