// SQL predicates and their three-valued evaluation on a decoded row.
module Sql {
  import opened Wrappers
  import opened Arrow
  import opened Convert
  import opened MongoFilter
  import opened LikePattern
  import B = BsonModel

  // Literals: the integer widths up to 64 bits are one case, unsigned 64 another.
  datatype Scalar =
    | SNull
    | SUtf8(s: string)
    | SBool(b: bool)
    | SInt(v: B.i64)
    | SUInt64(n: nat)
    | SFloat(r: real)
    | SSecond(v: B.i64)
    | SMilli(v: B.i64)
    | SMicro(v: B.i64)
    | SNano(v: B.i64)
    | SDate32(days: B.i32)
    | SDate64(ms: B.i64)
    | SDecimal(unscaled: int, scale: int)
    | SOther

  datatype Operator =
    | OpAnd
    | OpOr
    | OpCmp(op: CmpOp)
    | OpOther(apply: (Value, Value) -> Value)

  // `Opaque` is every expression the translator has no arm for, reading some
  // columns; a cast that changes the type converts by a function not modelled.
  datatype Expr =
    | Column(name: string)
    | GetField(base: Expr, key: string)
    | Literal(s: Scalar)
    | Binary(left: Expr, op: Operator, right: Expr)
    | Not(e: Expr)
    | IsNull(e: Expr)
    | IsNotNull(e: Expr)
    | IsTrue(e: Expr)
    | IsFalse(e: Expr)
    | IsNotTrue(e: Expr)
    | IsNotFalse(e: Expr)
    | Between(e: Expr, negated: bool, low: Expr, high: Expr)
    | InList(e: Expr, list: seq<Expr>, negated: bool)
    | Like(e: Expr, pattern: Expr, escape: Option<char>, negated: bool)
    | Alias(e: Expr)
    | Cast(e: Expr, ty: DataType, convert: Value -> Value)
    | Opaque(cols: set<string>, eval: Row -> Value)

  function ScalarValue(s: Scalar): Value {
    match s
    case SNull => VNull
    case SUtf8(t) => VText(t)
    case SBool(b) => VBool(b)
    case SInt(v) => VInt(v)
    case SUInt64(n) => VInt(n)
    case SFloat(r) => VFloat(r)
    case SSecond(v) => VTime(v * 1_000_000_000)
    case SMilli(v) => VTime(v * 1_000_000)
    case SMicro(v) => VTime(v * 1_000)
    case SNano(v) => VTime(v)
    case SDate32(days) => VTime(days * 86_400_000_000_000)
    case SDate64(ms) => VTime(ms * 1_000_000)
    case SDecimal(u, scale) => VDecimal(u, scale)
    case SOther => VNull
  }

  function SqlKey(v: Value): Option<Key> {
    match v
    case VBool(b) => Some(Flag(b))
    case VInt(i) => Some(Number(i as real))
    case VFloat(r) => Some(Number(r))
    case VText(s) => Some(TextKey(s))
    case VTime(n) => Some(Instant(n))
    case _ => None
  }

  // ---- three-valued connectives ----

  function And3(a: Value, b: Value): Value {
    if a == VBool(false) || b == VBool(false) then VBool(false)
    else if a == VBool(true) && b == VBool(true) then VBool(true)
    else VNull
  }

  function Or3(a: Value, b: Value): Value {
    if a == VBool(true) || b == VBool(true) then VBool(true)
    else if a == VBool(false) && b == VBool(false) then VBool(false)
    else VNull
  }

  function Not3(a: Value): Value {
    if a.VBool? then VBool(!a.b) else VNull
  }

  function Negate(negated: bool, a: Value): Value { if negated then Not3(a) else a }

  // NULL if either side is; the planner lets no other kinds meet.
  function CompareValues(op: CmpOp, a: Value, b: Value): Value {
    if SqlKey(a).Some? && SqlKey(b).Some? && SameKind(SqlKey(a).value, SqlKey(b).value)
    then VBool(Compare(op, SqlKey(a).value, SqlKey(b).value))
    else VNull
  }

  function LikeValue(v: Value, pattern: Value, escape: Option<char>): Value {
    if v.VText? && pattern.VText? && !Dangling(pattern.s, escape)
    then VBool(LikeMatches(pattern.s, escape, v.s))
    else VNull
  }

  function FieldOf(v: Value, key: string): Value {
    if v.VStruct? then FirstNamed(v.fields, key) else VNull
  }

  function FirstNamed(fields: seq<(string, Value)>, key: string): Value {
    if fields == [] then VNull
    else if fields[0].0 == key then fields[0].1
    else FirstNamed(fields[1..], key)
  }

  // ---- evaluation ----

  // The static type of a column expression.
  function ExprType(e: Expr, schema: Schema): Option<DataType> {
    match e
    case Column(name) =>
      var f :- FindField(schema, name);
      Some(f.ty)
    case GetField(base, key) =>
      var t :- ExprType(base, schema);
      if !t.StructType? then None
      else
        var f :- FindField(t.children, key);
        Some(f.ty)
    case Alias(inner) => ExprType(inner, schema)
    case Cast(_, ty, _) => Some(ty)
    case _ => None
  }

  function EvalList(v: Value, list: seq<Expr>, schema: Schema, row: Row): Value
    decreases list
  {
    if list == [] then VBool(false)
    else Or3(CompareValues(Eq, v, Eval(list[0], schema, row)), EvalList(v, list[1..], schema, row))
  }

  function Eval(e: Expr, schema: Schema, row: Row): Value
    decreases e
  {
    match e
    case Column(name) => if name in row then row[name] else VNull
    case GetField(base, key) => FieldOf(Eval(base, schema, row), key)
    case Literal(s) => ScalarValue(s)
    case Binary(l, op, r) =>
      var (a, b) := (Eval(l, schema, row), Eval(r, schema, row));
      (match op
       case OpAnd => And3(a, b)
       case OpOr => Or3(a, b)
       case OpCmp(c) => CompareValues(c, a, b)
       case OpOther(apply) => apply(a, b))
    case Not(i) => Not3(Eval(i, schema, row))
    case IsNull(i) => VBool(Eval(i, schema, row).VNull?)
    case IsNotNull(i) => VBool(!Eval(i, schema, row).VNull?)
    case IsTrue(i) => VBool(Eval(i, schema, row) == VBool(true))
    case IsFalse(i) => VBool(Eval(i, schema, row) == VBool(false))
    case IsNotTrue(i) => VBool(Eval(i, schema, row) != VBool(true))
    case IsNotFalse(i) => VBool(Eval(i, schema, row) != VBool(false))
    case Between(i, negated, low, high) =>
      var v := Eval(i, schema, row);
      Negate(negated, And3(CompareValues(Gte, v, Eval(low, schema, row)),
                           CompareValues(Lte, v, Eval(high, schema, row))))
    case InList(i, list, negated) =>
      var v := Eval(i, schema, row);
      if v.VNull? then VNull else Negate(negated, EvalList(v, list, schema, row))
    case Like(i, pattern, escape, negated) =>
      Negate(negated, LikeValue(Eval(i, schema, row), Eval(pattern, schema, row), escape))
    case Alias(i) => Eval(i, schema, row)
    case Cast(i, ty, convert) =>
      var v := Eval(i, schema, row);
      if ExprType(i, schema) == Some(ty) then v else convert(v)
    case Opaque(cols, eval) => eval(map c | c in cols && c in row :: row[c])
  }

  predicate IsTrueOn(e: Expr, schema: Schema, row: Row) {
    Eval(e, schema, row) == VBool(true)
  }

  // ---- a predicate depends on the columns it names ----

  function ColumnsOf(e: Expr): set<string>
    decreases e
  {
    match e
    case Column(name) => {name}
    case GetField(base, _) => ColumnsOf(base)
    case Literal(_) => {}
    case Binary(l, _, r) => ColumnsOf(l) + ColumnsOf(r)
    case Not(i) => ColumnsOf(i)
    case IsNull(i) => ColumnsOf(i)
    case IsNotNull(i) => ColumnsOf(i)
    case IsTrue(i) => ColumnsOf(i)
    case IsFalse(i) => ColumnsOf(i)
    case IsNotTrue(i) => ColumnsOf(i)
    case IsNotFalse(i) => ColumnsOf(i)
    case Between(i, _, low, high) => ColumnsOf(i) + ColumnsOf(low) + ColumnsOf(high)
    case InList(i, list, _) => ColumnsOf(i) + ColumnsOfList(list)
    case Like(i, pattern, _, _) => ColumnsOf(i) + ColumnsOf(pattern)
    case Alias(i) => ColumnsOf(i)
    case Cast(i, _, _) => ColumnsOf(i)
    case Opaque(cols, _) => cols
  }

  function ColumnsOfList(list: seq<Expr>): set<string>
    decreases list
  {
    if list == [] then {} else ColumnsOf(list[0]) + ColumnsOfList(list[1..])
  }

  ghost predicate AgreeOn(a: Row, b: Row, cols: set<string>) {
    forall c :: c in cols ==> (c in a <==> c in b) && (c in a ==> a[c] == b[c])
  }

  ghost predicate SameFieldsOn(s: Schema, t: Schema, cols: set<string>) {
    forall c :: c in cols ==> FindField(s, c) == FindField(t, c)
  }

  lemma {:induction false} TypeDependsOnColumns(e: Expr, s: Schema, t: Schema)
    requires SameFieldsOn(s, t, ColumnsOf(e))
    ensures ExprType(e, s) == ExprType(e, t)
  {
    match e
    case GetField(base, _) => TypeDependsOnColumns(base, s, t);
    case Alias(i) => TypeDependsOnColumns(i, s, t);
    case _ =>
  }

  // NOT, the tests and an alias have one operand.
  predicate IsUnary(e: Expr) {
    e.Not? || e.IsNull? || e.IsNotNull? || e.IsTrue? || e.IsFalse? || e.IsNotTrue? || e.IsNotFalse? || e.Alias?
  }

  lemma {:induction false} EvalDependsOnColumns(e: Expr, s: Schema, a: Row, t: Schema, b: Row)
    requires AgreeOn(a, b, ColumnsOf(e)) && SameFieldsOn(s, t, ColumnsOf(e))
    ensures Eval(e, s, a) == Eval(e, t, b)
    decreases e, 1
  {
    if IsUnary(e) {
      EvalDependsOnColumns(e.e, s, a, t, b);
    } else if e.Binary? || e.Between? || e.InList? || e.Like? {
      OperandsDependOnColumns(e, s, a, t, b);
    } else {
      match e
      case GetField(base, _) => EvalDependsOnColumns(base, s, a, t, b);
      case Cast(i, _, _) =>
        TypeDependsOnColumns(i, s, t);
        EvalDependsOnColumns(i, s, a, t, b);
      case Opaque(cols, _) =>
        assert (map c | c in cols && c in a :: a[c]) == (map c | c in cols && c in b :: b[c]);
      case _ =>
    }
  }

  lemma {:induction false} OperandsDependOnColumns(e: Expr, s: Schema, a: Row, t: Schema, b: Row)
    requires e.Binary? || e.Between? || e.InList? || e.Like?
    requires AgreeOn(a, b, ColumnsOf(e)) && SameFieldsOn(s, t, ColumnsOf(e))
    ensures Eval(e, s, a) == Eval(e, t, b)
    decreases e, 0
  {
    match e
    case Binary(l, _, r) =>
      EvalDependsOnColumns(l, s, a, t, b);
      EvalDependsOnColumns(r, s, a, t, b);
    case Between(i, _, low, high) =>
      EvalDependsOnColumns(i, s, a, t, b);
      EvalDependsOnColumns(low, s, a, t, b);
      EvalDependsOnColumns(high, s, a, t, b);
    case InList(i, list, _) =>
      EvalDependsOnColumns(i, s, a, t, b);
      ListDependsOnColumns(Eval(i, s, a), list, s, a, t, b);
    case Like(i, pattern, _, _) =>
      EvalDependsOnColumns(i, s, a, t, b);
      EvalDependsOnColumns(pattern, s, a, t, b);
  }

  lemma {:induction false} ListDependsOnColumns(v: Value, list: seq<Expr>, s: Schema, a: Row, t: Schema, b: Row)
    requires AgreeOn(a, b, ColumnsOfList(list)) && SameFieldsOn(s, t, ColumnsOfList(list))
    ensures EvalList(v, list, s, a) == EvalList(v, list, t, b)
    decreases list
  {
    if list != [] {
      EvalDependsOnColumns(list[0], s, a, t, b);
      ListDependsOnColumns(v, list[1..], s, a, t, b);
    }
  }
}
