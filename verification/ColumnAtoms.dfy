// Comparisons, BETWEEN and IN of one column against literals: how SQL and the
// filter answer, for values of the literals' kind and of any other.
module ColumnAtoms {
  import opened Wrappers
  import opened Arrow
  import opened Convert
  import opened Sql
  import opened MongoFilter
  import opened Pushdown
  import opened PushdownLaws
  import opened PushdownFindings
  import B = BsonModel

  // A row the filter accepts and SQL does not select.
  ghost predicate AddsRow(e: Expr, schema: Schema, d: B.Doc, r: Rendering) {
    && Translate(e, schema).Some?
    && !IsTrueOn(e, schema, DecodeRow(schema, d, r))
    && Matches(Translate(e, schema).value.filter, d)
  }

  // ---- one column against literals ----

  // A comparison, BETWEEN or IN.
  predicate IsAtom(e: Expr) { (e.Binary? && e.op.OpCmp?) || e.Between? || e.InList? }

  function AtomLiterals(e: Expr): seq<Expr>
    requires IsAtom(e)
  {
    match e
    case Binary(l, _, rt) => [if l.Literal? then l else rt]
    case Between(_, _, low, high) => [low, high]
    case InList(_, list, _) => list
  }

  lemma {:induction false} ListTranslates(list: seq<Expr>, c: ColumnRef)
    requires LiteralsOf(list, c).Some?
    ensures |LiteralsOf(list, c).value| == |list|
    ensures forall i :: 0 <= i < |list| ==> LiteralOf(list[i], c) == Some(LiteralsOf(list, c).value[i])
  {
    if list != [] {
      ListTranslates(list[1..], c);
    }
  }

  lemma AtomTranslates(e: Expr, schema: Schema)
    requires IsAtom(e) && Translate(e, schema).Some?
    ensures ResolveColumn(Operand(e), schema).Some?
    ensures forall l :: l in AtomLiterals(e) ==> LiteralOf(l, ResolveColumn(Operand(e), schema).value).Some?
  {
    if e.InList? {
      ListTranslates(e.list, ResolveColumn(e.e, schema).value);
    }
  }

  // The value the column holds in the document.
  function AtomValue(e: Expr, schema: Schema, d: B.Doc): Option<B.Bson>
    requires IsAtom(e) && ResolveColumn(Operand(e), schema).Some?
  {
    LookupPath(d, ResolveColumn(Operand(e), schema).value.path)
  }

  function KeyOfLiteral(l: Expr): Option<Key> { if l.Literal? then SqlKey(ScalarValue(l.s)) else None }

  predicate KeyFits(l: Expr, k: Key) { KeyOfLiteral(l).Some? && SameKind(k, KeyOfLiteral(l).value) }

  ghost predicate KeysFit(e: Expr, k: Key)
    requires IsAtom(e)
  {
    forall l :: l in AtomLiterals(e) ==> KeyFits(l, k)
  }

  // What SQL says of a column whose value has that key.
  ghost predicate KeyVerdict(e: Expr, k: Key)
    requires IsAtom(e) && KeysFit(e, k)
  {
    match e
    case Binary(l, op, rt) =>
      assert KeyFits(if l.Literal? then l else rt, k);
      if l.Literal? then Compare(op.op, KeyOfLiteral(l).value, k) else Compare(op.op, k, KeyOfLiteral(rt).value)
    case Between(_, negated, low, high) =>
      assert KeyFits(low, k) && KeyFits(high, k);
      negated != (Compare(Gte, k, KeyOfLiteral(low).value) && Compare(Lte, k, KeyOfLiteral(high).value))
    case InList(_, list, negated) => negated != exists l :: l in list && KeyOfLiteral(l) == Some(k)
  }

  // What Mongo says of a value outside the literals' bracket.
  predicate ForeignVerdict(e: Expr)
    requires IsAtom(e)
  {
    match e
    case Binary(_, op, _) => op.op.Ne?
    case Between(_, _, _, _) => false
    case InList(_, _, negated) => negated
  }

  lemma {:induction false} ListVerdict(v: Value, list: seq<Expr>, schema: Schema, row: Row, k: Key)
    requires SqlKey(v) == Some(k) && forall l :: l in list ==> KeyFits(l, k)
    ensures EvalList(v, list, schema, row) == VBool(exists l :: l in list && KeyOfLiteral(l) == Some(k))
  {
    if list != [] {
      assert list[0] in list && KeyFits(list[0], k);
      ListVerdict(v, list[1..], schema, row, k);
      assert forall l :: l in list <==> l == list[0] || l in list[1..];
    }
  }

  lemma SqlVerdict(e: Expr, schema: Schema, row: Row, k: Key)
    requires IsAtom(e) && KeysFit(e, k) && Translate(e, schema).Some?
    requires SqlKey(Eval(Operand(e), schema, row)) == Some(k)
    ensures Eval(e, schema, row) == VBool(KeyVerdict(e, k))
  {
    match e
    case Binary(l, _, rt) => BinaryVerdict(e, schema, row, k);
    case Between(_, _, low, high) =>
      assert low in AtomLiterals(e) && high in AtomLiterals(e);
      assert KeyFits(low, k) && KeyFits(high, k);
    case InList(i, list, _) => ListVerdict(Eval(i, schema, row), list, schema, row, k);
  }

  lemma BinaryVerdict(e: Expr, schema: Schema, row: Row, k: Key)
    requires e.Binary? && IsAtom(e) && KeysFit(e, k) && Translate(e, schema).Some?
    requires SqlKey(Eval(Operand(e), schema, row)) == Some(k)
    ensures Eval(e, schema, row) == VBool(KeyVerdict(e, k))
  {
    assert AtomLiterals(e)[0] in AtomLiterals(e);
    assert KeyFits(AtomLiterals(e)[0], k);
  }

  // How a value stands to the literals as Mongo has them: in their bracket with
  // SQL's keys, or outside it.
  ghost predicate Native(l: Expr, c: ColumnRef, x: B.Bson) {
    LiteralOf(l, c).Some? && SameBracket(x, LiteralOf(l, c).value) && BsonKey(LiteralOf(l, c).value) == KeyOfLiteral(l)
  }

  ghost predicate Foreign(l: Expr, c: ColumnRef, x: B.Bson) {
    LiteralOf(l, c).Some? && !SameBracket(x, LiteralOf(l, c).value) && x != LiteralOf(l, c).value
  }

  lemma FlipKeys(op: CmpOp, a: Key, b: Key)
    requires SameKind(a, b)
    ensures Compare(op, a, b) <==> Compare(Flip(op), b, a)
  {
  }

  lemma BinaryFilter(e: Expr, schema: Schema, d: B.Doc)
    requires e.Binary? && IsAtom(e) && Translate(e, schema).Some? && ResolveColumn(Operand(e), schema).Some?
    requires LiteralOf(AtomLiterals(e)[0], ResolveColumn(Operand(e), schema).value).Some?
    ensures Matches(Translate(e, schema).value.filter, d) <==>
      CondHolds(if e.left.Literal? then Flip(e.op.op) else e.op.op,
                LiteralOf(AtomLiterals(e)[0], ResolveColumn(Operand(e), schema).value).value, AtomValue(e, schema, d))
  {
    var c := ResolveColumn(Operand(e), schema).value;
    var b := LiteralOf(AtomLiterals(e)[0], c).value;
    CompareFilterMatches(c.path, if e.left.Literal? then Flip(e.op.op) else e.op.op, b, d);
  }

  ghost predicate AllNative(e: Expr, schema: Schema, x: B.Bson)
    requires IsAtom(e) && ResolveColumn(Operand(e), schema).Some?
  {
    forall l :: l in AtomLiterals(e) ==> Native(l, ResolveColumn(Operand(e), schema).value, x)
  }

  ghost predicate AllForeign(e: Expr, schema: Schema, x: B.Bson)
    requires IsAtom(e) && ResolveColumn(Operand(e), schema).Some?
  {
    forall l :: l in AtomLiterals(e) ==> Foreign(l, ResolveColumn(Operand(e), schema).value, x)
  }

  // A filter compares a native value by its key.
  lemma NativeFilter(e: Expr, schema: Schema, d: B.Doc, k: Key)
    requires IsAtom(e) && Translate(e, schema).Some? && ResolveColumn(Operand(e), schema).Some? && KeysFit(e, k)
    requires var x := AtomValue(e, schema, d);
      !B.NullLike(x) && BsonKey(x.value) == Some(k) && AllNative(e, schema, x.value)
    ensures Matches(Translate(e, schema).value.filter, d) <==> KeyVerdict(e, k)
  {
    match e
    case Binary(_, _, _) => NativeBinary(e, schema, d, k);
    case Between(_, _, _, _) => NativeBetween(e, schema, d, k);
    case InList(_, _, _) => NativeList(e, schema, d, k);
  }

  lemma NativeBinary(e: Expr, schema: Schema, d: B.Doc, k: Key)
    requires e.Binary? && IsAtom(e) && Translate(e, schema).Some? && ResolveColumn(Operand(e), schema).Some?
    requires KeysFit(e, k)
    requires var x := AtomValue(e, schema, d);
      !B.NullLike(x) && BsonKey(x.value) == Some(k) && AllNative(e, schema, x.value)
    ensures Matches(Translate(e, schema).value.filter, d) <==> KeyVerdict(e, k)
  {
    var (c, x) := (ResolveColumn(Operand(e), schema).value, AtomValue(e, schema, d).value);
    var l := AtomLiterals(e)[0];
    assert l in AtomLiterals(e);
    assert Native(l, c, x) && KeyFits(l, k);
    BinaryFilter(e, schema, d);
    KeyAtom(if e.left.Literal? then Flip(e.op.op) else e.op.op, x, LiteralOf(l, c).value);
    FlipKeys(e.op.op, KeyOfLiteral(l).value, k);
  }

  lemma NativeBetween(e: Expr, schema: Schema, d: B.Doc, k: Key)
    requires e.Between? && Translate(e, schema).Some? && ResolveColumn(Operand(e), schema).Some? && KeysFit(e, k)
    requires var x := AtomValue(e, schema, d);
      !B.NullLike(x) && BsonKey(x.value) == Some(k) && AllNative(e, schema, x.value)
    ensures Matches(Translate(e, schema).value.filter, d) <==> KeyVerdict(e, k)
  {
    var (c, x) := (ResolveColumn(e.e, schema).value, AtomValue(e, schema, d).value);
    assert e.low in AtomLiterals(e) && e.high in AtomLiterals(e);
    assert Native(e.low, c, x) && Native(e.high, c, x) && KeyFits(e.low, k) && KeyFits(e.high, k);
    var (lo, hi) := (LiteralOf(e.low, c).value, LiteralOf(e.high, c).value);
    BetweenMatches(c.path, lo, hi, d);
    KeyAtom(Gte, x, lo);
    KeyAtom(Lte, x, hi);
    KeyAtom(Lt, x, lo);
    KeyAtom(Gt, x, hi);
    KeyTotal(k, KeyOfLiteral(e.low).value);
    KeyTotal(k, KeyOfLiteral(e.high).value);
  }

  lemma NativeList(e: Expr, schema: Schema, d: B.Doc, k: Key)
    requires e.InList? && Translate(e, schema).Some? && ResolveColumn(Operand(e), schema).Some? && KeysFit(e, k)
    requires var x := AtomValue(e, schema, d);
      !B.NullLike(x) && BsonKey(x.value) == Some(k) && AllNative(e, schema, x.value)
    ensures Matches(Translate(e, schema).value.filter, d) <==> KeyVerdict(e, k)
  {
    var (c, x) := (ResolveColumn(e.e, schema).value, AtomValue(e, schema, d));
    var values := LiteralsOf(e.list, c).value;
    InListMatches(c.path, values, d);
    ListTranslates(e.list, c);
    forall i | 0 <= i < |values| ensures EqualTo(x, values[i]) <==> KeyOfLiteral(e.list[i]) == Some(k) {
      assert e.list[i] in AtomLiterals(e);
      assert Native(e.list[i], c, x.value);
      KeyAtom(Eq, x.value, values[i]);
    }
    if l :| l in e.list && KeyOfLiteral(l) == Some(k) {
      var i :| 0 <= i < |e.list| && e.list[i] == l;
      assert values[i] in values && EqualTo(x, values[i]);
    }
    if b :| b in values && EqualTo(x, b) {
      var i :| 0 <= i < |values| && values[i] == b;
      assert e.list[i] in e.list && KeyOfLiteral(e.list[i]) == Some(k);
    }
  }

  // Of a foreign value only <> and NOT IN hold.
  lemma ForeignFilter(e: Expr, schema: Schema, d: B.Doc)
    requires IsAtom(e) && Translate(e, schema).Some? && ResolveColumn(Operand(e), schema).Some?
    requires var x := AtomValue(e, schema, d); !B.NullLike(x) && AllForeign(e, schema, x.value)
    ensures Matches(Translate(e, schema).value.filter, d) <==> ForeignVerdict(e)
  {
    var (c, x) := (ResolveColumn(Operand(e), schema).value, AtomValue(e, schema, d));
    match e
    case Binary(l, op, rt) =>
      var literal := AtomLiterals(e)[0];
      assert literal in AtomLiterals(e);
      assert Foreign(literal, c, x.value);
      BinaryFilter(e, schema, d);
      ForeignFails(if l.Literal? then Flip(op.op) else op.op, x.value, literal, c);
    case Between(_, _, low, high) =>
      assert low in AtomLiterals(e) && high in AtomLiterals(e);
      assert Foreign(low, c, x.value) && Foreign(high, c, x.value);
      BetweenMatches(c.path, LiteralOf(low, c).value, LiteralOf(high, c).value, d);
    case InList(_, list, _) => ForeignList(e, schema, d);
  }

  lemma ForeignFails(op: CmpOp, x: B.Bson, l: Expr, c: ColumnRef)
    requires !B.NullLike(Some(x)) && Foreign(l, c, x)
    ensures CondHolds(op, LiteralOf(l, c).value, Some(x)) <==> op.Ne?
  {
    LiteralIsNotNull(l.s, c.tag);
  }

  lemma ForeignList(e: Expr, schema: Schema, d: B.Doc)
    requires e.InList? && Translate(e, schema).Some? && ResolveColumn(Operand(e), schema).Some?
    requires var x := AtomValue(e, schema, d); !B.NullLike(x) && AllForeign(e, schema, x.value)
    ensures Matches(Translate(e, schema).value.filter, d) <==> e.negated
  {
    var (c, x) := (ResolveColumn(e.e, schema).value, AtomValue(e, schema, d));
    var values := LiteralsOf(e.list, c).value;
    InListMatches(c.path, values, d);
    ListTranslates(e.list, c);
    forall b | b in values ensures !EqualTo(x, b) {
      var i :| 0 <= i < |values| && values[i] == b;
      assert e.list[i] in AtomLiterals(e);
      assert Foreign(e.list[i], c, x.value);
      ForeignFails(Eq, x.value, e.list[i], c);
    }
  }

  // How a predicate and its negation fare on a document: what the one loses the
  // other adds.
  ghost predicate Fares(e: Expr, schema: Schema, d: B.Doc, r: Rendering, loses: bool, adds: bool) {
    && (LosesRow(e, schema, d, r) <==> loses) && (AddsRow(e, schema, d, r) <==> adds)
    && (GuardColumns(e, schema).Some? ==>
        (LosesRow(Not(e), schema, d, r) <==> adds) && (AddsRow(Not(e), schema, d, r) <==> loses))
  }

  // SQL answers by v and the filter by m.
  lemma VerdictsDecide(e: Expr, schema: Schema, d: B.Doc, r: Rendering, v: bool, m: bool)
    requires IsAtom(e) && Translate(e, schema).Some? && ResolveColumn(Operand(e), schema).Some?
    requires !B.NullLike(AtomValue(e, schema, d))
    requires Eval(e, schema, DecodeRow(schema, d, r)) == VBool(v)
    requires (Matches(Translate(e, schema).value.filter, d) <==> m)
    ensures Fares(e, schema, d, r, v && !m, !v && m)
  {
    if GuardColumns(e, schema).Some? {
      LeafGuards(e, schema);
      NotReads(e, schema, d, r);
    }
  }

  lemma NullDecides(e: Expr, schema: Schema, d: B.Doc, r: Rendering)
    requires IsAtom(e) && Translate(e, schema).Some? && ResolveColumn(Operand(e), schema).Some?
    requires B.NullLike(AtomValue(e, schema, d)) && Eval(Operand(e), schema, DecodeRow(schema, d, r)) == VNull
    ensures Fares(e, schema, d, r, false, false)
  {
    NullRejects(e, schema, d);
    NullEvaluates(e, schema, DecodeRow(schema, d, r));
    if GuardColumns(e, schema).Some? {
      LeafGuards(e, schema);
      NotReads(e, schema, d, r);
    }
  }

  lemma NullEvaluates(e: Expr, schema: Schema, row: Row)
    requires IsAtom(e) && Translate(e, schema).Some? && Eval(Operand(e), schema, row) == VNull
    ensures Eval(e, schema, row) == VNull
  {
  }

  lemma NullRejects(e: Expr, schema: Schema, d: B.Doc)
    requires IsAtom(e) && Translate(e, schema).Some? && ResolveColumn(Operand(e), schema).Some?
    requires B.NullLike(AtomValue(e, schema, d))
    ensures !Matches(Translate(e, schema).value.filter, d)
  {
    AtomTranslates(e, schema);
    var c := ResolveColumn(Operand(e), schema).value;
    match e
    case Binary(_, _, _) =>
      var l := AtomLiterals(e)[0];
      assert l in AtomLiterals(e);
      LiteralIsNotNull(l.s, c.tag);
      BinaryFilter(e, schema, d);
    case Between(_, _, low, high) =>
      assert low in AtomLiterals(e) && high in AtomLiterals(e);
      LiteralIsNotNull(low.s, c.tag);
      LiteralIsNotNull(high.s, c.tag);
      BetweenMatches(c.path, LiteralOf(low, c).value, LiteralOf(high, c).value, d);
    case InList(_, list, _) =>
      InListMatches(c.path, LiteralsOf(list, c).value, d);
      NoLiteralMatchesNull(list, c, AtomValue(e, schema, d));
  }
}
