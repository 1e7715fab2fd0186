// `$match` documents and which documents they accept.
module MongoFilter {
  import opened Wrappers
  import opened B = BsonModel
  import opened Arrow
  import opened LikePattern

  // ---- ordering within a type bracket, shared with SQL comparison ----

  datatype Key =
    | Number(r: real)
    | TextKey(s: string)
    | Flag(b: bool)
    | Instant(nanos: int)
    | Stamp(time: int, increment: int)
    | OidKey(s: string)
    | BytesKey(length: nat, subtype: int, s: string)

  predicate SameKind(a: Key, b: Key) {
    || (a.Number? && b.Number?) || (a.TextKey? && b.TextKey?) || (a.Flag? && b.Flag?)
    || (a.Instant? && b.Instant?) || (a.Stamp? && b.Stamp?) || (a.OidKey? && b.OidKey?)
    || (a.BytesKey? && b.BytesKey?)
  }

  predicate KeyLess(a: Key, b: Key)
    requires SameKind(a, b)
  {
    match a
    case Number(r) => r < b.r
    case TextKey(s) => TextLess(s, b.s)
    case Flag(f) => !f && b.b
    case Instant(n) => n < b.nanos
    case Stamp(t, i) => t < b.time || (t == b.time && i < b.increment)
    case OidKey(s) => TextLess(s, b.s)
    case BytesKey(n, t, s) =>
      n < b.length || (n == b.length && (t < b.subtype || (t == b.subtype && TextLess(s, b.s))))
  }

  datatype CmpOp = Eq | Ne | Lt | Lte | Gt | Gte

  predicate Compare(op: CmpOp, a: Key, b: Key)
    requires SameKind(a, b)
  {
    match op
    case Eq => a == b
    case Ne => a != b
    case Lt => KeyLess(a, b)
    case Lte => KeyLess(a, b) || a == b
    case Gt => KeyLess(b, a)
    case Gte => KeyLess(b, a) || a == b
  }

  lemma KeyTotal(a: Key, b: Key)
    requires SameKind(a, b)
    ensures KeyLess(a, b) || a == b || KeyLess(b, a)
    ensures !KeyLess(a, a)
    ensures KeyLess(a, b) ==> !KeyLess(b, a)
  {
    match a
    case TextKey(s) =>
      TextLessTotal(s, b.s);
      TextLessIrreflexive(s);
      if TextLess(s, b.s) {
        TextLessAsymmetric(s, b.s);
      }
    case OidKey(s) =>
      TextLessTotal(s, b.s);
      TextLessIrreflexive(s);
      if TextLess(s, b.s) {
        TextLessAsymmetric(s, b.s);
      }
    case BytesKey(_, _, s) =>
      TextLessTotal(s, b.s);
      TextLessIrreflexive(s);
      if TextLess(s, b.s) {
        TextLessAsymmetric(s, b.s);
      }
    case _ =>
  }

  lemma KeyTransitive(a: Key, b: Key, c: Key)
    requires SameKind(a, b) && SameKind(b, c) && KeyLess(a, b) && KeyLess(b, c)
    ensures KeyLess(a, c)
  {
    match a
    case TextKey(s) => TextLessTransitive(s, b.s, c.s);
    case OidKey(s) => TextLessTransitive(s, b.s, c.s);
    case BytesKey(_, _, s) =>
      if TextLess(s, b.s) && TextLess(b.s, c.s) {
        TextLessTransitive(s, b.s, c.s);
      }
    case _ =>
  }

  // Where a value stands in its bracket; None for values no filter here orders.
  function BsonKey(v: Bson): Option<Key> {
    match v
    case Int32(i) => Some(Number(i as real))
    case Int64(l) => Some(Number(l as real))
    case Double(d) => Some(Number(d))
    case String(s) => Some(TextKey(s))
    case Symbol(s) => Some(TextKey(s))
    case Boolean(b) => Some(Flag(b))
    case DateTime(ms) => Some(Instant(ms * NANOS_PER_MS))
    case Timestamp(time, increment) => Some(Stamp(time, increment))
    case ObjectId(oid) => Some(OidKey(oid))
    case Binary(subtype, bytes) => Some(BytesKey(|bytes|, subtype, ByteText(bytes)))
    case _ => None
  }

  // One character a byte, in the same order.
  function ByteText(bytes: seq<byte>): string { seq(|bytes|, i requires 0 <= i < |bytes| => bytes[i] as char) }

  // The order of the brackets, where one sort meets several.
  function BracketRank(k: Key): nat {
    match k
    case Number(_) => 0
    case TextKey(_) => 1
    case BytesKey(_, _, _) => 2
    case OidKey(_) => 3
    case Flag(_) => 4
    case Instant(_) => 5
    case Stamp(_, _) => 6
  }

  // Sorts before, whatever the brackets.
  predicate SortsBefore(a: Key, b: Key) {
    BracketRank(a) < BracketRank(b) || (SameKind(a, b) && KeyLess(a, b))
  }

  lemma SortIsTotal(a: Key, b: Key)
    ensures SortsBefore(a, b) || a == b || SortsBefore(b, a)
    ensures !SortsBefore(a, a)
    ensures SortsBefore(a, b) ==> !SortsBefore(b, a)
  {
    KeyTotal(a, a);
    if SameKind(a, b) {
      KeyTotal(a, b);
    }
  }

  lemma SortIsTransitive(a: Key, b: Key, c: Key)
    requires SortsBefore(a, b) && SortsBefore(b, c)
    ensures SortsBefore(a, c)
  {
    if SameKind(a, b) && SameKind(b, c) {
      KeyTransitive(a, b, c);
    }
  }

  predicate SameBracket(a: Bson, b: Bson) {
    BsonKey(a).Some? && BsonKey(b).Some? && SameKind(BsonKey(a).value, BsonKey(b).value)
  }

  // ---- filters ----

  datatype Cond =
    | Cmp(op: CmpOp, v: Bson)
    | In(vs: seq<Bson>)
    | Nin(vs: seq<Bson>)
    | Regex(re: string)
    | NotRegex(re: string)

  datatype Filter =
    | On(path: string, conds: seq<Cond>)
    | And(clauses: seq<Filter>)
    | Or(clauses: seq<Filter>)
    | Nor(clauses: seq<Filter>)

  // `null` equals a missing field too; numbers are equal across widths.
  predicate EqualTo(x: Option<Bson>, v: Bson) {
    if NullLike(Some(v)) then NullLike(x)
    else x.Some? && (x.value == v || (SameBracket(x.value, v) && BsonKey(x.value) == BsonKey(v)))
  }

  predicate TextMatches(x: Option<Bson>, re: string) {
    x.Some? && (x.value.String? || x.value.Symbol?) && RegexMatches(re, x.value.s)
  }

  // The range operators compare within a bracket only; the negative ones
  // accept every document their positive form rejects, missing fields included.
  predicate Holds(c: Cond, x: Option<Bson>) {
    match c
    case Cmp(op, v) =>
      if op.Eq? then EqualTo(x, v)
      else if op.Ne? then !EqualTo(x, v)
      else x.Some? && SameBracket(x.value, v) && Compare(op, BsonKey(x.value).value, BsonKey(v).value)
    case In(vs) => exists v :: v in vs && EqualTo(x, v)
    case Nin(vs) => forall v :: v in vs ==> !EqualTo(x, v)
    case Regex(re) => TextMatches(x, re)
    case NotRegex(re) => !TextMatches(x, re)
  }

  predicate Matches(f: Filter, d: Doc) {
    match f
    case On(path, conds) => forall c :: c in conds ==> Holds(c, LookupPath(d, path))
    case And(clauses) => forall c :: c in clauses ==> Matches(c, d)
    case Or(clauses) => exists c :: c in clauses && Matches(c, d)
    case Nor(clauses) => forall c :: c in clauses ==> !Matches(c, d)
  }

  // The shapes the translation builds.
  function One(path: string, c: Cond): Filter { On(path, [c]) }

  function NotNull(path: string): Filter { One(path, Cmp(Ne, Null)) }

  lemma OneMatches(path: string, c: Cond, d: Doc)
    ensures Matches(One(path, c), d) <==> Holds(c, LookupPath(d, path))
  {
    assert c in [c];
  }

  lemma And2Matches(a: Filter, b: Filter, d: Doc)
    ensures Matches(And([a, b]), d) <==> Matches(a, d) && Matches(b, d)
  {
    assert a in [a, b] && b in [a, b];
  }

  lemma Or2Matches(a: Filter, b: Filter, d: Doc)
    ensures Matches(Or([a, b]), d) <==> Matches(a, d) || Matches(b, d)
  {
    assert a in [a, b] && b in [a, b];
  }
}
