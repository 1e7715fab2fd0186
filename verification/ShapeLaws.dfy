// The algebra of `unify`: what merging keeps, and where it is not a lattice join.
module ShapeLaws {
  import opened Shapes

  // ---- shapes modulo the occurrence counters ----

  function Strip(s: Shape): Shape {
    match s
    case Document(fs) => Document(map k | k in fs :: FieldShape(Strip(fs[k].shape), 0, 0, fs[k].mixed))
    case Array(e) => Array(Strip(e))
    case _ => s
  }

  function StripField(f: FieldShape): FieldShape {
    FieldShape(Strip(f.shape), 0, 0, f.mixed)
  }

  ghost predicate Same(a: Shape, b: Shape) { Strip(a) == Strip(b) }

  ghost predicate SameFields(l: map<string, FieldShape>, r: map<string, FieldShape>) {
    l.Keys == r.Keys && forall k :: k in l ==> StripField(l[k]) == StripField(r[k])
  }

  lemma SameDocuments(l: map<string, FieldShape>, r: map<string, FieldShape>)
    ensures Same(Document(l), Document(r)) <==> SameFields(l, r)
  {
    var sl, sr := Strip(Document(l)).fields, Strip(Document(r)).fields;
    assert sl.Keys == l.Keys && sr.Keys == r.Keys;
    assert forall k :: k in l ==> sl[k] == StripField(l[k]);
    assert forall k :: k in r ==> sr[k] == StripField(r[k]);
    if SameFields(l, r) {
      assert sl == sr;
    }
  }

  lemma {:induction false} StripKeepsConstructor(s: Shape)
    ensures Strip(Strip(s)) == Strip(s)
    ensures s.Array? <==> Strip(s).Array?
    ensures s.Document? <==> Strip(s).Document?
    ensures !s.Array? && !s.Document? ==> Strip(s) == s
  {
    match s
    case Array(e) => StripKeepsConstructor(e);
    case Document(fs) =>
      var st := Strip(s).fields;
      forall k | k in fs ensures StripField(st[k]) == StripField(fs[k]) {
        StripKeepsConstructor(fs[k].shape);
      }
      SameDocuments(st, fs);
    case _ =>
  }

  // ---- commutative, idempotent ----

  lemma {:induction false} UnifyCommutes(a: Shape, b: Shape)
    ensures Unify(a, b) == Unify(b, a)
  {
    match (a, b)
    case (Array(x), Array(y)) => UnifyCommutes(x, y);
    case (Document(l), Document(r)) =>
      forall k | k in l && k in r ensures MergeField(l[k], r[k]) == MergeField(r[k], l[k]) {
        UnifyCommutes(l[k].shape, r[k].shape);
      }
      assert MergeFields(l, r) == MergeFields(r, l);
    case _ =>
  }

  // Merging two shapes that differ in counters alone changes nothing but counters.
  lemma {:induction false} UnifyIdempotent(a: Shape, b: Shape)
    requires Same(a, b)
    ensures Same(Unify(a, b).shape, a) && !Unify(a, b).conflict
  {
    StripKeepsConstructor(a);
    StripKeepsConstructor(b);
    match (a, b)
    case (Array(x), Array(y)) => UnifyIdempotent(x, y);
    case (Document(l), Document(r)) => MergeIdempotent(l, r);
    case _ =>
  }

  lemma {:induction false} MergeIdempotent(l: map<string, FieldShape>, r: map<string, FieldShape>)
    requires Same(Document(l), Document(r))
    ensures Same(Document(MergeFields(l, r)), Document(l))
    decreases Document(l), Document(r), 0
  {
    SameDocuments(l, r);
    var m := MergeFields(l, r);
    forall k | k in l ensures StripField(m[k]) == StripField(l[k]) {
      assert StripField(l[k]) == StripField(r[k]);
      UnifyIdempotent(l[k].shape, r[k].shape);
      FieldIdempotent(l[k], r[k]);
    }
    SameDocuments(m, l);
  }

  lemma FieldIdempotent(f: FieldShape, g: FieldShape)
    requires StripField(f) == StripField(g)
    requires Same(Unify(f.shape, g.shape).shape, f.shape) && !Unify(f.shape, g.shape).conflict
    ensures StripField(MergeField(f, g)) == StripField(f)
  {
  }

  // Counters never influence a merge.
  lemma {:induction false} StripUnify(a: Shape, b: Shape)
    ensures Strip(Unify(a, b).shape) == Unify(Strip(a), Strip(b)).shape
    ensures Unify(a, b).conflict == Unify(Strip(a), Strip(b)).conflict
    decreases Height(a) + Height(b)
  {
    StripKeepsConstructor(a);
    StripKeepsConstructor(b);
    if Same(a, b) {
      UnifyIdempotent(a, b);
    } else if a.Unknown? || b.Unknown? || a.Json? || b.Json? {
    } else if a.Array? || b.Array? {
      StripUnify(Inner(a), Inner(b));
      StripUnderArray(a, b);
    } else if a.Document? && b.Document? {
      StripMerge(a.fields, b.fields);
    }
  }

  lemma StripUnderArray(a: Shape, b: Shape)
    requires a.Array? || b.Array?
    requires !a.Unknown? && !b.Unknown? && !a.Json? && !b.Json?
    requires var (x, y) := (Inner(a), Inner(b));
      && Strip(Unify(x, y).shape) == Unify(Strip(x), Strip(y)).shape
      && Unify(x, y).conflict == Unify(Strip(x), Strip(y)).conflict
    ensures Strip(Unify(a, b).shape) == Unify(Strip(a), Strip(b)).shape
    ensures Unify(a, b).conflict == Unify(Strip(a), Strip(b)).conflict
  {
    StripInner(a);
    StripInner(b);
    UnifyOnArray(a, b);
    UnifyOnArray(Strip(a), Strip(b));
  }

  lemma StripInner(a: Shape)
    ensures Inner(Strip(a)) == Strip(Inner(a))
    ensures (Strip(a).Array? <==> a.Array?) && (Strip(a).Unknown? <==> a.Unknown?) && (Strip(a).Json? <==> a.Json?)
  {
  }

  lemma {:induction false} StripMerge(l: map<string, FieldShape>, r: map<string, FieldShape>)
    ensures Strip(Document(MergeFields(l, r)))
         == Document(MergeFields(Strip(Document(l)).fields, Strip(Document(r)).fields))
    decreases Height(Document(l)) + Height(Document(r)), 0
  {
    var sl, sr := Strip(Document(l)).fields, Strip(Document(r)).fields;
    var m, sm := MergeFields(l, r), MergeFields(sl, sr);
    forall k | k in l && k in r ensures StripField(m[k]) == sm[k] {
      ChildHeight(l, k);
      ChildHeight(r, k);
      StripUnify(l[k].shape, r[k].shape);
      FieldStrips(l[k], r[k]);
    }
    assert Strip(Document(m)).fields == sm;
  }

  lemma FieldStrips(f: FieldShape, g: FieldShape)
    requires Strip(Unify(f.shape, g.shape).shape) == Unify(Strip(f.shape), Strip(g.shape)).shape
    requires Unify(f.shape, g.shape).conflict == Unify(Strip(f.shape), Strip(g.shape)).conflict
    ensures StripField(MergeField(f, g)) == MergeField(StripField(f), StripField(g))
  {
  }

  // ---- the order merging induces ----

  // x is below y when merging x into y teaches y nothing.
  ghost predicate Leq(x: Shape, y: Shape) { Same(Unify(x, y).shape, y) }

  // The same order, read off the two shapes by structure.
  ghost predicate Below(x: Shape, y: Shape) {
    if x.Unknown? || y.Json? then true
    else if x.Json? || y.Unknown? then false
    else if y.Array? then Below(if x.Array? then x.elem else x, y.elem)
    else if x.Array? then false
    else if x.Document? && y.Document? then
      && x.fields.Keys <= y.fields.Keys
      && forall k :: k in x.fields ==>
        && Below(x.fields[k].shape, y.fields[k].shape)
        && (x.fields[k].mixed || Coerced(x.fields[k].shape, y.fields[k].shape) ==> y.fields[k].mixed)
    else if IsNumeric(x) && IsNumeric(y) then Width(x) <= Width(y)
    else x == y || (x.ObjectId? && y.Utf8?) || (x.BsonTimestamp? && y.DateTime?)
  }

  // Whether putting an x where a y is known crosses a type family, for x below y.
  ghost predicate Coerced(x: Shape, y: Shape) {
    if x.Unknown? then false
    else if y.Json? then !x.Json?
    else if y.Array? then Coerced(if x.Array? then x.elem else x, y.elem)
    else x.ObjectId? && y.Utf8?
  }

  lemma {:induction false} CoercedIsConflict(x: Shape, y: Shape)
    requires Below(x, y)
    ensures Unify(x, y).conflict == Coerced(x, y)
  {
    if x.Array? && y.Array? {
      CoercedIsConflict(x.elem, y.elem);
    } else if y.Array? && !x.Unknown? {
      UnifyCommutes(y.elem, x);
      CoercedIsConflict(x, y.elem);
    }
  }

  lemma {:induction false} BelowIsLeq(x: Shape, y: Shape)
    ensures Below(x, y) <==> Leq(x, y)
    decreases x, y, 1
  {
    StripKeepsConstructor(x);
    StripKeepsConstructor(y);
    StripKeepsConstructor(Unify(x, y).shape);
    if x == y {
      BelowReflexive(x);
    } else if x.Unknown? || y.Json? || x.Json? || y.Unknown? {
    } else if x.Array? && y.Array? {
      BelowIsLeq(x.elem, y.elem);
    } else if y.Array? {
      UnifyCommutes(y.elem, x);
      BelowIsLeq(x, y.elem);
    } else if x.Document? && y.Document? {
      DocumentBelowIsLeq(x.fields, y.fields);
    }
  }

  lemma {:induction false} DocumentBelowIsLeq(l: map<string, FieldShape>, r: map<string, FieldShape>)
    ensures Below(Document(l), Document(r)) <==> Leq(Document(l), Document(r))
    decreases Document(l), Document(r), 0
  {
    var m := MergeFields(l, r);
    if Document(l) == Document(r) {
      BelowReflexive(Document(l));
    } else {
      SameDocuments(m, r);
      forall k | k in l && k in r
        ensures StripField(m[k]) == StripField(r[k]) <==>
          Below(l[k].shape, r[k].shape) && (l[k].mixed || Coerced(l[k].shape, r[k].shape) ==> r[k].mixed)
      {
        assert m[k] == MergeField(l[k], r[k]);
        BelowIsLeq(l[k].shape, r[k].shape);
        if Below(l[k].shape, r[k].shape) {
          CoercedIsConflict(l[k].shape, r[k].shape);
        }
      }
      assert m.Keys == l.Keys + r.Keys;
    }
  }

  lemma {:induction false} BelowReflexive(x: Shape)
    ensures Below(x, x) && !Coerced(x, x)
  {
    match x
    case Array(e) => BelowReflexive(e);
    case Document(fs) =>
      forall k | k in fs ensures Below(fs[k].shape, fs[k].shape) && !Coerced(fs[k].shape, fs[k].shape) {
        BelowReflexive(fs[k].shape);
      }
    case _ =>
  }

  lemma {:induction false} BelowTransitive(x: Shape, y: Shape, z: Shape)
    requires Below(x, y) && Below(y, z)
    ensures Below(x, z)
    ensures Coerced(x, z) ==> Coerced(x, y) || Coerced(y, z)
  {
    if x.Unknown? || z.Json? {
    } else if z.Array? {
      var x', y' := if x.Array? then x.elem else x, if y.Array? then y.elem else y;
      if y.Array? {
        BelowTransitive(x', y', z.elem);
      } else {
        BelowTransitive(x, y, z.elem);
      }
    } else if x.Document? {
      forall k | k in x.fields
        ensures Below(x.fields[k].shape, z.fields[k].shape)
        ensures Coerced(x.fields[k].shape, z.fields[k].shape) ==>
          Coerced(x.fields[k].shape, y.fields[k].shape) || Coerced(y.fields[k].shape, z.fields[k].shape)
      {
        BelowTransitive(x.fields[k].shape, y.fields[k].shape, z.fields[k].shape);
      }
    }
  }

  // `unify` is an upper bound of both operands, and its flag reports a coercion
  // of either one.
  lemma {:induction false} UnifyIsAbove(x: Shape, y: Shape)
    ensures Below(x, Unify(x, y).shape)
    ensures Coerced(x, Unify(x, y).shape) ==> Unify(x, y).conflict
    decreases Height(x) + Height(y)
  {
    if x == y || x.Unknown? || y.Unknown? || x.Json? || y.Json? {
      BelowReflexive(x);
    } else if x.Array? || y.Array? {
      UnifyIsAbove(Inner(x), Inner(y));
      AboveUnderArray(x, y);
    } else if x.Document? && y.Document? {
      MergeIsAbove(x.fields, y.fields);
    } else {
      LeafIsBelow(x, y);
    }
  }

  lemma LeafIsBelow(x: Shape, y: Shape)
    requires !x.Array? && !y.Array? && !(x.Document? && y.Document?)
    requires !x.Unknown? && !y.Unknown? && !x.Json? && !y.Json? && x != y
    ensures Below(x, Unify(x, y).shape)
    ensures Coerced(x, Unify(x, y).shape) ==> Unify(x, y).conflict
  {
  }

  lemma AboveUnderArray(x: Shape, y: Shape)
    requires x.Array? || y.Array?
    requires !x.Unknown? && !y.Unknown? && !x.Json? && !y.Json?
    requires Below(Inner(x), Unify(Inner(x), Inner(y)).shape)
    requires Coerced(Inner(x), Unify(Inner(x), Inner(y)).shape) ==> Unify(Inner(x), Inner(y)).conflict
    ensures Below(x, Unify(x, y).shape)
    ensures Coerced(x, Unify(x, y).shape) ==> Unify(x, y).conflict
  {
    UnifyOnArray(x, y);
  }

  lemma {:induction false} MergeIsAbove(l: map<string, FieldShape>, r: map<string, FieldShape>)
    ensures Below(Document(l), Document(MergeFields(l, r)))
    decreases Height(Document(l)) + Height(Document(r)), 0
  {
    var m := MergeFields(l, r);
    forall k | k in l
      ensures Below(l[k].shape, m[k].shape)
      ensures l[k].mixed || Coerced(l[k].shape, m[k].shape) ==> m[k].mixed
    {
      if k in r {
        ChildHeight(l, k);
        ChildHeight(r, k);
        UnifyIsAbove(l[k].shape, r[k].shape);
        assert m[k] == MergeField(l[k], r[k]);
      } else {
        BelowReflexive(l[k].shape);
      }
    }
  }

  // ---- the order as the main results state it ----

  // Merging orders shapes partially (modulo counters): reflexive, antisymmetric, transitive.
  lemma LeqIsPartialOrder(x: Shape, y: Shape, z: Shape)
    ensures Leq(x, x)
    ensures Leq(x, y) && Leq(y, x) ==> Same(x, y)
    ensures Leq(x, y) && Leq(y, z) ==> Leq(x, z)
  {
    BelowReflexive(x);
    BelowIsLeq(x, x);
    UnifyCommutes(x, y);
    if Leq(x, y) && Leq(y, z) {
      BelowIsLeq(x, y);
      BelowIsLeq(y, z);
      BelowTransitive(x, y, z);
      BelowIsLeq(x, z);
    }
  }

  lemma UnifyIsUpperBound(x: Shape, y: Shape)
    ensures Leq(x, Unify(x, y).shape) && Leq(y, Unify(x, y).shape)
  {
    UnifyIsAbove(x, y);
    BelowIsLeq(x, Unify(x, y).shape);
    UnifyCommutes(x, y);
    UnifyIsAbove(y, x);
    BelowIsLeq(y, Unify(x, y).shape);
  }

  // Yet it is no lattice join: below every upper bound of a number and a text
  // there is a strictly smaller one, an array of it.
  lemma {:induction false} NoLeastUpperBound(u: Shape)
    requires Leq(Int32, u) && Leq(Utf8, u)
    ensures Leq(Int32, Array(u)) && Leq(Utf8, Array(u))
    ensures Leq(Array(u), u) && !Leq(u, Array(u))
  {
    BelowIsLeq(Int32, u);
    BelowIsLeq(Utf8, u);
    BelowIsLeq(Int32, Array(u));
    BelowIsLeq(Utf8, Array(u));
    BelowIsLeq(Array(u), u);
    BelowIsLeq(u, Array(u));
    if u.Array? {
      BelowIsLeq(Int32, u.elem);
      BelowIsLeq(Utf8, u.elem);
      NoLeastUpperBound(u.elem);
      BelowIsLeq(u.elem, u);
      BelowIsLeq(u, u.elem);
    }
  }

  // ---- associativity: where it holds and where it does not ----

  ghost predicate ArrayFree(s: Shape) {
    match s
    case Array(_) => false
    case Document(fs) => forall k :: k in fs ==> ArrayFree(fs[k].shape)
    case _ => true
  }

  ghost predicate JsonFree(s: Shape) {
    match s
    case Json => false
    case Array(e) => JsonFree(e)
    case Document(fs) => forall k :: k in fs ==> JsonFree(fs[k].shape)
    case _ => true
  }

  lemma {:induction false} UnifyKeepsArrayFree(a: Shape, b: Shape)
    requires ArrayFree(a) && ArrayFree(b)
    ensures ArrayFree(Unify(a, b).shape)
  {
    if a.Document? && b.Document? && a != b {
      var m := MergeFields(a.fields, b.fields);
      forall k | k in m ensures ArrayFree(m[k].shape) {
        if k in a.fields && k in b.fields {
          UnifyKeepsArrayFree(a.fields[k].shape, b.fields[k].shape);
          assert m[k] == MergeField(a.fields[k], b.fields[k]);
        }
      }
    }
  }

  // Merging never removes Json.
  lemma {:induction false} UnifyKeepsJson(a: Shape, b: Shape)
    requires JsonFree(Unify(a, b).shape)
    ensures JsonFree(a) && JsonFree(b)
    decreases Height(a) + Height(b)
  {
    if a == b || a.Unknown? || b.Unknown? || a.Json? || b.Json? {
    } else if a.Array? && b.Array? {
      UnifyKeepsJson(a.elem, b.elem);
    } else if a.Array? {
      UnifyKeepsJson(a.elem, b);
    } else if b.Array? {
      UnifyKeepsJson(b.elem, a);
    } else if a.Document? && b.Document? {
      var m := MergeFields(a.fields, b.fields);
      forall k | k in m ensures k in a.fields ==> JsonFree(a.fields[k].shape)
        ensures k in b.fields ==> JsonFree(b.fields[k].shape)
      {
        assert JsonFree(m[k].shape);
        if k in a.fields && k in b.fields {
          ChildHeight(a.fields, k);
          ChildHeight(b.fields, k);
          assert m[k] == MergeField(a.fields[k], b.fields[k]);
          UnifyKeepsJson(a.fields[k].shape, b.fields[k].shape);
        }
      }
      assert a.fields.Keys <= m.Keys && b.fields.Keys <= m.Keys;
    }
  }

  // Both groupings give one shape and record the same coercions.
  ghost predicate Associates(a: Shape, b: Shape, c: Shape) {
    Agree(Left(a, b, c), Right(a, b, c))
  }

  ghost predicate Agree(l: Joined, r: Joined) {
    Same(l.shape, r.shape) && l.conflict == r.conflict
  }

  function Left(a: Shape, b: Shape, c: Shape): Joined {
    var ab := Unify(a, b);
    var l := Unify(ab.shape, c);
    Joined(l.shape, ab.conflict || l.conflict)
  }

  function Right(a: Shape, b: Shape, c: Shape): Joined {
    var bc := Unify(b, c);
    var r := Unify(a, bc.shape);
    Joined(r.shape, bc.conflict || r.conflict)
  }

  ghost predicate AssociatesFields(a: FieldShape, b: FieldShape, c: FieldShape) {
    StripField(MergeField(MergeField(a, b), c)) == StripField(MergeField(a, MergeField(b, c)))
  }

  lemma MergeFieldsAssociates(a: map<string, FieldShape>, b: map<string, FieldShape>, c: map<string, FieldShape>)
    requires forall k :: k in a && k in b && k in c ==> AssociatesFields(a[k], b[k], c[k])
    ensures SameFields(MergeFields(MergeFields(a, b), c), MergeFields(a, MergeFields(b, c)))
  {
    var ab, bc := MergeFields(a, b), MergeFields(b, c);
    var l, r := MergeFields(ab, c), MergeFields(a, bc);
    forall k | k in l ensures StripField(l[k]) == StripField(r[k]) {
      if k in a && k in b && k in c {
        assert ab[k] == MergeField(a[k], b[k]) && bc[k] == MergeField(b[k], c[k]);
        assert l[k] == MergeField(ab[k], c[k]) && r[k] == MergeField(a[k], bc[k]);
      }
    }
  }

  // A merge of documents, whether or not the equality shortcut fired.
  lemma UnifyDocuments(l: map<string, FieldShape>, r: map<string, FieldShape>)
    ensures Same(Unify(Document(l), Document(r)).shape, Document(MergeFields(l, r)))
    ensures !Unify(Document(l), Document(r)).conflict
  {
    if l == r {
      StripUnifyDocument(l);
    }
  }

  lemma StripUnifyDocument(l: map<string, FieldShape>)
    ensures Same(Document(l), Document(MergeFields(l, l)))
  {
    var m := MergeFields(l, l);
    forall k | k in l ensures StripField(m[k]) == StripField(l[k]) {
      assert m[k] == MergeField(l[k], l[k]);
      assert Unify(l[k].shape, l[k].shape) == Joined(l[k].shape, false);
    }
    SameDocuments(l, m);
  }

  // Replacing an operand by one that differs in counters only.
  lemma UnifyRespectsSame(a: Shape, a': Shape, b: Shape)
    requires Same(a, a')
    ensures Same(Unify(a, b).shape, Unify(a', b).shape)
    ensures Unify(a, b).conflict == Unify(a', b).conflict
  {
    StripUnify(a, b);
    StripUnify(a', b);
  }

  lemma {:induction false} AssociatesDocuments(a: map<string, FieldShape>, b: map<string, FieldShape>,
                                               c: map<string, FieldShape>)
    requires forall k :: k in a && k in b && k in c ==> AssociatesFields(a[k], b[k], c[k])
    ensures Associates(Document(a), Document(b), Document(c))
  {
    var ab, bc := MergeFields(a, b), MergeFields(b, c);
    UnifyDocuments(a, b);
    UnifyDocuments(b, c);
    var uab, ubc := Unify(Document(a), Document(b)).shape, Unify(Document(b), Document(c)).shape;
    UnifyRespectsSame(uab, Document(ab), Document(c));
    UnifyDocuments(ab, c);
    UnifyRespectsSame(ubc, Document(bc), Document(a));
    UnifyCommutes(ubc, Document(a));
    UnifyCommutes(Document(bc), Document(a));
    UnifyDocuments(a, bc);
    MergeFieldsAssociates(a, b, c);
    SameDocuments(MergeFields(ab, c), MergeFields(a, bc));
  }

  // Shapes without structure fall into families; within one the higher level wins.
  function Family(s: Shape): nat {
    match s
    case Int32 => 0
    case Int64 => 0
    case Double => 0
    case Decimal => 0
    case ObjectId => 1
    case Utf8 => 1
    case DateTime => 2
    case BsonTimestamp => 2
    case Bool => 3
    case Binary => 4
    case Json => 5
    case _ => 6
  }

  function Level(s: Shape): nat {
    match s
    case Int64 => 1
    case Double => 2
    case Decimal => 3
    case Utf8 => 1
    case DateTime => 1
    case _ => 0
  }

  // `unify` where neither operand is an array and they are not two documents.
  function UnifyFlat(a: Shape, b: Shape): Joined {
    if a.Unknown? then Joined(b, false)
    else if b.Unknown? then Joined(a, false)
    else if Family(a) != Family(b) then Joined(Json, true)
    else Joined(if Level(a) < Level(b) then b else a, Family(a) == 1 && Level(a) != Level(b))
  }

  predicate IsFlat(s: Shape) { !s.Array? && !s.Document? }

  lemma UnifyIsFlat(a: Shape, b: Shape)
    requires !a.Array? && !b.Array? && !(a.Document? && b.Document?)
    ensures Unify(a, b) == UnifyFlat(a, b)
  {
    if !a.Unknown? && !b.Unknown? && a != b {
      LeavesUnify(a, b);
    }
  }

  lemma LeavesUnify(a: Shape, b: Shape)
    requires !a.Array? && !b.Array? && !(a.Document? && b.Document?)
    requires !a.Unknown? && !b.Unknown? && a != b
    ensures Unify(a, b) == UnifyFlat(a, b)
  {
  }

  function FlatLeft(a: Shape, b: Shape, c: Shape): Joined {
    var ab := UnifyFlat(a, b);
    var l := UnifyFlat(ab.shape, c);
    Joined(l.shape, ab.conflict || l.conflict)
  }

  function FlatRight(a: Shape, b: Shape, c: Shape): Joined {
    var bc := UnifyFlat(b, c);
    var r := UnifyFlat(a, bc.shape);
    Joined(r.shape, bc.conflict || r.conflict)
  }

  lemma FlatWithinFamily(a: Shape, b: Shape, c: Shape)
    requires IsFlat(a) && IsFlat(b) && IsFlat(c)
    requires !a.Unknown? && !b.Unknown? && !c.Unknown?
    requires Family(a) == Family(b) == Family(c)
    ensures FlatLeft(a, b, c) == FlatRight(a, b, c)
  {
  }

  lemma FlatWithUnknown(a: Shape, b: Shape, c: Shape)
    requires a.Unknown? || b.Unknown? || c.Unknown?
    ensures FlatLeft(a, b, c) == FlatRight(a, b, c)
  {
  }

  lemma FlatFamilies(a: Shape, b: Shape)
    requires !a.Unknown? && !b.Unknown?
    ensures !UnifyFlat(a, b).shape.Unknown?
    ensures UnifyFlat(a, b).shape == Json || Family(UnifyFlat(a, b).shape) == Family(a) == Family(b)
    ensures Family(a) != Family(b) ==> UnifyFlat(a, b) == Joined(Json, true)
  {
  }

  lemma FlatAcrossLeft(a: Shape, b: Shape, c: Shape)
    requires !a.Unknown? && !b.Unknown? && !c.Unknown?
    requires Family(a) != Family(b) || Family(b) != Family(c)
    ensures FlatLeft(a, b, c) == Joined(Json, true)
  {
    FlatFamilies(a, b);
    FlatFamilies(UnifyFlat(a, b).shape, c);
  }

  lemma FlatAcrossRight(a: Shape, b: Shape, c: Shape)
    requires !a.Unknown? && !b.Unknown? && !c.Unknown?
    requires Family(a) != Family(b) || Family(b) != Family(c)
    ensures FlatRight(a, b, c) == Joined(Json, true)
  {
    FlatFamilies(b, c);
    FlatFamilies(a, UnifyFlat(b, c).shape);
  }

  lemma FlatIsAssociative(a: Shape, b: Shape, c: Shape)
    requires IsFlat(a) && IsFlat(b) && IsFlat(c)
    ensures FlatLeft(a, b, c) == FlatRight(a, b, c)
  {
    if a.Unknown? || b.Unknown? || c.Unknown? {
      FlatWithUnknown(a, b, c);
    } else if Family(a) == Family(b) == Family(c) {
      FlatWithinFamily(a, b, c);
    } else {
      FlatAcrossLeft(a, b, c);
      FlatAcrossRight(a, b, c);
    }
  }

  lemma FlatStaysFlat(a: Shape, b: Shape)
    requires IsFlat(a) && IsFlat(b)
    ensures Unify(a, b) == UnifyFlat(a, b) && IsFlat(UnifyFlat(a, b).shape)
  {
    UnifyIsFlat(a, b);
  }

  lemma LeftIsFlat(a: Shape, b: Shape, c: Shape)
    requires IsFlat(a) && IsFlat(b) && IsFlat(c)
    ensures Left(a, b, c) == FlatLeft(a, b, c)
  {
    FlatStaysFlat(a, b);
    FlatStaysFlat(UnifyFlat(a, b).shape, c);
  }

  lemma RightIsFlat(a: Shape, b: Shape, c: Shape)
    requires IsFlat(a) && IsFlat(b) && IsFlat(c)
    ensures Right(a, b, c) == FlatRight(a, b, c)
  {
    FlatStaysFlat(b, c);
    FlatStaysFlat(a, UnifyFlat(b, c).shape);
  }

  lemma LeavesAssociate(a: Shape, b: Shape, c: Shape)
    requires IsFlat(a) && IsFlat(b) && IsFlat(c)
    ensures Associates(a, b, c)
  {
    FlatIsAssociative(a, b, c);
    LeftIsFlat(a, b, c);
    RightIsFlat(a, b, c);
  }

  // A document meeting anything but a document or Unknown is Json.
  lemma DocumentMeets(a: Shape, b: Shape)
    requires !a.Array? && !b.Array? && !a.Unknown? && !b.Unknown?
    ensures !Unify(a, b).shape.Array? && !Unify(a, b).shape.Unknown?
    ensures Unify(a, b).shape.Document? <==> a.Document? && b.Document?
    ensures a.Document? != b.Document? ==> Unify(a, b) == Joined(Json, true)
    ensures a.Json? || b.Json? ==> Unify(a, b).shape == Json
    ensures a.Document? && b.Document? ==> !Unify(a, b).conflict
  {
  }

  lemma DocumentLeft(a: Shape, b: Shape, c: Shape)
    requires !a.Array? && !b.Array? && !c.Array?
    requires !a.Unknown? && !b.Unknown? && !c.Unknown?
    requires a.Document? || b.Document? || c.Document?
    requires !(a.Document? && b.Document? && c.Document?)
    ensures Unify(Unify(a, b).shape, c).shape == Json
    ensures Unify(a, b).conflict || Unify(Unify(a, b).shape, c).conflict
  {
    DocumentMeets(a, b);
    DocumentMeets(Unify(a, b).shape, c);
  }

  lemma DocumentMeetsLeaf(a: Shape, b: Shape, c: Shape)
    requires !a.Array? && !b.Array? && !c.Array?
    requires !a.Unknown? && !b.Unknown? && !c.Unknown?
    requires a.Document? || b.Document? || c.Document?
    requires !(a.Document? && b.Document? && c.Document?)
    ensures Associates(a, b, c)
  {
    DocumentLeft(a, b, c);
    DocumentLeft(c, b, a);
    UnifyCommutes(b, c);
    UnifyCommutes(Unify(b, c).shape, a);
  }

  lemma UnknownAssociates(a: Shape, b: Shape, c: Shape)
    requires a.Unknown? || b.Unknown? || c.Unknown?
    ensures Associates(a, b, c)
  {
  }

  // On shapes without arrays `unify` is associative.
  lemma {:induction false} AssociativeWithoutArrays(a: Shape, b: Shape, c: Shape)
    requires ArrayFree(a) && ArrayFree(b) && ArrayFree(c)
    ensures Associates(a, b, c)
  {
    if a.Unknown? || b.Unknown? || c.Unknown? {
      UnknownAssociates(a, b, c);
    } else if a.Document? && b.Document? && c.Document? {
      var (fa, fb, fc) := (a.fields, b.fields, c.fields);
      forall k | k in fa && k in fb && k in fc ensures AssociatesFields(fa[k], fb[k], fc[k]) {
        AssociativeWithoutArrays(fa[k].shape, fb[k].shape, fc[k].shape);
      }
      AssociatesDocuments(fa, fb, fc);
    } else if a.Document? || b.Document? || c.Document? {
      DocumentMeetsLeaf(a, b, c);
    } else {
      LeavesAssociate(a, b, c);
    }
  }

  lemma RightIsLeft(a: Shape, b: Shape, c: Shape)
    ensures Right(a, b, c) == Left(c, b, a)
  {
    UnifyCommutes(b, c);
    UnifyCommutes(a, Unify(b, c).shape);
  }

  function Inner(s: Shape): Shape { if s.Array? then s.elem else s }

  function Wrap(j: Joined): Joined { Joined(Array(j.shape), j.conflict) }

  lemma UnifyOnArray(a: Shape, b: Shape)
    requires a.Array? || b.Array?
    requires !a.Unknown? && !b.Unknown? && !a.Json? && !b.Json?
    ensures Unify(a, b) == Wrap(Unify(Inner(a), Inner(b)))
  {
    UnifyCommutes(Inner(a), Inner(b));
  }

  lemma NoUnknown(a: Shape, b: Shape)
    requires !a.Unknown? && !b.Unknown?
    ensures !Unify(a, b).shape.Unknown?
    ensures Unify(a, b).shape.Array? ==> a.Array? || b.Array?
    ensures a.Json? || b.Json? ==> Unify(a, b).shape.Json?
  {
  }

  // Under arrays the left grouping works on the elements, unless two operands
  // beside an array have already become Json.
  lemma LeftOnArray(a: Shape, b: Shape, c: Shape)
    requires a.Array? || b.Array? || c.Array?
    requires !a.Unknown? && !b.Unknown? && !c.Unknown? && !a.Json? && !b.Json? && !c.Json?
    ensures Left(a, b, c) == Wrap(Left(Inner(a), Inner(b), Inner(c)))
      || (Left(a, b, c).shape == Json && Left(Inner(a), Inner(b), Inner(c)).shape == Json)
  {
    NoUnknown(a, b);
    if a.Array? || b.Array? {
      UnifyOnArray(a, b);
      UnifyOnArray(Unify(a, b).shape, c);
    } else if !Unify(a, b).shape.Json? {
      UnifyOnArray(Unify(a, b).shape, c);
    } else {
      JsonMeets(c);
      JsonMeets(Inner(c));
    }
  }

  lemma JsonMeets(c: Shape)
    ensures Unify(Json, c).shape.Json? && Unify(c, Json).shape.Json?
  {
  }

  lemma {:induction false} SameJsonFree(a: Shape, b: Shape)
    requires Same(a, b)
    ensures JsonFree(a) <==> JsonFree(b)
  {
    StripKeepsConstructor(a);
    StripKeepsConstructor(b);
    match (a, b)
    case (Array(x), Array(y)) => SameJsonFree(x, y);
    case (Document(l), Document(r)) =>
      SameDocuments(l, r);
      forall k | k in l ensures JsonFree(l[k].shape) <==> JsonFree(r[k].shape) {
        assert StripField(l[k]) == StripField(r[k]);
        SameJsonFree(l[k].shape, r[k].shape);
      }
    case _ =>
  }

  lemma DocumentsJsonFree(a: map<string, FieldShape>, b: map<string, FieldShape>, c: map<string, FieldShape>, k: string)
    requires k in a && k in b && k in c
    requires JsonFree(Left(Document(a), Document(b), Document(c)).shape)
    ensures JsonFree(Left(a[k].shape, b[k].shape, c[k].shape).shape)
  {
    var ab := MergeFields(a, b);
    var l := MergeFields(ab, c);
    UnifyDocuments(a, b);
    UnifyRespectsSame(Unify(Document(a), Document(b)).shape, Document(ab), Document(c));
    UnifyDocuments(ab, c);
    SameJsonFree(Left(Document(a), Document(b), Document(c)).shape, Document(l));
    assert JsonFree(Document(l)) && k in l;
    assert ab[k] == MergeField(a[k], b[k]) && l[k] == MergeField(ab[k], c[k]);
  }

  // Wherever one grouping ends without Json, the other ends with the same shape.
  lemma {:induction false} AssociativeWithoutJson(a: Shape, b: Shape, c: Shape)
    requires JsonFree(Left(a, b, c).shape) || JsonFree(Right(a, b, c).shape)
    ensures Associates(a, b, c)
    decreases Height(a) + Height(b) + Height(c)
  {
    RightIsLeft(a, b, c);
    if a.Unknown? || b.Unknown? || c.Unknown? {
      UnknownAssociates(a, b, c);
    } else if a.Json? || b.Json? || c.Json? {
      JsonAbsorbs(a, b, c);
      JsonAbsorbs(c, b, a);
    } else if a.Array? || b.Array? || c.Array? {
      ArraysAssociate(a, b, c);
    } else if a.Document? && b.Document? && c.Document? {
      var (fa, fb, fc) := (a.fields, b.fields, c.fields);
      forall k | k in fa && k in fb && k in fc ensures AssociatesFields(fa[k], fb[k], fc[k]) {
        ChildHeight(fa, k);
        ChildHeight(fb, k);
        ChildHeight(fc, k);
        RightIsLeft(fa[k].shape, fb[k].shape, fc[k].shape);
        if JsonFree(Left(a, b, c).shape) {
          DocumentsJsonFree(fa, fb, fc, k);
        } else {
          DocumentsJsonFree(fc, fb, fa, k);
        }
        AssociativeWithoutJson(fa[k].shape, fb[k].shape, fc[k].shape);
      }
      AssociatesDocuments(fa, fb, fc);
    } else if a.Document? || b.Document? || c.Document? {
      DocumentMeetsLeaf(a, b, c);
    } else {
      LeavesAssociate(a, b, c);
    }
  }

  lemma JsonAbsorbs(a: Shape, b: Shape, c: Shape)
    requires a.Json? || b.Json? || c.Json?
    ensures Left(a, b, c).shape == Json
  {
    if !c.Json? {
      JsonMeets(if a.Json? then b else a);
    }
    JsonMeets(Unify(a, b).shape);
    JsonMeets(c);
  }

  lemma LeftJsonFreeOnArray(a: Shape, b: Shape, c: Shape)
    requires a.Array? || b.Array? || c.Array?
    requires !a.Unknown? && !b.Unknown? && !c.Unknown? && !a.Json? && !b.Json? && !c.Json?
    requires JsonFree(Left(a, b, c).shape)
    ensures Left(a, b, c) == Wrap(Left(Inner(a), Inner(b), Inner(c)))
    ensures JsonFree(Left(Inner(a), Inner(b), Inner(c)).shape)
  {
    LeftOnArray(a, b, c);
  }

  lemma {:induction false} ArraysAssociate(a: Shape, b: Shape, c: Shape)
    requires JsonFree(Left(a, b, c).shape) || JsonFree(Right(a, b, c).shape)
    requires a.Array? || b.Array? || c.Array?
    requires !a.Unknown? && !b.Unknown? && !c.Unknown? && !a.Json? && !b.Json? && !c.Json?
    ensures Associates(a, b, c)
    decreases Height(a) + Height(b) + Height(c), 0
  {
    if JsonFree(Left(a, b, c).shape) {
      LeftJsonFreeAssociates(a, b, c);
    } else {
      RightIsLeft(a, b, c);
      LeftJsonFreeAssociates(c, b, a);
      RightIsLeft(c, b, a);
    }
  }

  lemma {:induction false} LeftJsonFreeAssociates(a: Shape, b: Shape, c: Shape)
    requires JsonFree(Left(a, b, c).shape)
    requires a.Array? || b.Array? || c.Array?
    requires !a.Unknown? && !b.Unknown? && !c.Unknown? && !a.Json? && !b.Json? && !c.Json?
    ensures Agree(Left(a, b, c), Right(a, b, c))
    decreases Height(a) + Height(b) + Height(c), -1
  {
    var (x, y, z) := (Inner(a), Inner(b), Inner(c));
    LeftJsonFreeOnArray(a, b, c);
    AssociativeWithoutJson(x, y, z);
    RightIsLeft(a, b, c);
    RightIsLeft(x, y, z);
    LeftOnArray(c, b, a);
    WrapAgrees(Left(x, y, z), Left(z, y, x), Left(c, b, a));
  }

  lemma WrapAgrees(l: Joined, r: Joined, outer: Joined)
    requires Agree(l, r) && JsonFree(l.shape)
    requires outer == Wrap(r) || (outer.shape == Json && r.shape == Json)
    ensures Agree(Wrap(l), outer)
  {
    SameJsonFree(l.shape, r.shape);
  }

  // The source's claim of associativity fails once an array meets a conflict:
  // one grouping has already degraded to Json, the other keeps the array.
  lemma UnifyIsNotAssociative()
    ensures Left(Int32, Utf8, Array(Unknown)).shape == Json
    ensures Right(Int32, Utf8, Array(Unknown)).shape == Array(Json)
    ensures !Associates(Int32, Utf8, Array(Unknown))
  {
    assert Unify(Int32, Utf8) == Joined(Json, true);
    assert Unify(Array(Unknown), Utf8) == Joined(Array(Utf8), false);
    UnifyCommutes(Utf8, Array(Unknown));
    assert Unify(Utf8, Int32) == Joined(Json, true);
    assert Unify(Array(Utf8), Int32) == Joined(Array(Json), true);
    UnifyCommutes(Int32, Array(Utf8));
  }

  // ---- merging never deepens ----

  // At most n arrays stand directly inside one another at the top of s.
  ghost predicate RunAtMost(s: Shape, n: nat) {
    match s
    case Array(e) => n > 0 && RunAtMost(e, n - 1)
    case _ => true
  }

  // Documents nest at most n deep, arrays not counted.
  ghost predicate NestAtMost(s: Shape, n: nat) {
    match s
    case Array(e) => NestAtMost(e, n)
    case Document(fs) => n > 0 && forall k :: k in fs ==> NestAtMost(fs[k].shape, n - 1)
    case _ => true
  }

  lemma {:induction false} UnifyKeepsRun(a: Shape, b: Shape, n: nat)
    requires RunAtMost(a, n) && RunAtMost(b, n)
    ensures RunAtMost(Unify(a, b).shape, n)
    decreases n
  {
    if a.Array? && b.Array? {
      UnifyKeepsRun(a.elem, b.elem, n - 1);
    } else if a.Array? && n > 0 && !b.Unknown? {
      if RunAtMost(b, n - 1) {
        UnifyKeepsRun(a.elem, b, n - 1);
      }
    } else if b.Array? && n > 0 && !a.Unknown? {
      UnifyKeepsRun(b.elem, a, n - 1);
    }
  }

  lemma {:induction false} UnifyKeepsNesting(a: Shape, b: Shape, n: nat)
    requires NestAtMost(a, n) && NestAtMost(b, n)
    ensures NestAtMost(Unify(a, b).shape, n)
    decreases Height(a) + Height(b)
  {
    if a == b || a.Unknown? || b.Unknown? || a.Json? || b.Json? {
    } else if a.Array? || b.Array? {
      UnifyOnArray(a, b);
      UnifyKeepsNesting(Inner(a), Inner(b), n);
    } else if a.Document? && b.Document? {
      MergeKeepsNesting(a.fields, b.fields, n);
    }
  }

  lemma {:induction false} MergeKeepsNesting(l: map<string, FieldShape>, r: map<string, FieldShape>, n: nat)
    requires NestAtMost(Document(l), n) && NestAtMost(Document(r), n)
    ensures NestAtMost(Document(MergeFields(l, r)), n)
    decreases Height(Document(l)) + Height(Document(r)), 0
  {
    var m := MergeFields(l, r);
    forall k | k in m ensures NestAtMost(m[k].shape, n - 1) {
      if k in l && k in r {
        ChildHeight(l, k);
        ChildHeight(r, k);
        UnifyKeepsNesting(l[k].shape, r[k].shape, n - 1);
        assert m[k] == MergeField(l[k], r[k]);
      }
    }
  }
}
