// When a merge is the least of the shapes above both operands.
module ShapeJoin {
  import opened Shapes
  import opened ShapeLaws

  // Somewhere the merge answers Json to two operands that are not Json.
  ghost predicate BringsJson(x: Shape, y: Shape)
    decreases Height(x) + Height(y)
  {
    if x.Unknown? || y.Unknown? || x.Json? || y.Json? then false
    else if x.Array? || y.Array? then BringsJson(Inner(x), Inner(y))
    else if x.Document? && y.Document? then
      exists k :: k in x.fields && k in y.fields &&
        (PairIsLower(x, y, k);
         BringsJson(x.fields[k].shape, y.fields[k].shape))
    else Unify(x, y).shape.Json?
  }

  lemma PairIsLower(x: Shape, y: Shape, k: string)
    requires x.Document? && y.Document? && k in x.fields && k in y.fields
    ensures Height(x.fields[k].shape) + Height(y.fields[k].shape) < Height(x) + Height(y)
  {
    ChildHeight(x.fields, k);
    ChildHeight(y.fields, k);
  }

  ghost predicate Bounds(x: Shape, y: Shape, u: Shape) { Below(x, u) && Below(y, u) }

  // ---- the order at arrays and at Json ----

  lemma UnderArrayOf(x: Shape, e: Shape)
    requires !x.Unknown? && !x.Json?
    ensures Below(x, Array(e)) <==> Below(Inner(x), e)
    ensures Coerced(x, Array(e)) <==> Coerced(Inner(x), e)
  {
  }

  lemma UnderJson(x: Shape)
    ensures Below(x, Json)
    ensures Coerced(x, Json) <==> !x.Unknown? && !x.Json?
  {
  }

  // ---- without new Json the merge is least ----

  // The merge lies below u, and coerces nothing that u does not.
  ghost predicate LiesUnder(x: Shape, y: Shape, u: Shape) {
    var j := Unify(x, y);
    && Below(j.shape, u)
    && (j.conflict || Coerced(j.shape, u) ==> Coerced(x, u) || Coerced(y, u))
  }

  lemma LeavesLieUnder(x: Shape, y: Shape, u: Shape)
    requires Bounds(x, y, u) && !x.Unknown? && !y.Unknown? && !x.Json? && !y.Json? && !x.Array? && !y.Array?
    requires !u.Array? && !u.Json? && !(x.Document? && y.Document?) && !Unify(x, y).shape.Json?
    ensures LiesUnder(x, y, u)
  {
  }

  lemma SameLiesUnder(x: Shape, u: Shape)
    requires Below(x, u)
    ensures LiesUnder(x, x, u)
  {
  }

  lemma ArraysLieUnder(x: Shape, y: Shape, e: Shape)
    requires x.Array? || y.Array?
    requires !x.Unknown? && !y.Unknown? && !x.Json? && !y.Json?
    requires LiesUnder(Inner(x), Inner(y), e)
    ensures LiesUnder(x, y, Array(e))
  {
    UnifyOnArray(x, y);
    UnderArrayOf(x, e);
    UnderArrayOf(y, e);
    UnderArrayOf(Unify(x, y).shape, e);
  }

  lemma FlatLiesUnder(x: Shape, y: Shape, e: Shape)
    requires !x.Array? && !y.Array? && !BringsJson(x, y)
    requires !x.Unknown? && !y.Unknown? && !x.Json? && !y.Json?
    requires LiesUnder(x, y, e)
    ensures LiesUnder(x, y, Array(e))
  {
    NoUnknown(x, y);
    UnderArrayOf(x, e);
    UnderArrayOf(y, e);
    UnderArrayOf(Unify(x, y).shape, e);
  }

  lemma {:induction false} MergeLiesUnder(x: Shape, y: Shape, u: Shape)
    requires Bounds(x, y, u) && !BringsJson(x, y)
    ensures LiesUnder(x, y, u)
    decreases Height(x) + Height(y), u, 2
  {
    if x == y {
      SameLiesUnder(x, u);
    } else if x.Unknown? || y.Unknown? || x.Json? || y.Json? {
      KnownLiesUnder(x, y, u);
    } else if u.Json? {
      UnderJson(Unify(x, y).shape);
      UnderJson(x);
    } else if u.Array? {
      ElementsLieUnder(x, y, u.elem);
    } else if x.Document? && y.Document? {
      DocumentsLieUnder(x.fields, y.fields, u.fields);
    } else {
      LeavesLieUnder(x, y, u);
    }
  }

  lemma KnownLiesUnder(x: Shape, y: Shape, u: Shape)
    requires Bounds(x, y, u) && (x.Unknown? || y.Unknown? || x.Json? || y.Json?)
    ensures LiesUnder(x, y, u)
  {
  }

  lemma {:induction false} ElementsLieUnder(x: Shape, y: Shape, e: Shape)
    requires Bounds(x, y, Array(e)) && !BringsJson(x, y)
    requires !x.Unknown? && !y.Unknown? && !x.Json? && !y.Json?
    ensures LiesUnder(x, y, Array(e))
    decreases Height(x) + Height(y), Array(e), 1
  {
    UnderArrayOf(x, e);
    UnderArrayOf(y, e);
    MergeLiesUnder(Inner(x), Inner(y), e);
    if x.Array? || y.Array? {
      ArraysLieUnder(x, y, e);
    } else {
      FlatLiesUnder(x, y, e);
    }
  }

  lemma {:induction false} DocumentsLieUnder(l: map<string, FieldShape>, r: map<string, FieldShape>,
                                             u: map<string, FieldShape>)
    requires Bounds(Document(l), Document(r), Document(u)) && !BringsJson(Document(l), Document(r))
    ensures Below(Document(MergeFields(l, r)), Document(u))
    decreases Height(Document(l)) + Height(Document(r)), Document(u), 0
  {
    var m := MergeFields(l, r);
    forall k | k in m
      ensures k in u && Below(m[k].shape, u[k].shape)
      ensures m[k].mixed || Coerced(m[k].shape, u[k].shape) ==> u[k].mixed
    {
      if k in l && k in r {
        PairIsLower(Document(l), Document(r), k);
        assert m[k] == MergeField(l[k], r[k]);
        MergeLiesUnder(l[k].shape, r[k].shape, u[k].shape);
      }
    }
  }

  // ---- new Json leaves no least upper bound ----

  lemma {:induction false} CoercionStays(x: Shape, y: Shape, z: Shape)
    requires Below(x, y) && Below(y, z) && Coerced(x, y)
    ensures Coerced(x, z)
  {
    if z.Json? || y.Json? {
    } else if z.Array? {
      CoercionStays(Inner(x), Inner(y), z.elem);
    }
  }

  // A bound of both that lies strictly below u.
  ghost predicate Improves(x: Shape, y: Shape, u: Shape, v: Shape) {
    && Bounds(x, y, v) && Below(v, u) && !Below(u, v)
    && (Coerced(v, u) ==> Coerced(x, u) || Coerced(y, u))
  }

  lemma ArrayOfJsonImproves(x: Shape, y: Shape)
    requires !x.Json? && !x.Unknown?
    requires !y.Json? && !y.Unknown?
    ensures Improves(x, y, Json, Array(Json))
  {
    UnderArrayOf(x, Json);
    UnderArrayOf(y, Json);
    UnderJson(Inner(x));
    UnderJson(Inner(y));
    UnderJson(x);
  }

  lemma ArrayImproves(x: Shape, y: Shape, e: Shape, v: Shape)
    requires !x.Json? && !x.Unknown? && !y.Json? && !y.Unknown?
    requires Improves(Inner(x), Inner(y), e, v)
    ensures Improves(x, y, Array(e), Array(v))
  {
    UnderArrayOf(x, v);
    UnderArrayOf(y, v);
    UnderArrayOf(x, e);
    UnderArrayOf(y, e);
    UnderArrayOf(Array(v), e);
    UnderArrayOf(Array(e), v);
  }

  lemma FieldImproves(l: map<string, FieldShape>, r: map<string, FieldShape>, u: map<string, FieldShape>, k: string,
                      s: Shape)
    requires Bounds(Document(l), Document(r), Document(u)) && k in l && k in r && k in u
    requires Improves(l[k].shape, r[k].shape, u[k].shape, s)
    ensures Improves(Document(l), Document(r), Document(u), Document(u[k := u[k].(shape := s)]))
  {
    var v := u[k := u[k].(shape := s)];
    FieldBelowImproved(l, u, k, s);
    FieldBelowImproved(r, u, k, s);
    forall j | j in v
      ensures Below(v[j].shape, u[j].shape)
      ensures v[j].mixed || Coerced(v[j].shape, u[j].shape) ==> u[j].mixed
    {
      if j != k {
        BelowReflexive(u[j].shape);
      }
    }
  }

  lemma FieldBelowImproved(l: map<string, FieldShape>, u: map<string, FieldShape>, k: string, s: Shape)
    requires Below(Document(l), Document(u)) && k in l && k in u
    requires Below(l[k].shape, s) && Below(s, u[k].shape)
    ensures Below(Document(l), Document(u[k := u[k].(shape := s)]))
  {
    if Coerced(l[k].shape, s) {
      CoercionStays(l[k].shape, s, u[k].shape);
    }
  }

  lemma {:induction false} BoundsImprove(x: Shape, y: Shape, u: Shape) returns (v: Shape)
    requires Bounds(x, y, u) && BringsJson(x, y)
    ensures Improves(x, y, u, v)
    decreases Height(x) + Height(y), u
  {
    if u.Json? {
      ArrayOfJsonImproves(x, y);
      v := Array(Json);
    } else if u.Array? {
      if !x.Array? && !y.Array? {
        assert Inner(x) == x && Inner(y) == y;
      }
      var inner := BoundsImprove(Inner(x), Inner(y), u.elem);
      ArrayImproves(x, y, u.elem, inner);
      v := Array(inner);
    } else if x.Document? && y.Document? {
      var k :| k in x.fields && k in y.fields && BringsJson(x.fields[k].shape, y.fields[k].shape);
      PairIsLower(x, y, k);
      var s := BoundsImprove(x.fields[k].shape, y.fields[k].shape, u.fields[k].shape);
      FieldImproves(x.fields, y.fields, u.fields, k, s);
      v := Document(u.fields[k := u.fields[k].(shape := s)]);
    } else {
      LeafBoundsAreJson(x, y, u);
      v := u;
    }
  }

  // Two leaves in conflict lie together below nothing but Json and arrays.
  lemma LeafBoundsAreJson(x: Shape, y: Shape, u: Shape)
    requires Bounds(x, y, u) && !u.Array? && !u.Json?
    requires !x.Unknown? && !y.Unknown? && !(x.Document? && y.Document?) && !x.Json? && !y.Json?
    ensures !x.Array? && !y.Array? && !Unify(x, y).shape.Json?
  {
  }

  // ---- the least upper bound ----

  ghost predicate IsUpperBound(m: Shape, x: Shape, y: Shape) { Leq(x, m) && Leq(y, m) }

  ghost predicate IsLeastUpperBound(m: Shape, x: Shape, y: Shape) {
    IsUpperBound(m, x, y) && forall u :: IsUpperBound(u, x, y) ==> Leq(m, u)
  }

  lemma BoundsAreUpper(x: Shape, y: Shape, u: Shape)
    ensures Bounds(x, y, u) <==> IsUpperBound(u, x, y)
  {
    BelowIsLeq(x, u);
    BelowIsLeq(y, u);
  }

  // Two shapes have a least upper bound if and only if their merge brings no
  // Json of its own; the merge is then that bound.
  lemma LeastUpperBoundIff(x: Shape, y: Shape)
    ensures IsLeastUpperBound(Unify(x, y).shape, x, y) <==> !BringsJson(x, y)
    ensures (exists m :: IsLeastUpperBound(m, x, y)) <==> !BringsJson(x, y)
  {
    var j := Unify(x, y).shape;
    if BringsJson(x, y) {
      forall m ensures !IsLeastUpperBound(m, x, y) {
        if IsUpperBound(m, x, y) {
          BoundsAreUpper(x, y, m);
          var v := BoundsImprove(x, y, m);
          BoundsAreUpper(x, y, v);
          BelowIsLeq(m, v);
        }
      }
    } else {
      UnifyIsUpperBound(x, y);
      forall u | IsUpperBound(u, x, y) ensures Leq(j, u) {
        BoundsAreUpper(x, y, u);
        MergeLiesUnder(x, y, u);
        BelowIsLeq(j, u);
      }
      assert IsLeastUpperBound(j, x, y);
    }
  }

  // In particular wherever the merge holds no Json at all.
  lemma {:induction false} JsonFreeBringsNone(x: Shape, y: Shape)
    requires JsonFree(Unify(x, y).shape)
    ensures !BringsJson(x, y)
    decreases Height(x) + Height(y)
  {
    if x.Unknown? || y.Unknown? || x.Json? || y.Json? {
    } else if x.Array? || y.Array? {
      UnifyOnArray(x, y);
      JsonFreeBringsNone(Inner(x), Inner(y));
    } else if x.Document? && y.Document? {
      UnifyDocuments(x.fields, y.fields);
      SameJsonFree(Unify(x, y).shape, Document(MergeFields(x.fields, y.fields)));
      var m := MergeFields(x.fields, y.fields);
      forall k | k in x.fields && k in y.fields ensures !BringsJson(x.fields[k].shape, y.fields[k].shape) {
        PairIsLower(x, y, k);
        assert m[k] == MergeField(x.fields[k], y.fields[k]);
        JsonFreeBringsNone(x.fields[k].shape, y.fields[k].shape);
      }
    }
  }
}
