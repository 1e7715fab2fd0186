// When the grouping of three merges matters.
module ShapeGrouping {
  import opened Shapes
  import opened ShapeLaws

  // Two neighbours beside an array have already become Json.
  ghost predicate Degrades(x: Shape, y: Shape) { !x.Array? && !y.Array? && Unify(x, y).shape.Json? }

  // Nowhere, under arrays and common keys, does a pair degrade beside an array.
  ghost predicate Regroups(a: Shape, b: Shape, c: Shape)
    decreases Height(a) + Height(b) + Height(c)
  {
    if a.Unknown? || b.Unknown? || c.Unknown? || a.Json? || b.Json? || c.Json? then true
    else if a.Array? || b.Array? || c.Array? then
      !Degrades(a, b) && !Degrades(b, c) && Regroups(Inner(a), Inner(b), Inner(c))
    else if a.Document? && b.Document? && c.Document? then
      forall k :: k in a.fields && k in b.fields && k in c.fields ==>
        (FieldsAreLower(a, b, c, k);
         Regroups(a.fields[k].shape, b.fields[k].shape, c.fields[k].shape))
    else true
  }

  lemma FieldsAreLower(a: Shape, b: Shape, c: Shape, k: string)
    requires a.Document? && b.Document? && c.Document? && k in a.fields && k in b.fields && k in c.fields
    ensures Height(a.fields[k].shape) + Height(b.fields[k].shape) + Height(c.fields[k].shape)
          < Height(a) + Height(b) + Height(c)
  {
    ChildHeight(a.fields, k);
    ChildHeight(b.fields, k);
    ChildHeight(c.fields, k);
  }

  ghost predicate SameEitherWay(a: Shape, b: Shape, c: Shape) {
    Same(Left(a, b, c).shape, Right(a, b, c).shape)
  }

  // Under an array the left grouping keeps the array unless its first pair degrades.
  lemma LeftUnderArray(a: Shape, b: Shape, c: Shape)
    requires a.Array? || b.Array? || c.Array?
    requires !a.Unknown? && !b.Unknown? && !c.Unknown? && !a.Json? && !b.Json? && !c.Json?
    ensures Degrades(a, b) ==> Left(a, b, c).shape == Json
    ensures !Degrades(a, b) ==> Left(a, b, c) == Wrap(Left(Inner(a), Inner(b), Inner(c)))
  {
    NoUnknown(a, b);
    if a.Array? || b.Array? {
      UnifyOnArray(a, b);
      UnifyOnArray(Unify(a, b).shape, c);
    } else if Unify(a, b).shape.Json? {
      JsonMeets(c);
    } else {
      UnifyOnArray(Unify(a, b).shape, c);
    }
  }

  lemma RightUnderArray(a: Shape, b: Shape, c: Shape)
    requires a.Array? || b.Array? || c.Array?
    requires !a.Unknown? && !b.Unknown? && !c.Unknown? && !a.Json? && !b.Json? && !c.Json?
    ensures Degrades(b, c) ==> Right(a, b, c).shape == Json
    ensures !Degrades(b, c) ==> Right(a, b, c) == Wrap(Right(Inner(a), Inner(b), Inner(c)))
  {
    RightIsLeft(a, b, c);
    RightIsLeft(Inner(a), Inner(b), Inner(c));
    UnifyCommutes(b, c);
    LeftUnderArray(c, b, a);
  }

  lemma WrapsAgree(l: Joined, r: Joined)
    ensures Agree(Wrap(l), Wrap(r)) <==> Agree(l, r)
    ensures Same(Wrap(l).shape, Wrap(r).shape) <==> Same(l.shape, r.shape)
  {
  }

  lemma UnderArray(a: Shape, b: Shape, c: Shape)
    requires a.Array? || b.Array? || c.Array?
    requires !a.Unknown? && !b.Unknown? && !c.Unknown? && !a.Json? && !b.Json? && !c.Json?
    ensures Degrades(a, b) || Degrades(b, c) ==> !SameEitherWay(a, b, c)
    ensures !Degrades(a, b) && !Degrades(b, c) ==>
      && (Associates(a, b, c) <==> Associates(Inner(a), Inner(b), Inner(c)))
      && (SameEitherWay(a, b, c) <==> SameEitherWay(Inner(a), Inner(b), Inner(c)))
  {
    LeftUnderArray(a, b, c);
    RightUnderArray(a, b, c);
    WrapsAgree(Left(Inner(a), Inner(b), Inner(c)), Right(Inner(a), Inner(b), Inner(c)));
  }

  // Three documents that merge alike either way have common fields that do.
  lemma FieldsSameEitherWay(a: map<string, FieldShape>, b: map<string, FieldShape>, c: map<string, FieldShape>,
                            k: string)
    requires k in a && k in b && k in c && SameEitherWay(Document(a), Document(b), Document(c))
    ensures SameEitherWay(a[k].shape, b[k].shape, c[k].shape)
  {
    var ab, bc := MergeFields(a, b), MergeFields(b, c);
    var l, r := MergeFields(ab, c), MergeFields(a, bc);
    LeftOfDocuments(a, b, c);
    LeftOfDocuments(c, b, a);
    RightIsLeft(Document(a), Document(b), Document(c));
    MergeCommutes(c, b);
    MergeCommutes(bc, a);
    SameDocuments(l, r);
    assert StripField(l[k]) == StripField(r[k]);
    assert ab[k] == MergeField(a[k], b[k]) && bc[k] == MergeField(b[k], c[k]);
    assert l[k] == MergeField(ab[k], c[k]) && r[k] == MergeField(a[k], bc[k]);
  }

  lemma MergeCommutes(a: map<string, FieldShape>, b: map<string, FieldShape>)
    ensures MergeFields(a, b) == MergeFields(b, a)
  {
    forall k | k in a && k in b ensures MergeField(a[k], b[k]) == MergeField(b[k], a[k]) {
      UnifyCommutes(a[k].shape, b[k].shape);
    }
  }

  lemma LeftOfDocuments(a: map<string, FieldShape>, b: map<string, FieldShape>, c: map<string, FieldShape>)
    ensures Same(Left(Document(a), Document(b), Document(c)).shape, Document(MergeFields(MergeFields(a, b), c)))
  {
    UnifyDocuments(a, b);
    UnifyRespectsSame(Unify(Document(a), Document(b)).shape, Document(MergeFields(a, b)), Document(c));
    UnifyDocuments(MergeFields(a, b), c);
  }

  lemma {:induction false} RegroupsAssociates(a: Shape, b: Shape, c: Shape)
    requires Regroups(a, b, c)
    ensures Associates(a, b, c)
    decreases Height(a) + Height(b) + Height(c)
  {
    if a.Unknown? || b.Unknown? || c.Unknown? || a.Json? || b.Json? || c.Json? {
      PlainAssociates(a, b, c);
    } else if a.Array? || b.Array? || c.Array? {
      UnderArray(a, b, c);
      RegroupsAssociates(Inner(a), Inner(b), Inner(c));
    } else if a.Document? && b.Document? && c.Document? {
      DocumentsRegroup(a, b, c);
    } else {
      PlainAssociates(a, b, c);
    }
  }

  lemma {:induction false} DocumentsRegroup(a: Shape, b: Shape, c: Shape)
    requires a.Document? && b.Document? && c.Document? && Regroups(a, b, c)
    ensures Associates(a, b, c)
    decreases Height(a) + Height(b) + Height(c), 0
  {
    forall k | k in a.fields && k in b.fields && k in c.fields
      ensures AssociatesFields(a.fields[k], b.fields[k], c.fields[k])
    {
      FieldsAreLower(a, b, c, k);
      RegroupsAssociates(a.fields[k].shape, b.fields[k].shape, c.fields[k].shape);
      MergesAssociate(a.fields[k], b.fields[k], c.fields[k]);
    }
    AssociatesDocuments(a.fields, b.fields, c.fields);
  }

  lemma MergesAssociate(l: FieldShape, m: FieldShape, r: FieldShape)
    requires Associates(l.shape, m.shape, r.shape)
    ensures AssociatesFields(l, m, r)
  {
  }

  // Neither arrays nor three documents: any grouping will do.
  lemma PlainAssociates(a: Shape, b: Shape, c: Shape)
    requires a.Unknown? || b.Unknown? || c.Unknown? || a.Json? || b.Json? || c.Json?
      || (!a.Array? && !b.Array? && !c.Array? && !(a.Document? && b.Document? && c.Document?))
    ensures Associates(a, b, c)
  {
    if a.Unknown? || b.Unknown? || c.Unknown? {
      UnknownAssociates(a, b, c);
    } else if a.Json? || b.Json? || c.Json? {
      JsonAssociates(a, b, c);
    } else if a.Document? || b.Document? || c.Document? {
      DocumentMeetsLeaf(a, b, c);
    } else {
      LeavesAssociate(a, b, c);
    }
  }

  lemma JsonAssociates(a: Shape, b: Shape, c: Shape)
    requires a.Json? || b.Json? || c.Json?
    requires !a.Unknown? && !b.Unknown? && !c.Unknown?
    ensures Associates(a, b, c)
  {
    JsonAbsorbs(a, b, c);
    JsonAbsorbs(c, b, a);
    RightIsLeft(a, b, c);
    JsonConflicts(a, b, c);
    JsonConflicts(c, b, a);
  }

  // Json with anything else known is a conflict, in one of the two merges; three
  // times Json is none.
  lemma JsonConflicts(a: Shape, b: Shape, c: Shape)
    requires a.Json? || b.Json? || c.Json?
    requires !a.Unknown? && !b.Unknown? && !c.Unknown?
    ensures Left(a, b, c).conflict == !(a.Json? && b.Json? && c.Json?)
  {
    NoUnknown(a, b);
  }

  lemma {:induction false} SameMeansRegroups(a: Shape, b: Shape, c: Shape)
    requires SameEitherWay(a, b, c)
    ensures Regroups(a, b, c)
    decreases Height(a) + Height(b) + Height(c)
  {
    if a.Unknown? || b.Unknown? || c.Unknown? || a.Json? || b.Json? || c.Json? {
    } else if a.Array? || b.Array? || c.Array? {
      UnderArray(a, b, c);
      SameMeansRegroups(Inner(a), Inner(b), Inner(c));
    } else if a.Document? && b.Document? && c.Document? {
      forall k | k in a.fields && k in b.fields && k in c.fields
        ensures Regroups(a.fields[k].shape, b.fields[k].shape, c.fields[k].shape)
      {
        FieldsAreLower(a, b, c, k);
        FieldsSameEitherWay(a.fields, b.fields, c.fields, k);
        SameMeansRegroups(a.fields[k].shape, b.fields[k].shape, c.fields[k].shape);
      }
    }
  }

  // `unify` associates on three shapes if and only if nowhere in them two
  // neighbours degrade to Json beside an array. The flags never differ alone.
  lemma AssociatesIff(a: Shape, b: Shape, c: Shape)
    ensures Associates(a, b, c) <==> Regroups(a, b, c)
    ensures Same(Left(a, b, c).shape, Right(a, b, c).shape) <==> Regroups(a, b, c)
  {
    if Regroups(a, b, c) {
      RegroupsAssociates(a, b, c);
    }
    if SameEitherWay(a, b, c) {
      SameMeansRegroups(a, b, c);
    }
  }
}
