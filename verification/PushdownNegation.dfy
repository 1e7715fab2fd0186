// NOT over predicates of which a part was dropped.
module PushdownNegation {
  import opened Wrappers
  import opened Arrow
  import opened Convert
  import opened Sql
  import opened MongoFilter
  import opened Pushdown
  import opened PushdownLaws
  import opened PushdownFindings
  import opened ColumnAtoms
  import B = BsonModel

  // Conjunctions and disjunctions of exact predicates of the fragment, where a
  // half of a conjunction may have no translation.
  ghost predicate PartlyInScope(e: Expr, schema: Schema) {
    && Translate(e, schema).Some?
    && (if e.Binary? && e.op.OpAnd? then
          && (Translate(e.left, schema).Some? ==> PartlyInScope(e.left, schema))
          && (Translate(e.right, schema).Some? ==> PartlyInScope(e.right, schema))
        else if e.Binary? && e.op.OpOr? then PartlyInScope(e.left, schema) && PartlyInScope(e.right, schema)
        else if e.Alias? then PartlyInScope(e.e, schema)
        else InScope(e, schema) && Translate(e, schema).value.exact)
  }

  // The predicate without its dropped halves.
  ghost function Kept(e: Expr, schema: Schema): Expr
    requires Translate(e, schema).Some?
  {
    if e.Binary? && e.op.OpAnd? then
      (if Translate(e.left, schema).None? then Kept(e.right, schema)
       else if Translate(e.right, schema).None? then Kept(e.left, schema)
       else Binary(Kept(e.left, schema), OpAnd, Kept(e.right, schema)))
    else if e.Binary? && e.op.OpOr? then Binary(Kept(e.left, schema), OpOr, Kept(e.right, schema))
    else if e.Alias? then Kept(e.e, schema)
    else e
  }

  // What is kept translates to the same filter, exactly.
  lemma {:induction false} KeptTranslates(e: Expr, schema: Schema)
    requires PartlyInScope(e, schema)
    ensures InScope(Kept(e, schema), schema)
    ensures Translate(Kept(e, schema), schema) == Some(Translated(Translate(e, schema).value.filter, true))
  {
    if e.Binary? && e.op.OpAnd? {
      if Translate(e.left, schema).Some? {
        KeptTranslates(e.left, schema);
      }
      if Translate(e.right, schema).Some? {
        KeptTranslates(e.right, schema);
      }
    } else if e.Binary? && e.op.OpOr? {
      KeptTranslates(e.left, schema);
      KeptTranslates(e.right, schema);
    } else if e.Alias? {
      KeptTranslates(e.e, schema);
    }
  }

  // Its guards are among those of the whole.
  lemma {:induction false} KeptGuards(e: Expr, schema: Schema, d: B.Doc)
    requires PartlyInScope(e, schema) && GuardColumns(e, schema).Some?
    ensures GuardColumns(Kept(e, schema), schema).Some?
    ensures GuardsHold(GuardColumns(e, schema).value, d) ==> GuardsHold(GuardColumns(Kept(e, schema), schema).value, d)
  {
    if e.Binary? && (e.op.OpAnd? || e.op.OpOr?) {
      GuardsSplit(GuardColumns(e.left, schema).value, GuardColumns(e.right, schema).value, d);
      if Translate(e.left, schema).Some? {
        KeptGuards(e.left, schema, d);
      }
      if Translate(e.right, schema).Some? {
        KeptGuards(e.right, schema, d);
      }
      if Translate(e.left, schema).Some? && Translate(e.right, schema).Some? {
        GuardsSplit(GuardColumns(Kept(e.left, schema), schema).value, GuardColumns(Kept(e.right, schema), schema).value,
                    d);
      }
    } else if e.Alias? {
      KeptGuards(e.e, schema, d);
    }
  }

  // What is kept is FALSE only where the whole is.
  lemma {:induction false} KeptFalse(e: Expr, schema: Schema, row: Row)
    requires PartlyInScope(e, schema) && Eval(Kept(e, schema), schema, row) == VBool(false)
    ensures Eval(e, schema, row) == VBool(false)
  {
    if e.Binary? && e.op.OpAnd? {
      if Translate(e.left, schema).Some? && Eval(Kept(e.left, schema), schema, row) == VBool(false) {
        KeptFalse(e.left, schema, row);
      } else {
        KeptFalse(e.right, schema, row);
      }
    } else if e.Binary? && e.op.OpOr? {
      KeptFalse(e.left, schema, row);
      KeptFalse(e.right, schema, row);
    } else if e.Alias? {
      KeptFalse(e.e, schema, row);
    }
  }

  lemma FilterMeansKept(e: Expr, schema: Schema, d: B.Doc, r: Rendering)
    requires Setting(schema, d) && PartlyInScope(e, schema) && GuardColumns(e, schema).Some?
    ensures var (v, accepted) := (Eval(Kept(e, schema), schema, DecodeRow(schema, d, r)),
                                  Matches(Translate(e, schema).value.filter, d));
      && (accepted ==> v == VBool(true))
      && (GuardsHold(GuardColumns(e, schema).value, d) ==> v == VBool(accepted))
  {
    KeptTranslates(e, schema);
    KeptGuards(e, schema, d);
    ExactFilterDecides(Kept(e, schema), schema, d, r);
  }

  // The negation's filter agrees with SQL on a document if and only if it is not
  // the case that the operand is FALSE while what was kept of it is TRUE or a
  // column it names is null; and where it does not agree, a row is lost.
  lemma PartialNegationIsFaithfulIff(i: Expr, schema: Schema, d: B.Doc, r: Rendering)
    requires WellFormedSchema(schema) && ConformsDoc(schema, d)
    requires PartlyInScope(i, schema) && GuardColumns(i, schema).Some?
    ensures Translate(Not(i), schema).Some?
    ensures LosesRow(Not(i), schema, d, r) <==>
      Eval(i, schema, DecodeRow(schema, d, r)) == VBool(false) &&
      (Eval(Kept(i, schema), schema, DecodeRow(schema, d, r)) == VBool(true)
        || !GuardsHold(GuardColumns(i, schema).value, d))
    ensures Matches(Translate(Not(i), schema).value.filter, d) ==> IsTrueOn(Not(i), schema, DecodeRow(schema, d, r))
  {
    var row := DecodeRow(schema, d, r);
    NotReads(i, schema, d, r);
    FilterMeansKept(i, schema, d, r);
    if Eval(Kept(i, schema), schema, row) == VBool(false) {
      KeptFalse(i, schema, row);
    }
  }

  // For any operand at all, whatever its columns hold and wherever a part of it was
  // dropped: the negation loses a row exactly where the operand is FALSE and its
  // filter accepts or a column is null, and adds one exactly where the operand is
  // not FALSE, all its columns hold values and its filter rejects.
  lemma AnyNegationIff(i: Expr, schema: Schema, d: B.Doc, r: Rendering)
    requires Translate(i, schema).Some? && GuardColumns(i, schema).Some?
    ensures var (v, accepted) := (Eval(i, schema, DecodeRow(schema, d, r)),
                                  Matches(Translate(i, schema).value.filter, d));
      && (LosesRow(Not(i), schema, d, r) <==>
          v == VBool(false) && (accepted || !GuardsHold(GuardColumns(i, schema).value, d)))
      && (AddsRow(Not(i), schema, d, r) <==>
          v != VBool(false) && !accepted && GuardsHold(GuardColumns(i, schema).value, d))
  {
    NotReads(i, schema, d, r);
  }

  // NOT (l AND rt) where rt was dropped: a row is lost exactly where l is TRUE and
  // rt FALSE, or the conjunction is FALSE while a column of either half is null.
  lemma DroppedRightHalfLosesIff(l: Expr, rt: Expr, schema: Schema, d: B.Doc, r: Rendering)
    requires WellFormedSchema(schema) && ConformsDoc(schema, d)
    requires InScope(l, schema) && Translate(l, schema).Some? && Translate(l, schema).value.exact
    requires Translate(rt, schema).None?
    requires GuardColumns(l, schema).Some? && GuardColumns(rt, schema).Some?
    ensures var row := DecodeRow(schema, d, r);
      LosesRow(Not(Binary(l, OpAnd, rt)), schema, d, r) <==>
        || (Eval(l, schema, row) == VBool(true) && Eval(rt, schema, row) == VBool(false))
        || (Eval(Binary(l, OpAnd, rt), schema, row) == VBool(false)
            && !GuardsHold(GuardColumns(l, schema).value + GuardColumns(rt, schema).value, d))
  {
    AndReads(l, rt, schema, DecodeRow(schema, d, r));
    DroppedHalf(l, Binary(l, OpAnd, rt), schema, d, r);
  }

  lemma DroppedLeftHalfLosesIff(l: Expr, rt: Expr, schema: Schema, d: B.Doc, r: Rendering)
    requires WellFormedSchema(schema) && ConformsDoc(schema, d)
    requires InScope(rt, schema) && Translate(rt, schema).Some? && Translate(rt, schema).value.exact
    requires Translate(l, schema).None?
    requires GuardColumns(l, schema).Some? && GuardColumns(rt, schema).Some?
    ensures var row := DecodeRow(schema, d, r);
      LosesRow(Not(Binary(l, OpAnd, rt)), schema, d, r) <==>
        || (Eval(l, schema, row) == VBool(false) && Eval(rt, schema, row) == VBool(true))
        || (Eval(Binary(l, OpAnd, rt), schema, row) == VBool(false)
            && !GuardsHold(GuardColumns(l, schema).value + GuardColumns(rt, schema).value, d))
  {
    DroppedHalf(rt, Binary(l, OpAnd, rt), schema, d, r);
  }

  // A negated predicate whose filter is that of its exact part k.
  lemma DroppedHalf(k: Expr, i: Expr, schema: Schema, d: B.Doc, r: Rendering)
    requires WellFormedSchema(schema) && ConformsDoc(schema, d)
    requires InScope(k, schema) && Translate(k, schema).Some? && Translate(k, schema).value.exact
    requires Translate(i, schema) == Some(Translated(Translate(k, schema).value.filter, false))
    requires GuardColumns(i, schema).Some? && GuardColumns(k, schema).Some?
    requires forall c :: c in GuardColumns(k, schema).value ==> c in GuardColumns(i, schema).value
    ensures LosesRow(Not(i), schema, d, r) <==>
      Eval(i, schema, DecodeRow(schema, d, r)) == VBool(false) &&
      (Eval(k, schema, DecodeRow(schema, d, r)) == VBool(true) || !GuardsHold(GuardColumns(i, schema).value, d))
  {
    NotReads(i, schema, d, r);
    ExactFilterDecides(k, schema, d, r);
  }
}
