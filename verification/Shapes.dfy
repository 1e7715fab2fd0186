// The inferred types and how two of them merge.
module Shapes {
  datatype Shape =
    | Unknown
    | Bool
    | Int32
    | Int64
    | Double
    | Decimal
    | Utf8
    | ObjectId
    | DateTime
    | BsonTimestamp
    | Binary
    | Document(fields: map<string, FieldShape>)
    | Array(elem: Shape)
    | Json

  datatype FieldShape = FieldShape(shape: Shape, present: nat, nulls: nat, mixed: bool)

  const EmptyField := FieldShape(Shape.Unknown, 0, 0, false)

  // ---- a height, to merge by recursion on both operands ----

  ghost function MaxOf(s: set<nat>): (m: nat)
    ensures forall x :: x in s ==> x <= m
  {
    if s == {} then 0 else
      var x :| x in s;
      var r := MaxOf(s - {x});
      assert s == (s - {x}) + {x};
      if x <= r then r else x
  }

  ghost function Height(s: Shape): nat {
    match s
    case Document(fs) => 1 + MaxOf(set k | k in fs :: Height(fs[k].shape))
    case Array(e) => 1 + Height(e)
    case _ => 0
  }

  lemma ChildHeight(fs: map<string, FieldShape>, k: string)
    requires k in fs
    ensures Height(fs[k].shape) < Height(Shape.Document(fs))
  {
    var heights := set x | x in fs :: Height(fs[x].shape);
    assert Height(Document(fs)) == 1 + MaxOf(heights);
    assert Height(fs[k].shape) in heights;
  }

  // ---- unify ----

  // The merged shape, and whether merging coerced across type families.
  datatype Joined = Joined(shape: Shape, conflict: bool)

  predicate IsNumeric(s: Shape) { s.Int32? || s.Int64? || s.Double? || s.Decimal? }

  // Int32 widens to Int64, both to Double, and every number to Decimal.
  function Width(s: Shape): nat
    requires IsNumeric(s)
  {
    match s
    case Int32 => 0
    case Int64 => 1
    case Double => 2
    case _ => 3
  }

  function UnifyLeaves(a: Shape, b: Shape): Joined {
    if IsNumeric(a) && IsNumeric(b) then Joined(if Width(a) < Width(b) then b else a, false)
    else if (a.ObjectId? && b.Utf8?) || (a.Utf8? && b.ObjectId?) then Joined(Utf8, true)
    else if (a.DateTime? && b.BsonTimestamp?) || (a.BsonTimestamp? && b.DateTime?) then Joined(DateTime, false)
    else Joined(Json, true)
  }

  function Unify(a: Shape, b: Shape): Joined
    decreases Height(a) + Height(b), 2
  {
    if a == b then Joined(a, false)
    else if a.Unknown? then Joined(b, false)
    else if b.Unknown? then Joined(a, false)
    else if a.Json? || b.Json? then Joined(Json, true)
    else if a.Array? && b.Array? then
      var j := Unify(a.elem, b.elem);
      Joined(Array(j.shape), j.conflict)
    else if a.Array? then
      var j := Unify(a.elem, b);
      Joined(Array(j.shape), j.conflict)
    else if b.Array? then
      var j := Unify(b.elem, a);
      Joined(Array(j.shape), j.conflict)
    else if a.Document? && b.Document? then Joined(Document(MergeFields(a.fields, b.fields)), false)
    else UnifyLeaves(a, b)
  }

  function MergeField(l: FieldShape, r: FieldShape): FieldShape
    decreases Height(l.shape) + Height(r.shape), 3
  {
    var j := Unify(l.shape, r.shape);
    FieldShape(j.shape, l.present + r.present, l.nulls + r.nulls, l.mixed || r.mixed || j.conflict)
  }

  function MergeFields(left: map<string, FieldShape>, right: map<string, FieldShape>): map<string, FieldShape>
    decreases Height(Document(left)) + Height(Document(right)), 0
  {
    map k | k in left.Keys + right.Keys ::
      if k in left && k in right then
        ChildHeight(left, k);
        ChildHeight(right, k);
        MergeField(left[k], right[k])
      else if k in left then left[k]
      else right[k]
  }

  lemma ChildrenAreLower(left: map<string, FieldShape>, right: map<string, FieldShape>, k: string)
    requires k in left && k in right
    ensures Height(left[k].shape) + Height(right[k].shape) < Height(Document(left)) + Height(Document(right))
  {
    ChildHeight(left, k);
    ChildHeight(right, k);
  }

  // The merge as the source runs it: the caller's `mixed` flag is raised in
  // place, and the left document's map is updated key by key.
  method UnifyShapes(a: Shape, b: Shape, mixedIn: bool) returns (shape: Shape, mixed: bool)
    ensures shape == Unify(a, b).shape
    ensures mixed == (mixedIn || Unify(a, b).conflict)
    decreases Height(a) + Height(b), 2
  {
    shape, mixed := a, mixedIn;
    if a == b || b.Unknown? {
    } else if a.Unknown? {
      shape := b;
    } else if a.Json? || b.Json? {
      shape, mixed := Json, true;
    } else if a.Array? && b.Array? {
      shape, mixed := UnifyShapes(a.elem, b.elem, mixed);
      shape := Array(shape);
    } else if a.Array? {
      shape, mixed := UnifyShapes(a.elem, b, mixed);
      shape := Array(shape);
    } else if b.Array? {
      shape, mixed := UnifyShapes(b.elem, a, mixed);
      shape := Array(shape);
    } else if a.Document? && b.Document? {
      var merged := MergeDocuments(a.fields, b.fields);
      shape := Document(merged);
    } else {
      var j := UnifyLeaves(a, b);
      shape, mixed := j.shape, mixed || j.conflict;
    }
  }

  method MergeEntry(lv: FieldShape, rv: FieldShape) returns (merged: FieldShape)
    ensures merged == MergeField(lv, rv)
    decreases Height(lv.shape) + Height(rv.shape), 3
  {
    var joined, m := UnifyShapes(lv.shape, rv.shape, lv.mixed || rv.mixed);
    merged := FieldShape(joined, lv.present + rv.present, lv.nulls + rv.nulls, m);
  }

  method MergeKey(left: map<string, FieldShape>, right: map<string, FieldShape>, k: string) returns (entry: FieldShape)
    requires k in right
    ensures entry == MergeFields(left, right)[k]
    decreases Height(Document(left)) + Height(Document(right)), 0
  {
    entry := right[k];
    if k in left {
      ChildrenAreLower(left, right, k);
      entry := MergeEntry(left[k], entry);
    }
  }

  method MergeDocuments(left: map<string, FieldShape>, right: map<string, FieldShape>)
    returns (merged: map<string, FieldShape>)
    ensures merged == MergeFields(left, right)
    decreases Height(Document(left)) + Height(Document(right)), 1
  {
    ghost var target := MergeFields(left, right);
    merged := left;
    var rest := right.Keys;
    while rest != {}
      invariant rest <= right.Keys
      invariant merged.Keys == left.Keys + (right.Keys - rest)
      invariant forall k :: k in left && k in rest ==> merged[k] == left[k]
      invariant forall k :: k in merged && k !in rest ==> merged[k] == target[k]
      decreases rest
    {
      var k :| k in rest;
      var entry := MergeKey(left, right, k);
      merged := merged[k := entry];
      rest := rest - {k};
    }
  }
}
