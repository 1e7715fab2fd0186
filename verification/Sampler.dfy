// Shapes of values, and the sampler that folds a stream of documents into them.
module Sampling {
  import B = BsonModel
  import opened Shapes

  predicate IsNullValue(v: B.Bson) { v.Null? || v.Undefined? }

  // ---- the shape of one value ----

  function ShapeOf(v: B.Bson): Shape
    decreases v, 1
  {
    match v
    case Boolean(_) => Shape.Bool
    case Int32(_) => Shape.Int32
    case Int64(_) => Shape.Int64
    case Double(_) => Shape.Double
    case Decimal128(_) => Shape.Decimal
    case String(_) => Shape.Utf8
    case Symbol(_) => Shape.Utf8
    case ObjectId(_) => Shape.ObjectId
    case DateTime(_) => Shape.DateTime
    case Timestamp(_, _) => Shape.BsonTimestamp
    case Binary(_, _) => Shape.Binary
    case Null => Shape.Unknown
    case Undefined => Shape.Unknown
    case Document(doc) => Shape.Document(map k | k in doc :: ObserveValue(EmptyField, doc[k]))
    case Array(items) => Shape.Array(ElementShape(items).shape)
    case Exotic(_) => Shape.Json
  }

  // The left fold of `unify` over an array's elements.
  function ElementShape(items: seq<B.Bson>): Joined
    decreases items, 0
  {
    if items == [] then Joined(Shape.Unknown, false)
    else
      var before := ElementShape(items[..|items| - 1]);
      var j := Unify(before.shape, ShapeOf(items[|items| - 1]));
      Joined(j.shape, before.conflict || j.conflict)
  }

  function ObserveValue(slot: FieldShape, v: B.Bson): FieldShape
    decreases v, 2
  {
    if IsNullValue(v) then slot.(present := slot.present + 1, nulls := slot.nulls + 1)
    else
      var j := Unify(slot.shape, ShapeOf(v));
      FieldShape(j.shape, slot.present + 1, slot.nulls, slot.mixed || j.conflict)
  }

  // The same, with the loops and the in-place slot of the source.
  method ComputeShape(v: B.Bson) returns (s: Shape)
    ensures s == ShapeOf(v)
    decreases v, 1
  {
    match v
    case Document(doc) =>
      var fields: map<string, FieldShape> := map[];
      var rest := doc.Keys;
      while rest != {}
        invariant rest <= doc.Keys && fields.Keys == doc.Keys - rest
        invariant forall k :: k in fields ==> fields[k] == ObserveValue(EmptyField, doc[k])
        decreases rest
      {
        var k :| k in rest;
        var slot := Observed(EmptyField, doc[k]);
        fields := fields[k := slot];
        rest := rest - {k};
      }
      assert fields == map k | k in doc :: ObserveValue(EmptyField, doc[k]);
      s := Shape.Document(fields);
    case Array(items) =>
      var elem, mixed := Shape.Unknown, false;
      for i := 0 to |items|
        invariant elem == ElementShape(items[..i]).shape && mixed == ElementShape(items[..i]).conflict
      {
        assert items[..i + 1][..i] == items[..i];
        var item := ComputeShape(items[i]);
        elem, mixed := UnifyShapes(elem, item, mixed);
      }
      assert items[..|items|] == items;
      s := Shape.Array(elem);
    case _ => s := ShapeOf(v);
  }

  method Observed(slot: FieldShape, v: B.Bson) returns (after: FieldShape)
    ensures after == ObserveValue(slot, v)
    decreases v, 2
  {
    if IsNullValue(v) {
      return slot.(present := slot.present + 1, nulls := slot.nulls + 1);
    }
    var shape := ComputeShape(v);
    var joined, mixed := UnifyShapes(slot.shape, shape, slot.mixed);
    after := FieldShape(joined, slot.present + 1, slot.nulls, mixed);
  }

  // ---- the sampler ----

  type Root = map<string, FieldShape>

  function Slot(root: Root, k: string): FieldShape {
    if k in root then root[k] else EmptyField
  }

  function ObserveDocument(root: Root, doc: B.Doc): Root {
    map k | k in root.Keys + doc.Keys ::
      if k in doc then ObserveValue(Slot(root, k), doc[k]) else root[k]
  }

  // The state after a run of `observe` over the documents in order.
  function ObserveAll(docs: seq<B.Doc>): Root {
    if docs == [] then map[]
    else ObserveDocument(ObserveAll(docs[..|docs| - 1]), docs[|docs| - 1])
  }

  class Sampler {
    var root: Root
    var docsSeen: nat
    ghost var seen: seq<B.Doc>

    ghost predicate Valid()
      reads this
    {
      root == ObserveAll(seen) && docsSeen == |seen|
    }

    constructor ()
      ensures Valid() && seen == []
    {
      root, docsSeen, seen := map[], 0, [];
    }

    method Observe(doc: B.Doc)
      requires Valid()
      modifies this
      ensures Valid() && seen == old(seen) + [doc]
    {
      docsSeen := docsSeen + 1;
      ghost var before := root;
      var rest := doc.Keys;
      while rest != {}
        invariant rest <= doc.Keys
        invariant root.Keys == before.Keys + (doc.Keys - rest)
        invariant forall k :: k in before && (k in rest || k !in doc) ==> root[k] == before[k]
        invariant forall k :: k in doc && k !in rest ==> root[k] == ObserveValue(Slot(before, k), doc[k])
        invariant docsSeen == old(docsSeen) + 1 && seen == old(seen)
        decreases rest
      {
        var k :| k in rest;
        assert Slot(root, k) == Slot(before, k);
        var slot := Observed(Slot(root, k), doc[k]);
        root := root[k := slot];
        rest := rest - {k};
      }
      assert root == ObserveDocument(before, doc);
      seen := seen + [doc];
      assert seen[..|seen| - 1] == old(seen);
    }
  }
}
