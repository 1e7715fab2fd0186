// When the batches of an inferred schema convert.
module Conversion {
  import opened Wrappers
  import opened Arrow
  import opened ArrowSchema
  import opened Convert
  import opened Columnar
  import opened Exec
  import opened Execute
  import opened SampleConforms
  import opened Sampling
  import Shapes
  import B = BsonModel

  // No list column at any depth exceeds what its offsets can count.
  ghost predicate ListsFit(ty: DataType, values: seq<Option<B.Bson>>)
    decreases ty
  {
    match ty
    case StructType(children) => forall c :: c in children ==> ListsFit(c.ty, ChildSlots(values, c.name))
    case ListType(item) => |Flatten(values)| <= MAX_ELEMENTS && ListsFit(item.ty, Flatten(values))
    case _ => true
  }

  lemma NestedIsNullable(path: string, k: string)
    ensures path + "." + k != "_id"
  {
    assert (path + "." + k)[|path|] == '.';
  }

  lemma {:induction false} LoweredBuilds(f: Field, shape: Shapes.Shape, path: string, depth: nat, maxDepth: nat,
                                         freq: Freq,
                                         values: seq<Option<B.Bson>>, r: Rendering)
    requires f.ty == ArrowType(shape, path, depth, maxDepth, freq).0
    ensures Buildable(f, values, r) <==> ListsFit(f.ty, values)
    decreases shape, 1
  {
    match shape
    case Document(children) =>
      if depth < maxDepth && children != map[] {
        ChildrenBuild(f, children, path, depth + 1, maxDepth, freq, values, r);
      }
    case Array(inner) =>
      if depth < maxDepth {
        LoweredBuilds(f.ty.item, inner, path, depth + 1, maxDepth, freq, Flatten(values), r);
      }
    case _ =>
  }

  lemma {:induction false} ChildrenBuild(f: Field, children: map<string, Shapes.FieldShape>, path: string, depth: nat,
                                         maxDepth: nat, freq: Freq, values: seq<Option<B.Bson>>, r: Rendering)
    requires f.ty == StructType(BuildDocument(children, path, depth, maxDepth, freq)) && children != map[]
    ensures Buildable(f, values, r) <==> ListsFit(f.ty, values)
    decreases Shapes.Document(children), 0
  {
    var keys := SortedKeys(children.Keys);
    var built := f.ty.children;
    forall c | c in built
      ensures ChildBuilds(c, values, r)
    {
      var i :| 0 <= i < |built| && built[i] == c;
      NestedIsNullable(path, keys[i]);
      LoweredBuilds(c, children[keys[i]].shape, path + "." + keys[i], depth, maxDepth, freq, ChildSlots(values, c.name),
                    r);
    }
    var k :| k in children;
    KeyIsBuilt(children, path, depth, maxDepth, freq, k);
    StructBuilds(f, values, r);
  }

  ghost predicate ChildBuilds(c: Field, values: seq<Option<B.Bson>>, r: Rendering) {
    c.nullable && (Buildable(c, ChildSlots(values, c.name), r) <==> ListsFit(c.ty, ChildSlots(values, c.name)))
  }

  lemma StructBuilds(f: Field, values: seq<Option<B.Bson>>, r: Rendering)
    requires f.ty.StructType? && f.ty.children != []
    requires forall c :: c in f.ty.children ==> ChildBuilds(c, values, r)
    ensures Buildable(f, values, r) <==> ListsFit(f.ty, values)
  {
  }

  // A column builds unless one of its lists is too long.
  lemma InferredBuilds(sample: seq<B.Doc>, maxDepth: nat, freq: Freq, f: Field, values: seq<Option<B.Bson>>,
                       r: Rendering)
    requires f in Inferred(sample, maxDepth, freq)
    ensures Buildable(f, values, r) <==> ListsFit(f.ty, values)
    ensures f.nullable <==> f.name != "_id"
  {
    InferredField(sample, maxDepth, freq, f);
    LoweredBuilds(f, ObserveAll(sample)[f.name].shape, f.name, 0, maxDepth, freq, values, r);
  }

  // Every document's `_id` decodes to a value.
  ghost predicate IdDecodes(f: Field, docs: seq<B.Doc>, r: Rendering) {
    forall i :: 0 <= i < |docs| ==> !Decode(f.ty, LookupPath(docs[i], PathOf(f)), r).VNull?
  }

  // A batch against any columns of an inferred schema converts if and only if its
  // lists fit and, where `_id` is read, each `_id` decodes: nothing else in any
  // document, sampled or not, can fail it.
  lemma InferredConvertsIff(sample: seq<B.Doc>, maxDepth: nat, freq: Freq, projected: Schema, docs: seq<B.Doc>,
                            r: Rendering)
    requires forall f :: f in projected ==> f in Inferred(sample, maxDepth, freq)
    ensures Converts(projected, docs, r) <==>
      && (forall f :: f in projected ==> ListsFit(f.ty, Slots(docs, f)))
      && (forall f :: f in projected && f.name == "_id" ==> IdDecodes(f, docs, r))
  {
    forall f | f in projected
      ensures Buildable(f, Slots(docs, f), r) <==> ListsFit(f.ty, Slots(docs, f))
      ensures NullsAllowed(f, docs, r) <==> (f.name == "_id" ==> IdDecodes(f, docs, r))
    {
      InferredBuilds(sample, maxDepth, freq, f, Slots(docs, f), r);
    }
  }
}
