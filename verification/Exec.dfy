// Turning a cursor into a stream of record batches.
module Exec {
  import opened Wrappers
  import opened B = BsonModel
  import opened Arrow
  import opened Convert
  import opened Columnar

  // ---- one batch ----

  datatype Batch = Batch(schema: Schema, columns: seq<Column>, rows: nat)

  function Slots(docs: seq<Doc>, f: Field): (slots: seq<Option<Bson>>)
    ensures |slots| == |docs| && forall i :: 0 <= i < |docs| ==> slots[i] == LookupPath(docs[i], PathOf(f))
  {
    seq(|docs|, i requires 0 <= i < |docs| => LookupPath(docs[i], PathOf(f)))
  }

  // A column may not hold NULL where its field says it cannot.
  ghost predicate NullsAllowed(f: Field, docs: seq<Doc>, r: Rendering) {
    f.nullable || forall i :: 0 <= i < |docs| ==> !Decode(f.ty, LookupPath(docs[i], PathOf(f)), r).VNull?
  }

  ghost predicate BatchReads(b: Batch, schema: Schema, docs: seq<Doc>, r: Rendering) {
    && b.schema == schema && b.rows == |docs| && |b.columns| == |schema|
    && forall j :: 0 <= j < |schema| ==> Represents(b.columns[j], schema[j], Slots(docs, schema[j]), r)
  }

  method HasNull(c: Column) returns (found: bool)
    requires WellFormed(c)
    ensures found <==> exists i :: 0 <= i < Length(c) && ReadAt(c, i).VNull?
  {
    for i := 0 to Length(c)
      invariant forall k :: 0 <= k < i ==> !ReadAt(c, k).VNull?
    {
      if ReadAt(c, i).VNull? {
        found := true;
        assert i < Length(c) && ReadAt(c, i).VNull?;
        return;
      }
    }
    found := false;
  }

  method FillSlots(docs: seq<Doc>, f: Field) returns (slots: seq<Option<Bson>>)
    ensures slots == Slots(docs, f)
  {
    slots := [];
    for i := 0 to |docs|
      invariant |slots| == i && forall k :: 0 <= k < i ==> slots[k] == LookupPath(docs[k], PathOf(f))
    {
      var slot := Lookup(docs[i], PathOf(f));
      slots := slots + [slot];
    }
  }

  method BuildColumns(schema: Schema, docs: seq<Doc>, r: Rendering) returns (res: Result<seq<Column>, string>)
    ensures res.Ok? <==> forall f :: f in schema ==> Buildable(f, Slots(docs, f), r)
    ensures res.Ok? ==> |res.value| == |schema| && forall j :: 0 <= j < |schema| ==>
      Represents(res.value[j], schema[j], Slots(docs, schema[j]), r)
  {
    var columns: seq<Column> := [];
    for j := 0 to |schema|
      invariant |columns| == j
      invariant forall k :: 0 <= k < j ==>
        && Buildable(schema[k], Slots(docs, schema[k]), r)
        && Represents(columns[k], schema[k], Slots(docs, schema[k]), r)
    {
      var slots := FillSlots(docs, schema[j]);
      var column := BuildArray(schema[j], slots, r);
      if column.Err? {
        assert schema[j] in schema;
        return Err(column.error);
      }
      columns := columns + [column.value];
    }
    res := Ok(columns);
  }

  method CheckNulls(f: Field, c: Column, docs: seq<Doc>, r: Rendering) returns (ok: bool)
    requires Represents(c, f, Slots(docs, f), r)
    ensures ok <==> NullsAllowed(f, docs, r)
  {
    if f.nullable {
      return true;
    }
    var found := HasNull(c);
    ok := !found;
    if found {
      ghost var k :| 0 <= k < Length(c) && ReadAt(c, k).VNull?;
      assert Decode(f.ty, LookupPath(docs[k], PathOf(f)), r).VNull?;
    } else {
      forall i | 0 <= i < |docs| ensures !Decode(f.ty, LookupPath(docs[i], PathOf(f)), r).VNull? {
        assert !ReadAt(c, i).VNull? && Slots(docs, f)[i] == LookupPath(docs[i], PathOf(f));
      }
    }
  }

  method DocumentsToBatch(schema: Schema, docs: seq<Doc>, r: Rendering) returns (res: Result<Batch, string>)
    ensures res.Ok? <==> forall f :: f in schema ==> Buildable(f, Slots(docs, f), r) && NullsAllowed(f, docs, r)
    ensures res.Ok? ==> BatchReads(res.value, schema, docs, r)
  {
    var columns := BuildColumns(schema, docs, r);
    if columns.Err? {
      return Err(columns.error);
    }
    for j := 0 to |schema|
      invariant forall k :: 0 <= k < j ==> NullsAllowed(schema[k], docs, r)
    {
      var ok := CheckNulls(schema[j], columns.value[j], docs, r);
      if !ok {
        assert schema[j] in schema;
        return Err("non-nullable column contains null values");
      }
    }
    res := Ok(Batch(schema, columns.value, |docs|));
  }

  // ---- the batching loop ----

  // A server cursor: the documents still to come, and whether it breaks after them.
  class Cursor {
    var pending: seq<Doc>
    const broken: bool

    constructor (docs: seq<Doc>, broken: bool)
      ensures pending == docs && this.broken == broken
    {
      pending := docs;
      this.broken := broken;
    }

    method TryNext() returns (res: Result<Option<Doc>, string>)
      modifies this
      ensures old(pending) != [] ==> res == Ok(Some(old(pending)[0])) && pending == old(pending)[1..]
      ensures old(pending) == [] ==> pending == [] && res == if broken then Err("cursor failed") else Ok(None)
    {
      if pending == [] {
        res := if broken then Err("cursor failed") else Ok(None);
      } else {
        res := Ok(Some(pending[0]));
        pending := pending[1..];
      }
    }
  }

  // One step of the unfold: a full batch, or whatever the cursor still holds.
  method NextDocs(cursor: Cursor, batchSize: nat) returns (res: Result<seq<Doc>, string>)
    requires batchSize >= 1
    modifies cursor
    ensures var n := MinNat(batchSize, |old(cursor.pending)|);
      && cursor.pending == old(cursor.pending)[n..]
      && (res.Ok? ==> res.value == old(cursor.pending)[..n])
      && (res.Err? <==> n < batchSize && cursor.broken)
  {
    var docs: seq<Doc> := [];
    ghost var all := cursor.pending;
    while |docs| < batchSize
      invariant |docs| <= batchSize && |docs| <= |all|
      invariant docs == all[..|docs|] && cursor.pending == all[|docs|..]
      decreases batchSize - |docs|
    {
      var next := cursor.TryNext();
      if next.Err? {
        return Err(next.error);
      }
      if next.value.None? {
        break;
      }
      docs := docs + [next.value.value];
    }
    res := Ok(docs);
  }

  function Concat<T>(batches: seq<seq<T>>): seq<T> {
    if batches == [] then [] else Concat(batches[..|batches| - 1]) + batches[|batches| - 1]
  }

  // The whole stream: batches concatenate to the cursor, none is empty, and only
  // the last may be short. A broken cursor loses its unfinished batch and says so.
  method Drain(cursor: Cursor, configured: nat) returns (batches: seq<seq<Doc>>, failed: bool)
    modifies cursor
    ensures var size := if configured == 0 then 1 else configured;
      && (forall b :: b in batches ==> 0 < |b| <= size)
      && (forall i :: 0 <= i < |batches| - 1 ==> |batches[i]| == size)
      && failed == cursor.broken
      && (!failed ==> Concat(batches) == old(cursor.pending))
      && (failed ==>
        && |batches| * size <= |old(cursor.pending)|
        && Concat(batches) == old(cursor.pending)[..|batches| * size]
        && |old(cursor.pending)| - |batches| * size < size)
  {
    var size := if configured == 0 then 1 else configured;
    ghost var all := cursor.pending;
    batches, failed := [], false;
    ghost var taken := 0;
    while true
      invariant 0 <= taken <= |all|
      invariant Concat(batches) == all[..taken] && cursor.pending == all[taken..]
      invariant forall b :: b in batches ==> 0 < |b| <= size
      invariant forall i :: 0 <= i < |batches| - 1 ==> |batches[i]| == size
      invariant taken == |batches| * size || (cursor.pending == [] && !cursor.broken)
      invariant cursor.pending != [] ==> forall i :: 0 <= i < |batches| ==> |batches[i]| == size
      decreases |all| - taken
    {
      var docs := NextDocs(cursor, size);
      if docs.Err? {
        failed := true;
        return;
      }
      if docs.value == [] {
        return;
      }
      batches := Append(batches, docs.value);
      taken := taken + |docs.value|;
      assert all[..taken] == all[..taken - |docs.value|] + docs.value;
      Product(|batches| - 1, size);
    }
  }

  function Append<T>(batches: seq<seq<T>>, b: seq<T>): (r: seq<seq<T>>)
    ensures |r| == |batches| + 1 && Concat(r) == Concat(batches) + b
    ensures forall x :: x in r ==> x in batches || x == b
    ensures forall i :: 0 <= i < |batches| ==> r[i] == batches[i]
    ensures r[|batches|] == b
  {
    assert (batches + [b])[..|batches|] == batches;
    batches + [b]
  }

  lemma Product(k: nat, size: nat)
    ensures (k + 1) * size == k * size + size
  {
  }
}
