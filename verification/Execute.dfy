// A scan as it runs: cursors, batches, columns, and the rows they hold.
module Execute {
  import opened Wrappers
  import opened Arrow
  import opened Convert
  import opened Columnar
  import opened Exec
  import opened Scan
  import opened Sql
  import B = BsonModel

  // ---- the rows of a batch ----

  // The position of the first column of that name.
  function IndexOf(schema: Schema, name: string): (j: nat)
    requires exists f :: f in schema && f.name == name
    ensures j < |schema| && FindField(schema, name) == Some(schema[j])
  {
    if schema[0].name == name then 0 else 1 + IndexOf(schema[1..], name)
  }

  ghost predicate Readable(b: Batch) {
    && |b.columns| == |b.schema|
    && forall j :: 0 <= j < |b.columns| ==> WellFormed(b.columns[j]) && Length(b.columns[j]) == b.rows
  }

  ghost function BatchRow(b: Batch, i: nat): Row
    requires Readable(b) && i < b.rows
  {
    map f | f in b.schema :: f.name := ReadAt(b.columns[IndexOf(b.schema, f.name)], i)
  }

  ghost function BatchRows(b: Batch): seq<Row>
    requires Readable(b)
  {
    seq(b.rows, i requires 0 <= i < b.rows => BatchRow(b, i))
  }

  lemma CellDecodes(b: Batch, schema: Schema, docs: seq<B.Doc>, i: nat, f: Field, r: Rendering)
    requires BatchReads(b, schema, docs, r) && i < |docs| && f in schema
    ensures Readable(b)
    ensures ReadAt(b.columns[IndexOf(schema, f.name)], i) == DecodeRow(schema, docs[i], r)[f.name]
  {
    var j := IndexOf(schema, f.name);
    assert Represents(b.columns[j], schema[j], Slots(docs, schema[j]), r);
  }

  lemma BatchRowDecodes(b: Batch, schema: Schema, docs: seq<B.Doc>, i: nat, r: Rendering)
    requires BatchReads(b, schema, docs, r) && i < |docs|
    ensures Readable(b) && BatchRow(b, i) == DecodeRow(schema, docs[i], r)
  {
    forall f | f in schema
      ensures Readable(b) && ReadAt(b.columns[IndexOf(schema, f.name)], i) == DecodeRow(schema, docs[i], r)[f.name]
    {
      CellDecodes(b, schema, docs, i, f, r);
    }
  }

  // Each row of a batch is its document decoded alone.
  lemma BatchDecodes(b: Batch, schema: Schema, docs: seq<B.Doc>, r: Rendering)
    requires BatchReads(b, schema, docs, r)
    ensures Readable(b) && BatchRows(b) == DecodeAll(schema, docs, r)
  {
    forall i | 0 <= i < |docs| ensures BatchRow(b, i) == DecodeRow(schema, docs[i], r) {
      BatchRowDecodes(b, schema, docs, i, r);
    }
  }

  // ---- the stream of one partition ----

  ghost predicate AllReadable(bs: seq<Batch>) { forall b :: b in bs ==> Readable(b) }

  ghost function RowsOf(bs: seq<Batch>): seq<Row>
    requires AllReadable(bs)
  {
    if bs == [] then [] else RowsOf(bs[..|bs| - 1]) + BatchRows(bs[|bs| - 1])
  }

  lemma RowsGrow(bs: seq<Batch>, b: Batch)
    requires AllReadable(bs) && Readable(b)
    ensures AllReadable(bs + [b]) && RowsOf(bs + [b]) == RowsOf(bs) + BatchRows(b)
  {
    assert (bs + [b])[..|bs|] == bs;
  }

  // A batch that converts: every column can be built, and holds no NULL its field forbids.
  ghost predicate Converts(schema: Schema, docs: seq<B.Doc>, r: Rendering) {
    forall f :: f in schema ==> Buildable(f, Slots(docs, f), r) && NullsAllowed(f, docs, r)
  }

  // Every batch of that size converts, the last one short.
  ghost predicate AllConvert(schema: Schema, size: nat, docs: seq<B.Doc>, r: Rendering)
    requires size >= 1
  {
    docs == [] ||
    (Converts(schema, docs[..MinNat(size, |docs|)], r) && AllConvert(schema, size, docs[MinNat(size, |docs|)..], r))
  }

  // The stream a partition's cursor is turned into. It fails exactly if the cursor
  // breaks or a batch does not convert; otherwise its rows are the documents decoded.
  method Stream(cursor: Cursor, schema: Schema, configured: nat, r: Rendering)
    returns (batches: seq<Batch>, failed: bool)
    modifies cursor
    ensures AllReadable(batches)
    ensures var size := if configured == 0 then 1 else configured;
      !failed <==> !cursor.broken && AllConvert(schema, size, old(cursor.pending), r)
    ensures !failed ==> RowsOf(batches) == DecodeAll(schema, old(cursor.pending), r)
  {
    var size := if configured == 0 then 1 else configured;
    ghost var all := cursor.pending;
    ghost var taken := 0;
    batches, failed := [], false;
    while true
      invariant 0 <= taken <= |all| && cursor.pending == all[taken..]
      invariant AllReadable(batches) && RowsOf(batches) == DecodeAll(schema, all[..taken], r)
      invariant AllConvert(schema, size, all, r) <==> AllConvert(schema, size, all[taken..], r)
      decreases |all| - taken
    {
      var docs := NextDocs(cursor, size);
      if docs.Err? {
        failed := true;
        return;
      }
      if docs.value == [] {
        assert all[..taken] == all;
        return;
      }
      var batch := DocumentsToBatch(schema, docs.value, r);
      if batch.Err? {
        failed := true;
        return;
      }
      BatchDecodes(batch.value, schema, docs.value, r);
      RowsGrow(batches, batch.value);
      DecodeAppend(schema, all[..taken], docs.value, r);
      batches := batches + [batch.value];
      assert all[..taken] + docs.value == all[..taken + |docs.value|];
      assert all[taken..][|docs.value|..] == all[taken + |docs.value|..];
      taken := taken + |docs.value|;
    }
  }

  // Every batch the plan's cursor is cut into converts.
  ghost predicate PlanConverts(plan: MongoPlan, projected: Schema, configured: nat, docs: seq<B.Doc>, r: Rendering) {
    AllConvert(projected, if configured == 0 then 1 else configured, RunStages(ToStages(plan), docs), r)
  }

  // One plan against the documents of the collection: after the local recheck, the
  // rows are those the scan theorems speak of.
  method RunPlan(plan: MongoPlan, docs: seq<B.Doc>, projected: Schema, configured: nat, r: Rendering)
    returns (batches: seq<Batch>, failed: bool)
    ensures AllReadable(batches)
    ensures !failed <==> PlanConverts(plan, projected, configured, docs, r)
    ensures !failed ==> RowsOf(batches) == DecodeAll(projected, RunStages(ToStages(plan), docs), r)
  {
    var stages := ToPipeline(plan);
    var cursor := new Cursor(RunStages(stages, docs), false);
    batches, failed := Stream(cursor, projected, configured, r);
  }

  ghost predicate AllRunsReadable(runs: seq<seq<Batch>>) { forall bs :: bs in runs ==> AllReadable(bs) }

  ghost function Rechecked(runs: seq<seq<Batch>>, filters: seq<Expr>, schema: Schema, projected: Schema): seq<Row>
    requires AllRunsReadable(runs)
  {
    if runs == [] then []
    else RecheckAll(filters, schema, projected, RowsOf(runs[0])) + Rechecked(runs[1..], filters, schema, projected)
  }

  // A run holds the documents its plan selects, decoded.
  ghost predicate RunDecodes(bs: seq<Batch>, plan: MongoPlan, projected: Schema, docs: seq<B.Doc>, r: Rendering) {
    AllReadable(bs) && RowsOf(bs) == DecodeAll(projected, RunStages(ToStages(plan), docs), r)
  }

  ghost predicate RunsDecode(runs: seq<seq<Batch>>, plans: seq<MongoPlan>, projected: Schema, docs: seq<B.Doc>,
                             r: Rendering)
  {
    |runs| == |plans| && forall i :: 0 <= i < |runs| ==> RunDecodes(runs[i], plans[i], projected, docs, r)
  }

  lemma {:induction false} RunsAreScan(runs: seq<seq<Batch>>, plans: seq<MongoPlan>, schema: Schema, projected: Schema,
                                       filters: seq<Expr>, docs: seq<B.Doc>, r: Rendering)
    requires RunsDecode(runs, plans, projected, docs, r)
    ensures AllRunsReadable(runs)
    ensures Rechecked(runs, filters, schema, projected) == ScanRows(plans, schema, projected, filters, docs, r)
  {
    if runs != [] {
      assert forall i :: 0 <= i < |runs| - 1 ==> runs[1..][i] == runs[i + 1] && plans[1..][i] == plans[i + 1];
      RunsAreScan(runs[1..], plans[1..], schema, projected, filters, docs, r);
    }
  }

  lemma RunsGrow(runs: seq<seq<Batch>>, bs: seq<Batch>, plans: seq<MongoPlan>, plan: MongoPlan, projected: Schema,
                 docs: seq<B.Doc>, r: Rendering)
    requires RunsDecode(runs, plans, projected, docs, r) && RunDecodes(bs, plan, projected, docs, r)
    ensures RunsDecode(runs + [bs], plans + [plan], projected, docs, r)
  {
  }

  ghost predicate PlansConvert(plans: seq<MongoPlan>, projected: Schema, configured: nat, docs: seq<B.Doc>,
                               r: Rendering)
  {
    forall p :: p in plans ==> PlanConverts(p, projected, configured, docs, r)
  }

  lemma ConvertsGrow(plans: seq<MongoPlan>, i: nat, projected: Schema, configured: nat, docs: seq<B.Doc>, r: Rendering)
    requires i < |plans| && PlansConvert(plans[..i], projected, configured, docs, r)
    ensures PlanConverts(plans[i], projected, configured, docs, r) ==>
      PlansConvert(plans[..i + 1], projected, configured, docs, r)
    ensures !PlanConverts(plans[i], projected, configured, docs, r) ==>
      !PlansConvert(plans, projected, configured, docs, r)
  {
    assert plans[..i + 1] == plans[..i] + [plans[i]];
    assert plans[i] in plans;
  }

  lemma RunsReadable(runs: seq<seq<Batch>>, plans: seq<MongoPlan>, projected: Schema, docs: seq<B.Doc>, r: Rendering)
    requires RunsDecode(runs, plans, projected, docs, r)
    ensures AllRunsReadable(runs)
  {
  }

  // The whole scan: if no partition fails, what the batches hold after the recheck
  // is what the scan theorems prove to be the rows SQL selects.
  method RunScan(plans: seq<MongoPlan>, docs: seq<B.Doc>, schema: Schema, projected: Schema, filters: seq<Expr>,
                 configured: nat, r: Rendering) returns (runs: seq<seq<Batch>>, failed: bool)
    ensures AllRunsReadable(runs)
    ensures !failed ==>
      Rechecked(runs, filters, schema, projected) == ScanRows(plans, schema, projected, filters, docs, r)
    ensures !failed <==> PlansConvert(plans, projected, configured, docs, r)
  {
    runs, failed := [], false;
    for i := 0 to |plans|
      invariant RunsDecode(runs, plans[..i], projected, docs, r)
      invariant PlansConvert(plans[..i], projected, configured, docs, r)
    {
      var batches;
      batches, failed := RunPlan(plans[i], docs, projected, configured, r);
      ConvertsGrow(plans, i, projected, configured, docs, r);
      if failed {
        RunsReadable(runs, plans[..i], projected, docs, r);
        return;
      }
      RunsGrow(runs, batches, plans[..i], plans[i], projected, docs, r);
      assert plans[..i + 1] == plans[..i] + [plans[i]];
      runs := runs + [batches];
    }
    assert plans[..|plans|] == plans;
    RunsAreScan(runs, plans, schema, projected, filters, docs, r);
  }
}
