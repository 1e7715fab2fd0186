// The pieces put together: infer, cache, restart, push down, scan, decode.
module EndToEnd {
  import opened Wrappers
  import opened Arrow
  import opened Convert
  import opened Sql
  import opened Pushdown
  import opened PushdownLaws
  import opened Scan
  import B = BsonModel
  import Sampling
  import ArrowSchema
  import Partition
  import SampleConforms
  import Store

  // Field names without dots, at any depth of the sample.
  ghost predicate PlainSample(sample: seq<B.Doc>) {
    forall k :: k in Sampling.ObserveAll(sample) ==>
      DotFree(k) && SampleConforms.DotFreeKeys(Sampling.ObserveAll(sample)[k].shape)
  }

  // A document of the sample without a BSON timestamp in a date column, or any
  // other that has in each unmixed column what the sample had there.
  ghost predicate Expected(sample: seq<B.Doc>, d: B.Doc, maxDepth: nat, freq: ArrowSchema.Freq) {
    || (d in sample && SampleConforms.DatesKept(Sampling.ObserveAll(sample), d, maxDepth))
    || ConformsDoc(ArrowSchema.Inferred(sample, maxDepth, freq), d)
  }

  // The schema a restarted gateway finds in its cache for one table.
  ghost function ReloadedSchema(tables: Store.Tables, key: string): Option<Schema> {
    var again := Store.Reloaded(Some(Store.StoredCatalog(Store.CATALOG_VERSION, Store.Persisted(tables))));
    if key in again then Some(again[key].schema) else None
  }

  lemma ReloadedIsInferred(tables: Store.Tables, key: string, sample: seq<B.Doc>, maxDepth: nat, freq: ArrowSchema.Freq)
    requires key in tables && tables[key].schema == ArrowSchema.Inferred(sample, maxDepth, freq)
    ensures ReloadedSchema(tables, key) == Some(ArrowSchema.Inferred(sample, maxDepth, freq))
  {
    Store.InferredIsStorable(sample, maxDepth, freq);
    Store.ReloadKeepsStorable(tables);
  }

  lemma ExpectedConforms(sample: seq<B.Doc>, d: B.Doc, maxDepth: nat, freq: ArrowSchema.Freq)
    requires PlainSample(sample) && Expected(sample, d, maxDepth, freq)
    ensures ConformsDoc(ArrowSchema.Inferred(sample, maxDepth, freq), d)
  {
    if d in sample {
      var i :| 0 <= i < |sample| && sample[i] == d;
      SampleConforms.SampledDocumentsConform(sample, i, maxDepth, freq);
    }
  }

  // The predicates the planner hands over, and a projection that brings the
  // columns of those it rechecks.
  ghost predicate Query(schema: Schema, projection: Option<seq<nat>>, projected: Schema, filters: seq<Expr>) {
    && ProjectSchema(schema, projection) == Ok(projected)
    && (forall f :: f in filters && Translate(f, schema).Some? ==> InScope(f, schema) && NullSafe(f))
    && (forall f, c :: f in filters && SupportOf(f, schema) != Exact && c in ColumnsOf(f) ==> Names(projected, c))
  }

  // A gateway that restarts and answers from its cached schema returns, over all
  // partitions and up to order, exactly the rows SQL selects.
  lemma RestartedScanIsFaithful(config: PushdownConfig, tables: Store.Tables, key: string, sample: seq<B.Doc>,
                                maxDepth: nat, freq: ArrowSchema.Freq, projection: Option<seq<nat>>, projected: Schema,
                                filters: seq<Expr>, ids: seq<B.Bson>, n: nat, docs: seq<B.Doc>, r: Rendering)
    requires config.filters && key in tables
    requires tables[key].schema == ArrowSchema.Inferred(sample, maxDepth, freq)
    requires PlainSample(sample) && forall d :: d in docs ==> Expected(sample, d, maxDepth, freq)
    requires Query(ArrowSchema.Inferred(sample, maxDepth, freq), projection, projected, filters)
    requires Partition.Ordered(ids)
    requires SelectedAreReached(Partition.CutPoints(ids, n), ArrowSchema.Inferred(sample, maxDepth, freq), filters,
                                docs, r)
    ensures ReloadedSchema(tables, key).Some?
    ensures var schema := ReloadedSchema(tables, key).value;
      var plans := Plans(config, schema, projected, projection, filters,
                         Partition.BoundsOf(Partition.CutPoints(ids, n)), None);
      multiset(ScanRows(plans, schema, projected, filters, docs, r))
      == multiset(SelectedRows(schema, projected, filters, docs, r))
  {
    var schema := ArrowSchema.Inferred(sample, maxDepth, freq);
    ReloadedIsInferred(tables, key, sample, maxDepth, freq);
    SampleConforms.InferredIsWellFormed(sample, maxDepth, freq);
    forall d | d in docs ensures ConformsDoc(schema, d) {
      ExpectedConforms(sample, d, maxDepth, freq);
    }
    ScanIsCompleteIff(config, schema, projection, projected, filters, ids, n, docs, r);
  }
}
