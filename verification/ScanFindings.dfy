// A scan with filter pushdown switched off in the configuration.
module ScanFindings {
  import opened Wrappers
  import opened Arrow
  import opened Convert
  import opened Sql
  import opened MongoFilter
  import opened Pushdown
  import opened PushdownLaws
  import opened PushdownFindings
  import opened Scan
  import B = BsonModel

  // Every filter the planner kept is TRUE on the document's row.
  ghost predicate KeptFiltersTrue(filters: seq<Expr>, schema: Schema, row: Row) {
    forall f :: f in filters && SupportOf(f, schema) != Exact ==> IsTrueOn(f, schema, row)
  }

  ghost function UnpushedRows(schema: Schema, projected: Schema, filters: seq<Expr>, docs: seq<B.Doc>,
                              r: Rendering): seq<Row>
  {
    if docs == [] then []
    else
      (if KeptFiltersTrue(filters, schema, DecodeRow(schema, docs[0], r))
       then [DecodeRow(projected, docs[0], r)] else [])
         + UnpushedRows(schema, projected, filters, docs[1..], r)
  }

  lemma RecheckIsKept(schema: Schema, projection: Option<seq<nat>>, projected: Schema, filters: seq<Expr>,
                      d: B.Doc, r: Rendering)
    requires ScanSetting(schema, projection, projected, filters)
    ensures Recheck(filters, schema, projected, DecodeRow(projected, d, r))
        <==> KeptFiltersTrue(filters, schema, DecodeRow(schema, d, r))
  {
    ProjectedIsPart(schema, projection, projected);
    forall f | f in filters && SupportOf(f, schema) != Exact
      ensures IsTrueOn(f, projected, DecodeRow(projected, d, r)) <==> IsTrueOn(f, schema, DecodeRow(schema, d, r))
    {
      RecheckSeesTheRow(f, schema, projected, d, r);
    }
  }

  lemma {:induction false} RecheckedRows(schema: Schema, projection: Option<seq<nat>>, projected: Schema,
                                         filters: seq<Expr>,
                                         docs: seq<B.Doc>, r: Rendering)
    requires ScanSetting(schema, projection, projected, filters)
    ensures RecheckAll(filters, schema, projected, DecodeAll(projected, docs, r))
         == UnpushedRows(schema, projected, filters, docs, r)
  {
    if docs != [] {
      RecheckedRows(schema, projection, projected, filters, docs[1..], r);
      RecheckIsKept(schema, projection, projected, filters, docs[0], r);
      assert DecodeAll(projected, docs, r)[1..] == DecodeAll(projected, docs[1..], r);
    }
  }

  // With filters off the server sends every document, and the planner rechecks
  // only what it did not drop.
  lemma UnpushedScan(config: PushdownConfig, schema: Schema, projection: Option<seq<nat>>, projected: Schema,
                     filters: seq<Expr>, docs: seq<B.Doc>, r: Rendering)
    requires !config.filters && ScanSetting(schema, projection, projected, filters)
    ensures ScanRows(Plans(config, schema, projected, projection, filters, [None], None), schema, projected, filters,
                     docs, r)
         == UnpushedRows(schema, projected, filters, docs, r)
  {
    var plans := Plans(config, schema, projected, projection, filters, [None], None);
    assert plans == [plans[0]];
    OnePlan(plans[0], schema, projected, filters, docs, r);
    UnpushedPlanRows(plans[0], schema, projection, projected, filters, docs, r);
  }

  lemma UnpushedPlanRows(plan: MongoPlan, schema: Schema, projection: Option<seq<nat>>, projected: Schema,
                         filters: seq<Expr>, docs: seq<B.Doc>, r: Rendering)
    requires ScanSetting(schema, projection, projected, filters)
    requires plan.filter.None? && plan.partition.None? && plan.skip.None? && plan.limit.None?
    requires plan.projection == Paths(projected, projection)
    ensures PlanRows(plan, schema, projected, filters, docs, r) == UnpushedRows(schema, projected, filters, docs, r)
  {
    PipelineMeaning(plan, docs);
    UnfilteredDecodes(plan, projected, projection, docs, r);
    RecheckedRows(schema, projection, projected, filters, docs, r);
  }

  lemma UnfilteredDecodes(plan: MongoPlan, projected: Schema, projection: Option<seq<nat>>, docs: seq<B.Doc>,
                          r: Rendering)
    requires plan.projection == Paths(projected, projection)
    ensures DecodeAll(projected, ProjectDocs(plan, docs), r) == DecodeAll(projected, docs, r)
  {
    forall i | 0 <= i < |docs|
      ensures DecodeAll(projected, ProjectDocs(plan, docs), r)[i] == DecodeAll(projected, docs, r)[i]
    {
      ProjectedDocDecodes(plan, projected, projection, docs[i], r);
    }
  }

  // Every document that passes the filters the planner kept passes all of them.
  ghost predicate NothingDropped(filters: seq<Expr>, schema: Schema, docs: seq<B.Doc>, r: Rendering) {
    forall d :: d in docs && KeptFiltersTrue(filters, schema, DecodeRow(schema, d, r)) ==>
      AllTrue(filters, schema, DecodeRow(schema, d, r))
  }

  lemma {:induction false} UnpushedCounts(schema: Schema, projected: Schema, filters: seq<Expr>, docs: seq<B.Doc>,
                                          r: Rendering)
    ensures |UnpushedRows(schema, projected, filters, docs, r)| >= |SelectedRows(schema, projected, filters, docs, r)|
    ensures |UnpushedRows(schema, projected, filters, docs, r)| == |SelectedRows(schema, projected, filters, docs, r)|
      <==> NothingDropped(filters, schema, docs, r)
    ensures NothingDropped(filters, schema, docs, r) ==>
      UnpushedRows(schema, projected, filters, docs, r) == SelectedRows(schema, projected, filters, docs, r)
  {
    if docs != [] {
      UnpushedCounts(schema, projected, filters, docs[1..], r);
      assert forall d :: d in docs <==> d == docs[0] || d in docs[1..];
    }
  }

  // The provider reports filters exact whether or not it will send them. With
  // the switch off the scan returns what SQL selects if and only if no document
  // fails just a filter the planner dropped on that report.
  lemma UnpushedScanIsFaithfulIff(config: PushdownConfig, schema: Schema, projection: Option<seq<nat>>,
                                  projected: Schema,
                                  filters: seq<Expr>, docs: seq<B.Doc>, r: Rendering)
    requires !config.filters && ScanSetting(schema, projection, projected, filters)
    ensures multiset(ScanRows(Plans(config, schema, projected, projection, filters, [None], None), schema, projected,
                              filters, docs, r))
         == multiset(SelectedRows(schema, projected, filters, docs, r))
      <==> NothingDropped(filters, schema, docs, r)
  {
    var rows := UnpushedRows(schema, projected, filters, docs, r);
    UnpushedScan(config, schema, projection, projected, filters, docs, r);
    UnpushedCounts(schema, projected, filters, docs, r);
    assert |multiset(rows)| == |rows|;
    assert |multiset(SelectedRows(schema, projected, filters, docs, r))|
        == |SelectedRows(schema, projected, filters, docs, r)|;
  }

  ghost predicate Faithful(config: PushdownConfig, schema: Schema, projection: Option<seq<nat>>, projected: Schema,
                           filters: seq<Expr>, docs: seq<B.Doc>, r: Rendering) {
    multiset(ScanRows(Plans(config, schema, projected, projection, filters, [None], None), schema, projected, filters,
                      docs, r))
    == multiset(SelectedRows(schema, projected, filters, docs, r))
  }

  // A guard to check beforehand: where no filter is reported exact the planner
  // drops none, and every collection is scanned faithfully.
  lemma NoExactFilterIsFaithful(config: PushdownConfig, schema: Schema, projection: Option<seq<nat>>, projected: Schema,
                                filters: seq<Expr>, docs: seq<B.Doc>, r: Rendering)
    requires !config.filters && ScanSetting(schema, projection, projected, filters)
    requires forall f :: f in filters ==> SupportOf(f, schema) != Exact
    ensures Faithful(config, schema, projection, projected, filters, docs, r)
  {
    UnpushedScanIsFaithfulIff(config, schema, projection, projected, filters, docs, r);
  }

  // Otherwise any collection holding a document that passes the kept filters and
  // fails an exact one is not.
  lemma FailedExactFilterAddsRow(config: PushdownConfig, schema: Schema, projection: Option<seq<nat>>,
                                 projected: Schema,
                                 filters: seq<Expr>, f: Expr, docs: seq<B.Doc>, d: B.Doc, r: Rendering)
    requires !config.filters && ScanSetting(schema, projection, projected, filters)
    requires d in docs && KeptFiltersTrue(filters, schema, DecodeRow(schema, d, r))
    requires f in filters && SupportOf(f, schema) == Exact && !IsTrueOn(f, schema, DecodeRow(schema, d, r))
    ensures !Faithful(config, schema, projection, projected, filters, docs, r)
  {
    UnpushedScanIsFaithfulIff(config, schema, projection, projected, filters, docs, r);
  }

  // With the switch off, all collections are scanned faithfully if and only if no
  // document can pass the kept filters and fail an exact one.
  lemma UnpushedScanAlwaysFaithfulIff(config: PushdownConfig, schema: Schema, projection: Option<seq<nat>>,
                                      projected: Schema,
                                      filters: seq<Expr>, r: Rendering)
    requires !config.filters && ScanSetting(schema, projection, projected, filters)
    ensures (forall docs: seq<B.Doc> :: Faithful(config, schema, projection, projected, filters, docs, r)) <==>
      forall d: B.Doc, f ::
        f in filters && SupportOf(f, schema) == Exact && KeptFiltersTrue(filters, schema, DecodeRow(schema, d, r)) ==>
          IsTrueOn(f, schema, DecodeRow(schema, d, r))
  {
    if forall docs: seq<B.Doc> :: Faithful(config, schema, projection, projected, filters, docs, r) {
      forall d: B.Doc, f |
        f in filters && SupportOf(f, schema) == Exact && KeptFiltersTrue(filters, schema, DecodeRow(schema, d, r))
        ensures IsTrueOn(f, schema, DecodeRow(schema, d, r))
      {
        assert d in [d] && Faithful(config, schema, projection, projected, filters, [d], r);
        UnpushedScanIsFaithfulIff(config, schema, projection, projected, filters, [d], r);
      }
    } else {
      var docs: seq<B.Doc> :| !Faithful(config, schema, projection, projected, filters, docs, r);
      UnpushedScanIsFaithfulIff(config, schema, projection, projected, filters, docs, r);
    }
  }

  // a = 1 with filters off: the row with a = 5 comes back, and nobody drops it.
  lemma DroppedFilterKeepsRow(config: PushdownConfig, schema: Schema, f: Field, r: Rendering)
    requires !config.filters && WellFormedSchema(schema) && DistinctNames(schema)
    requires HasColumn(schema, f, "a") && f.ty.Int32Type? && TagOf(f).TagInt32? && !IsMixed(f)
    ensures !Faithful(config, schema, None, schema, [CompareExpr("a", Eq, SInt(1))], [map["a" := B.Int32(5)]], r)
  {
    var e := CompareExpr("a", Eq, SInt(1));
    var d: B.Doc := map["a" := B.Int32(5)];
    OneComparisonIsASetting(schema, f, r);
    ComparisonTranslates(schema, f, "a", Eq, SInt(1), B.Int32(1));
    ComparisonEvaluates(schema, f, "a", Eq, SInt(1), d, r);
    FiveIsNotOne(r);
    assert d in [d] && e in [e];
    assert KeptFiltersTrue([e], schema, DecodeRow(schema, d, r));
    FailedExactFilterAddsRow(config, schema, None, schema, [e], e, [d], d, r);
  }

  lemma OneComparisonIsASetting(schema: Schema, f: Field, r: Rendering)
    requires WellFormedSchema(schema) && DistinctNames(schema)
    requires HasColumn(schema, f, "a") && f.ty.Int32Type? && TagOf(f).TagInt32? && !IsMixed(f)
    ensures ScanSetting(schema, None, schema, [CompareExpr("a", Eq, SInt(1))])
    ensures SupportOf(CompareExpr("a", Eq, SInt(1)), schema) == Exact
  {
    ComparisonTranslates(schema, f, "a", Eq, SInt(1), B.Int32(1));
    assert ResolveColumn(Column("a"), schema) == Some(ColumnRefOf(f));
  }
}
