// A whole scan: plan, pipelines, partitions, decoding and the local recheck.
module Scan {
  import opened Wrappers
  import opened Arrow
  import opened Convert
  import opened Sql
  import opened MongoFilter
  import opened Pushdown
  import opened PushdownLaws
  import Projection
  import Partition
  import B = BsonModel

  // ---- the pipeline ----

  // The plan's `$sort` has no constructor in the provider and is not modelled.
  datatype MongoPlan = MongoPlan(filter: Option<Filter>, partition: Option<Filter>, projection: seq<string>,
                                 skip: Option<int>, limit: Option<int>)

  function MatchStage(p: MongoPlan): Option<Filter> {
    match (p.filter, p.partition)
    case (None, None) => None
    case (Some(f), None) => Some(f)
    case (None, Some(g)) => Some(g)
    case (Some(f), Some(g)) => Some(And([f, g]))
  }

  datatype Stage =
    | MatchOn(f: Filter)
    | SkipFirst(n: int)
    | LimitTo(n: int)
    | ProjectTo(projection: map<string, int>)

  function MatchPart(p: MongoPlan): seq<Stage> {
    match MatchStage(p)
    case Some(f) => [MatchOn(f)]
    case None => []
  }

  function SkipPart(p: MongoPlan): seq<Stage> {
    if p.skip.Some? && p.skip.value > 0 then [SkipFirst(p.skip.value)] else []
  }

  function LimitPart(p: MongoPlan): seq<Stage> {
    if p.limit.Some? && p.limit.value >= 0 then [LimitTo(p.limit.value)] else []
  }

  function ProjectPart(p: MongoPlan): seq<Stage> {
    if p.projection != [] then [ProjectTo(Projection.ProjectionDoc(p.projection))] else []
  }

  function ToStages(p: MongoPlan): seq<Stage> {
    MatchPart(p) + (SkipPart(p) + (LimitPart(p) + ProjectPart(p)))
  }

  method ToPipeline(p: MongoPlan) returns (stages: seq<Stage>)
    ensures stages == ToStages(p)
  {
    stages := [];
    var m := MatchStage(p);
    if m.Some? {
      stages := stages + [MatchOn(m.value)];
    }
    if p.skip.Some? && p.skip.value > 0 {
      stages := stages + [SkipFirst(p.skip.value)];
    }
    if p.limit.Some? && p.limit.value >= 0 {
      stages := stages + [LimitTo(p.limit.value)];
    }
    if p.projection != [] {
      var projection := Projection.BuildProjection(p.projection);
      stages := stages + [ProjectTo(projection)];
    }
  }

  function Keep(f: Filter, docs: seq<B.Doc>): seq<B.Doc> {
    if docs == [] then []
    else (if Matches(f, docs[0]) then [docs[0]] else []) + Keep(f, docs[1..])
  }

  function Take<T>(n: int, s: seq<T>): seq<T> {
    if n <= 0 then [] else if n >= |s| then s else s[..n]
  }

  function Drop<T>(n: int, s: seq<T>): seq<T> {
    if n <= 0 then s else if n >= |s| then [] else s[n..]
  }

  function RunStage(stage: Stage, docs: seq<B.Doc>): seq<B.Doc> {
    match stage
    case MatchOn(f) => Keep(f, docs)
    case SkipFirst(n) => Drop(n, docs)
    case LimitTo(n) => Take(n, docs)
    case ProjectTo(p) => seq(|docs|, i requires 0 <= i < |docs| => Projection.Project(docs[i], p))
  }

  function RunStages(stages: seq<Stage>, docs: seq<B.Doc>): seq<B.Doc> {
    if stages == [] then docs else RunStages(stages[1..], RunStage(stages[0], docs))
  }

  // ---- the provider ----

  datatype Support = Exact | Inexact | Unsupported

  function SupportOf(f: Expr, schema: Schema): Support {
    match Translate(f, schema)
    case Some(t) => if t.exact then Exact else Inexact
    case None => Unsupported
  }

  function TranslateAll(filters: seq<Expr>, schema: Schema): (ts: seq<Translated>)
    ensures |ts| <= |filters|
  {
    if filters == [] then []
    else
      var rest := TranslateAll(filters[1..], schema);
      match Translate(filters[0], schema)
      case Some(t) => [t] + rest
      case None => rest
  }

  lemma {:induction false} TranslateAllTranslates(filters: seq<Expr>, schema: Schema, t: Translated)
    ensures t in TranslateAll(filters, schema) <==> exists f :: f in filters && Translate(f, schema) == Some(t)
  {
    if filters != [] {
      TranslateAllTranslates(filters[1..], schema, t);
      assert forall f :: f in filters <==> f == filters[0] || f in filters[1..];
      assert filters[0] in filters;
    }
  }

  function ProjectSchema(schema: Schema, projection: Option<seq<nat>>): Result<Schema, string> {
    match projection
    case None => Ok(schema)
    case Some(indices) =>
      if forall i :: i in indices ==> i < |schema|
      then Ok(seq(|indices|, i requires 0 <= i < |indices| => assert indices[i] in indices; schema[indices[i]]))
      else Err("projection index out of range")
  }

  function Paths(projected: Schema, projection: Option<seq<nat>>): seq<string> {
    if projection.Some? then seq(|projected|, i requires 0 <= i < |projected| => PathOf(projected[i])) else []
  }

  // The switches of the `pushdown` section of the configuration.
  datatype PushdownConfig = PushdownConfig(filters: bool, limits: bool)

  function PushedLimit(config: PushdownConfig, limit: Option<nat>): Option<int> {
    if config.limits && limit.Some? && B.FitsI64(limit.value) then Some(limit.value) else None
  }

  // One plan per partition; a limit travels with each.
  function Plans(config: PushdownConfig, schema: Schema, projected: Schema, projection: Option<seq<nat>>,
                 filters: seq<Expr>, partitions: seq<Option<Filter>>, limit: Option<nat>): (plans: seq<MongoPlan>)
    ensures |plans| == |partitions|
    ensures forall i :: 0 <= i < |plans| ==>
      && plans[i].partition == partitions[i] && plans[i].projection == Paths(projected, projection)
      && plans[i].skip.None? && plans[i].limit == PushedLimit(config, limit)
      && plans[i].filter == if config.filters then Combine(TranslateAll(filters, schema)) else None
  {
    seq(|partitions|, i requires 0 <= i < |partitions| =>
      MongoPlan(if config.filters then Combine(TranslateAll(filters, schema)) else None, partitions[i],
                Paths(projected, projection), None, PushedLimit(config, limit)))
  }

  // ---- running it ----

  function DecodeAll(schema: Schema, docs: seq<B.Doc>, r: Rendering): seq<Row> {
    MapAll(d => DecodeRow(schema, d, r), docs)
  }

  ghost predicate AllTrue(filters: seq<Expr>, schema: Schema, row: Row) {
    forall f :: f in filters ==> IsTrueOn(f, schema, row)
  }

  // The planner rechecks what was not reported exact.
  ghost predicate Recheck(filters: seq<Expr>, schema: Schema, projected: Schema, row: Row) {
    forall f :: f in filters && SupportOf(f, schema) != Exact ==> IsTrueOn(f, projected, row)
  }

  ghost function RecheckAll(filters: seq<Expr>, schema: Schema, projected: Schema, rows: seq<Row>): seq<Row> {
    if rows == [] then []
    else (if Recheck(filters, schema, projected, rows[0]) then [rows[0]] else [])
         + RecheckAll(filters, schema, projected, rows[1..])
  }

  ghost function PlanRows(plan: MongoPlan, schema: Schema, projected: Schema, filters: seq<Expr>,
                          docs: seq<B.Doc>, r: Rendering): seq<Row> {
    RecheckAll(filters, schema, projected, DecodeAll(projected, RunStages(ToStages(plan), docs), r))
  }

  ghost function ScanRows(plans: seq<MongoPlan>, schema: Schema, projected: Schema, filters: seq<Expr>,
                          docs: seq<B.Doc>, r: Rendering): seq<Row> {
    if plans == [] then []
    else PlanRows(plans[0], schema, projected, filters, docs, r)
         + ScanRows(plans[1..], schema, projected, filters, docs, r)
  }

  // What SQL asks for: the projected rows of the documents every conjunct selects.
  ghost function SelectedRows(schema: Schema, projected: Schema, filters: seq<Expr>,
                              docs: seq<B.Doc>, r: Rendering): seq<Row> {
    if docs == [] then []
    else (if AllTrue(filters, schema, DecodeRow(schema, docs[0], r)) then [DecodeRow(projected, docs[0], r)] else [])
         + SelectedRows(schema, projected, filters, docs[1..], r)
  }

  // ---- one document through one plan ----

  lemma MatchStageConjoins(p: MongoPlan, d: B.Doc)
    ensures MatchesAll(MatchStage(p), d) <==> MatchesAll(p.filter, d) && MatchesAll(p.partition, d)
  {
    if p.filter.Some? && p.partition.Some? {
      And2Matches(p.filter.value, p.partition.value, d);
    }
  }

  function ProjectDoc(p: MongoPlan, d: B.Doc): B.Doc {
    if p.projection == [] then d else Projection.Project(d, Projection.ProjectionDoc(p.projection))
  }

  function KeepAll(f: Option<Filter>, docs: seq<B.Doc>): seq<B.Doc> {
    if f.Some? then Keep(f.value, docs) else docs
  }

  function ProjectDocs(p: MongoPlan, docs: seq<B.Doc>): seq<B.Doc> {
    MapAll(d => ProjectDoc(p, d), docs)
  }

  function Skipped(p: MongoPlan, docs: seq<B.Doc>): seq<B.Doc> {
    if p.skip.Some? then Drop(p.skip.value, docs) else docs
  }

  function Limited(p: MongoPlan, docs: seq<B.Doc>): seq<B.Doc> {
    if p.limit.Some? && p.limit.value >= 0 then Take(p.limit.value, docs) else docs
  }

  // The stages in order: match, skip, limit, project.
  lemma PipelineMeaning(p: MongoPlan, docs: seq<B.Doc>)
    ensures RunStages(ToStages(p), docs) ==
      ProjectDocs(p, Limited(p, Skipped(p, KeepAll(MatchStage(p), docs))))
  {
    var kept := KeepAll(MatchStage(p), docs);
    RunAppend(MatchPart(p), SkipPart(p) + (LimitPart(p) + ProjectPart(p)), docs);
    RunAppend(SkipPart(p), LimitPart(p) + ProjectPart(p), kept);
    RunAppend(LimitPart(p), ProjectPart(p), Skipped(p, kept));
    ProjectLast(p, Limited(p, Skipped(p, kept)));
  }

  lemma ProjectLast(p: MongoPlan, docs: seq<B.Doc>)
    ensures RunStages(ProjectPart(p), docs) == ProjectDocs(p, docs)
  {
    if p.projection != [] {
      var stage := ProjectTo(Projection.ProjectionDoc(p.projection));
      assert [stage][1..] == [];
      assert RunStage(stage, docs) == ProjectDocs(p, docs);
    }
  }

  lemma {:induction false} RunAppend(a: seq<Stage>, b: seq<Stage>, docs: seq<B.Doc>)
    requires |a| <= 1
    ensures RunStages(a + b, docs) == RunStages(b, if a == [] then docs else RunStage(a[0], docs))
  {
    if a == [] {
      assert a + b == b;
    } else {
      assert (a + b)[1..] == b;
    }
  }

  // ---- what the scan relies on ----

  ghost predicate DistinctNames(schema: Schema) {
    forall f, g :: f in schema && g in schema && f.name == g.name ==> f == g
  }

  predicate Names(schema: Schema, name: string) { exists f :: f in schema && f.name == name }

  // A well-formed schema, predicates of the fragment, and a projection that
  // brings the columns of every predicate to be rechecked.
  ghost predicate ScanSetting(schema: Schema, projection: Option<seq<nat>>, projected: Schema, filters: seq<Expr>) {
    && WellFormedSchema(schema) && DistinctNames(schema)
    && ProjectSchema(schema, projection) == Ok(projected)
    && (forall f :: f in filters && Translate(f, schema).Some? ==> InScope(f, schema) && NullSafe(f))
    && (forall f, c :: f in filters && SupportOf(f, schema) != Exact && c in ColumnsOf(f) ==> Names(projected, c))
  }

  ghost predicate IsPlan(plan: MongoPlan, schema: Schema, projection: Option<seq<nat>>, projected: Schema,
                         filters: seq<Expr>)
  {
    && plan.filter == Combine(TranslateAll(filters, schema))
    && plan.projection == Paths(projected, projection)
  }

  lemma ProjectedIsPart(schema: Schema, projection: Option<seq<nat>>, projected: Schema)
    requires ProjectSchema(schema, projection) == Ok(projected)
    ensures forall f :: f in projected ==> f in schema
  {
    if projection.Some? {
      var indices := projection.value;
      forall f | f in projected ensures f in schema {
        var i :| 0 <= i < |projected| && projected[i] == f;
        assert indices[i] in indices;
      }
    }
  }

  // Decoding the projected document gives the row of the original.
  lemma ProjectedDocDecodes(plan: MongoPlan, projected: Schema, projection: Option<seq<nat>>, d: B.Doc, r: Rendering)
    requires plan.projection == Paths(projected, projection)
    ensures DecodeRow(projected, ProjectDoc(plan, d), r) == DecodeRow(projected, d, r)
  {
    if plan.projection != [] {
      forall f | f in projected
        ensures LookupPath(ProjectDoc(plan, d), PathOf(f)) == LookupPath(d, PathOf(f))
      {
        var i :| 0 <= i < |projected| && projected[i] == f;
        assert plan.projection[i] == PathOf(f);
        Projection.ProjectionKeepsLookups(plan.projection, PathOf(f), d);
      }
    }
  }

  lemma SameField(schema: Schema, projected: Schema, c: string)
    requires DistinctNames(schema) && (forall f :: f in projected ==> f in schema) && Names(projected, c)
    ensures FindField(schema, c).Some? && FindField(schema, c) == FindField(projected, c)
  {
    var f :| f in projected && f.name == c;
    assert f in schema;
  }

  lemma RecheckSeesTheRow(e: Expr, schema: Schema, projected: Schema, d: B.Doc, r: Rendering)
    requires DistinctNames(schema) && forall f :: f in projected ==> f in schema
    requires forall c :: c in ColumnsOf(e) ==> Names(projected, c)
    ensures Eval(e, projected, DecodeRow(projected, d, r)) == Eval(e, schema, DecodeRow(schema, d, r))
  {
    forall c | c in ColumnsOf(e)
      ensures FindField(schema, c) == FindField(projected, c)
      ensures c in DecodeRow(schema, d, r) && c in DecodeRow(projected, d, r)
      ensures DecodeRow(schema, d, r)[c] == DecodeRow(projected, d, r)[c]
    {
      SameField(schema, projected, c);
      FieldByName(schema, d, r, c);
      FieldByName(projected, d, r, c);
    }
    EvalDependsOnColumns(e, projected, DecodeRow(projected, d, r), schema, DecodeRow(schema, d, r));
  }

  // The server's filter with the local recheck selects what SQL selects.
  lemma FilterAndRecheckSelect(schema: Schema, projection: Option<seq<nat>>, projected: Schema, filters: seq<Expr>,
                               d: B.Doc, r: Rendering)
    requires ScanSetting(schema, projection, projected, filters) && ConformsDoc(schema, d)
    ensures AllTrue(filters, schema, DecodeRow(schema, d, r)) <==>
      && MatchesAll(Combine(TranslateAll(filters, schema)), d)
      && Recheck(filters, schema, projected, DecodeRow(projected, d, r))
  {
    var ts := TranslateAll(filters, schema);
    CombineConjoins(ts, d);
    ProjectedIsPart(schema, projection, projected);
    forall f | f in filters && SupportOf(f, schema) != Exact
      ensures IsTrueOn(f, projected, DecodeRow(projected, d, r)) <==> IsTrueOn(f, schema, DecodeRow(schema, d, r))
    {
      RecheckSeesTheRow(f, schema, projected, d, r);
    }
    forall f | f in filters && Translate(f, schema).Some?
      ensures Translate(f, schema).value in ts
      ensures IsTrueOn(f, schema, DecodeRow(schema, d, r)) ==> Matches(Translate(f, schema).value.filter, d)
      ensures SupportOf(f, schema) == Exact && Matches(Translate(f, schema).value.filter, d) ==>
        IsTrueOn(f, schema, DecodeRow(schema, d, r))
    {
      TranslateAllTranslates(filters, schema, Translate(f, schema).value);
      PushdownIsFaithful(f, schema, d, r);
    }
    if AllTrue(filters, schema, DecodeRow(schema, d, r)) {
      forall t | t in ts ensures Matches(t.filter, d) {
        TranslateAllTranslates(filters, schema, t);
        var f :| f in filters && Translate(f, schema) == Some(t);
      }
    }
  }

  // ---- one plan, document by document ----

  ghost function RowOf(plan: MongoPlan, schema: Schema, projected: Schema, filters: seq<Expr>,
                       d: B.Doc, r: Rendering): seq<Row> {
    if MatchesAll(plan.partition, d) && AllTrue(filters, schema, DecodeRow(schema, d, r))
    then [DecodeRow(projected, d, r)] else []
  }

  lemma {:induction false} RecheckAppend(filters: seq<Expr>, schema: Schema, projected: Schema, a: seq<Row>,
                                         b: seq<Row>)
    ensures RecheckAll(filters, schema, projected, a + b)
         == RecheckAll(filters, schema, projected, a) + RecheckAll(filters, schema, projected, b)
  {
    if a == [] {
      assert a + b == b;
    } else {
      assert (a + b)[1..] == a[1..] + b && (a + b)[0] == a[0];
      RecheckAppend(filters, schema, projected, a[1..], b);
      RecheckHead(filters, schema, projected, a + b);
      RecheckHead(filters, schema, projected, a);
    }
  }

  lemma RecheckHead(filters: seq<Expr>, schema: Schema, projected: Schema, rows: seq<Row>)
    requires rows != []
    ensures RecheckAll(filters, schema, projected, rows)
         == RecheckAll(filters, schema, projected, [rows[0]]) + RecheckAll(filters, schema, projected, rows[1..])
  {
    assert [rows[0]][1..] == [];
  }

  lemma KeepHead(f: Option<Filter>, docs: seq<B.Doc>)
    requires docs != []
    ensures KeepAll(f, docs) == (if MatchesAll(f, docs[0]) then [docs[0]] else []) + KeepAll(f, docs[1..])
  {
    assert docs == [docs[0]] + docs[1..];
  }

  lemma ProjectAppend(plan: MongoPlan, a: seq<B.Doc>, b: seq<B.Doc>)
    ensures ProjectDocs(plan, a + b) == ProjectDocs(plan, a) + ProjectDocs(plan, b)
  {
    MapAppend(d => ProjectDoc(plan, d), a, b);
  }

  lemma DecodeAppend(schema: Schema, a: seq<B.Doc>, b: seq<B.Doc>, r: Rendering)
    ensures DecodeAll(schema, a + b, r) == DecodeAll(schema, a, r) + DecodeAll(schema, b, r)
  {
    MapAppend(d => DecodeRow(schema, d, r), a, b);
  }

  function MapAll<T, U>(f: T -> U, s: seq<T>): seq<U> { seq(|s|, i requires 0 <= i < |s| => f(s[i])) }

  lemma MapAppend<T, U>(f: T -> U, a: seq<T>, b: seq<T>)
    ensures MapAll(f, a + b) == MapAll(f, a) + MapAll(f, b)
  {
  }

  lemma DecodeProjected(plan: MongoPlan, projected: Schema, a: seq<B.Doc>, b: seq<B.Doc>, r: Rendering)
    ensures DecodeAll(projected, ProjectDocs(plan, a + b), r)
         == DecodeAll(projected, ProjectDocs(plan, a), r) + DecodeAll(projected, ProjectDocs(plan, b), r)
  {
    ProjectAppend(plan, a, b);
    DecodeAppend(projected, ProjectDocs(plan, a), ProjectDocs(plan, b), r);
  }

  // The first document's row, if any, then the rest's.
  lemma PlanRowsHead(plan: MongoPlan, schema: Schema, projection: Option<seq<nat>>, projected: Schema,
                     filters: seq<Expr>, docs: seq<B.Doc>, r: Rendering)
    requires IsPlan(plan, schema, projection, projected, filters) && plan.skip.None? && plan.limit.None?
    requires ScanSetting(schema, projection, projected, filters)
    requires docs != [] && ConformsDoc(schema, docs[0])
    ensures PlanRows(plan, schema, projected, filters, docs, r)
         == RowOf(plan, schema, projected, filters, docs[0], r)
          + PlanRows(plan, schema, projected, filters, docs[1..], r)
  {
    var d := docs[0];
    var m := MatchStage(plan);
    var head := if MatchesAll(m, d) then [d] else [];
    PipelineMeaning(plan, docs);
    PipelineMeaning(plan, docs[1..]);
    KeepHead(m, docs);
    DecodeProjected(plan, projected, head, KeepAll(m, docs[1..]), r);
    RecheckAppend(filters, schema, projected, DecodeAll(projected, ProjectDocs(plan, head), r),
                  DecodeAll(projected, ProjectDocs(plan, KeepAll(m, docs[1..])), r));
    HeadRow(plan, schema, projection, projected, filters, d, r);
  }

  lemma HeadRow(plan: MongoPlan, schema: Schema, projection: Option<seq<nat>>, projected: Schema,
                filters: seq<Expr>, d: B.Doc, r: Rendering)
    requires IsPlan(plan, schema, projection, projected, filters)
    requires ScanSetting(schema, projection, projected, filters) && ConformsDoc(schema, d)
    ensures var head := if MatchesAll(MatchStage(plan), d) then [d] else [];
      RecheckAll(filters, schema, projected, DecodeAll(projected, ProjectDocs(plan, head), r))
      == RowOf(plan, schema, projected, filters, d, r)
  {
    MatchStageConjoins(plan, d);
    FilterAndRecheckSelect(schema, projection, projected, filters, d, r);
    ProjectedDocDecodes(plan, projected, projection, d, r);
    var head := if MatchesAll(MatchStage(plan), d) then [d] else [];
    var rows := DecodeAll(projected, ProjectDocs(plan, head), r);
    if MatchesAll(MatchStage(plan), d) {
      assert rows == [DecodeRow(projected, d, r)];
      assert rows[1..] == [];
    } else {
      assert rows == [];
    }
  }

  // ---- all plans together ----

  // How many of the plans' partitions accept the document.
  ghost function Acceptances(plans: seq<MongoPlan>, d: B.Doc): nat {
    if plans == [] then 0 else (if MatchesAll(plans[0].partition, d) then 1 else 0) + Acceptances(plans[1..], d)
  }

  ghost predicate ArePlans(plans: seq<MongoPlan>, schema: Schema, projection: Option<seq<nat>>, projected: Schema,
                           filters: seq<Expr>)
  {
    forall p :: p in plans ==>
      IsPlan(p, schema, projection, projected, filters) && p.skip.None? && p.limit.None?
  }

  ghost function Copies(n: nat, row: Row): multiset<Row> { multiset{}[row := n] }

  lemma CopiesAdd(a: nat, b: nat, row: Row)
    ensures Copies(a + b, row) == Copies(a, row) + Copies(b, row)
  {
  }

  lemma PlansTail(plans: seq<MongoPlan>, schema: Schema, projection: Option<seq<nat>>, projected: Schema,
                  filters: seq<Expr>)
    requires plans != [] && ArePlans(plans, schema, projection, projected, filters)
    ensures ArePlans(plans[1..], schema, projection, projected, filters)
    ensures IsPlan(plans[0], schema, projection, projected, filters) && plans[0].skip.None? && plans[0].limit.None?
  {
    assert plans[0] in plans;
  }

  lemma SumsUp(a: multiset<Row>, b: multiset<Row>, x: multiset<Row>, y: multiset<Row>)
    ensures (a + x) + (b + y) == (a + b) + (x + y)
  {
  }

  lemma PlanCounts(plan: MongoPlan, schema: Schema, projection: Option<seq<nat>>, projected: Schema,
                   filters: seq<Expr>, docs: seq<B.Doc>, r: Rendering)
    requires IsPlan(plan, schema, projection, projected, filters) && plan.skip.None? && plan.limit.None?
    requires ScanSetting(schema, projection, projected, filters)
    requires docs != [] && ConformsDoc(schema, docs[0])
    ensures multiset(PlanRows(plan, schema, projected, filters, docs, r))
         == multiset(PlanRows(plan, schema, projected, filters, docs[1..], r))
          + Copies(OwnHit(plan, schema, filters, docs[0], r), DecodeRow(projected, docs[0], r))
  {
    PlanRowsHead(plan, schema, projection, projected, filters, docs, r);
  }

  lemma FirstPlanRows(plans: seq<MongoPlan>, schema: Schema, projected: Schema, filters: seq<Expr>,
                      docs: seq<B.Doc>, r: Rendering)
    requires plans != []
    ensures multiset(ScanRows(plans, schema, projected, filters, docs, r))
         == multiset(PlanRows(plans[0], schema, projected, filters, docs, r))
          + multiset(ScanRows(plans[1..], schema, projected, filters, docs, r))
  {
  }

  // The rows of the first plan add to those of the later ones.
  lemma FirstPlanSum(plans: seq<MongoPlan>, schema: Schema, projection: Option<seq<nat>>, projected: Schema,
                     filters: seq<Expr>, docs: seq<B.Doc>, r: Rendering, later: multiset<Row>)
    requires plans != [] && ArePlans(plans, schema, projection, projected, filters)
    requires ScanSetting(schema, projection, projected, filters)
    requires docs != [] && ConformsDoc(schema, docs[0])
    requires multiset(ScanRows(plans[1..], schema, projected, filters, docs, r))
          == multiset(ScanRows(plans[1..], schema, projected, filters, docs[1..], r)) + later
    ensures multiset(ScanRows(plans, schema, projected, filters, docs, r))
         == multiset(ScanRows(plans, schema, projected, filters, docs[1..], r))
          + (Copies(OwnHit(plans[0], schema, filters, docs[0], r), DecodeRow(projected, docs[0], r)) + later)
  {
    PlansTail(plans, schema, projection, projected, filters);
    FirstPlanRows(plans, schema, projected, filters, docs, r);
    FirstPlanRows(plans, schema, projected, filters, docs[1..], r);
    PlanCounts(plans[0], schema, projection, projected, filters, docs, r);
    SumsUp(multiset(PlanRows(plans[0], schema, projected, filters, docs[1..], r)),
           multiset(ScanRows(plans[1..], schema, projected, filters, docs[1..], r)),
           Copies(OwnHit(plans[0], schema, filters, docs[0], r), DecodeRow(projected, docs[0], r)), later);
  }

  // Every plan that accepts a selected document gives its row once.
  lemma HitsAddUp(plans: seq<MongoPlan>, schema: Schema, filters: seq<Expr>, d: B.Doc, r: Rendering, row: Row)
    requires plans != []
    ensures Copies(OwnHit(plans[0], schema, filters, d, r), row) + Copies(Hits(plans[1..], schema, filters, d, r), row)
         == Copies(Hits(plans, schema, filters, d, r), row)
  {
    HitsHead(plans, schema, filters, d, r);
    CopiesAdd(OwnHit(plans[0], schema, filters, d, r), Hits(plans[1..], schema, filters, d, r), row);
  }

  lemma {:induction false} ScanRowsHead(plans: seq<MongoPlan>, schema: Schema, projection: Option<seq<nat>>,
                                        projected: Schema,
                                        filters: seq<Expr>, docs: seq<B.Doc>, r: Rendering)
    requires ArePlans(plans, schema, projection, projected, filters)
    requires ScanSetting(schema, projection, projected, filters)
    requires docs != [] && ConformsDoc(schema, docs[0])
    ensures multiset(ScanRows(plans, schema, projected, filters, docs, r))
         == multiset(ScanRows(plans, schema, projected, filters, docs[1..], r))
          + Copies(Hits(plans, schema, filters, docs[0], r), DecodeRow(projected, docs[0], r))
  {
    if plans != [] {
      PlansTail(plans, schema, projection, projected, filters);
      ScanRowsHead(plans[1..], schema, projection, projected, filters, docs, r);
      FirstPlanSum(plans, schema, projection, projected, filters, docs, r,
                   Copies(Hits(plans[1..], schema, filters, docs[0], r), DecodeRow(projected, docs[0], r)));
      HitsAddUp(plans, schema, filters, docs[0], r, DecodeRow(projected, docs[0], r));
    }
  }

  // How often a selected document's row is returned.
  ghost function Hits(plans: seq<MongoPlan>, schema: Schema, filters: seq<Expr>, d: B.Doc, r: Rendering): nat {
    if AllTrue(filters, schema, DecodeRow(schema, d, r)) then Acceptances(plans, d) else 0
  }

  lemma HitsHead(plans: seq<MongoPlan>, schema: Schema, filters: seq<Expr>, d: B.Doc, r: Rendering)
    requires plans != []
    ensures Hits(plans, schema, filters, d, r)
         == OwnHit(plans[0], schema, filters, d, r) + Hits(plans[1..], schema, filters, d, r)
  {
  }

  ghost function OwnHit(plan: MongoPlan, schema: Schema, filters: seq<Expr>, d: B.Doc, r: Rendering): nat {
    if AllTrue(filters, schema, DecodeRow(schema, d, r)) && MatchesAll(plan.partition, d) then 1 else 0
  }

  lemma SelectedHead(schema: Schema, projected: Schema, filters: seq<Expr>, docs: seq<B.Doc>, r: Rendering)
    requires docs != []
    ensures multiset(SelectedRows(schema, projected, filters, docs, r))
         == multiset(SelectedRows(schema, projected, filters, docs[1..], r))
          + Copies(if AllTrue(filters, schema, DecodeRow(schema, docs[0], r)) then 1 else 0,
                   DecodeRow(projected, docs[0], r))
  {
  }

  // The documents some partition reaches.
  function ReachedDocs(cuts: seq<B.Bson>, docs: seq<B.Doc>): seq<B.Doc> {
    if docs == [] then []
    else (if Partition.Reached(cuts, docs[0]) then [docs[0]] else []) + ReachedDocs(cuts, docs[1..])
  }  ghost function ReachedCount(cuts: seq<B.Bson>, schema: Schema, filters: seq<Expr>, d: B.Doc, r: Rendering): nat {
    if AllTrue(filters, schema, DecodeRow(schema, d, r)) && Partition.Reached(cuts, d) then 1 else 0
  }

  lemma ReachedHead(cuts: seq<B.Bson>, schema: Schema, projected: Schema, filters: seq<Expr>, docs: seq<B.Doc>,
                    r: Rendering)
    requires docs != []
    ensures multiset(SelectedRows(schema, projected, filters, ReachedDocs(cuts, docs), r))
         == multiset(SelectedRows(schema, projected, filters, ReachedDocs(cuts, docs[1..]), r))
          + Copies(ReachedCount(cuts, schema, filters, docs[0], r), DecodeRow(projected, docs[0], r))
  {
    var rest := ReachedDocs(cuts, docs[1..]);
    if Partition.Reached(cuts, docs[0]) {
      assert ([docs[0]] + rest)[1..] == rest;
      SelectedHead(schema, projected, filters, [docs[0]] + rest, r);
    } else {
      assert ReachedDocs(cuts, docs) == rest;
    }
  }

  lemma {:induction false} ScanSelects(plans: seq<MongoPlan>, cuts: seq<B.Bson>, schema: Schema,
                                       projection: Option<seq<nat>>,
                                       projected: Schema, filters: seq<Expr>, docs: seq<B.Doc>, r: Rendering)
    requires ArePlans(plans, schema, projection, projected, filters)
    requires ScanSetting(schema, projection, projected, filters)
    requires forall d :: d in docs ==>
      ConformsDoc(schema, d) && Acceptances(plans, d) == if Partition.Reached(cuts, d) then 1 else 0
    ensures multiset(ScanRows(plans, schema, projected, filters, docs, r))
         == multiset(SelectedRows(schema, projected, filters, ReachedDocs(cuts, docs), r))
  {
    if docs == [] {
      NoDocsNoRows(plans, schema, projected, filters, r);
    } else {
      assert docs[0] in docs;
      ScanRowsHead(plans, schema, projection, projected, filters, docs, r);
      ReachedHead(cuts, schema, projected, filters, docs, r);
      ScanSelects(plans, cuts, schema, projection, projected, filters, docs[1..], r);
    }
  }

  lemma {:induction false} NoDocsNoRows(plans: seq<MongoPlan>, schema: Schema, projected: Schema, filters: seq<Expr>,
                                        r: Rendering)
    requires forall p :: p in plans ==> p.skip.None? && p.limit.None?
    ensures ScanRows(plans, schema, projected, filters, [], r) == []
  {
    if plans != [] {
      assert plans[0] in plans;
      PipelineMeaning(plans[0], []);
      assert RunStages(ToStages(plans[0]), []) == [];
      NoDocsNoRows(plans[1..], schema, projected, filters, r);
    }
  }

  // ---- the partitions of a sampled id list ----

  lemma {:induction false} NoAcceptance(plans: seq<MongoPlan>, d: B.Doc)
    requires forall i :: 0 <= i < |plans| ==> !MatchesAll(plans[i].partition, d)
    ensures Acceptances(plans, d) == 0
  {
    if plans != [] {
      assert forall i :: 0 <= i < |plans[1..]| ==> plans[1..][i] == plans[i + 1];
      NoAcceptance(plans[1..], d);
    }
  }

  lemma {:induction false} OneAcceptance(plans: seq<MongoPlan>, d: B.Doc, k: nat)
    requires k < |plans|
    requires forall i :: 0 <= i < |plans| ==> (MatchesAll(plans[i].partition, d) <==> i == k)
    ensures Acceptances(plans, d) == 1
  {
    assert forall i :: 0 <= i < |plans[1..]| ==> plans[1..][i] == plans[i + 1];
    if k == 0 {
      NoAcceptance(plans[1..], d);
    } else {
      OneAcceptance(plans[1..], d, k - 1);
    }
  }

  lemma PlansAccept(plans: seq<MongoPlan>, ids: seq<B.Bson>, n: nat, d: B.Doc)
    requires Partition.Ordered(ids)
    requires var partitions := Partition.BoundsOf(Partition.CutPoints(ids, n));
      |plans| == |partitions| && forall i :: 0 <= i < |plans| ==> plans[i].partition == partitions[i]
    ensures Acceptances(plans, d) == if Partition.Reached(Partition.CutPoints(ids, n), d) then 1 else 0
  {
    var partitions := Partition.BoundsOf(Partition.CutPoints(ids, n));
    Partition.PartitionsReach(ids, n, d);
    forall i | 0 <= i < |plans| ensures MatchesAll(plans[i].partition, d) == Partition.Accepts(partitions, i, d) {
      assert plans[i].partition == partitions[i];
    }
    if Partition.Reached(Partition.CutPoints(ids, n), d) {
      var k :| 0 <= k < |partitions| && Partition.Accepts(partitions, k, d) &&
        forall j :: 0 <= j < |partitions| && Partition.Accepts(partitions, j, d) ==> j == k;
      OneAcceptance(plans, d, k);
    } else {
      NoAcceptance(plans, d);
    }
  }

  // Scanning every partition of any sampled id list and rechecking only the
  // filters not reported exact yields, as a multiset, exactly the rows for which
  // every conjunct is TRUE, projected, of the documents the partitions reach.
  lemma ScanIsFaithful(config: PushdownConfig, schema: Schema, projection: Option<seq<nat>>, projected: Schema,
                       filters: seq<Expr>,
                       ids: seq<B.Bson>, n: nat, docs: seq<B.Doc>, r: Rendering)
    requires config.filters && ScanSetting(schema, projection, projected, filters)
    requires Partition.Ordered(ids)
    requires forall d :: d in docs ==> ConformsDoc(schema, d)
    ensures var cuts := Partition.CutPoints(ids, n);
      var plans := Plans(config, schema, projected, projection, filters, Partition.BoundsOf(cuts), None);
      multiset(ScanRows(plans, schema, projected, filters, docs, r))
      == multiset(SelectedRows(schema, projected, filters, ReachedDocs(cuts, docs), r))
  {
    var cuts := Partition.CutPoints(ids, n);
    var plans := Plans(config, schema, projected, projection, filters, Partition.BoundsOf(cuts), None);
    forall d | d in docs ensures Acceptances(plans, d) == if Partition.Reached(cuts, d) then 1 else 0 {
      PlansAccept(plans, ids, n, d);
    }
    assert ArePlans(plans, schema, projection, projected, filters);
    ScanSelects(plans, cuts, schema, projection, projected, filters, docs, r);
  }

  // Every document SQL selects is one the partitions reach.
  ghost predicate SelectedAreReached(cuts: seq<B.Bson>, schema: Schema, filters: seq<Expr>, docs: seq<B.Doc>,
                                     r: Rendering)
  {
    forall d :: d in docs && AllTrue(filters, schema, DecodeRow(schema, d, r)) ==> Partition.Reached(cuts, d)
  }

  lemma SelectedLength(schema: Schema, projected: Schema, filters: seq<Expr>, docs: seq<B.Doc>, r: Rendering)
    requires docs != []
    ensures |SelectedRows(schema, projected, filters, docs, r)|
         == |SelectedRows(schema, projected, filters, docs[1..], r)|
          + (if AllTrue(filters, schema, DecodeRow(schema, docs[0], r)) then 1 else 0)
  {
  }

  lemma ReachedLength(cuts: seq<B.Bson>, schema: Schema, projected: Schema, filters: seq<Expr>, docs: seq<B.Doc>,
                      r: Rendering)
    requires docs != []
    ensures |SelectedRows(schema, projected, filters, ReachedDocs(cuts, docs), r)|
         == |SelectedRows(schema, projected, filters, ReachedDocs(cuts, docs[1..]), r)|
          + ReachedCount(cuts, schema, filters, docs[0], r)
  {
    var rest := ReachedDocs(cuts, docs[1..]);
    if Partition.Reached(cuts, docs[0]) {
      assert ([docs[0]] + rest)[1..] == rest;
      SelectedLength(schema, projected, filters, [docs[0]] + rest, r);
    } else {
      assert ReachedDocs(cuts, docs) == rest;
    }
  }

  lemma {:induction false} ReachedCounts(cuts: seq<B.Bson>, schema: Schema, projected: Schema, filters: seq<Expr>,
                                         docs: seq<B.Doc>, r: Rendering)
    ensures var (reached, all) := (|SelectedRows(schema, projected, filters, ReachedDocs(cuts, docs), r)|,
                                   |SelectedRows(schema, projected, filters, docs, r)|);
      reached <= all && (reached == all <==> SelectedAreReached(cuts, schema, filters, docs, r))
  {
    if docs != [] {
      ReachedCounts(cuts, schema, projected, filters, docs[1..], r);
      SelectedLength(schema, projected, filters, docs, r);
      ReachedLength(cuts, schema, projected, filters, docs, r);
      assert forall d :: d in docs <==> d == docs[0] || d in docs[1..];
    }
  }

  lemma {:induction false} ReachedSelect(cuts: seq<B.Bson>, schema: Schema, projected: Schema, filters: seq<Expr>,
                                         docs: seq<B.Doc>, r: Rendering)
    requires SelectedAreReached(cuts, schema, filters, docs, r)
    ensures SelectedRows(schema, projected, filters, ReachedDocs(cuts, docs), r)
         == SelectedRows(schema, projected, filters, docs, r)
  {
    if docs != [] {
      assert docs[0] in docs;
      var rest := ReachedDocs(cuts, docs[1..]);
      ReachedSelect(cuts, schema, projected, filters, docs[1..], r);
      if Partition.Reached(cuts, docs[0]) {
        assert ReachedDocs(cuts, docs) == [docs[0]] + rest;
        assert ([docs[0]] + rest)[1..] == rest;
      } else {
        assert ReachedDocs(cuts, docs) == rest;
      }
    }
  }

  // So the scan returns everything SQL selects if and only if no selected
  // document has an `_id` of another bracket than the cut points.
  lemma ScanIsCompleteIff(config: PushdownConfig, schema: Schema, projection: Option<seq<nat>>, projected: Schema,
                          filters: seq<Expr>,
                          ids: seq<B.Bson>, n: nat, docs: seq<B.Doc>, r: Rendering)
    requires config.filters && ScanSetting(schema, projection, projected, filters)
    requires Partition.Ordered(ids)
    requires forall d :: d in docs ==> ConformsDoc(schema, d)
    ensures var cuts := Partition.CutPoints(ids, n);
      var plans := Plans(config, schema, projected, projection, filters, Partition.BoundsOf(cuts), None);
      multiset(ScanRows(plans, schema, projected, filters, docs, r))
      == multiset(SelectedRows(schema, projected, filters, docs, r))
      <==> SelectedAreReached(cuts, schema, filters, docs, r)
  {
    var cuts := Partition.CutPoints(ids, n);
    ScanIsFaithful(config, schema, projection, projected, filters, ids, n, docs, r);
    ReachedCounts(cuts, schema, projected, filters, docs, r);
    if SelectedAreReached(cuts, schema, filters, docs, r) {
      ReachedSelect(cuts, schema, projected, filters, docs, r);
    }
    SameSize(SelectedRows(schema, projected, filters, ReachedDocs(cuts, docs), r),
             SelectedRows(schema, projected, filters, docs, r));
  }

  lemma SameSize(a: seq<Row>, b: seq<Row>)
    requires |a| == |b| ==> a == b
    ensures multiset(a) == multiset(b) <==> |a| == |b|
  {
    assert |multiset(a)| == |a| && |multiset(b)| == |b|;
  }

  // ---- a limited scan ----

  lemma {:induction false} NothingToRecheck(filters: seq<Expr>, schema: Schema, projected: Schema, rows: seq<Row>)
    requires forall f :: f in filters ==> SupportOf(f, schema) == Exact
    ensures RecheckAll(filters, schema, projected, rows) == rows
  {
    if rows != [] {
      NothingToRecheck(filters, schema, projected, rows[1..]);
    }
  }

  lemma TakeDecodes(plan: MongoPlan, projected: Schema, limit: int, docs: seq<B.Doc>, r: Rendering)
    ensures DecodeAll(projected, ProjectDocs(plan, Take(limit, docs)), r)
         == Take(limit, DecodeAll(projected, ProjectDocs(plan, docs), r))
  {
  }

  lemma TakeTwice<T>(limit: nat, s: seq<T>)
    ensures Take(limit, Take(limit, s)) == Take(limit, s)
  {
  }

  // The rows of the one plan of a limited scan.
  lemma LimitedPlanRows(plan: MongoPlan, schema: Schema, projection: Option<seq<nat>>, projected: Schema,
                        filters: seq<Expr>, limit: nat, docs: seq<B.Doc>, r: Rendering)
    requires ScanSetting(schema, projection, projected, filters)
    requires forall f :: f in filters ==> SupportOf(f, schema) == Exact
    requires forall d :: d in docs ==> ConformsDoc(schema, d)
    requires IsPlan(plan, schema, projection, projected, filters)
    requires plan.partition.None? && plan.skip.None? && plan.limit.Some? && plan.limit.value == limit
    ensures PlanRows(plan, schema, projected, filters, docs, r)
         == Take(limit, SelectedRows(schema, projected, filters, docs, r))
  {
    var free := plan.(limit := None);
    PipelineMeaning(plan, docs);
    PipelineMeaning(free, docs);
    assert MatchStage(plan) == MatchStage(free);
    TakeDecodes(plan, projected, limit, KeepAll(MatchStage(plan), docs), r);
    NothingToRecheck(filters, schema, projected, DecodeAll(projected, RunStages(ToStages(plan), docs), r));
    NothingToRecheck(filters, schema, projected, DecodeAll(projected, RunStages(ToStages(free), docs), r));
    assert ProjectDocs(plan, KeepAll(MatchStage(plan), docs)) == ProjectDocs(free, KeepAll(MatchStage(plan), docs));
    SerialScanSelects(free, schema, projection, projected, filters, docs, r);
  }

  lemma OnePlan(plan: MongoPlan, schema: Schema, projected: Schema, filters: seq<Expr>, docs: seq<B.Doc>, r: Rendering)
    ensures ScanRows([plan], schema, projected, filters, docs, r) == PlanRows(plan, schema, projected, filters, docs, r)
  {
    assert [plan][1..] == [];
    assert ScanRows([], schema, projected, filters, docs, r) == [];
  }

  // A limit reaches the provider only when every filter is exact, and then scans
  // serially. Whether or not it is sent to the server, the first rows the limit
  // operator above keeps are the first SQL selects, in the collection's order.
  lemma LimitedScanIsPrefix(config: PushdownConfig, schema: Schema, projection: Option<seq<nat>>, projected: Schema,
                            filters: seq<Expr>, limit: nat, docs: seq<B.Doc>, r: Rendering)
    requires config.filters && ScanSetting(schema, projection, projected, filters)
    requires forall f :: f in filters ==> SupportOf(f, schema) == Exact
    requires forall d :: d in docs ==> ConformsDoc(schema, d)
    ensures var plans := Plans(config, schema, projected, projection, filters, [None], Some(limit));
      Take(limit, ScanRows(plans, schema, projected, filters, docs, r))
      == Take(limit, SelectedRows(schema, projected, filters, docs, r))
  {
    var plans := Plans(config, schema, projected, projection, filters, [None], Some(limit));
    assert plans == [plans[0]];
    OnePlan(plans[0], schema, projected, filters, docs, r);
    if plans[0].limit.Some? {
      LimitedPlanRows(plans[0], schema, projection, projected, filters, limit, docs, r);
      TakeTwice(limit, SelectedRows(schema, projected, filters, docs, r));
    } else {
      SerialScanSelects(plans[0], schema, projection, projected, filters, docs, r);
    }
  }

  lemma {:induction false} SerialScanSelects(plan: MongoPlan, schema: Schema, projection: Option<seq<nat>>,
                                             projected: Schema,
                                             filters: seq<Expr>, docs: seq<B.Doc>, r: Rendering)
    requires IsPlan(plan, schema, projection, projected, filters)
    requires plan.partition.None? && plan.skip.None? && plan.limit.None?
    requires ScanSetting(schema, projection, projected, filters)
    requires forall d :: d in docs ==> ConformsDoc(schema, d)
    ensures PlanRows(plan, schema, projected, filters, docs, r) == SelectedRows(schema, projected, filters, docs, r)
  {
    if docs == [] {
      PipelineMeaning(plan, []);
    } else {
      assert docs[0] in docs;
      PlanRowsHead(plan, schema, projection, projected, filters, docs, r);
      SerialScanSelects(plan, schema, projection, projected, filters, docs[1..], r);
    }
  }
}
