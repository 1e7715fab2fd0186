// The `$project` stage: which paths it keeps, and that no requested lookup changes.
module Projection {
  import opened Wrappers
  import opened B = BsonModel
  import opened Arrow

  predicate IsStrictPrefix(prefix: string, path: string) {
    |path| > |prefix| && path[..|prefix|] == prefix && path[|prefix|] == '.'
  }

  predicate Covered(paths: seq<string>, path: string) {
    exists other :: other in paths && IsStrictPrefix(other, path)
  }

  // The paths no other requested path already covers, in order.
  function Kept(paths: seq<string>, upTo: nat): (kept: seq<string>)
    requires upTo <= |paths|
    ensures forall p :: p in kept <==> (exists i :: 0 <= i < upTo && paths[i] == p) && !Covered(paths, p)
  {
    if upTo == 0 then []
    else
      var before := Kept(paths, upTo - 1);
      if Covered(paths, paths[upTo - 1]) then before else before + [paths[upTo - 1]]
  }

  predicate NamesId(path: string) {
    path == "_id" || (|path| >= 4 && path[..4] == "_id.")
  }

  // 1 keeps a path; `_id` is suppressed unless something under it is asked for.
  function ProjectionDoc(paths: seq<string>): map<string, int> {
    var kept := Kept(paths, |paths|);
    var projection := map p | p in kept :: 1;
    if exists p :: p in kept && NamesId(p) then projection else projection["_id" := 0]
  }

  method IsCovered(paths: seq<string>, path: string) returns (b: bool)
    ensures b <==> Covered(paths, path)
  {
    for i := 0 to |paths|
      invariant forall j :: 0 <= j < i ==> !IsStrictPrefix(paths[j], path)
    {
      if IsStrictPrefix(paths[i], path) {
        return true;
      }
    }
    b := false;
  }

  method BuildProjection(paths: seq<string>) returns (projection: map<string, int>)
    ensures projection == ProjectionDoc(paths)
  {
    var kept: seq<string> := [];
    for i := 0 to |paths|
      invariant kept == Kept(paths, i)
    {
      var covered := IsCovered(paths, paths[i]);
      if !covered {
        kept := kept + [paths[i]];
      }
    }
    projection := map[];
    var wantsId := false;
    for i := 0 to |kept|
      invariant projection == map p | p in kept[..i] :: 1
      invariant wantsId <==> exists p :: p in kept[..i] && NamesId(p)
    {
      if NamesId(kept[i]) {
        wantsId := true;
      }
      assert kept[..i + 1] == kept[..i] + [kept[i]];
      projection := projection[kept[i] := 1];
    }
    assert kept[..|kept|] == kept;
    if !wantsId {
      projection := projection["_id" := 0];
    }
  }

  // ---- what the server returns ----

  type Segments = seq<string>

  function Tails(paths: set<Segments>, key: string): set<Segments> {
    set p | p in paths && p != [] && p[0] == key :: p[1..]
  }

  // A kept path brings its whole value; a longer one brings the documents on the
  // way, also inside arrays; other values are dropped.
  function ProjectTree(d: Doc, paths: set<Segments>): Doc
    decreases Document(d), 0
  {
    map k | k in d && ProjectValue(d[k], Tails(paths, k)).Some? :: ProjectValue(d[k], Tails(paths, k)).value
  }

  function ProjectValue(v: Bson, paths: set<Segments>): Option<Bson>
    decreases v, 1
  {
    if [] in paths then Some(v)
    else if paths == {} then None
    else
      match v
      case Document(inner) => Some(Document(ProjectTree(inner, paths)))
      case Array(items) => Some(Array(ProjectItems(items, paths)))
      case _ => None
  }

  function ProjectItems(items: seq<Bson>, paths: set<Segments>): seq<Bson>
    decreases items, 0
  {
    if items == [] then []
    else
      var first := ProjectValue(items[0], paths);
      (if first.Some? then [first.value] else []) + ProjectItems(items[1..], paths)
  }

  // The paths a projection document includes; `_id` comes along unless
  // suppressed or itself listed.
  function Included(projection: map<string, int>): set<Segments> {
    (set p | p in projection && projection[p] == 1 :: Split(p))
    + (if "_id" in projection || exists p :: p in projection && NamesId(p) then {} else {["_id"]})
  }

  function Project(d: Doc, projection: map<string, int>): Doc {
    ProjectTree(d, Included(projection))
  }

  // ---- kept paths are prefix-free and cover every request ----

  lemma StrictPrefixTransitive(a: string, b: string, c: string)
    requires IsStrictPrefix(a, b) && IsStrictPrefix(b, c)
    ensures IsStrictPrefix(a, c)
  {
    assert c[..|a|] == c[..|b|][..|a|];
  }

  lemma KeptIsPrefixFree(paths: seq<string>, p: string, q: string)
    requires p in Kept(paths, |paths|) && q in Kept(paths, |paths|)
    ensures !IsStrictPrefix(p, q)
    ensures !(Split(p) < Split(q))
  {
    if Split(p) < Split(q) {
      SegmentsToPrefix(p, q);
    }
  }

  lemma {:induction false} KeptCovers(paths: seq<string>, q: string) returns (p: string)
    requires q in paths
    ensures p in Kept(paths, |paths|) && (p == q || IsStrictPrefix(p, q))
    decreases |q|
  {
    if Covered(paths, q) {
      var other :| other in paths && IsStrictPrefix(other, q);
      p := KeptCovers(paths, other);
      if p != other {
        StrictPrefixTransitive(p, other, q);
      }
    } else {
      p := q;
    }
  }

  // ---- dotted text and segments ----

  function Join(parts: seq<string>): string
    requires |parts| > 0
  {
    if |parts| == 1 then parts[0] else parts[0] + "." + Join(parts[1..])
  }

  lemma {:induction false} JoinSplit(s: string)
    ensures Join(Split(s)) == s
  {
    if s != "" {
      var rest := Split(s[1..]);
      JoinSplit(s[1..]);
      if s[0] == '.' {
        assert Split(s)[1..] == rest;
        assert s == "" + "." + s[1..];
      } else {
        var first := [s[0]] + rest[0];
        assert Split(s) == [first] + rest[1..];
        assert Split(s)[1..] == rest[1..];
        assert s == [s[0]] + s[1..];
        if |rest| > 1 {
          assert first + "." + Join(rest[1..]) == [s[0]] + (rest[0] + "." + Join(rest[1..]));
        }
      }
    }
  }

  lemma {:induction false} JoinAppend(a: seq<string>, b: seq<string>)
    requires |a| > 0 && |b| > 0
    ensures Join(a + b) == Join(a) + "." + Join(b)
  {
    if |a| == 1 {
      assert (a + b)[1..] == b;
    } else {
      assert (a + b)[1..] == a[1..] + b;
      JoinAppend(a[1..], b);
      assert a[0] + "." + (Join(a[1..]) + "." + Join(b)) == (a[0] + "." + Join(a[1..])) + "." + Join(b);
    }
  }

  lemma DotExtends(p: string, rest: string)
    ensures IsStrictPrefix(p, p + "." + rest)
  {
  }

  lemma SegmentsToPrefix(p: string, q: string)
    requires Split(p) < Split(q)
    ensures IsStrictPrefix(p, q)
  {
    var rest := Split(q)[|Split(p)|..];
    assert Split(q) == Split(p) + rest;
    JoinSplit(p);
    JoinSplit(q);
    JoinAppend(Split(p), rest);
    DotExtends(p, Join(rest));
  }

  lemma PrefixToSegments(p: string, q: string)
    requires p == q || IsStrictPrefix(p, q)
    ensures Split(p) <= Split(q)
  {
    if p != q {
      var rest := q[|p| + 1..];
      assert q == p + "." + rest;
      SplitJoined(p, rest);
    }
  }

  // ---- lookups survive ----

  lemma {:induction false} ProjectionKeepsWalk(d: Doc, paths: set<Segments>, p: Segments, q: Segments)
    requires p in paths && |p| > 0 && p <= q
    ensures Walk(ProjectTree(d, paths), q) == Walk(d, q)
    decreases |q|
  {
    var k := q[0];
    var tails := Tails(paths, k);
    assert p[1..] in tails;
    if k in d {
      var v := d[k];
      if [] !in tails {
        assert p[1..] != [];
        if v.Document? {
          ProjectionKeepsWalk(v.fields, tails, p[1..], q[1..]);
        }
      }
    }
  }

  // For every set of requested paths and every document, looking a requested
  // path up in the projected document finds what the original holds.
  lemma ProjectionKeepsLookups(paths: seq<string>, q: string, d: Doc)
    requires q in paths
    ensures LookupPath(Project(d, ProjectionDoc(paths)), q) == LookupPath(d, q)
  {
    var p := KeptCovers(paths, q);
    var projection := ProjectionDoc(paths);
    PrefixToSegments(p, q);
    assert p in projection && projection[p] == 1;
    assert Split(p) in Included(projection);
    ProjectionKeepsWalk(d, Included(projection), Split(p), Split(q));
  }

  // A scan that does not ask for `_id` is not sent it.
  lemma UnrequestedIdIsDropped(paths: seq<string>, d: Doc)
    requires forall p :: p in paths ==> !NamesId(p)
    ensures "_id" !in Project(d, ProjectionDoc(paths))
  {
    var projection := ProjectionDoc(paths);
    assert "_id" in projection && projection["_id"] == 0;
    forall segments | segments in Included(projection) ensures segments[0] != "_id" {
      var p :| p in projection && projection[p] == 1 && Split(p) == segments;
      UnderId(p);
      assert p in paths;
    }
    assert Tails(Included(projection), "_id") == {};
    if "_id" in d {
      assert ProjectValue(d["_id"], Tails(Included(projection), "_id")) == None;
    }
    assert "_id" !in ProjectTree(d, Included(projection));
  }

  lemma UnderId(p: string)
    ensures Split(p)[0] == "_id" ==> NamesId(p)
  {
    JoinSplit(p);
    if Split(p)[0] == "_id" && |Split(p)| > 1 {
      assert p == "_id." + Join(Split(p)[1..]);
    }
  }
}
