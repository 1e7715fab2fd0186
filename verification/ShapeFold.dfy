// Merging many shapes: what the order, and the number of times each is seen, can change.
module ShapeFold {
  import opened Shapes
  import opened ShapeLaws
  import opened ShapeGrouping

  // One after the other, as a field's slot and an array's elements are.
  function Fold(s: seq<Shape>): Joined {
    if s == [] then Joined(Unknown, false)
    else
      var before := Fold(s[..|s| - 1]);
      var j := Unify(before.shape, s[|s| - 1]);
      Joined(j.shape, before.conflict || j.conflict)
  }

  ghost predicate SameMembers(s: seq<Shape>, t: seq<Shape>) { forall x :: x in s <==> x in t }

  lemma LastOf(s: seq<Shape>)
    requires s != []
    ensures forall x :: x in s <==> x in s[..|s| - 1] || x == s[|s| - 1]
  {
    assert s == s[..|s| - 1] + [s[|s| - 1]];
  }

  lemma {:induction false} MembersBelow(s: seq<Shape>, x: Shape)
    requires x in s
    ensures Below(x, Fold(s).shape)
    ensures Coerced(x, Fold(s).shape) ==> Fold(s).conflict
  {
    var (p, last) := (s[..|s| - 1], s[|s| - 1]);
    LastOf(s);
    if x in p {
      MembersBelow(p, x);
      UnifyIsAbove(Fold(p).shape, last);
      BelowTransitive(x, Fold(p).shape, Fold(s).shape);
    } else {
      UnifyCommutes(Fold(p).shape, last);
      UnifyIsAbove(last, Fold(p).shape);
    }
  }

  // ---- the flag: some pair clashes ----

  // A pair that clashes does so under every bound of both.
  lemma {:induction false} PairConflicts(x: Shape, y: Shape, u: Shape)
    requires Below(x, u) && Below(y, u) && Unify(x, y).conflict
    ensures Coerced(x, u) || Coerced(y, u)
    decreases u
  {
    if u.Array? {
      if x.Array? || y.Array? {
        UnifyOnArray(x, y);
      }
      PairConflicts(Inner(x), Inner(y), u.elem);
    }
  }

  lemma {:induction false} NoConflictJoins(a: Shape, b: Shape, c: Shape)
    requires !Unify(a, b).conflict && !Unify(a, c).conflict && !Unify(b, c).conflict
    ensures !Unify(Unify(a, b).shape, c).conflict
    decreases Height(a) + Height(b) + Height(c)
  {
    if a.Unknown? || b.Unknown? || c.Unknown? || a.Json? || b.Json? || c.Json? {
      KnownJoins(a, b, c);
    } else if a.Array? || b.Array? || c.Array? {
      JoinsUnderArray(a, b, c);
      NoConflictJoins(Inner(a), Inner(b), Inner(c));
    } else if a.Document? || b.Document? || c.Document? {
      DocumentsJoin(a, b, c);
    } else {
      FlatJoins(a, b, c);
    }
  }

  lemma KnownJoins(a: Shape, b: Shape, c: Shape)
    requires a.Unknown? || b.Unknown? || c.Unknown? || a.Json? || b.Json? || c.Json?
    requires !Unify(a, b).conflict && !Unify(a, c).conflict && !Unify(b, c).conflict
    ensures !Unify(Unify(a, b).shape, c).conflict
  {
  }

  lemma DocumentsJoin(a: Shape, b: Shape, c: Shape)
    requires a.Document? || b.Document? || c.Document?
    requires !a.Array? && !b.Array? && !c.Array?
    requires !a.Unknown? && !b.Unknown? && !c.Unknown? && !a.Json? && !b.Json? && !c.Json?
    requires !Unify(a, b).conflict && !Unify(a, c).conflict && !Unify(b, c).conflict
    ensures !Unify(Unify(a, b).shape, c).conflict
  {
    if a.Document? {
      DocumentClashes(a, b);
      DocumentClashes(a, c);
    } else if b.Document? {
      DocumentClashes(b, a);
    } else {
      DocumentClashes(c, a);
    }
  }

  lemma DocumentClashes(a: Shape, b: Shape)
    requires a.Document? && !b.Array? && !b.Unknown?
    ensures !b.Document? ==> Unify(a, b).conflict && Unify(b, a).conflict
    ensures b.Document? ==> Unify(a, b).shape.Document?
  {
  }

  lemma FlatJoins(a: Shape, b: Shape, c: Shape)
    requires IsFlat(a) && IsFlat(b) && IsFlat(c)
    requires !Unify(a, b).conflict && !Unify(a, c).conflict && !Unify(b, c).conflict
    ensures !Unify(Unify(a, b).shape, c).conflict
  {
    if !a.Unknown? && !b.Unknown? && !c.Unknown? {
      FlatConflicts(a, b);
      FlatConflicts(b, c);
      FlatConflicts(Unify(a, b).shape, c);
    }
  }

  // Shapes without structure clash across families, and where an ObjectId meets a text.
  lemma FlatConflicts(a: Shape, b: Shape)
    requires IsFlat(a) && IsFlat(b) && !a.Unknown? && !b.Unknown?
    ensures Unify(a, b).conflict <==> Family(a) != Family(b) || (Family(a) == 1 && Level(a) != Level(b))
    ensures !Unify(a, b).conflict ==>
      var j := Unify(a, b).shape;
      IsFlat(j) && !j.Unknown? && Family(j) == Family(a) && (Family(a) == 1 ==> Level(j) == Level(a))
  {
    FlatStaysFlat(a, b);
  }

  lemma ConflictOnArray(a: Shape, b: Shape)
    requires !a.Unknown? && !b.Unknown? && !a.Json? && !b.Json?
    ensures Unify(a, b).conflict == Unify(Inner(a), Inner(b)).conflict
  {
    if a.Array? || b.Array? {
      UnifyOnArray(a, b);
    }
  }

  lemma JoinsUnderArray(a: Shape, b: Shape, c: Shape)
    requires a.Array? || b.Array? || c.Array?
    requires !a.Unknown? && !b.Unknown? && !c.Unknown? && !a.Json? && !b.Json? && !c.Json?
    requires !Unify(a, b).conflict && !Unify(a, c).conflict && !Unify(b, c).conflict
    ensures var (x, y, z) := (Inner(a), Inner(b), Inner(c));
      && !Unify(x, y).conflict && !Unify(x, z).conflict && !Unify(y, z).conflict
      && Unify(Unify(a, b).shape, c).conflict == Unify(Unify(x, y).shape, z).conflict
  {
    ConflictOnArray(a, b);
    ConflictOnArray(a, c);
    ConflictOnArray(b, c);
    InnerOfMerge(a, b);
    ConflictOnArray(Unify(a, b).shape, c);
  }

  lemma InnerOfMerge(a: Shape, b: Shape)
    requires !a.Unknown? && !b.Unknown? && !a.Json? && !b.Json? && !Unify(a, b).conflict
    ensures var j := Unify(a, b).shape;
      !j.Unknown? && !j.Json? && Inner(j) == if a.Array? || b.Array? then Unify(Inner(a), Inner(b)).shape else j
    ensures !a.Array? && !b.Array? ==> !Unify(a, b).shape.Array?
  {
    NoUnknown(a, b);
    if a.Array? || b.Array? {
      UnifyOnArray(a, b);
    }
  }

  ghost predicate Clash(s: seq<Shape>) { exists x, y :: x in s && y in s && Unify(x, y).conflict }

  lemma {:induction false} NothingClashes(s: seq<Shape>, y: Shape)
    requires !Clash(s) && forall x :: x in s ==> !Unify(x, y).conflict
    ensures !Fold(s).conflict && !Unify(Fold(s).shape, y).conflict
  {
    if s != [] {
      var (p, last) := (s[..|s| - 1], s[|s| - 1]);
      LastOf(s);
      NothingClashes(p, last);
      NothingClashes(p, y);
      NoConflictJoins(Fold(p).shape, last, y);
    }
  }

  // The flag is raised if and only if two of the shapes clash: whatever the order.
  lemma ConflictIffClash(s: seq<Shape>)
    ensures Fold(s).conflict <==> Clash(s)
  {
    if Clash(s) {
      var x, y :| x in s && y in s && Unify(x, y).conflict;
      MembersBelow(s, x);
      MembersBelow(s, y);
      PairConflicts(x, y, Fold(s).shape);
    } else {
      NothingClashes(s, Unknown);
    }
  }

  lemma SameClash(s: seq<Shape>, t: seq<Shape>)
    requires SameMembers(s, t)
    ensures Fold(s).conflict == Fold(t).conflict
  {
    ConflictIffClash(s);
    ConflictIffClash(t);
  }

  // ---- what the order may change ----

  // As the schema sees a shape: structure below the depth limit is text.
  function Trunc(s: Shape, n: nat): Shape {
    match s
    case Document(fs) =>
      if n == 0 then Json
      else Document(map k | k in fs :: FieldShape(Trunc(fs[k].shape, n - 1), 0, 0, fs[k].mixed))
    case Array(e) => if n == 0 then Json else Array(Trunc(e, n - 1))
    case _ => s
  }

  lemma {:induction false} TruncStrips(s: Shape, n: nat)
    ensures Trunc(Strip(s), n) == Trunc(s, n)
  {
    match s
    case Document(fs) =>
      if n > 0 {
        forall k | k in fs ensures Trunc(Strip(fs[k].shape), n - 1) == Trunc(fs[k].shape, n - 1) {
          TruncStrips(fs[k].shape, n - 1);
        }
        FieldsTruncate(fs, Strip(s).fields, n);
      }
    case Array(e) =>
      if n > 0 {
        TruncStrips(e, n - 1);
      }
    case _ =>
  }

  lemma FieldsTruncate(l: map<string, FieldShape>, r: map<string, FieldShape>, n: nat)
    requires n > 0 && l.Keys == r.Keys
    requires forall k :: k in l ==> l[k].mixed == r[k].mixed && Trunc(l[k].shape, n - 1) == Trunc(r[k].shape, n - 1)
    ensures Trunc(Document(l), n) == Trunc(Document(r), n)
  {
    assert Trunc(Document(l), n).fields == Trunc(Document(r), n).fields;
  }

  lemma SameTruncates(s: Shape, t: Shape, n: nat)
    requires Same(s, t)
    ensures Trunc(s, n) == Trunc(t, n)
  {
    TruncStrips(s, n);
    TruncStrips(t, n);
  }

  function Inners(s: seq<Shape>): seq<Shape> { seq(|s|, i requires 0 <= i < |s| => Inner(s[i])) }

  function AtKey(x: Shape, k: string): Shape { if x.Document? && k in x.fields then x.fields[k].shape else Unknown }

  predicate HasKey(x: Shape, k: string) { x.Document? && k in x.fields }

  predicate MixedKey(x: Shape, k: string) { x.Document? && k in x.fields && x.fields[k].mixed }

  function At(s: seq<Shape>, k: string): seq<Shape> { seq(|s|, i requires 0 <= i < |s| => AtKey(s[i], k)) }

  predicate HasArray(s: seq<Shape>) { exists x :: x in s && x.Array? }

  predicate AllDocuments(s: seq<Shape>) { forall x :: x in s ==> x.Unknown? || x.Document? }

  // Down to n levels no two shapes degrade to Json beside an array, unless there
  // is Json already.
  ghost predicate SettledTo(s: seq<Shape>, n: nat)
    decreases n
  {
    if n == 0 || Json in s then true
    else if HasArray(s) then
      && (forall x, y :: x in s && y in s ==> !Degrades(x, y))
      && SettledTo(Inners(s), n - 1)
    else if AllDocuments(s) then forall k: string :: SettledTo(At(s, k), n - 1)
    else true
  }

  ghost predicate Settled(s: seq<Shape>) { forall n: nat :: SettledTo(s, n) }

  lemma SameInners(s: seq<Shape>, t: seq<Shape>)
    requires SameMembers(s, t)
    ensures SameMembers(Inners(s), Inners(t))
  {
    InnersFrom(s, t);
    InnersFrom(t, s);
  }

  lemma InnersFrom(s: seq<Shape>, t: seq<Shape>)
    requires forall x :: x in s ==> x in t
    ensures forall y :: y in Inners(s) ==> y in Inners(t)
  {
    forall y | y in Inners(s) ensures y in Inners(t) {
      var i :| 0 <= i < |s| && Inners(s)[i] == y;
      assert s[i] in t;
      var j :| 0 <= j < |t| && t[j] == s[i];
      assert Inners(t)[j] == y;
    }
  }

  lemma SameAt(s: seq<Shape>, t: seq<Shape>, k: string)
    requires SameMembers(s, t)
    ensures SameMembers(At(s, k), At(t, k))
  {
    AtFrom(s, t, k);
    AtFrom(t, s, k);
  }

  lemma AtFrom(s: seq<Shape>, t: seq<Shape>, k: string)
    requires forall x :: x in s ==> x in t
    ensures forall y :: y in At(s, k) ==> y in At(t, k)
  {
    forall y | y in At(s, k) ensures y in At(t, k) {
      var i :| 0 <= i < |s| && At(s, k)[i] == y;
      assert s[i] in t;
      var j :| 0 <= j < |t| && t[j] == s[i];
      assert At(t, k)[j] == y;
    }
  }

  lemma {:induction false} SettledByMembers(s: seq<Shape>, t: seq<Shape>, n: nat)
    requires SameMembers(s, t) && SettledTo(s, n)
    ensures SettledTo(t, n)
    decreases n
  {
    if n > 0 && Json !in s {
      if HasArray(s) {
        SameInners(s, t);
        SettledByMembers(Inners(s), Inners(t), n - 1);
      } else if AllDocuments(s) {
        forall k: string ensures SettledTo(At(t, k), n - 1) {
          SameAt(s, t, k);
          SettledByMembers(At(s, k), At(t, k), n - 1);
        }
      }
    }
  }

  // ---- the fold by cases ----

  lemma JsonStays(s: seq<Shape>)
    requires Json in s
    ensures Fold(s).shape == Json
  {
    MembersBelow(s, Json);
  }

  lemma ArrayOrJson(s: seq<Shape>)
    requires HasArray(s)
    ensures Fold(s).shape.Array? || Fold(s).shape.Json?
  {
    var x :| x in s && x.Array?;
    MembersBelow(s, x);
  }

  lemma {:induction false} NoArrayFolds(s: seq<Shape>)
    requires !HasArray(s)
    ensures !Fold(s).shape.Array?
  {
    if s != [] {
      LastOf(s);
      NoArrayFolds(s[..|s| - 1]);
    }
  }

  // A pair that degrades leaves Json below every bound.
  lemma {:induction false} DegradedBound(x: Shape, y: Shape, u: Shape)
    requires Degrades(x, y) && !x.Json? && !y.Json? && Below(x, u) && Below(y, u)
    ensures u.Json? || u.Array?
    ensures !JsonFree(u)
  {
    if u.Array? {
      DegradedBound(x, y, u.elem);
    }
  }

  // Without such a pair, what is no array merges to no Json.
  lemma {:induction false} NothingDegrades(s: seq<Shape>, y: Shape)
    requires Json !in s && !HasArray(s) && !y.Array? && !y.Json?
    requires forall x, z :: x in s && z in s ==> !Degrades(x, z)
    requires forall x :: x in s ==> !Degrades(x, y)
    ensures !Fold(s).shape.Json? && !Degrades(Fold(s).shape, y)
  {
    NoArrayFolds(s);
    if s != [] {
      var (p, last) := (s[..|s| - 1], s[|s| - 1]);
      LastOf(s);
      NothingDegrades(p, last);
      NothingDegrades(p, y);
      NoArrayFolds(p);
      DegradesJoins(Fold(p).shape, last, y);
    }
  }

  lemma DegradesJoins(a: Shape, b: Shape, c: Shape)
    requires !a.Array? && !b.Array? && !c.Array? && !a.Json? && !b.Json? && !c.Json?
    requires !Degrades(a, b) && !Degrades(a, c) && !Degrades(b, c)
    ensures !Unify(a, b).shape.Json? && !Degrades(Unify(a, b).shape, c)
  {
    if !a.Unknown? && !b.Unknown? && !c.Unknown? {
      DegradesAcross(a, b);
      DegradesAcross(b, c);
      DegradesAcross(Unify(a, b).shape, c);
    }
  }

  // What is known and no array degrades across families, and stays in its family.
  lemma DegradesAcross(a: Shape, b: Shape)
    requires !a.Array? && !b.Array? && !a.Unknown? && !b.Unknown? && !a.Json? && !b.Json?
    ensures Degrades(a, b) <==> Family(a) != Family(b)
    ensures !Degrades(a, b) ==>
      var j := Unify(a, b).shape; Family(j) == Family(a) && !j.Array? && !j.Unknown? && !j.Json?
  {
    if !(a.Document? && b.Document?) {
      UnifyIsFlat(a, b);
    }
  }

  // Beside an array each merge is one of the elements.
  lemma {:induction false} FoldsElements(s: seq<Shape>)
    requires Json !in s && forall x, y :: x in s && y in s ==> !Degrades(x, y)
    ensures Fold(s) == if HasArray(s) then Wrap(Fold(Inners(s))) else Fold(Inners(s))
    ensures !Fold(s).shape.Json?
  {
    if s != [] {
      var (p, last) := (s[..|s| - 1], s[|s| - 1]);
      LastOf(s);
      FoldsElements(p);
      assert Inners(s)[..|s| - 1] == Inners(p);
      if !HasArray(p) {
        NoArrayFolds(p);
      }
      ElementStep(Fold(p), Fold(Inners(p)), HasArray(p), last);
      if !HasArray(p) && !last.Array? {
        NothingDegrades(p, last);
      }
    }
  }

  lemma ElementStep(outer: Joined, inner: Joined, wrapped: bool, last: Shape)
    requires outer == if wrapped then Wrap(inner) else inner
    requires !outer.shape.Json? && !last.Json? && (!wrapped ==> !outer.shape.Array?)
    ensures var (j, i) := (Unify(outer.shape, last), Unify(inner.shape, Inner(last)));
      j == if wrapped || last.Array? then Wrap(i) else i
  {
    if (wrapped || last.Array?) && !outer.shape.Unknown? && !last.Unknown? {
      UnifyOnArray(outer.shape, last);
    }
  }

  // Documents merge key by key; a document without the key adds nothing to it.
  lemma KeyStep(a: Shape, b: Shape, k: string)
    requires (a.Unknown? || a.Document?) && (b.Unknown? || b.Document?)
    ensures var j := Unify(a, b).shape;
      && (j.Unknown? || j.Document?)
      && (j.Document? <==> a.Document? || b.Document?)
      && (HasKey(j, k) <==> HasKey(a, k) || HasKey(b, k))
      && Same(AtKey(j, k), Unify(AtKey(a, k), AtKey(b, k)).shape)
      && MixedKey(j, k) == (MixedKey(a, k) || MixedKey(b, k) || Unify(AtKey(a, k), AtKey(b, k)).conflict)
  {
    if a.Document? && b.Document? {
      var m := MergeFields(a.fields, b.fields);
      UnifyDocuments(a.fields, b.fields);
      SameKeys(Unify(a, b).shape, Document(m), k);
      if k in a.fields && k in b.fields {
        assert m[k] == MergeField(a.fields[k], b.fields[k]);
      }
    }
  }

  lemma SameKeys(s: Shape, t: Shape, k: string)
    requires Same(s, t) && t.Document?
    ensures s.Document? && (HasKey(s, k) <==> HasKey(t, k))
    ensures Same(AtKey(s, k), AtKey(t, k)) && MixedKey(s, k) == MixedKey(t, k)
  {
    StripKeepsConstructor(s);
    StripKeepsConstructor(t);
    SameDocuments(s.fields, t.fields);
    if k in t.fields {
      assert StripField(s.fields[k]) == StripField(t.fields[k]);
    }
  }

  ghost predicate SomeHasKey(s: seq<Shape>, k: string) { exists x :: x in s && HasKey(x, k) }

  ghost predicate SomeMixedKey(s: seq<Shape>, k: string) { exists x :: x in s && MixedKey(x, k) }

  ghost predicate SomeDocument(s: seq<Shape>) { exists x :: x in s && x.Document? }

  lemma LastAt(s: seq<Shape>, k: string)
    requires s != []
    ensures At(s, k) != [] && At(s, k)[..|s| - 1] == At(s[..|s| - 1], k) && At(s, k)[|s| - 1] == AtKey(s[|s| - 1], k)
  {
  }

  lemma {:induction false} FoldsKeys(s: seq<Shape>, k: string)
    requires AllDocuments(s)
    ensures var f := Fold(s).shape;
      && (f.Unknown? || f.Document?)
      && (f.Document? <==> SomeDocument(s))
      && (HasKey(f, k) <==> SomeHasKey(s, k))
      && Same(AtKey(f, k), Fold(At(s, k)).shape)
      && MixedKey(f, k) == (SomeMixedKey(s, k) || Fold(At(s, k)).conflict)
  {
    if s != [] {
      var (p, last) := (s[..|s| - 1], s[|s| - 1]);
      LastOf(s);
      FoldsKeys(p, k);
      LastAt(s, k);
      KeyStep(Fold(p).shape, last, k);
      UnifyRespectsSame(AtKey(Fold(p).shape, k), Fold(At(p, k)).shape, AtKey(last, k));
    }
  }

  // ---- shapes without structure ----

  lemma {:induction false} FlatFolds(s: seq<Shape>, u: Shape)
    requires IsFlat(u) && forall x :: x in s ==> IsFlat(x) && Below(x, u)
    ensures IsFlat(Fold(s).shape) && Below(Fold(s).shape, u)
  {
    if s != [] {
      var (p, last) := (s[..|s| - 1], s[|s| - 1]);
      LastOf(s);
      FlatFolds(p, u);
      FlatStaysFlat(Fold(p).shape, last);
      FlatJoin(Fold(p).shape, last, u);
    }
  }

  lemma FlatJoin(a: Shape, b: Shape, u: Shape)
    requires IsFlat(a) && IsFlat(b) && IsFlat(u) && Below(a, u) && Below(b, u)
    ensures Below(UnifyFlat(a, b).shape, u)
  {
  }

  lemma FlatAntisymmetric(a: Shape, b: Shape)
    requires IsFlat(a) && IsFlat(b) && Below(a, b) && Below(b, a)
    ensures a == b
  {
  }

  lemma FlatFoldsAgree(s: seq<Shape>, t: seq<Shape>)
    requires SameMembers(s, t) && forall x :: x in s ==> IsFlat(x)
    ensures Fold(s).shape == Fold(t).shape
  {
    forall x | x in s ensures Below(x, Fold(s).shape) && Below(x, Fold(t).shape) {
      MembersBelow(s, x);
      MembersBelow(t, x);
    }
    FoldIsFlat(s);
    FoldIsFlat(t);
    FlatFolds(s, Fold(t).shape);
    FlatFolds(t, Fold(s).shape);
    FlatAntisymmetric(Fold(s).shape, Fold(t).shape);
  }

  lemma {:induction false} FoldIsFlat(s: seq<Shape>)
    requires forall x :: x in s ==> IsFlat(x)
    ensures IsFlat(Fold(s).shape)
  {
    if s != [] {
      LastOf(s);
      FoldIsFlat(s[..|s| - 1]);
      FlatStaysFlat(Fold(s[..|s| - 1]).shape, s[|s| - 1]);
    }
  }

  // A document beside a leaf.
  lemma DocumentAndLeaf(s: seq<Shape>, x: Shape, y: Shape)
    requires !HasArray(s) && x in s && y in s && x.Document? && IsFlat(y) && !y.Unknown?
    ensures Fold(s).shape == Json
  {
    MembersBelow(s, x);
    MembersBelow(s, y);
    NoArrayFolds(s);
  }

  // ---- settled shapes merge alike in any order ----

  lemma {:induction false} SettledFoldsAlike(s: seq<Shape>, t: seq<Shape>, n: nat)
    requires SameMembers(s, t) && SettledTo(s, n)
    ensures Trunc(Fold(s).shape, n) == Trunc(Fold(t).shape, n)
    decreases n, 0
  {
    if Json in s {
      JsonStays(s);
      JsonStays(t);
    } else if HasArray(s) {
      if n == 0 {
        ArrayOrJson(s);
        ArrayOrJson(t);
      } else {
        FoldsElements(s);
        FoldsElements(t);
        SameInners(s, t);
        SettledFoldsAlike(Inners(s), Inners(t), n - 1);
      }
    } else if AllDocuments(s) {
      if n == 0 {
        DocumentOrUnknown(s, t);
      } else {
        DocumentsFoldAlike(s, t, n - 1);
      }
    } else {
      MixedFoldsAlike(s, t);
    }
  }

  lemma MixedFoldsAlike(s: seq<Shape>, t: seq<Shape>)
    requires SameMembers(s, t) && !HasArray(s) && !AllDocuments(s)
    ensures Fold(s).shape == Fold(t).shape
  {
    if forall x :: x in s ==> IsFlat(x) {
      FlatFoldsAgree(s, t);
    } else {
      var x :| x in s && !IsFlat(x);
      var y :| y in s && !(y.Unknown? || y.Document?);
      DocumentAndLeaf(s, x, y);
      DocumentAndLeaf(t, x, y);
    }
  }

  // One key of two merges of the same documents.
  lemma KeyFoldsAlike(s: seq<Shape>, t: seq<Shape>, k: string, n: nat)
    requires SameMembers(s, t) && AllDocuments(s)
    requires Trunc(Fold(At(s, k)).shape, n) == Trunc(Fold(At(t, k)).shape, n)
    ensures KeysAlike(Fold(s).shape, Fold(t).shape, k, n)
  {
    FoldsKeys(s, k);
    FoldsKeys(t, k);
    SameAt(s, t, k);
    SameClash(At(s, k), At(t, k));
    SameTruncates(AtKey(Fold(s).shape, k), Fold(At(s, k)).shape, n);
    SameTruncates(AtKey(Fold(t).shape, k), Fold(At(t, k)).shape, n);
  }

  ghost predicate KeysAlike(s: Shape, t: Shape, k: string, n: nat) {
    && (HasKey(s, k) <==> HasKey(t, k))
    && MixedKey(s, k) == MixedKey(t, k)
    && Trunc(AtKey(s, k), n) == Trunc(AtKey(t, k), n)
  }

  lemma DocumentsAlike(s: Shape, t: Shape, n: nat)
    requires s.Document? && t.Document?
    requires forall k: string :: KeysAlike(s, t, k, n)
    ensures Trunc(s, n + 1) == Trunc(t, n + 1)
  {
    forall k: string
      ensures k in s.fields <==> k in t.fields
      ensures k in s.fields ==> s.fields[k].mixed == t.fields[k].mixed
      ensures k in s.fields ==> Trunc(s.fields[k].shape, n) == Trunc(t.fields[k].shape, n)
    {
      assert KeysAlike(s, t, k, n);
    }
    FieldsTruncate(s.fields, t.fields, n + 1);
  }

  lemma {:induction false} DocumentsFoldAlike(s: seq<Shape>, t: seq<Shape>, n: nat)
    requires SameMembers(s, t) && AllDocuments(s) && forall k: string :: SettledTo(At(s, k), n)
    ensures Trunc(Fold(s).shape, n + 1) == Trunc(Fold(t).shape, n + 1)
    decreases n, 1
  {
    DocumentOrUnknown(s, t);
    if Fold(s).shape.Document? {
      forall k: string ensures KeysAlike(Fold(s).shape, Fold(t).shape, k, n) {
        SameAt(s, t, k);
        SettledFoldsAlike(At(s, k), At(t, k), n);
        KeyFoldsAlike(s, t, k, n);
      }
      DocumentsAlike(Fold(s).shape, Fold(t).shape, n);
    }
  }

  lemma DocumentOrUnknown(s: seq<Shape>, t: seq<Shape>)
    requires SameMembers(s, t) && AllDocuments(s)
    ensures Fold(s).shape.Unknown? || Fold(s).shape.Document?
    ensures Fold(t).shape.Unknown? || Fold(t).shape.Document?
    ensures Fold(s).shape.Document? <==> Fold(t).shape.Document?
  {
    FoldsKeys(s, "");
    FoldsKeys(t, "");
  }

  // ---- unsettled shapes do not ----

  // Somewhere within n levels one holds Json where the other holds an array.
  ghost predicate Differ(x: Shape, y: Shape, n: nat)
    decreases n
  {
    && n > 0
    && ((x.Json? && y.Array?)
        || (x.Array? && y.Array? && Differ(x.elem, y.elem, n - 1))
        || (x.Document? && y.Document? && exists k: string :: DifferAt(x, y, k, n)))
  }

  ghost predicate DifferAt(x: Shape, y: Shape, k: string, n: nat)
    decreases n, 0
  {
    n > 0 && HasKey(x, k) && HasKey(y, k) && Differ(AtKey(x, k), AtKey(y, k), n - 1)
  }

  lemma {:induction false} DifferRespectsSame(x: Shape, y: Shape, x': Shape, y': Shape, n: nat)
    requires Same(x, x') && Same(y, y') && Differ(x, y, n)
    ensures Differ(x', y', n)
    decreases n
  {
    StripKeepsConstructor(x);
    StripKeepsConstructor(x');
    StripKeepsConstructor(y);
    StripKeepsConstructor(y');
    if x.Array? && y.Array? {
      DifferRespectsSame(x.elem, y.elem, x'.elem, y'.elem, n - 1);
    } else if x.Document? {
      var k :| DifferAt(x, y, k, n);
      SameKeys(x', x, k);
      SameKeys(y', y, k);
      DifferRespectsSame(AtKey(x, k), AtKey(y, k), AtKey(x', k), AtKey(y', k), n - 1);
      assert DifferAt(x', y', k, n);
    }
  }

  // One member taken out and put first.
  lemma PutFirst<T>(s: seq<T>, x: T) returns (rest: seq<T>)
    requires x in s
    ensures multiset([x] + rest) == multiset(s)
  {
    var i :| 0 <= i < |s| && s[i] == x;
    rest := Dropped(s, i);
    DroppedMultiset(s, i);
  }

  lemma Reordered<T>(s: seq<T>, t: seq<T>)
    requires multiset(s) == multiset(t)
    ensures |s| == |t| && forall x :: x in s <==> x in t
  {
    assert |multiset(s)| == |s| && |multiset(t)| == |t|;
    forall x ensures x in s <==> x in t {
      assert x in s <==> x in multiset(s);
      assert x in t <==> x in multiset(t);
    }
  }

  ghost predicate Paired<T, U>(s: seq<T>, m: seq<U>, x: T, y: U)
    requires |s| == |m|
  {
    exists j :: 0 <= j < |s| && s[j] == x && m[j] == y
  }

  function Dropped<T>(s: seq<T>, j: nat): (rest: seq<T>)
    requires j < |s|
    ensures |rest| == |s| - 1
  {
    s[..j] + s[j + 1..]
  }

  lemma DroppedMultiset<T>(s: seq<T>, j: nat)
    requires j < |s|
    ensures multiset(s) == multiset{s[j]} + multiset(Dropped(s, j))
  {
    assert s == s[..j] + [s[j]] + s[j + 1..];
  }

  lemma PairedRest<T, U>(s: seq<T>, m: seq<U>, j: nat, x: T, y: U)
    requires |s| == |m| && j < |s| && Paired(Dropped(s, j), Dropped(m, j), x, y)
    ensures Paired(s, m, x, y)
  {
    var i :| 0 <= i < |s| - 1 && Dropped(s, j)[i] == x && Dropped(m, j)[i] == y;
    var i' := if i < j then i else i + 1;
    assert s[i'] == x && m[i'] == y;
  }

  lemma SameRest<T>(m: seq<T>, j: nat, u: seq<T>)
    requires j < |m| && u != [] && m[j] == u[0] && multiset(m) == multiset(u)
    ensures multiset(Dropped(m, j)) == multiset(u[1..])
  {
    DroppedMultiset(m, j);
    assert u == [u[0]] + u[1..];
    var (a, b) := (multiset(Dropped(m, j)), multiset(u[1..]));
    assert multiset{u[0]} + a == multiset{u[0]} + b;
    assert a == (multiset{u[0]} + a) - multiset{u[0]};
    assert b == (multiset{u[0]} + b) - multiset{u[0]};
  }

  // As the right halves of a list of pairs are reordered, so can the left ones be.
  lemma {:induction false} Lift<T, U>(s: seq<T>, m: seq<U>, u: seq<U>) returns (t: seq<T>)
    requires |s| == |m| && multiset(u) == multiset(m)
    ensures multiset(t) == multiset(s) && |t| == |u|
    ensures forall i :: 0 <= i < |t| ==> Paired(s, m, t[i], u[i])
    decreases |u|
  {
    Reordered(u, m);
    if u == [] {
      t := [];
    } else {
      assert u[0] in m;
      var j :| 0 <= j < |m| && m[j] == u[0];
      DroppedMultiset(s, j);
      SameRest(m, j, u);
      var tail := Lift(Dropped(s, j), Dropped(m, j), u[1..]);
      t := [s[j]] + tail;
      forall i | 0 <= i < |t| ensures Paired(s, m, t[i], u[i]) {
        if i > 0 {
          PairedRest(s, m, j, tail[i - 1], u[1..][i - 1]);
        }
      }
    }
  }

  lemma {:induction false} StaysArray(s: seq<Shape>)
    requires s != [] && s[0].Array? && Json !in s
    ensures Fold(s).shape.Array?
  {
    if |s| > 1 {
      LastOf(s);
      StaysArray(s[..|s| - 1]);
    } else {
      assert s[..0] == [];
    }
  }

  lemma {:induction false} StaysJson(s: seq<Shape>)
    requires |s| > 1 && Unify(s[0], s[1]).shape.Json?
    ensures Fold(s).shape.Json?
  {
    if |s| > 2 {
      StaysJson(s[..|s| - 1]);
    } else {
      assert s[..1][..0] == [] && Fold(s[..1]).shape == s[0];
    }
  }

  // A degrading pair first, or an array first.
  lemma DegradedOrders(s: seq<Shape>, n: nat) returns (t: seq<Shape>, u: seq<Shape>)
    requires n > 0 && Json !in s && HasArray(s) && exists x, y :: x in s && y in s && Degrades(x, y)
    ensures multiset(t) == multiset(s) == multiset(u) && Differ(Fold(t).shape, Fold(u).shape, n)
  {
    var x, y :| x in s && y in s && Degrades(x, y);
    var z :| z in s && z.Array?;
    var rest := PutFirst(s, x);
    Reordered([x] + rest, s);
    assert y in rest;
    var rest' := PutFirst(rest, y);
    t := [x, y] + rest';
    assert t == [x] + ([y] + rest');
    StaysJson(t);
    var others := PutFirst(s, z);
    u := [z] + others;
    Reordered(u, s);
    StaysArray(u);
  }

  lemma LiftInners(s: seq<Shape>, u: seq<Shape>) returns (t: seq<Shape>)
    requires multiset(u) == multiset(Inners(s))
    ensures multiset(t) == multiset(s) && Inners(t) == u
  {
    t := Lift(s, Inners(s), u);
    forall i | 0 <= i < |t| ensures Inner(t[i]) == u[i] {
      assert Paired(s, Inners(s), t[i], u[i]);
    }
  }

  lemma LiftAt(s: seq<Shape>, k: string, u: seq<Shape>) returns (t: seq<Shape>)
    requires multiset(u) == multiset(At(s, k))
    ensures multiset(t) == multiset(s) && At(t, k) == u
  {
    t := Lift(s, At(s, k), u);
    forall i | 0 <= i < |t| ensures AtKey(t[i], k) == u[i] {
      assert Paired(s, At(s, k), t[i], u[i]);
    }
  }

  lemma ElementsDiffer(s: seq<Shape>, t: seq<Shape>, u: seq<Shape>, n: nat)
    requires Json !in s && HasArray(s) && forall x, y :: x in s && y in s ==> !Degrades(x, y)
    requires multiset(t) == multiset(s) == multiset(u)
    requires Differ(Fold(Inners(t)).shape, Fold(Inners(u)).shape, n)
    ensures Differ(Fold(t).shape, Fold(u).shape, n + 1)
  {
    Reordered(s, t);
    Reordered(s, u);
    FoldsElements(t);
    FoldsElements(u);
  }

  lemma KeysDiffer(t: seq<Shape>, u: seq<Shape>, k: string, n: nat)
    requires AllDocuments(t) && AllDocuments(u)
    requires Differ(Fold(At(t, k)).shape, Fold(At(u, k)).shape, n)
    ensures Differ(Fold(t).shape, Fold(u).shape, n + 1)
  {
    FoldsKeys(t, k);
    FoldsKeys(u, k);
    var (x, y) := (Fold(t).shape, Fold(u).shape);
    DifferRespectsSame(Fold(At(t, k)).shape, Fold(At(u, k)).shape, AtKey(x, k), AtKey(y, k), n);
    assert DifferAt(x, y, k, n + 1);
  }

  lemma {:induction false} UnsettledDiffers(s: seq<Shape>, n: nat) returns (t: seq<Shape>, u: seq<Shape>)
    requires !SettledTo(s, n)
    ensures multiset(t) == multiset(s) == multiset(u)
    ensures Differ(Fold(t).shape, Fold(u).shape, n)
    decreases n
  {
    if HasArray(s) {
      if exists x, y :: x in s && y in s && Degrades(x, y) {
        t, u := DegradedOrders(s, n);
      } else {
        var a, b := UnsettledDiffers(Inners(s), n - 1);
        t := LiftInners(s, a);
        u := LiftInners(s, b);
        ElementsDiffer(s, t, u, n - 1);
      }
    } else {
      var k: string :| !SettledTo(At(s, k), n - 1);
      var a, b := UnsettledDiffers(At(s, k), n - 1);
      t := LiftAt(s, k, a);
      u := LiftAt(s, k, b);
      Reordered(s, t);
      Reordered(s, u);
      KeysDiffer(t, u, k, n - 1);
    }
  }

  lemma {:induction false} DifferTruncates(x: Shape, y: Shape, n: nat)
    requires Differ(x, y, n)
    ensures Trunc(x, n) != Trunc(y, n)
    decreases n
  {
    if x.Array? && y.Array? {
      DifferTruncates(x.elem, y.elem, n - 1);
    } else if x.Document? {
      var k :| DifferAt(x, y, k, n);
      DifferTruncates(AtKey(x, k), AtKey(y, k), n - 1);
      assert Trunc(x, n).fields[k].shape == Trunc(AtKey(x, k), n - 1);
      assert Trunc(y, n).fields[k].shape == Trunc(AtKey(y, k), n - 1);
    }
  }

  ghost predicate OrdersAlike(s: seq<Shape>, n: nat) {
    forall t, u :: multiset(t) == multiset(s) == multiset(u) ==> Trunc(Fold(t).shape, n) == Trunc(Fold(u).shape, n)
  }

  lemma SettledReordered(s: seq<Shape>, t: seq<Shape>, n: nat)
    requires multiset(s) == multiset(t) && SettledTo(s, n)
    ensures Trunc(Fold(s).shape, n) == Trunc(Fold(t).shape, n)
    ensures Fold(s).conflict == Fold(t).conflict
  {
    Reordered(s, t);
    SettledFoldsAlike(s, t, n);
    SameClash(s, t);
  }

  // All orders merge to shapes that look alike down to n levels if and only if
  // the shapes are settled that far.
  lemma OrdersAlikeIff(s: seq<Shape>, n: nat)
    ensures OrdersAlike(s, n) <==> SettledTo(s, n)
  {
    if SettledTo(s, n) {
      forall t, u | multiset(t) == multiset(s) == multiset(u)
        ensures Trunc(Fold(t).shape, n) == Trunc(Fold(u).shape, n)
      {
        SettledReordered(s, t, n);
        SettledReordered(s, u, n);
      }
    } else {
      var t, u := UnsettledDiffers(s, n);
      DifferTruncates(Fold(t).shape, Fold(u).shape, n);
    }
  }

  lemma {:induction false} DeepTruncates(s: Shape, n: nat)
    requires n >= Height(s)
    ensures Trunc(s, n) == Strip(s)
  {
    match s
    case Document(fs) =>
      forall k | k in fs ensures Trunc(fs[k].shape, n - 1) == Strip(fs[k].shape) {
        ChildHeight(fs, k);
        DeepTruncates(fs[k].shape, n - 1);
      }
      assert Trunc(s, n).fields == Strip(s).fields;
    case Array(e) => DeepTruncates(e, n - 1);
    case _ =>
  }

  lemma AlikeAtAllDepths(s: Shape, t: Shape)
    requires forall n: nat :: Trunc(s, n) == Trunc(t, n)
    ensures Same(s, t)
  {
    var n := Height(s) + Height(t);
    DeepTruncates(s, n);
    DeepTruncates(t, n);
    assert Trunc(s, n) == Trunc(t, n);
  }

  // ---- shapes that are settled ----

  lemma {:induction false} ArrayFreeSettles(s: seq<Shape>, n: nat)
    requires forall x :: x in s ==> ArrayFree(x)
    ensures SettledTo(s, n)
    decreases n
  {
    if n > 0 {
      forall k: string ensures SettledTo(At(s, k), n - 1) {
        forall y | y in At(s, k) ensures ArrayFree(y) {
          var i :| 0 <= i < |s| && At(s, k)[i] == y;
          assert ArrayFree(s[i]);
        }
        ArrayFreeSettles(At(s, k), n - 1);
      }
    }
  }

  lemma NoPairDegrades(s: seq<Shape>)
    requires JsonFree(Fold(s).shape)
    ensures Json !in s && forall x, y :: x in s && y in s ==> !Degrades(x, y)
  {
    if Json in s {
      JsonStays(s);
    }
    forall x, y | x in s && y in s ensures !Degrades(x, y) {
      MembersBelow(s, x);
      MembersBelow(s, y);
      if Degrades(x, y) {
        DegradedBound(x, y, Fold(s).shape);
      }
    }
  }

  lemma {:induction false} JsonFreeSettles(s: seq<Shape>, n: nat)
    requires JsonFree(Fold(s).shape)
    ensures SettledTo(s, n)
    decreases n
  {
    NoPairDegrades(s);
    if n > 0 {
      if HasArray(s) {
        FoldsElements(s);
        JsonFreeSettles(Inners(s), n - 1);
      } else if AllDocuments(s) {
        forall k: string ensures SettledTo(At(s, k), n - 1) {
          FoldsKeys(s, k);
          SameJsonFree(AtKey(Fold(s).shape, k), Fold(At(s, k)).shape);
          JsonFreeSettles(At(s, k), n - 1);
        }
      }
    }
  }
}
