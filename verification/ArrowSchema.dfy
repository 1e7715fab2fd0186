// Lowering the sampled shapes to an Arrow schema of bounded depth.
module ArrowSchema {
  import B = BsonModel
  import opened Wrappers
  import opened Shapes
  import opened Sampling
  import opened Arrow

  const DECIMAL_PRECISION: nat := 38
  const DECIMAL_SCALE: int := 10

  // `freq` renders the fraction of documents that hold a field.
  type Freq = (nat, nat) -> string

  // ---- the order of a BTreeMap's keys ----

  ghost predicate IsLeast(m: string, s: set<string>) {
    m in s && forall x :: x in s && x != m ==> B.TextLess(m, x)
  }

  lemma {:induction false} FindLeast(s: set<string>) returns (m: string)
    requires s != {}
    ensures IsLeast(m, s)
  {
    var y :| y in s;
    if s == {y} {
      return y;
    }
    m := FindLeast(s - {y});
    B.TextLessTotal(m, y);
    if B.TextLess(y, m) {
      forall x | x in s && x != y && x != m ensures B.TextLess(y, x) {
        B.TextLessTransitive(y, m, x);
      }
      m := y;
    }
  }

  ghost function Least(s: set<string>): (m: string)
    requires s != {}
    ensures IsLeast(m, s)
  {
    assert exists m :: IsLeast(m, s) by {
      var m := FindLeast(s);
    }
    var m :| IsLeast(m, s);
    m
  }

  ghost function SortedKeys(s: set<string>): (keys: seq<string>)
    ensures forall k :: k in keys <==> k in s
    ensures forall i, j :: 0 <= i < j < |keys| ==> keys[i] != keys[j] && B.TextLess(keys[i], keys[j])
  {
    if s == {} then []
    else
      var m := Least(s);
      var rest := SortedKeys(s - {m});
      assert m !in rest;
      [m] + rest
  }

  // ---- fields and types ----

  ghost function BuildField(name: string, path: string, fs: FieldShape, parentCount: nat,
                            depth: nat, maxDepth: nat, freq: Freq): Field
    decreases fs.shape, 3
  {
    var (ty, tag) := ArrowType(fs.shape, path, depth, maxDepth, freq);
    var meta := map[META_BSON := TagText(tag), META_PATH := path, META_FREQ := freq(fs.present, parentCount)];
    Field(name, ty, path != "_id", if fs.mixed then meta[META_MIXED := "true"] else meta)
  }

  ghost function MaxPresent(children: map<string, FieldShape>): nat {
    MaxOf(set k | k in children :: children[k].present)
  }

  ghost function BuildChildren(keys: seq<string>, children: map<string, FieldShape>, path: string, total: nat,
                               depth: nat, maxDepth: nat, freq: Freq): (fields: seq<Field>)
    requires forall k :: k in keys ==> k in children
    ensures |fields| == |keys| && forall i :: 0 <= i < |keys| ==>
      fields[i] == BuildField(keys[i], path + "." + keys[i], children[keys[i]], total, depth, maxDepth, freq)
    decreases Document(children), 0, |keys|
  {
    if keys == [] then []
    else
      [BuildField(keys[0], path + "." + keys[0], children[keys[0]], total, depth, maxDepth, freq)]
      + BuildChildren(keys[1..], children, path, total, depth, maxDepth, freq)
  }

  ghost function BuildDocument(children: map<string, FieldShape>, path: string, depth: nat, maxDepth: nat,
                               freq: Freq): seq<Field>
    decreases Document(children), 1
  {
    BuildChildren(SortedKeys(children.Keys), children, path, MaxPresent(children), depth, maxDepth, freq)
  }

  // Unknown fields, fields of several types and what lies too deep are text.
  function LeafType(shape: Shape): (DataType, BsonTag)
    requires !shape.Document? && !shape.Array?
  {
    match shape
    case Unknown => (Utf8Type, TagUnknown)
    case Bool => (BooleanType, TagBool)
    case Int32 => (Int32Type, TagInt32)
    case Int64 => (Int64Type, TagInt64)
    case Double => (Float64Type, TagDouble)
    case Decimal => (DecimalType(DECIMAL_PRECISION, DECIMAL_SCALE), TagDecimal)
    case Utf8 => (Utf8Type, TagString)
    case ObjectId => (Utf8Type, TagObjectId)
    case DateTime => (TimestampMsType(Some("UTC")), TagDateTime)
    case BsonTimestamp => (TimestampMsType(Some("UTC")), TagTimestamp)
    case Binary => (BinaryType, TagBinary)
    case Json => (Utf8Type, TagJson)
  }

  ghost function ArrowType(shape: Shape, path: string, depth: nat, maxDepth: nat, freq: Freq): (DataType, BsonTag)
    decreases shape, 2
  {
    match shape
    case Document(children) =>
      if depth < maxDepth && children != map[] then
        (StructType(BuildDocument(children, path, depth + 1, maxDepth, freq)), TagDocument)
      else (Utf8Type, TagJson)
    case Array(inner) =>
      if depth < maxDepth then
        var (ty, tag) := ArrowType(inner, path, depth + 1, maxDepth, freq);
        (ListType(Field("item", ty, true, map[META_BSON := TagText(tag)])), TagArray)
      else (Utf8Type, TagJson)
    case _ => LeafType(shape)
  }

  // The schema's columns: `_id` first, the others in key order.
  ghost function ColumnNames(root: Root): (names: seq<string>)
    ensures forall k :: k in names <==> k in root
    ensures forall i, j :: 0 <= i < j < |names| ==> names[i] != names[j]
  {
    var others := SortedKeys(root.Keys - {"_id"});
    if "_id" in root then ["_id"] + others else others
  }

  ghost function Finish(root: Root, docsSeen: nat, maxDepth: nat, freq: Freq): (schema: Schema)
    ensures |schema| == |ColumnNames(root)|
    ensures forall i :: 0 <= i < |schema| ==>
      var name := ColumnNames(root)[i];
      schema[i] == BuildField(name, name, root[name], docsSeen, 0, maxDepth, freq)
  {
    var names := ColumnNames(root);
    seq(|names|, i requires 0 <= i < |names| =>
      BuildField(names[i], names[i], root[names[i]], docsSeen, 0, maxDepth, freq))
  }

  ghost function Inferred(docs: seq<B.Doc>, maxDepth: nat, freq: Freq): Schema {
    Finish(ObserveAll(docs), |docs|, maxDepth, freq)
  }

  lemma ColumnOfKey(docs: seq<B.Doc>, k: string, maxDepth: nat, freq: Freq)
    requires k in ObserveAll(docs)
    ensures BuildField(k, k, ObserveAll(docs)[k], |docs|, 0, maxDepth, freq) in Inferred(docs, maxDepth, freq)
  {
    var names := ColumnNames(ObserveAll(docs));
    var n :| 0 <= n < |names| && names[n] == k;
    assert Inferred(docs, maxDepth, freq)[n] in Inferred(docs, maxDepth, freq);
  }

  // ---- the children of a built struct are the keys of its shape ----

  ghost predicate HasName(built: seq<Field>, k: string) { exists c :: c in built && c.name == k }

  lemma KeyIsBuilt(fs: map<string, FieldShape>, path: string, depth: nat, maxDepth: nat, freq: Freq, k: string)
    requires k in fs
    ensures HasName(BuildDocument(fs, path, depth, maxDepth, freq), k)
  {
    var keys := SortedKeys(fs.Keys);
    var i :| 0 <= i < |keys| && keys[i] == k;
    var c := BuildDocument(fs, path, depth, maxDepth, freq)[i];
    assert c.name == k;
  }

  lemma BuiltIsKey(fs: map<string, FieldShape>, path: string, depth: nat, maxDepth: nat, freq: Freq, c: Field)
    requires c in BuildDocument(fs, path, depth, maxDepth, freq)
    ensures c.name in fs
    ensures c == BuildField(c.name, path + "." + c.name, fs[c.name], MaxPresent(fs), depth, maxDepth, freq)
  {
    var built := BuildDocument(fs, path, depth, maxDepth, freq);
    var i :| 0 <= i < |built| && built[i] == c;
    assert c.name == SortedKeys(fs.Keys)[i];
  }

  // ---- bounded depth ----

  ghost predicate TypeNestsAtMost(ty: DataType, n: nat) {
    match ty
    case StructType(children) => n > 0 && forall c :: c in children ==> TypeNestsAtMost(c.ty, n - 1)
    case ListType(item) => n > 0 && TypeNestsAtMost(item.ty, n - 1)
    case _ => true
  }

  lemma {:induction false} LoweredTypeIsShallow(shape: Shape, path: string, depth: nat, maxDepth: nat, freq: Freq)
    requires depth <= maxDepth
    ensures TypeNestsAtMost(ArrowType(shape, path, depth, maxDepth, freq).0, maxDepth - depth)
    decreases shape, 2
  {
    if shape.Document? && depth < maxDepth && shape.fields != map[] {
      DocumentIsShallow(shape.fields, path, depth, maxDepth, freq);
    } else if shape.Array? && depth < maxDepth {
      LoweredTypeIsShallow(shape.elem, path, depth + 1, maxDepth, freq);
    } else {
      FlatLowers(shape, path, depth, maxDepth, freq);
    }
  }

  lemma {:induction false} DocumentIsShallow(children: map<string, FieldShape>, path: string, depth: nat,
                                             maxDepth: nat, freq: Freq)
    requires depth < maxDepth && children != map[]
    ensures TypeNestsAtMost(ArrowType(Document(children), path, depth, maxDepth, freq).0, maxDepth - depth)
    decreases Document(children), 1
  {
    DocumentLowers(children, path, depth, maxDepth, freq);
    ChildrenAreShallow(SortedKeys(children.Keys), children, path, MaxPresent(children), depth + 1, maxDepth, freq);
    assert forall c :: c in BuildDocument(children, path, depth + 1, maxDepth, freq) ==>
      TypeNestsAtMost(c.ty, maxDepth - (depth + 1));
  }

  lemma DocumentLowers(children: map<string, FieldShape>, path: string, depth: nat, maxDepth: nat, freq: Freq)
    requires depth < maxDepth && children != map[]
    ensures ArrowType(Document(children), path, depth, maxDepth, freq)
         == (StructType(BuildDocument(children, path, depth + 1, maxDepth, freq)), TagDocument)
  {
  }

  lemma FlatLowers(shape: Shape, path: string, depth: nat, maxDepth: nat, freq: Freq)
    requires depth >= maxDepth || !shape.Document? || shape.fields == map[]
    requires depth >= maxDepth || !shape.Array?
    ensures var ty := ArrowType(shape, path, depth, maxDepth, freq).0; !ty.StructType? && !ty.ListType?
  {
  }

  lemma {:induction false} ChildrenAreShallow(keys: seq<string>, children: map<string, FieldShape>, path: string,
                                              total: nat, depth: nat, maxDepth: nat, freq: Freq)
    requires depth <= maxDepth && forall k :: k in keys ==> k in children
    ensures forall c :: c in BuildChildren(keys, children, path, total, depth, maxDepth, freq) ==>
      TypeNestsAtMost(c.ty, maxDepth - depth)
    decreases Document(children), 0, |keys|
  {
    if keys != [] {
      LoweredTypeIsShallow(children[keys[0]].shape, path + "." + keys[0], depth, maxDepth, freq);
      ChildrenAreShallow(keys[1..], children, path, total, depth, maxDepth, freq);
      var first := BuildField(keys[0], path + "." + keys[0], children[keys[0]], total, depth, maxDepth, freq);
      assert BuildChildren(keys, children, path, total, depth, maxDepth, freq)
          == [first] + BuildChildren(keys[1..], children, path, total, depth, maxDepth, freq);
    }
  }
}
