// Arrow types and fields, and the values a column's rows hold.
module Arrow {
  import opened Wrappers
  import B = BsonModel

  datatype Field = Field(name: string, ty: DataType, nullable: bool, metadata: map<string, string>)

  // `OtherType` stands for every Arrow type the gateway has no decoder for.
  datatype DataType =
    | BooleanType
    | Int32Type
    | Int64Type
    | Float64Type
    | Utf8Type
    | LargeUtf8Type
    | BinaryType
    | DecimalType(precision: nat, scale: int)
    | TimestampMsType(tz: Option<string>)
    | StructType(children: seq<Field>)
    | ListType(item: Field)
    | OtherType(name: string)

  type Schema = seq<Field>

  // One value as SQL sees it. Instants are counted in nanoseconds, so that a
  // literal of any unit compares exactly with a millisecond column.
  datatype Value =
    | VNull
    | VBool(b: bool)
    | VInt(i: int)
    | VFloat(r: real)
    | VText(s: string)
    | VBytes(bytes: seq<B.byte>)
    | VTime(nanos: int)
    | VDecimal(unscaled: int, scale: int)
    | VStruct(fields: seq<(string, Value)>)
    | VList(items: seq<Value>)

  const NANOS_PER_MS: int := 1_000_000

  // ---- metadata the inferred schema carries ----

  const META_BSON := "auger.bson"
  const META_PATH := "auger.path"
  const META_FREQ := "auger.freq"
  const META_MIXED := "auger.mixed"

  datatype BsonTag =
    | TagBool | TagInt32 | TagInt64 | TagDouble | TagDecimal | TagString | TagObjectId
    | TagDateTime | TagTimestamp | TagBinary | TagDocument | TagArray | TagJson | TagUnknown

  function TagText(t: BsonTag): string {
    match t
    case TagBool => "bool"
    case TagInt32 => "int32"
    case TagInt64 => "int64"
    case TagDouble => "double"
    case TagDecimal => "decimal"
    case TagString => "string"
    case TagObjectId => "objectId"
    case TagDateTime => "date"
    case TagTimestamp => "timestamp"
    case TagBinary => "binary"
    case TagDocument => "document"
    case TagArray => "array"
    case TagJson => "json"
    case TagUnknown => "unknown"
  }

  function ParseTag(s: string): BsonTag {
    if s == "bool" then TagBool
    else if s == "int32" then TagInt32
    else if s == "int64" then TagInt64
    else if s == "double" then TagDouble
    else if s == "decimal" then TagDecimal
    else if s == "string" then TagString
    else if s == "objectId" then TagObjectId
    else if s == "date" then TagDateTime
    else if s == "timestamp" then TagTimestamp
    else if s == "binary" then TagBinary
    else if s == "document" then TagDocument
    else if s == "array" then TagArray
    else if s == "json" then TagJson
    else TagUnknown
  }

  lemma TagRoundTrip(t: BsonTag)
    ensures ParseTag(TagText(t)) == t
  {
    // The names differ in their first letter, or else in their length.
    match t
    case TagBool => case TagInt32 => case TagInt64 => case TagDouble => case TagDecimal =>
    case TagString => case TagObjectId => case TagDateTime => case TagTimestamp =>
    case TagBinary => case TagDocument => case TagArray => case TagJson => case TagUnknown =>
  }

  function TagOf(f: Field): BsonTag {
    if META_BSON in f.metadata then ParseTag(f.metadata[META_BSON]) else TagUnknown
  }

  predicate IsMixed(f: Field) {
    META_MIXED in f.metadata && f.metadata[META_MIXED] == "true"
  }

  function PathOf(f: Field): string {
    if META_PATH in f.metadata then f.metadata[META_PATH] else f.name
  }

  // The first field of that name, as Arrow's lookups by name find it.
  function FindField(fields: seq<Field>, name: string): (r: Option<Field>)
    ensures r.Some? ==> r.value in fields && r.value.name == name
    ensures r.None? ==> forall f :: f in fields ==> f.name != name
  {
    if fields == [] then None
    else if fields[0].name == name then Some(fields[0])
    else FindField(fields[1..], name)
  }

  // ---- dotted paths ----

  function Split(path: string): (parts: seq<string>)
    ensures |parts| > 0
  {
    if path == "" then [""]
    else
      var rest := Split(path[1..]);
      if path[0] == '.' then [""] + rest
      else [[path[0]] + rest[0]] + rest[1..]
  }

  predicate DotFree(s: string) { '.' !in s }

  lemma {:induction false} SplitDotFree(s: string)
    requires DotFree(s)
    ensures Split(s) == [s]
  {
    if s != "" {
      SplitDotFree(s[1..]);
      assert s == [s[0]] + s[1..];
    }
  }

  lemma {:induction false} SplitJoined(p: string, q: string)
    ensures Split(p + "." + q) == Split(p) + Split(q)
  {
    if p == "" {
      assert p + "." + q == "." + q;
      assert ("." + q)[1..] == q;
    } else {
      var s := p + "." + q;
      assert s[1..] == p[1..] + "." + q;
      SplitJoined(p[1..], q);
    }
  }

  // The value a dotted path leads to, or nothing.
  function Walk(d: B.Doc, parts: seq<string>): Option<B.Bson>
    requires |parts| > 0
    decreases |parts|
  {
    var v := B.Get(d, parts[0]);
    if |parts| == 1 || v.None? then v
    else if v.value.Document? then Walk(v.value.fields, parts[1..])
    else None
  }

  function LookupPath(d: B.Doc, path: string): Option<B.Bson> {
    Walk(d, Split(path))
  }

  // The same walk, advancing a cursor through the document.
  method Lookup(d: B.Doc, path: string) returns (r: Option<B.Bson>)
    ensures r == LookupPath(d, path)
  {
    var parts := Split(path);
    if parts[0] !in d {
      return None;
    }
    var current := d[parts[0]];
    for i := 1 to |parts|
      invariant LookupPath(d, path) ==
        if i == |parts| then Some(current)
        else if current.Document? then Walk(current.fields, parts[i..])
        else None
    {
      if !current.Document? || parts[i] !in current.fields {
        return None;
      }
      current := current.fields[parts[i]];
    }
    r := Some(current);
  }

  lemma {:induction false} WalkOn(d: B.Doc, parts: seq<string>, more: seq<string>)
    requires |parts| > 0 && |more| > 0
    ensures Walk(d, parts + more) ==
      match Walk(d, parts)
      case Some(v) => if v.Document? then Walk(v.fields, more) else None
      case None => None
    decreases |parts|
  {
    var v := B.Get(d, parts[0]);
    if |parts| == 1 {
      assert (parts + more)[1..] == more;
    } else if v.Some? && v.value.Document? {
      assert (parts + more)[1..] == parts[1..] + more;
      WalkOn(v.value.fields, parts[1..], more);
    }
  }

  // A document that holds a value at the end of a path.
  function Holding(parts: seq<string>, x: B.Bson): B.Doc
    requires |parts| > 0
  {
    if |parts| == 1 then map[parts[0] := x] else map[parts[0] := B.Document(Holding(parts[1..], x))]
  }

  lemma {:induction false} HoldingHolds(parts: seq<string>, x: B.Bson)
    requires |parts| > 0
    ensures Walk(Holding(parts, x), parts) == Some(x)
  {
    if |parts| > 1 {
      HoldingHolds(parts[1..], x);
    }
  }
}
