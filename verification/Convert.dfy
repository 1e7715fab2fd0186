// Decoding one BSON value as one Arrow value: the meaning of a column's row.
module Convert {
  import opened Wrappers
  import opened B = BsonModel
  import opened Arrow
  import Text
  import DecimalText
  import Base64

  // Renderings done by libraries outside this model.
  datatype Rendering = Rendering(
    double: real -> string,
    dateTime: int -> string,
    extendedJson: Bson -> string,
    parseDouble: string -> Option<real>)

  // ---- scalar coercions ----

  // `f64 as i64` saturates.
  function SaturateI64(v: int): int {
    if v < I64_MIN then I64_MIN else if v > I64_MAX then I64_MAX else v
  }

  function AsI64(v: Bson): Option<int> {
    match v
    case Int32(i) => Some(i)
    case Int64(l) => Some(l)
    case Double(d) => if d == d.Floor as real then Some(SaturateI64(d.Floor)) else None
    case Boolean(b) => Some(if b then 1 else 0)
    case _ => None
  }

  function AsF64(v: Bson, r: Rendering): Option<real> {
    match v
    case Double(d) => Some(d)
    case Int32(i) => Some(i as real)
    case Int64(l) => Some(l as real)
    case Decimal128(text) => r.parseDouble(text)
    case _ => None
  }

  function AsMillis(v: Bson): Option<int> {
    match v
    case DateTime(ms) => Some(ms)
    case Timestamp(time, _) => if FitsI64(time * 1000) then Some(time * 1000) else None
    case Int64(l) => Some(l)
    case _ => None
  }

  function AsDecimal(v: Bson, scale: int, r: Rendering): Option<int> {
    match v
    case Decimal128(text) => DecimalText.ParseDecimal(text, scale)
    case Int32(i) => DecimalText.ScaleInt(i, scale)
    case Int64(l) => DecimalText.ScaleInt(l, scale)
    case Double(d) => DecimalText.ParseDecimal(r.double(d), scale)
    case String(s) => DecimalText.ParseDecimal(s, scale)
    case _ => None
  }

  // The text of any non-null value; nothing is lost for want of a rendering.
  function RenderText(v: Bson, r: Rendering): string {
    match v
    case String(s) => s
    case Symbol(s) => s
    case ObjectId(oid) => oid
    case Boolean(b) => if b then "true" else "false"
    case Int32(i) => Text.IntText(i)
    case Int64(l) => Text.IntText(l)
    case Double(d) => r.double(d)
    case Decimal128(text) => text
    case DateTime(ms) => r.dateTime(ms)
    case Binary(_, bytes) => Base64.Encode(bytes)
    case _ => r.extendedJson(v)
  }

  // ---- one row ----

  function OrNull<T>(o: Option<T>, wrap: T -> Value): Value {
    match o
    case None => VNull
    case Some(v) => wrap(v)
  }

  // A lone value in a list column is a list of one.
  function ListItems(v: Bson): seq<Bson> {
    if v.Array? then v.items else [v]
  }

  // A cell of a column without structure.
  function DecodeScalar(ty: DataType, v: Option<Bson>, r: Rendering): (cell: Value)
    ensures !cell.VStruct? && !cell.VList?
  {
    if NullLike(v) then VNull
    else
      var b := v.value;
      match ty
      case BooleanType => if b.Boolean? then VBool(b.b) else VNull
      case Int32Type =>
        OrNull(AsI64(b), i => if FitsI32(i) then VInt(i) else VNull)
      case Int64Type => OrNull(AsI64(b), i => VInt(i))
      case Float64Type => OrNull(AsF64(b, r), d => VFloat(d))
      case Utf8Type => VText(RenderText(b, r))
      case BinaryType => if b.Binary? then VBytes(b.bytes) else VNull
      case TimestampMsType(_) => OrNull(AsMillis(b), ms => VTime(ms * NANOS_PER_MS))
      case DecimalType(_, scale) => OrNull(AsDecimal(b, scale, r), n => VDecimal(n, scale))
      case _ => VNull
  }

  function Decode(ty: DataType, v: Option<Bson>, r: Rendering): Value
    decreases ty, 0
  {
    match ty
    case StructType(children) =>
      if v.Some? && v.value.Document? then VStruct(DecodeChildren(children, v.value.fields, r)) else VNull
    case ListType(item) =>
      if NullLike(v) then VNull else VList(DecodeItems(item, ListItems(v.value), r))
    case _ => DecodeScalar(ty, v, r)
  }

  function DecodeItems(item: Field, items: seq<Bson>, r: Rendering): seq<Value>
    decreases item, 1
  {
    seq(|items|, i requires 0 <= i < |items| => Decode(item.ty, Some(items[i]), r))
  }

  function DecodeChildren(children: seq<Field>, d: Doc, r: Rendering): (fields: seq<(string, Value)>)
    ensures |fields| == |children|
    ensures forall i :: 0 <= i < |children| ==>
      fields[i] == (children[i].name, Decode(children[i].ty, Get(d, children[i].name), r))
    decreases children
  {
    if children == [] then []
    else [(children[0].name, Decode(children[0].ty, Get(d, children[0].name), r))]
         + DecodeChildren(children[1..], d, r)
  }

  // ---- one document as a row of a schema ----

  type Row = map<string, Value>

  function DecodeRow(schema: Schema, d: Doc, r: Rendering): Row {
    map f | f in schema :: f.name := Decode(RowField(schema, f.name).ty,
                                            LookupPath(d, PathOf(RowField(schema, f.name))), r)
  }

  // Columns are found by name; the first of that name wins.
  function RowField(schema: Schema, name: string): Field
    requires exists f :: f in schema && f.name == name
  {
    FindField(schema, name).value
  }
}
