// Composite values as JSON text, and a parser written from RFC 8259 that reads
// the text back.
module JsonText {
  import opened Wrappers
  import opened Arrow
  import opened Columnar
  import Text
  import B = BsonModel

  // Renderings done by libraries outside this model: an instant is quoted text,
  // or a bare number where the calendar does not reach.
  datatype Rendering = Rendering(
    double: real -> string,
    decimal: (int, int) -> string,
    timestamp: int -> Option<string>)

  // ---- strings ----

  function HexDigit(d: int): char
    requires 0 <= d < 16
  {
    if d < 10 then ('0' as int + d) as char else ('a' as int + d - 10) as char
  }

  // A character of a JSON string: the two that end or escape it, the named and
  // the numbered control characters, or itself.
  function QuoteChar(c: char): string {
    if c == '"' then "\\\""
    else if c == '\\' then "\\\\"
    else if c == '\n' then "\\n"
    else if c == '\r' then "\\r"
    else if c == '\t' then "\\t"
    else if c as int < 0x20 then ['\\', 'u', '0', '0', HexDigit(c as int / 16), HexDigit(c as int % 16)]
    else [c]
  }

  function QuoteBody(s: string): string {
    if s == "" then "" else QuoteChar(s[0]) + QuoteBody(s[1..])
  }

  function QuoteJson(s: string): string { "\"" + QuoteBody(s) + "\"" }

  method Quote(s: string) returns (out: string)
    ensures out == QuoteJson(s)
  {
    out := "\"";
    for i := 0 to |s|
      invariant out + QuoteBody(s[i..]) == "\"" + QuoteBody(s)
    {
      assert s[i..][1..] == s[i + 1..];
      ghost var before := out;
      out := out + QuoteChar(s[i]);
      assert out + QuoteBody(s[i + 1..]) == before + QuoteBody(s[i..]);
    }
    assert s[|s|..] == "";
    out := out + "\"";
  }

  function HexText(bytes: seq<B.byte>): string {
    if bytes == [] then ""
    else [HexDigit(bytes[0] / 16), HexDigit(bytes[0] % 16)] + HexText(bytes[1..])
  }

  method Hex(bytes: seq<B.byte>) returns (out: string)
    ensures out == HexText(bytes)
  {
    out := "";
    for i := 0 to |bytes|
      invariant out + HexText(bytes[i..]) == HexText(bytes)
    {
      assert bytes[i..][1..] == bytes[i + 1..];
      ghost var before := out;
      out := out + [HexDigit(bytes[i] / 16), HexDigit(bytes[i] % 16)];
      assert out + HexText(bytes[i + 1..]) == before + HexText(bytes[i..]);
    }
  }

  // ---- printing a column's row ----

  function Join(parts: seq<string>): string {
    if parts == [] then "" else if |parts| == 1 then parts[0] else parts[0] + "," + Join(parts[1..])
  }

  function ScalarJson(v: Value, r: Rendering): string {
    match v
    case VBool(b) => if b then "true" else "false"
    case VInt(i) => Text.IntText(i)
    case VFloat(d) => r.double(d)
    case VText(s) => QuoteJson(s)
    case VTime(n) =>
      (match r.timestamp(n / NANOS_PER_MS)
       case Some(t) => QuoteJson(t)
       case None => Text.IntText(n / NANOS_PER_MS))
    case VDecimal(u, scale) => r.decimal(u, scale)
    case VBytes(bytes) => QuoteJson(HexText(bytes))
    case _ => "null"
  }

  function ValueToJson(c: Column, row: nat, r: Rendering): string
    requires WellFormed(c) && row < Length(c)
    decreases c
  {
    match c
    case Cells(_, cells) => ScalarJson(cells[row], r)
    case Structs(fields, columns, validity) =>
      if !validity[row] then "null"
      else "{" + Join(seq(|fields|, j requires 0 <= j < |fields| =>
        QuoteJson(fields[j].name) + ":" + ValueToJson(columns[j], row, r))) + "}"
    case Lists(_, offsets, child, validity) =>
      if !validity[row] then "null"
      else
        assert InRange(offsets, row, Length(child));
        "[" + Join(seq(offsets[row + 1] - offsets[row], k requires 0 <= k < offsets[row + 1] - offsets[row] =>
          ValueToJson(child, offsets[row] + k, r))) + "]"
  }

  // The same text, as a function of the value the row reads.
  function PrintValue(v: Value, r: Rendering): string
    decreases v, 1
  {
    match v
    case VStruct(fields) => "{" + PrintMembers(fields, r) + "}"
    case VList(items) => "[" + PrintItems(items, r) + "]"
    case _ => ScalarJson(v, r)
  }

  function PrintItems(items: seq<Value>, r: Rendering): string
    decreases items, 0
  {
    if items == [] then ""
    else if |items| == 1 then PrintValue(items[0], r)
    else PrintValue(items[0], r) + "," + PrintItems(items[1..], r)
  }

  function PrintMembers(fields: seq<(string, Value)>, r: Rendering): string
    decreases fields, 0
  {
    if fields == [] then ""
    else
      var first := PrintMember(fields[0], r);
      if |fields| == 1 then first else first + "," + PrintMembers(fields[1..], r)
  }

  function PrintMember(f: (string, Value), r: Rendering): string
    decreases f, 2
  {
    QuoteJson(f.0) + ":" + PrintValue(f.1, r)
  }

  lemma {:induction false} JoinItems(parts: seq<string>, items: seq<Value>, r: Rendering)
    requires |parts| == |items| && forall i :: 0 <= i < |items| ==> parts[i] == PrintValue(items[i], r)
    ensures Join(parts) == PrintItems(items, r)
  {
    if |parts| > 1 {
      JoinItems(parts[1..], items[1..], r);
    }
  }

  lemma {:induction false} JoinMembers(parts: seq<string>, fields: seq<(string, Value)>, r: Rendering)
    requires |parts| == |fields|
    requires forall i :: 0 <= i < |fields| ==> parts[i] == QuoteJson(fields[i].0) + ":" + PrintValue(fields[i].1, r)
    ensures Join(parts) == PrintMembers(fields, r)
  {
    if |parts| > 1 {
      JoinMembers(parts[1..], fields[1..], r);
    }
  }

  lemma {:induction false} ColumnPrintsValue(c: Column, row: nat, r: Rendering)
    requires WellFormed(c) && row < Length(c)
    ensures ValueToJson(c, row, r) == PrintValue(ReadAt(c, row), r)
    decreases c
  {
    match c
    case Cells(_, cells) => assert cells[row] in cells;
    case Structs(fields, columns, validity) =>
      if validity[row] {
        forall j | 0 <= j < |fields| ensures ValueToJson(columns[j], row, r) == PrintValue(ReadAt(columns[j], row), r) {
          ColumnPrintsValue(columns[j], row, r);
        }
        StructPrints(fields, columns, validity, row, r);
      }
    case Lists(item, offsets, child, validity) =>
      if validity[row] {
        assert InRange(offsets, row, Length(child));
        forall k | offsets[row] <= k < offsets[row + 1]
          ensures ValueToJson(child, k, r) == PrintValue(ReadAt(child, k), r)
        {
          ColumnPrintsValue(child, k, r);
        }
        ListPrints(item, offsets, child, validity, row, r);
      }
  }

  lemma StructPrints(fields: seq<Field>, columns: seq<Column>, validity: seq<bool>, row: nat, r: Rendering)
    requires WellFormed(Structs(fields, columns, validity)) && row < |validity| && validity[row]
    requires forall j :: 0 <= j < |fields| ==> ValueToJson(columns[j], row, r) == PrintValue(ReadAt(columns[j], row), r)
    ensures ValueToJson(Structs(fields, columns, validity), row, r)
         == PrintValue(ReadAt(Structs(fields, columns, validity), row), r)
  {
    var v := ReadAt(Structs(fields, columns, validity), row);
    JoinMembers(seq(|fields|, j requires 0 <= j < |fields| =>
        QuoteJson(fields[j].name) + ":" + ValueToJson(columns[j], row, r)), v.fields, r);
  }

  lemma ListPrints(item: Field, offsets: seq<int>, child: Column, validity: seq<bool>, row: nat, r: Rendering)
    requires WellFormed(Lists(item, offsets, child, validity)) && row < |validity| && validity[row]
    requires InRange(offsets, row, Length(child))
    requires forall k :: offsets[row] <= k < offsets[row + 1] ==>
      ValueToJson(child, k, r) == PrintValue(ReadAt(child, k), r)
    ensures ValueToJson(Lists(item, offsets, child, validity), row, r)
         == PrintValue(ReadAt(Lists(item, offsets, child, validity), row), r)
  {
    var lo, n := offsets[row], offsets[row + 1] - offsets[row];
    var items := ReadAt(Lists(item, offsets, child, validity), row).items;
    var parts := seq(n, k requires 0 <= k < n => ValueToJson(child, lo + k, r));
    forall k | 0 <= k < n ensures parts[k] == PrintValue(items[k], r) {
      assert items[k] == ReadAt(child, lo + k);
    }
    JoinItems(parts, items, r);
    assert ValueToJson(Lists(item, offsets, child, validity), row, r) == "[" + Join(parts) + "]";
  }
}
