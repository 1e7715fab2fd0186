// The columnar form of a batch, built column by column, and what its rows read.
module Columnar {
  import opened Wrappers
  import opened B = BsonModel
  import opened Arrow
  import opened Convert

  // Struct rows carry their own validity; list rows are slices of one flat child.
  datatype Column =
    | Cells(ty: DataType, cells: seq<Value>)
    | Structs(fields: seq<Field>, columns: seq<Column>, validity: seq<bool>)
    | Lists(item: Field, offsets: seq<int>, child: Column, validity: seq<bool>)

  function Length(c: Column): nat {
    match c
    case Cells(_, cells) => |cells|
    case Structs(_, _, validity) => |validity|
    case Lists(_, _, _, validity) => |validity|
  }

  predicate WellFormed(c: Column) {
    match c
    case Cells(_, cells) => forall v :: v in cells ==> !v.VStruct? && !v.VList?
    case Structs(fields, columns, validity) =>
      && |fields| == |columns|
      && forall j :: 0 <= j < |columns| ==> WellFormed(columns[j]) && Length(columns[j]) == |validity|
    case Lists(_, offsets, child, validity) =>
      && WellFormed(child)
      && |offsets| == |validity| + 1
      && (forall i :: 0 <= i < |validity| ==> InRange(offsets, i, Length(child)))
  }

  // Row i's slice of the child lies inside it.
  predicate InRange(offsets: seq<int>, i: nat, len: nat)
    requires i + 1 < |offsets|
  {
    0 <= offsets[i] <= offsets[i + 1] <= len
  }

  // The value row i of a column holds.
  function ReadAt(c: Column, i: nat): Value
    requires WellFormed(c) && i < Length(c)
    decreases c
  {
    match c
    case Cells(_, cells) => cells[i]
    case Structs(fields, columns, validity) =>
      if !validity[i] then VNull
      else VStruct(seq(|fields|, j requires 0 <= j < |fields| => (fields[j].name, ReadAt(columns[j], i))))
    case Lists(_, offsets, child, validity) =>
      if !validity[i] then VNull
      else
        assert InRange(offsets, i, Length(child));
        VList(seq(offsets[i + 1] - offsets[i], k requires 0 <= k < offsets[i + 1] - offsets[i] =>
        ReadAt(child, offsets[i] + k)))
  }

  // Every row reads as that value decoded alone.
  ghost predicate Represents(c: Column, f: Field, values: seq<Option<Bson>>, r: Rendering) {
    && WellFormed(c) && Length(c) == |values|
    && forall i :: 0 <= i < |values| ==> ReadAt(c, i) == Decode(f.ty, values[i], r)
  }

  // ---- which columns can be built ----

  const MAX_ELEMENTS: int := 0x7fff_ffff

  function ChildSlots(values: seq<Option<Bson>>, name: string): (slots: seq<Option<Bson>>)
    ensures |slots| == |values|
    ensures forall i :: 0 <= i < |values| ==>
      slots[i] == if values[i].Some? && values[i].value.Document? then Get(values[i].value.fields, name) else None
  {
    seq(|values|, i requires 0 <= i < |values| =>
      if values[i].Some? && values[i].value.Document? then Get(values[i].value.fields, name) else None)
  }

  function Somes(items: seq<Bson>): seq<Option<Bson>> {
    seq(|items|, i requires 0 <= i < |items| => Some(items[i]))
  }

  // All elements of all rows, end to end.
  function Flatten(values: seq<Option<Bson>>): seq<Option<Bson>> {
    if values == [] then []
    else
      var v := values[|values| - 1];
      Flatten(values[..|values| - 1]) + if NullLike(v) then [] else Somes(ListItems(v.value))
  }

  predicate ValidDecimal(precision: nat, scale: int) {
    1 <= precision <= 38 && scale <= 38 && scale <= precision
  }

  // Arrow admits NULL in a struct's child whose field forbids it only where the
  // struct itself is NULL, and in such a list's child nowhere.
  ghost predicate ChildNulls(c: Field, values: seq<Option<Bson>>, r: Rendering) {
    c.nullable || forall i :: 0 <= i < |values| && values[i].Some? && values[i].value.Document? ==>
      !Decode(c.ty, ChildSlots(values, c.name)[i], r).VNull?
  }

  ghost predicate ItemNulls(item: Field, flat: seq<Option<Bson>>, r: Rendering) {
    item.nullable || forall i :: 0 <= i < |flat| ==> !Decode(item.ty, flat[i], r).VNull?
  }

  // A struct without fields, an unknown type, bad decimal parameters or too many
  // list elements is an error, and a forbidden NULL below the top makes Arrow's
  // constructors panic; nothing else fails.
  ghost predicate Buildable(f: Field, values: seq<Option<Bson>>, r: Rendering)
    decreases f.ty
  {
    match f.ty
    case StructType(children) =>
      && children != []
      && forall c :: c in children ==> Buildable(c, ChildSlots(values, c.name), r) && ChildNulls(c, values, r)
    case ListType(item) =>
      && |Flatten(values)| <= MAX_ELEMENTS
      && Buildable(item, Flatten(values), r) && ItemNulls(item, Flatten(values), r)
    case DecimalType(precision, scale) => ValidDecimal(precision, scale)
    case LargeUtf8Type => false
    case OtherType(_) => false
    case _ => true
  }

  // ---- the builder ----

  // Whether the child column holds NULL in a valid row.
  method FindNull(c: Column, validity: seq<bool>) returns (found: bool)
    requires WellFormed(c) && Length(c) == |validity|
    ensures found <==> exists i :: 0 <= i < |validity| && validity[i] && ReadAt(c, i).VNull?
  {
    for i := 0 to |validity|
      invariant forall k :: 0 <= k < i ==> !validity[k] || !ReadAt(c, k).VNull?
    {
      if validity[i] && ReadAt(c, i).VNull? {
        return true;
      }
    }
    found := false;
  }

  // The constructors' checks; a failure is a panic in the original.
  method CheckChild(c: Field, column: Column, values: seq<Option<Bson>>, validity: seq<bool>, r: Rendering)
    returns (ok: bool)
    requires |validity| == |values|
    requires forall i :: 0 <= i < |values| ==> validity[i] == (values[i].Some? && values[i].value.Document?)
    requires Represents(column, c, ChildSlots(values, c.name), r)
    ensures ok <==> ChildNulls(c, values, r)
  {
    ok := c.nullable;
    if !ok {
      var found := FindNull(column, validity);
      ok := !found;
      assert forall i :: 0 <= i < |values| ==> ReadAt(column, i) == Decode(c.ty, ChildSlots(values, c.name)[i], r);
    }
  }

  method CheckChildren(children: seq<Field>, columns: seq<Column>, values: seq<Option<Bson>>, validity: seq<bool>,
                       r: Rendering)
    returns (ok: bool)
    requires |validity| == |values| && |columns| == |children|
    requires forall i :: 0 <= i < |values| ==> validity[i] == (values[i].Some? && values[i].value.Document?)
    requires forall k :: 0 <= k < |children| ==>
      Represents(columns[k], children[k], ChildSlots(values, children[k].name), r)
    ensures ok <==> forall c :: c in children ==> ChildNulls(c, values, r)
  {
    ok := true;
    for j := 0 to |children|
      invariant ok && forall k :: 0 <= k < j ==> ChildNulls(children[k], values, r)
    {
      ok := CheckChild(children[j], columns[j], values, validity, r);
      if !ok {
        assert children[j] in children;
        return;
      }
    }
  }

  method CheckItems(item: Field, column: Column, flat: seq<Option<Bson>>, r: Rendering) returns (ok: bool)
    requires Represents(column, item, flat, r)
    ensures ok <==> ItemNulls(item, flat, r)
  {
    ok := item.nullable;
    if !ok {
      var everywhere := seq(|flat|, i => true);
      var found := FindNull(column, everywhere);
      ok := !found;
      assert forall i :: 0 <= i < |flat| ==> everywhere[i] && ReadAt(column, i) == Decode(item.ty, flat[i], r);
    }
  }

  method BuildArray(f: Field, values: seq<Option<Bson>>, r: Rendering) returns (res: Result<Column, string>)
    ensures res.Ok? <==> Buildable(f, values, r)
    ensures res.Ok? ==> Represents(res.value, f, values, r)
    decreases f.ty
  {
    if f.ty.StructType? {
      res := BuildStruct(f, f.ty.children, values, r);
    } else if f.ty.ListType? {
      res := BuildList(f, f.ty.item, values, r);
    } else if f.ty.LargeUtf8Type? || f.ty.OtherType? {
      res := Err("no BSON decoder for the Arrow type");
    } else if f.ty.DecimalType? && !ValidDecimal(f.ty.precision, f.ty.scale) {
      res := Err("invalid decimal parameters");
    } else {
      var column := BuildCells(f, values, r);
      res := Ok(column);
    }
  }

  method BuildCells(f: Field, values: seq<Option<Bson>>, r: Rendering) returns (column: Column)
    requires !f.ty.StructType? && !f.ty.ListType?
    ensures Represents(column, f, values, r)
  {
    var cells: seq<Value> := [];
    for i := 0 to |values|
      invariant |cells| == i
      invariant forall k :: 0 <= k < i ==> cells[k] == DecodeScalar(f.ty, values[k], r)
    {
      cells := cells + [DecodeScalar(f.ty, values[i], r)];
    }
    column := Cells(f.ty, cells);
  }

  method BuildStruct(f: Field, children: seq<Field>, values: seq<Option<Bson>>, r: Rendering)
    returns (res: Result<Column, string>)
    requires f.ty == StructType(children)
    ensures res.Ok? <==> Buildable(f, values, r)
    ensures res.Ok? ==> Represents(res.value, f, values, r)
    decreases f.ty, 0
  {
    var columns: seq<Column> := [];
    for j := 0 to |children|
      invariant |columns| == j
      invariant forall k :: 0 <= k < j ==>
        && Buildable(children[k], ChildSlots(values, children[k].name), r)
        && Represents(columns[k], children[k], ChildSlots(values, children[k].name), r)
    {
      var child := children[j];
      var slots: seq<Option<Bson>> := [];
      for i := 0 to |values|
        invariant slots == ChildSlots(values, child.name)[..i]
      {
        var v := values[i];
        slots := slots + [if v.Some? && v.value.Document? then Get(v.value.fields, child.name) else None];
      }
      assert slots == ChildSlots(values, child.name);
      var column := BuildArray(child, slots, r);
      if column.Err? {
        assert child in children;
        return column;
      }
      columns := columns + [column.value];
    }
    var validity := seq(|values|, i requires 0 <= i < |values| => values[i].Some? && values[i].value.Document?);
    if children == [] {
      return Err("struct column has no fields");
    }
    var ok := CheckChildren(children, columns, values, validity, r);
    if !ok {
      return Err("unmasked nulls for a non-nullable struct field");
    }
    res := Ok(Structs(children, columns, validity));
    StructRows(f, children, columns, values, validity, r);
  }

  lemma StructRows(f: Field, children: seq<Field>, columns: seq<Column>, values: seq<Option<Bson>>,
                   validity: seq<bool>, r: Rendering)
    requires f.ty == StructType(children) && |columns| == |children| && |validity| == |values|
    requires forall i :: 0 <= i < |values| ==> validity[i] == (values[i].Some? && values[i].value.Document?)
    requires forall k :: 0 <= k < |children| ==>
      Represents(columns[k], children[k], ChildSlots(values, children[k].name), r)
    ensures Represents(Structs(children, columns, validity), f, values, r)
  {
    var c := Structs(children, columns, validity);
    forall i | 0 <= i < |values| ensures ReadAt(c, i) == Decode(f.ty, values[i], r) {
      if validity[i] {
        var d := values[i].value.fields;
        var decoded := DecodeChildren(children, d, r);
        forall j | 0 <= j < |children| ensures (children[j].name, ReadAt(columns[j], i)) == decoded[j] {
          assert ChildSlots(values, children[j].name)[i] == Get(d, children[j].name);
        }
        assert seq(|children|, j requires 0 <= j < |children| => (children[j].name, ReadAt(columns[j], i))) == decoded;
      }
    }
  }

  function RowItems(v: Option<Bson>): seq<Option<Bson>> {
    if NullLike(v) then [] else Somes(ListItems(v.value))
  }

  // Where each row's elements start in the flat child, and the end.
  function Offsets(values: seq<Option<Bson>>): (offsets: seq<int>)
    ensures |offsets| == |values| + 1
  {
    seq(|values| + 1, i requires 0 <= i <= |values| => StartOf(values, i))
  }

  function StartOf(values: seq<Option<Bson>>, i: nat): nat
    requires i <= |values|
  {
    |Flatten(values[..i])|
  }

  lemma FlattenRow(values: seq<Option<Bson>>, i: nat)
    requires i < |values|
    ensures Flatten(values[..i + 1]) == Flatten(values[..i]) + RowItems(values[i])
  {
    assert values[..i + 1][..i] == values[..i];
  }

  lemma {:induction false} FlattenPrefix(values: seq<Option<Bson>>, i: nat)
    requires i <= |values|
    ensures Flatten(values[..i]) <= Flatten(values)
    decreases |values| - i
  {
    if i < |values| {
      FlattenRow(values, i);
      FlattenPrefix(values, i + 1);
    } else {
      assert values[..i] == values;
    }
  }

  lemma RowSpan(values: seq<Option<Bson>>, i: nat)
    requires i < |values|
    ensures Offsets(values)[i + 1] == Offsets(values)[i] + |RowItems(values[i])| <= |Flatten(values)|
  {
    FlattenRow(values, i);
    FlattenPrefix(values, i + 1);
  }

  lemma MiddleOf<T>(before: seq<T>, part: seq<T>, whole: seq<T>)
    requires before + part <= whole
    ensures |before| + |part| <= |whole| && whole[|before|..|before| + |part|] == part
  {
    assert (before + part)[|before|..] == part;
  }

  // A row's elements stand in the flat child from its offset on.
  lemma RowElements(values: seq<Option<Bson>>, i: nat)
    requires i < |values|
    ensures var lo := |Flatten(values[..i])|;
      && lo + |RowItems(values[i])| <= |Flatten(values)|
      && Flatten(values)[lo..lo + |RowItems(values[i])|] == RowItems(values[i])
  {
    FlattenRow(values, i);
    FlattenPrefix(values, i + 1);
    MiddleOf(Flatten(values[..i]), RowItems(values[i]), Flatten(values));
  }

  // Where the elements of the next row begin once the first i rows are laid out.
  ghost predicate OffsetsSoFar(offsets: seq<int>, values: seq<Option<Bson>>, i: nat)
    requires i <= |values|
  {
    |offsets| == i + 1 && forall k :: 0 <= k <= i ==> offsets[k] == Offsets(values)[k]
  }

  lemma OffsetAt(values: seq<Option<Bson>>, i: nat)
    requires i <= |values|
    ensures Offsets(values)[i] == |Flatten(values[..i])|
  {
  }

  lemma TooManyElements(values: seq<Option<Bson>>, i: nat)
    requires i <= |values| && |Flatten(values[..i])| > MAX_ELEMENTS
    ensures |Flatten(values)| > MAX_ELEMENTS
  {
    FlattenPrefix(values, i);
  }

  // The elements one row adds to the flat child.
  method PushRow(flat: seq<Option<Bson>>, v: Option<Bson>) returns (longer: seq<Option<Bson>>, valid: bool)
    ensures longer == flat + RowItems(v)
    ensures valid == !NullLike(v)
  {
    if v.Some? && v.value.Array? {
      longer, valid := flat + Somes(v.value.items), true;
    } else if !NullLike(v) {
      assert RowItems(v) == [v];
      longer, valid := flat + [v], true;
    } else {
      longer, valid := flat, false;
    }
  }

  // The one pass that fills the flat child, its offsets and the validity.
  method FlattenRows(values: seq<Option<Bson>>)
    returns (res: Result<(seq<Option<Bson>>, seq<int>, seq<bool>), string>)
    ensures res.Ok? <==> |Flatten(values)| <= MAX_ELEMENTS
    ensures res.Ok? ==>
      && res.value.0 == Flatten(values) && res.value.1 == Offsets(values)
      && |res.value.2| == |values|
      && forall k :: 0 <= k < |values| ==> res.value.2[k] == !NullLike(values[k])
  {
    var flat: seq<Option<Bson>> := [];
    var offsets := [0];
    var valid: seq<bool> := [];
    OffsetAt(values, 0);
    for i := 0 to |values|
      invariant flat == Flatten(values[..i]) && |flat| <= MAX_ELEMENTS
      invariant OffsetsSoFar(offsets, values, i)
      invariant |valid| == i && forall k :: 0 <= k < i ==> valid[k] == !NullLike(values[k])
    {
      FlattenRow(values, i);
      OffsetAt(values, i + 1);
      var filled;
      flat, filled := PushRow(flat, values[i]);
      valid := valid + [filled];
      if |flat| > MAX_ELEMENTS {
        TooManyElements(values, i + 1);
        return Err("array column exceeds 2^31 elements in a single batch");
      }
      offsets := offsets + [|flat|];
    }
    assert values[..|values|] == values;
    assert offsets == Offsets(values);
    res := Ok((flat, offsets, valid));
  }

  method BuildList(f: Field, item: Field, values: seq<Option<Bson>>, r: Rendering)
    returns (res: Result<Column, string>)
    requires f.ty == ListType(item)
    ensures res.Ok? <==> Buildable(f, values, r)
    ensures res.Ok? ==> Represents(res.value, f, values, r)
    decreases f.ty, 0
  {
    var parts := FlattenRows(values);
    if parts.Err? {
      return Err(parts.error);
    }
    var (flat, offsets, valid) := parts.value;
    var child := BuildArray(item, flat, r);
    if child.Err? {
      return child;
    }
    var ok := CheckItems(item, child.value, flat, r);
    if !ok {
      return Err("non-nullable list item contains nulls");
    }
    res := Ok(Lists(item, offsets, child.value, valid));
    ListRows(f, item, child.value, values, valid, r);
  }

  lemma ListIsWellFormed(item: Field, child: Column, values: seq<Option<Bson>>, valid: seq<bool>)
    requires |valid| == |values| && WellFormed(child) && Length(child) == |Flatten(values)|
    ensures WellFormed(Lists(item, Offsets(values), child, valid))
  {
    forall i | 0 <= i < |values|
      ensures InRange(Offsets(values), i, Length(child))
    {
      RowSpan(values, i);
    }
  }

  // A valid list row is its slice of the child.
  lemma ReadSlice(item: Field, offsets: seq<int>, child: Column, valid: seq<bool>, i: nat)
    requires WellFormed(Lists(item, offsets, child, valid)) && i < |valid| && valid[i]
    ensures InRange(offsets, i, Length(child))
    ensures var read := ReadAt(Lists(item, offsets, child, valid), i);
      && read.VList? && |read.items| == offsets[i + 1] - offsets[i]
      && forall k :: 0 <= k < |read.items| ==> read.items[k] == ReadAt(child, offsets[i] + k)
  {
    assert InRange(offsets, i, Length(child));
  }

  lemma ElementReads(child: Column, item: Field, flat: seq<Option<Bson>>, at: nat, b: Bson, r: Rendering)
    requires Represents(child, item, flat, r) && at < |flat| && flat[at] == Some(b)
    ensures at < Length(child) && ReadAt(child, at) == Decode(item.ty, Some(b), r)
  {
  }

  lemma SliceDecodes(read: Value, child: Column, flat: seq<Option<Bson>>, lo: nat, item: Field, items: seq<Bson>,
                     r: Rendering)
    requires Represents(child, item, flat, r)
    requires lo + |items| <= |flat| && flat[lo..lo + |items|] == Somes(items)
    requires read.VList? && |read.items| == |items|
    requires forall k :: 0 <= k < |items| ==> read.items[k] == ReadAt(child, lo + k)
    ensures read == VList(DecodeItems(item, items, r))
  {
    var decoded := DecodeItems(item, items, r);
    forall k | 0 <= k < |items| ensures read.items[k] == decoded[k] {
      assert flat[lo + k] == Somes(items)[k];
      ElementReads(child, item, flat, lo + k, items[k], r);
    }
    assert read.items == decoded;
  }

  // A row whose offsets bound its own elements in the flat child reads as the list of them.
  lemma RowReads(item: Field, offsets: seq<int>, child: Column, valid: seq<bool>, i: nat,
                 flat: seq<Option<Bson>>, items: seq<Bson>, r: Rendering)
    requires Represents(child, item, flat, r)
    requires WellFormed(Lists(item, offsets, child, valid)) && i < |valid| && valid[i]
    requires 0 <= offsets[i] && offsets[i + 1] == offsets[i] + |items| <= |flat|
    requires flat[offsets[i]..offsets[i + 1]] == Somes(items)
    ensures ReadAt(Lists(item, offsets, child, valid), i) == VList(DecodeItems(item, items, r))
  {
    ReadSlice(item, offsets, child, valid, i);
    SliceDecodes(ReadAt(Lists(item, offsets, child, valid), i), child, flat, offsets[i], item, items, r);
  }

  lemma RowSlice(values: seq<Option<Bson>>, i: nat)
    requires i < |values| && !NullLike(values[i])
    ensures var offsets := Offsets(values);
      && 0 <= offsets[i] && offsets[i + 1] == offsets[i] + |ListItems(values[i].value)| <= |Flatten(values)|
      && Flatten(values)[offsets[i]..offsets[i + 1]] == Somes(ListItems(values[i].value))
  {
    RowElements(values, i);
    RowSpan(values, i);
    OffsetAt(values, i);
  }

  lemma ListRowReads(item: Field, child: Column, values: seq<Option<Bson>>, valid: seq<bool>, i: nat, r: Rendering)
    requires i < |values| == |valid| && valid[i] && !NullLike(values[i])
    requires Represents(child, item, Flatten(values), r)
    requires WellFormed(Lists(item, Offsets(values), child, valid))
    ensures ReadAt(Lists(item, Offsets(values), child, valid), i)
         == VList(DecodeItems(item, ListItems(values[i].value), r))
  {
    RowSlice(values, i);
    RowReads(item, Offsets(values), child, valid, i, Flatten(values), ListItems(values[i].value), r);
  }

  lemma ListRows(f: Field, item: Field, child: Column, values: seq<Option<Bson>>, valid: seq<bool>, r: Rendering)
    requires f.ty == ListType(item) && |valid| == |values|
    requires forall k :: 0 <= k < |values| ==> valid[k] == !NullLike(values[k])
    requires Represents(child, item, Flatten(values), r)
    ensures Represents(Lists(item, Offsets(values), child, valid), f, values, r)
  {
    ListIsWellFormed(item, child, values, valid);
    var c := Lists(item, Offsets(values), child, valid);
    forall i | 0 <= i < |values| ensures ReadAt(c, i) == Decode(f.ty, values[i], r) {
      if valid[i] {
        ListRowReads(item, child, values, valid, i, r);
      }
    }
  }
}
