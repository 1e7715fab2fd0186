// The schema cache: its stored form, and the store that writes it through.
module Store {
  import opened Wrappers
  import opened Arrow
  import B = BsonModel
  import Shapes
  import Sampling
  import ArrowSchema

  // ---- the stored form of a schema ----

  datatype StoredType =
    | StoredBoolean
    | StoredInt32
    | StoredInt64
    | StoredFloat64
    | StoredUtf8
    | StoredBinary
    | StoredDecimal(precision: nat, scale: int)
    | StoredTimestampMs(tz: Option<string>)
    | StoredStruct(fields: seq<StoredField>)
    | StoredList(item: StoredField)

  datatype StoredField = StoredField(name: string, ty: StoredType, nullable: bool, metadata: map<string, string>)

  function FromArrowType(ty: DataType): Option<StoredType>
    decreases ty, 0
  {
    match ty
    case BooleanType => Some(StoredBoolean)
    case Int32Type => Some(StoredInt32)
    case Int64Type => Some(StoredInt64)
    case Float64Type => Some(StoredFloat64)
    case Utf8Type => Some(StoredUtf8)
    case BinaryType => Some(StoredBinary)
    case DecimalType(precision, scale) => Some(StoredDecimal(precision, scale))
    case TimestampMsType(tz) => Some(StoredTimestampMs(tz))
    case StructType(children) =>
      var fields :- FromSchema(children);
      Some(StoredStruct(fields))
    case ListType(item) =>
      var stored :- FromArrow(item);
      Some(StoredList(stored))
    case _ => None
  }

  function FromArrow(f: Field): Option<StoredField>
    decreases f, 1
  {
    var ty :- FromArrowType(f.ty);
    Some(StoredField(f.name, ty, f.nullable, f.metadata))
  }

  function FromSchema(fields: seq<Field>): (stored: Option<seq<StoredField>>)
    ensures stored.Some? ==> |stored.value| == |fields|
    decreases fields, 2
  {
    if fields == [] then Some([])
    else
      var first :- FromArrow(fields[0]);
      var rest :- FromSchema(fields[1..]);
      Some([first] + rest)
  }

  function ToArrowType(ty: StoredType): DataType
    decreases ty, 0
  {
    match ty
    case StoredBoolean => BooleanType
    case StoredInt32 => Int32Type
    case StoredInt64 => Int64Type
    case StoredFloat64 => Float64Type
    case StoredUtf8 => Utf8Type
    case StoredBinary => BinaryType
    case StoredDecimal(precision, scale) => DecimalType(precision, scale)
    case StoredTimestampMs(tz) => TimestampMsType(tz)
    case StoredStruct(fields) => StructType(ToSchema(fields))
    case StoredList(item) => ListType(ToArrow(item))
  }

  function ToArrow(f: StoredField): Field
    decreases f, 1
  {
    Field(f.name, ToArrowType(f.ty), f.nullable, f.metadata)
  }

  function ToSchema(fields: seq<StoredField>): seq<Field>
    decreases fields, 2
  {
    if fields == [] then [] else [ToArrow(fields[0])] + ToSchema(fields[1..])
  }

  // ---- a stored schema is the schema ----

  // Every type at every depth is one the cache has a form for.
  predicate Storable(ty: DataType) {
    match ty
    case LargeUtf8Type => false
    case OtherType(_) => false
    case StructType(children) => forall c :: c in children ==> Storable(c.ty)
    case ListType(item) => Storable(item.ty)
    case _ => true
  }

  predicate StorableSchema(schema: Schema) { forall f :: f in schema ==> Storable(f.ty) }

  lemma {:induction false} TypeRoundTrip(ty: DataType)
    ensures FromArrowType(ty).Some? <==> Storable(ty)
    ensures Storable(ty) ==> ToArrowType(FromArrowType(ty).value) == ty
    decreases ty, 0
  {
    match ty
    case StructType(children) => SchemaRoundTrip(children);
    case ListType(item) => FieldRoundTrip(item);
    case _ =>
  }

  lemma {:induction false} FieldRoundTrip(f: Field)
    ensures FromArrow(f).Some? <==> Storable(f.ty)
    ensures Storable(f.ty) ==> ToArrow(FromArrow(f).value) == f
    decreases f, 1
  {
    TypeRoundTrip(f.ty);
  }

  // A schema has a stored form exactly when all its types do, and reading the
  // form back gives the schema: names, nullability and metadata at every depth.
  lemma {:induction false} SchemaRoundTrip(fields: seq<Field>)
    ensures FromSchema(fields).Some? <==> StorableSchema(fields)
    ensures StorableSchema(fields) ==> ToSchema(FromSchema(fields).value) == fields
    decreases fields, 2
  {
    if fields != [] {
      FieldRoundTrip(fields[0]);
      SchemaRoundTrip(fields[1..]);
      StorableCons(fields);
    }
  }

  lemma StorableCons(fields: seq<Field>)
    requires fields != []
    ensures StorableSchema(fields) <==> Storable(fields[0].ty) && StorableSchema(fields[1..])
  {
    assert fields == [fields[0]] + fields[1..];
  }

  lemma {:induction false} StoredTypeRoundTrip(ty: StoredType)
    ensures FromArrowType(ToArrowType(ty)) == Some(ty)
    decreases ty, 0
  {
    match ty
    case StoredStruct(fields) => StoredSchemaRoundTrip(fields);
    case StoredList(item) => StoredTypeRoundTrip(item.ty);
    case _ =>
  }

  // And the other way: every stored form comes back as itself.
  lemma {:induction false} StoredSchemaRoundTrip(fields: seq<StoredField>)
    ensures FromSchema(ToSchema(fields)) == Some(fields)
    decreases fields, 2
  {
    if fields != [] {
      StoredTypeRoundTrip(fields[0].ty);
      StoredSchemaRoundTrip(fields[1..]);
      assert ToSchema(fields)[1..] == ToSchema(fields[1..]);
      assert fields == [fields[0]] + fields[1..];
    }
  }

  // ---- every inferred schema has a stored form ----

  lemma {:induction false} LoweredIsStorable(shape: Shapes.Shape, path: string, depth: nat, maxDepth: nat,
                                             freq: ArrowSchema.Freq)
    ensures Storable(ArrowSchema.ArrowType(shape, path, depth, maxDepth, freq).0)
    decreases shape, 1
  {
    match shape
    case Document(children) =>
      if depth < maxDepth && children != map[] {
        DocumentIsStorable(children, path, depth + 1, maxDepth, freq);
      }
    case Array(inner) =>
      if depth < maxDepth {
        LoweredIsStorable(inner, path, depth + 1, maxDepth, freq);
      }
    case _ =>
  }

  lemma {:induction false} DocumentIsStorable(children: map<string, Shapes.FieldShape>, path: string, depth: nat,
                                              maxDepth: nat, freq: ArrowSchema.Freq)
    ensures StorableSchema(ArrowSchema.BuildDocument(children, path, depth, maxDepth, freq))
    decreases Shapes.Document(children), 0
  {
    var keys := ArrowSchema.SortedKeys(children.Keys);
    var built := ArrowSchema.BuildDocument(children, path, depth, maxDepth, freq);
    forall c | c in built ensures Storable(c.ty) {
      var i :| 0 <= i < |built| && built[i] == c;
      LoweredIsStorable(children[keys[i]].shape, path + "." + keys[i], depth, maxDepth, freq);
    }
  }

  lemma InferredIsStorable(docs: seq<B.Doc>, maxDepth: nat, freq: ArrowSchema.Freq)
    ensures StorableSchema(ArrowSchema.Inferred(docs, maxDepth, freq))
  {
    var root := Sampling.ObserveAll(docs);
    var (schema, names) := (ArrowSchema.Inferred(docs, maxDepth, freq), ArrowSchema.ColumnNames(root));
    forall f | f in schema ensures Storable(f.ty) {
      var i :| 0 <= i < |schema| && schema[i] == f;
      LoweredIsStorable(root[names[i]].shape, names[i], 0, maxDepth, freq);
    }
  }

  // ---- the store ----

  datatype CollectionStats = CollectionStats(docCount: nat, avgDocSize: nat, totalSize: nat, indexedPaths: seq<string>)

  datatype CachedTable = CachedTable(schema: Schema, stats: CollectionStats, inferredAt: nat)

  datatype StoredTable = StoredTable(fields: seq<StoredField>, stats: CollectionStats, inferredAt: nat)

  datatype StoredCatalog = StoredCatalog(version: nat, tables: map<string, StoredTable>)

  const CATALOG_VERSION: nat := 1

  type Tables = map<string, CachedTable>

  // What a store writes of its tables: those whose schema has a stored form.
  function Persisted(tables: Tables): (stored: map<string, StoredTable>)
    ensures stored.Keys == set k | k in tables && FromSchema(tables[k].schema).Some?
  {
    map k | k in tables && FromSchema(tables[k].schema).Some? ::
      StoredTable(FromSchema(tables[k].schema).value, tables[k].stats, tables[k].inferredAt)
  }

  function Loaded(stored: map<string, StoredTable>): (tables: Tables)
    ensures tables.Keys == stored.Keys
  {
    map k | k in stored :: CachedTable(ToSchema(stored[k].fields), stored[k].stats, stored[k].inferredAt)
  }

  // Only a readable file of the current version is taken over.
  function Reloaded(content: Option<StoredCatalog>): Tables {
    if content.Some? && content.value.version == CATALOG_VERSION then Loaded(content.value.tables) else map[]
  }

  // A reload gives back exactly the tables that have a stored form, unchanged.
  lemma ReloadKeepsStorable(tables: Tables)
    ensures Reloaded(Some(StoredCatalog(CATALOG_VERSION, Persisted(tables))))
         == map k | k in tables && StorableSchema(tables[k].schema) :: tables[k]
  {
    var again := Loaded(Persisted(tables));
    forall k | k in tables
      ensures (k in again <==> StorableSchema(tables[k].schema)) && (k in again ==> again[k] == tables[k])
    {
      SchemaRoundTrip(tables[k].schema);
    }
  }

  // So a store of inferred schemas survives a restart whole.
  lemma InferredTablesSurvive(tables: Tables, samples: map<string, seq<B.Doc>>, maxDepth: nat, freq: ArrowSchema.Freq)
    requires tables.Keys <= samples.Keys
    requires forall k :: k in tables ==> tables[k].schema == ArrowSchema.Inferred(samples[k], maxDepth, freq)
    ensures Reloaded(Some(StoredCatalog(CATALOG_VERSION, Persisted(tables)))) == tables
  {
    ReloadKeepsStorable(tables);
    forall k | k in tables ensures StorableSchema(tables[k].schema) {
      InferredIsStorable(samples[k], maxDepth, freq);
    }
  }

  // ---- names ----

  function Key(db: string, collection: string): string { db + "." + collection }

  lemma FirstDot(db: string, collection: string)
    requires DotFree(db)
    ensures Key(db, collection)[|db|] == '.' && forall i :: 0 <= i < |db| ==> Key(db, collection)[i] != '.'
  {
    assert forall i :: 0 <= i < |db| ==> Key(db, collection)[i] == db[i] && db[i] in db;
  }

  // Databases have no dot in their name, so no two collections share a key.
  lemma KeysAreDistinct(db: string, collection: string, db': string, collection': string)
    requires DotFree(db) && DotFree(db') && Key(db, collection) == Key(db', collection')
    ensures db == db' && collection == collection'
  {
    var key := Key(db, collection);
    FirstDot(db, collection);
    FirstDot(db', collection');
    assert |db| == |db'|;
    assert db == key[..|db|] && collection == key[|db| + 1..];
    assert db' == key[..|db|] && collection' == key[|db| + 1..];
  }

  function StripPrefix(prefix: string, key: string): Option<string> {
    if prefix <= key then Some(key[|prefix|..]) else None
  }

  lemma StripUndoesKey(db: string, key: string, name: string)
    ensures StripPrefix(db + ".", key) == Some(name) <==> key == Key(db, name)
  {
    if db + "." <= key {
      assert key == db + "." + key[|db| + 1..];
    }
    if key == Key(db, name) {
      assert key == (db + ".") + name;
    }
  }

  // The file the tables are written through to, or nothing.
  class CatalogFile {
    var content: Option<StoredCatalog>

    constructor ()
      ensures content == None
    {
      content := None;
    }
  }

  class CatalogStore {
    const file: CatalogFile?
    var tables: Tables

    // Starts from the file's tables, if it can be read and has this version.
    constructor (f: CatalogFile?)
      ensures file == f
      ensures tables == if f == null then map[] else Reloaded(f.content)
    {
      file := f;
      tables := map[];
      new;
      if f != null && f.content.Some? && f.content.value.version == CATALOG_VERSION {
        var stored := f.content.value.tables;
        var rest := stored.Keys;
        while rest != {}
          invariant rest <= stored.Keys && tables.Keys == stored.Keys - rest
          invariant forall k :: k in tables ==> tables[k] == Loaded(stored)[k]
          decreases rest
        {
          var k :| k in rest;
          var t := stored[k];
          tables := tables[k := CachedTable(ToSchema(t.fields), t.stats, t.inferredAt)];
          rest := rest - {k};
        }
      }
    }

    method GetTable(key: string) returns (entry: Option<CachedTable>)
      ensures entry == if key in tables then Some(tables[key]) else None
    {
      entry := if key in tables then Some(tables[key]) else None;
    }

    // An entry no older than maxAge seconds; an age of zero never expires, and a
    // clock set back makes nothing stale.
    method GetFresh(key: string, maxAge: nat, now: nat) returns (entry: Option<CachedTable>)
      ensures entry.Some? <==> key in tables && (maxAge == 0 || now <= tables[key].inferredAt + maxAge)
      ensures entry.Some? ==> entry.value == tables[key]
    {
      entry := GetTable(key);
      if entry.Some? && maxAge != 0 {
        var age := if now < entry.value.inferredAt then 0 else now - entry.value.inferredAt;
        if age > maxAge {
          entry := None;
        }
      }
    }

    // Replaces one table and writes all of them through.
    method Put(key: string, schema: Schema, stats: CollectionStats, now: nat) returns (entry: CachedTable)
      modifies this`tables, file
      ensures entry == CachedTable(schema, stats, now)
      ensures tables == old(tables)[key := entry]
      ensures file != null ==> file.content == Some(StoredCatalog(CATALOG_VERSION, Persisted(tables)))
    {
      entry := CachedTable(schema, stats, now);
      tables := tables[key := entry];
      Persist();
    }

    method Persist()
      modifies file
      ensures file != null ==> file.content == Some(StoredCatalog(CATALOG_VERSION, Persisted(tables)))
    {
      if file == null {
        return;
      }
      var stored: map<string, StoredTable> := map[];
      var rest := tables.Keys;
      while rest != {}
        invariant rest <= tables.Keys
        invariant stored.Keys == Persisted(tables).Keys - rest
        invariant forall k :: k in stored ==> stored[k] == Persisted(tables)[k]
        decreases rest
      {
        var k :| k in rest;
        var fields := FromSchema(tables[k].schema);
        if fields.Some? {
          stored := stored[k := StoredTable(fields.value, tables[k].stats, tables[k].inferredAt)];
        }
        rest := rest - {k};
      }
      assert stored == Persisted(tables);
      file.content := Some(StoredCatalog(CATALOG_VERSION, stored));
    }

    // The collections of one database that have a cached schema, each once.
    method KnownTables(db: string) returns (names: seq<string>)
      ensures forall name :: name in names <==> Key(db, name) in tables
      ensures forall i, j :: 0 <= i < j < |names| ==> names[i] != names[j]
    {
      names := [];
      var rest := tables.Keys;
      while rest != {}
        invariant rest <= tables.Keys
        invariant forall name :: name in names <==> Key(db, name) in tables && Key(db, name) !in rest
        invariant forall i, j :: 0 <= i < j < |names| ==> names[i] != names[j]
        decreases rest
      {
        var k :| k in rest;
        rest := rest - {k};
        var name := StripPrefix(db + ".", k);
        forall n ensures name == Some(n) <==> k == Key(db, n) {
          StripUndoesKey(db, k, n);
        }
        if name.Some? {
          names := names + [name.value];
        }
      }
    }
  }
}
