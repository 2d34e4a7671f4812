/** The coverings, the writer and the verifier of tools/temporal_parquet.py, over schemas and metadata. */
module CoveringCheck {
  import opened Text
  import opened TemporalMeta

  // ---------- files ----------

  /** The type of a column. The values of the other types have a length, as strings do, or have none, as numbers do. */
  datatype Kind = Binary | LargeBinary | Struct(fields: seq<string>) | OtherSized | OtherUnsized

  /** A column, and whether any of its rows holds a value other than null. */
  datatype SchemaField = SchemaField(name: string, kind: Kind, filled: bool)

  type Schema = seq<SchemaField>

  /** A value of the file's key-value metadata: the parsed `temporal` object, or any other bytes. */
  datatype MetaValue = Temporal(dict: FileDict) | Raw(bytes: string)

  const METADATA_KEY := "temporal"

  datatype File = File(schema: Schema, metadata: map<string, MetaValue>)

  /** A schema that can be asked for a field by its name. */
  ghost predicate DistinctNames(schema: Schema) {
    forall i, j :: 0 <= i < j < |schema| ==> schema[i].name != schema[j].name
  }

  /** `schema.field(name)`, if the schema has the name. */
  function FieldNamed(schema: Schema, name: string): Option<SchemaField> {
    if schema == [] then None
    else if schema[0].name == name then Some(schema[0])
    else FieldNamed(schema[1..], name)
  }

  /** `schema.field(name).type`, if the schema has the name. */
  function KindOf(schema: Schema, name: string): Option<Kind> {
    match FieldNamed(schema, name)
    case None => None
    case Some(field) => Some(field.kind)
  }

  /** The column is there, and the lengths of its first values can be taken. */
  predicate CanSample(schema: Schema, name: string) {
    match FieldNamed(schema, name)
    case None => false
    case Some(field) => field.filled ==> field.kind != OtherUnsized
  }

  predicate HasStructField(schema: Schema, target: string, field: string) {
    match KindOf(schema, target)
    case None => false
    case Some(kind) => kind.Struct? && field in kind.fields
  }

  // ---------- what a schema holds ----------

  predicate IsBinary(kind: Kind) {
    kind == Binary || kind == LargeBinary
  }

  predicate BinaryColumn(schema: Schema, name: string) {
    KindOf(schema, name).Some? && IsBinary(KindOf(schema, name).value)
  }

  /** Some column has the name. */
  ghost predicate HasColumn(schema: Schema, name: string) {
    exists i :: 0 <= i < |schema| && schema[i].name == name
  }

  /** Some column has the name, and is binary or large binary. */
  ghost predicate HasBinary(schema: Schema, name: string) {
    exists i :: 0 <= i < |schema| && schema[i].name == name && schema[i].kind in {Binary, LargeBinary}
  }

  /** Some struct column has the name, and a field `field`. */
  ghost predicate HasField(schema: Schema, name: string, field: string) {
    exists i :: 0 <= i < |schema| && schema[i].name == name && schema[i].kind.Struct? && field in schema[i].kind.fields
  }

  /** Some column has the name, and if it holds a value, its values have a length. */
  ghost predicate HasLengths(schema: Schema, name: string) {
    exists i :: 0 <= i < |schema| && schema[i].name == name && (schema[i].filled ==> schema[i].kind != OtherUnsized)
  }

  /** A column is asked for by its name. */
  lemma {:induction false} FieldNamedMeans(schema: Schema, name: string, field: SchemaField)
    requires DistinctNames(schema)
    ensures FieldNamed(schema, name) == Some(field) <==> field in schema && field.name == name
    ensures FieldNamed(schema, name).None? <==> !HasColumn(schema, name)
  {
    if schema == [] {
    } else {
      FieldNamedMeans(schema[1..], name, field);
      assert forall i :: 0 < i < |schema| ==> schema[i] == schema[1..][i - 1];
      assert schema == [schema[0]] + schema[1..];
    }
  }

  lemma SchemaMeans(schema: Schema, name: string)
    requires DistinctNames(schema)
    ensures KindOf(schema, name).Some? <==> HasColumn(schema, name)
    ensures BinaryColumn(schema, name) <==> HasBinary(schema, name)
    ensures CanSample(schema, name) <==> HasLengths(schema, name)
    ensures forall field :: HasStructField(schema, name, field) <==> HasField(schema, name, field)
  {
    forall f: SchemaField ensures FieldNamed(schema, name) == Some(f) <==> f in schema && f.name == name
      ensures FieldNamed(schema, name).None? <==> !HasColumn(schema, name)
    {
      FieldNamedMeans(schema, name, f);
    }
    hide FieldNamed, DistinctNames;
    assert forall i :: 0 <= i < |schema| ==> schema[i] in schema;
  }

  // ---------- coverings ----------

  const BBOX_FIELDS: seq<string> := ["xmin", "ymin", "zmin", "xmax", "ymax", "zmax"]
  const VSPAN_FIELDS: seq<string> := ["vmin", "vmax"]
  const TSPAN_FIELDS: seq<string> := ["tmin", "tmax"]

  /** `COVERING_FIELDS`, in its order. */
  const COVERING_FIELDS: seq<(string, seq<string>)> :=
    [("bbox", BBOX_FIELDS), ("vspan", VSPAN_FIELDS), ("tspan", TSPAN_FIELDS)]

  function Target(column: string, key: string): string {
    column + "_" + key
  }

  /** `{f: [target, f] for f in fields if f in present}`. */
  function Bounds(schema: Schema, target: string, fields: seq<string>): map<string, seq<string>> {
    map f | f in fields && HasStructField(schema, target, f) :: [target, f]
  }

  /** The coverings of the first `n` keys. */
  function CoveringsUpTo(schema: Schema, column: string, n: nat): Covering
    requires n <= |COVERING_FIELDS|
  {
    if n == 0 then map[]
    else
      var (key, fields) := COVERING_FIELDS[n - 1];
      var rest, bounds := CoveringsUpTo(schema, column, n - 1), Bounds(schema, Target(column, key), fields);
      if bounds == map[] then rest else rest[key := bounds]
  }

  function Coverings(schema: Schema, column: string): Covering {
    CoveringsUpTo(schema, column, |COVERING_FIELDS|)
  }

  lemma CoveringsUpToNone(schema: Schema, column: string)
    ensures CoveringsUpTo(schema, column, 0) == map[]
  {
  }

  lemma CoveringsStep(schema: Schema, column: string, n: nat)
    requires n < |COVERING_FIELDS|
    ensures var (key, fields) := COVERING_FIELDS[n];
      var rest, bounds := CoveringsUpTo(schema, column, n), Bounds(schema, Target(column, key), fields);
      CoveringsUpTo(schema, column, n + 1) == if bounds == map[] then rest else rest[key := bounds]
  {
    hide Bounds, Target;
  }

  lemma BoundsOfStruct(schema: Schema, target: string, fields: seq<string>)
    requires KindOf(schema, target).Some? && KindOf(schema, target).value.Struct?
    ensures Bounds(schema, target, fields) == map f | f in fields && f in KindOf(schema, target).value.fields :: [target, f]
  {
    hide KindOf;
  }

  /** `coverings_in_schema`, with its loop. */
  method CoveringsInSchema(schema: Schema, column: string) returns (covering: Covering)
    ensures covering == Coverings(schema, column)
  {
    covering := map[];
    var i := 0;
    hide Bounds, Target, KindOf, CoveringsUpTo;
    CoveringsUpToNone(schema, column);
    while i < |COVERING_FIELDS|
      invariant i <= |COVERING_FIELDS|
      invariant covering == CoveringsUpTo(schema, column, i)
    {
      var (key, fields) := COVERING_FIELDS[i];
      var target := Target(column, key);
      var kind := KindOf(schema, target);
      CoveringsStep(schema, column, i);
      if kind.None? || !kind.value.Struct? {
        NotAStruct(schema, target, fields);
      } else {
        var bounds := map f | f in fields && f in kind.value.fields :: [target, f];
        BoundsOfStruct(schema, target, fields);
        if bounds != map[] {
          covering := covering[key := bounds];
        }
      }
      i := i + 1;
    }
  }

  lemma NotAStruct(schema: Schema, target: string, fields: seq<string>)
    requires KindOf(schema, target).None? || !KindOf(schema, target).value.Struct?
    ensures Bounds(schema, target, fields) == map[]
  {
  }

  lemma KeysDiffer()
    ensures COVERING_FIELDS[0].0 != COVERING_FIELDS[1].0 && COVERING_FIELDS[1].0 != COVERING_FIELDS[2].0
    ensures COVERING_FIELDS[0].0 != COVERING_FIELDS[2].0
  {
    assert |"bbox"| == 4 && |"vspan"| == 5 && |"tspan"| == 5;
    assert "vspan"[0] == 'v' && "tspan"[0] == 't';
  }

  lemma {:induction false} CoveringHolds(schema: Schema, column: string, n: nat, i: nat)
    requires i < n <= |COVERING_FIELDS|
    ensures var (key, fields) := COVERING_FIELDS[i];
      var covering, bounds := CoveringsUpTo(schema, column, n), Bounds(schema, Target(column, key), fields);
      && (key in covering <==> bounds != map[])
      && (key in covering ==> covering[key] == bounds)
    decreases n
  {
    hide Bounds;
    KeysDiffer();
    if i < n - 1 {
      CoveringHolds(schema, column, n - 1, i);
    } else {
      CoveringNew(schema, column, n - 1, i);
    }
  }

  lemma {:induction false} CoveringNew(schema: Schema, column: string, n: nat, i: nat)
    requires n <= i < |COVERING_FIELDS|
    ensures COVERING_FIELDS[i].0 !in CoveringsUpTo(schema, column, n)
  {
    hide Bounds;
    KeysDiffer();
    if n > 0 {
      CoveringNew(schema, column, n - 1, i);
    }
  }

  lemma DeclaredAt(schema: Schema, column: string, i: nat, bound: string)
    requires i < |COVERING_FIELDS|
    ensures var (key, fields) := COVERING_FIELDS[i];
      var covering := Coverings(schema, column);
      && (key in covering && bound in covering[key] <==> bound in fields && HasStructField(schema, Target(column, key), bound))
      && (key in covering && bound in covering[key] ==> covering[key][bound] == [Target(column, key), bound])
      && (key in covering ==> covering[key] != map[])
  {
    CoveringHolds(schema, column, |COVERING_FIELDS|, i);
    var (key, fields) := COVERING_FIELDS[i];
    var bounds := Bounds(schema, Target(column, key), fields);
    assert bound in bounds <==> bound in fields && HasStructField(schema, Target(column, key), bound);
    hide HasStructField, Target, CoveringsUpTo;
    assert bounds == map[] ==> bound !in bounds;
  }

  /** The bounds a covering may name. */
  predicate IsBound(key: string, bound: string) {
    || (key == "bbox" && bound in ["xmin", "ymin", "zmin", "xmax", "ymax", "zmax"])
    || (key == "vspan" && bound in ["vmin", "vmax"])
    || (key == "tspan" && bound in ["tmin", "tmax"])
  }

  lemma {:induction false} OnlyThreeKeys(schema: Schema, column: string, n: nat, key: string)
    requires n <= |COVERING_FIELDS| && key in CoveringsUpTo(schema, column, n)
    ensures exists i :: 0 <= i < n && COVERING_FIELDS[i].0 == key
  {
    hide Bounds;
    if key != COVERING_FIELDS[n - 1].0 {
      OnlyThreeKeys(schema, column, n - 1, key);
    }
  }

  lemma BoundsOf(i: nat, bound: string)
    requires i < |COVERING_FIELDS|
    ensures bound in COVERING_FIELDS[i].1 <==> IsBound(COVERING_FIELDS[i].0, bound)
  {
    KeysDiffer();
  }

  lemma KeyPlace(key: string) returns (i: nat)
    ensures i <= |COVERING_FIELDS| && (i < |COVERING_FIELDS| ==> COVERING_FIELDS[i].0 == key)
    ensures i == |COVERING_FIELDS| ==> (forall k :: 0 <= k < |COVERING_FIELDS| ==> COVERING_FIELDS[k].0 != key) && forall b :: !IsBound(key, b)
  {
    i := if key == "bbox" then 0 else if key == "vspan" then 1 else if key == "tspan" then 2 else 3;
  }

  /** A bound is declared, with the path of its field, exactly when the struct column of the covering holds that field. */
  lemma {:induction false} BoundDeclaredIffHeld(schema: Schema, column: string, key: string, bound: string)
    requires DistinctNames(schema)
    ensures var covering := Coverings(schema, column);
      && (key in covering && bound in covering[key] <==> IsBound(key, bound) && HasField(schema, column + "_" + key, bound))
      && (key in covering && bound in covering[key] ==> covering[key][bound] == [column + "_" + key, bound])
      && (key in covering ==> covering[key] != map[])
  {
    SchemaMeans(schema, column + "_" + key);
    hide HasStructField, HasField, Coverings, IsBound;
    var i := KeyPlace(key);
    if i < |COVERING_FIELDS| {
      DeclaredAt(schema, column, i, bound);
      BoundsOf(i, bound);
    } else if key in Coverings(schema, column) {
      NoOtherKey(schema, column, key);
    }
  }

  lemma NoOtherKey(schema: Schema, column: string, key: string)
    requires key in Coverings(schema, column)
    ensures exists i :: 0 <= i < |COVERING_FIELDS| && COVERING_FIELDS[i].0 == key
  {
    OnlyThreeKeys(schema, column, |COVERING_FIELDS|, key);
  }

  // ---------- what the verifier checks ----------

  /** A covering's path starts at a struct column of the schema and ends at one of its fields. */
  predicate RefHeld(schema: Schema, path: seq<string>) {
    path != [] && HasStructField(schema, path[0], path[|path| - 1])
  }

  ghost predicate BoundsHeld(schema: Schema, bounds: map<string, seq<string>>) {
    forall b :: b in bounds ==> RefHeld(schema, bounds[b])
  }

  ghost predicate CoveringHeld(schema: Schema, covering: Covering) {
    forall k :: k in covering ==> BoundsHeld(schema, covering[k])
  }

  /** Every path has a first and a last name. */
  ghost predicate PathsThere(covering: Covering) {
    forall k, b :: k in covering && b in covering[k] ==> covering[k][b] != []
  }

  datatype Verdict = Raised | Says(ok: bool)

  function CoveringOf(c: ColumnMeta): Covering {
    if c.covering.Some? then c.covering.value else map[]
  }

  /** All columns are in the file and can be sampled, and all paths can be taken apart: nothing is raised. */
  ghost predicate Readable(schema: Schema, columns: map<string, ColumnMeta>) {
    forall name :: name in columns ==> CanSample(schema, name) && PathsThere(CoveringOf(columns[name]))
  }

  ghost predicate AllHeld(schema: Schema, columns: map<string, ColumnMeta>) {
    forall name :: name in columns ==> CoveringHeld(schema, CoveringOf(columns[name]))
  }

  /** What `temporal_parquet_verify` says of a file. */
  ghost function VerdictOf(file: File): Verdict {
    if METADATA_KEY !in file.metadata then Says(false)
    else if file.metadata[METADATA_KEY].Raw? || !FileDecodable(file.metadata[METADATA_KEY].dict) then Raised
    else
      var columns := DecodeFile(file.metadata[METADATA_KEY].dict).columns;
      if !Readable(file.schema, columns) then Raised else Says(AllHeld(file.schema, columns))
  }

  /** Every path of the covering starts at a struct column of the schema and ends at one of its fields. */
  ghost predicate CoveringStands(schema: Schema, covering: Option<Covering>) {
    covering.Some? ==>
      forall k, b :: k in covering.value && b in covering.value[k] ==>
        var path := covering.value[k][b];
        path != [] && HasField(schema, path[0], path[|path| - 1])
  }

  ghost predicate NoEmptyPath(covering: Option<Covering>) {
    covering.Some? ==> forall k, b :: k in covering.value && b in covering.value[k] ==> covering.value[k][b] != []
  }

  lemma {:induction false} StandsMeans(schema: Schema, c: ColumnMeta)
    requires DistinctNames(schema)
    ensures ColumnHeld(schema, c) <==> CoveringStands(schema, c.covering)
    ensures PathsThere(CoveringOf(c)) <==> NoEmptyPath(c.covering)
  {
    hide HasStructField, HasField, DistinctNames;
    forall path: seq<string> | path != []
      ensures RefHeld(schema, path) <==> HasField(schema, path[0], path[|path| - 1])
    {
      SchemaMeans(schema, path[0]);
    }
    hide RefHeld;
    if ColumnHeld(schema, c) && c.covering.Some? {
      forall k, b | k in c.covering.value && b in c.covering.value[k] ensures RefHeld(schema, c.covering.value[k][b]) {
        assert BoundsHeld(schema, c.covering.value[k]);
      }
    }
  }

  /**
   * The verifier says False for a file without the key. It says True exactly when the key holds metadata, every
   * column of it is there and can be sampled, and every covering names fields that are there; it raises
   * where the metadata cannot be read, a column cannot be sampled, or a path is empty.
   */
  lemma {:induction false} VerdictMeans(file: File)
    requires DistinctNames(file.schema)
    ensures "temporal" !in file.metadata ==> VerdictOf(file) == Says(false)
    ensures "temporal" in file.metadata ==>
      var m := file.metadata["temporal"];
      if m.Raw? || !FileDecodable(m.dict) then VerdictOf(file) == Raised
      else
        var columns := DecodeFile(m.dict).columns;
        && (VerdictOf(file) == Raised <==>
              exists name :: name in columns && !(HasLengths(file.schema, name) && NoEmptyPath(columns[name].covering)))
        && (VerdictOf(file) == Says(true) <==>
              forall name :: name in columns ==> HasLengths(file.schema, name) && CoveringStands(file.schema, columns[name].covering))
  {
    if "temporal" in file.metadata && file.metadata["temporal"].Temporal? && FileDecodable(file.metadata["temporal"].dict) {
      var columns := DecodeFile(file.metadata["temporal"].dict).columns;
      hide DecodeFile, FileDecodable, DistinctNames, CanSample, HasLengths, CoveringStands, NoEmptyPath, CoveringHeld, PathsThere, CoveringOf;
      forall name | name in columns
        ensures CanSample(file.schema, name) <==> HasLengths(file.schema, name)
        ensures PathsThere(CoveringOf(columns[name])) <==> NoEmptyPath(columns[name].covering)
        ensures CoveringHeld(file.schema, CoveringOf(columns[name])) && PathsThere(CoveringOf(columns[name])) <==>
          CoveringStands(file.schema, columns[name].covering)
      {
        SchemaMeans(file.schema, name);
        StandsMeans(file.schema, columns[name]);
      }
    }
  }

  method CheckBounds(schema: Schema, bounds: map<string, seq<string>>) returns (raised: bool, ok: bool)
    ensures raised <==> exists b :: b in bounds && bounds[b] == []
    ensures !raised ==> (ok <==> BoundsHeld(schema, bounds))
  {
    hide HasStructField;
    raised, ok := false, true;
    var rest := bounds.Keys;
    while rest != {}
      invariant rest <= bounds.Keys && !raised
      invariant forall b :: b in bounds && b !in rest ==> bounds[b] != []
      invariant ok <==> forall b :: b in bounds && b !in rest ==> RefHeld(schema, bounds[b])
      decreases rest
    {
      var b :| b in rest;
      var path := bounds[b];
      if path == [] {
        return true, ok;
      }
      if !HasStructField(schema, path[0], path[|path| - 1]) {
        ok := false;
      }
      rest := rest - {b};
    }
  }

  method CheckCovering(schema: Schema, covering: Covering) returns (raised: bool, ok: bool)
    ensures raised <==> !PathsThere(covering)
    ensures !raised ==> (ok <==> CoveringHeld(schema, covering))
  {
    hide BoundsHeld;
    raised, ok := false, true;
    var rest := covering.Keys;
    while rest != {}
      invariant rest <= covering.Keys && !raised
      invariant forall k, b :: k in covering && k !in rest && b in covering[k] ==> covering[k][b] != []
      invariant ok <==> forall k :: k in covering && k !in rest ==> BoundsHeld(schema, covering[k])
      decreases rest
    {
      var k :| k in rest;
      var stop, held := CheckBounds(schema, covering[k]);
      if stop {
        return true, ok;
      }
      ok := ok && held;
      rest := rest - {k};
    }
  }

  lemma NoColumns(schema: Schema, columns: map<string, ColumnMeta>)
    ensures Readable(schema, columns - columns.Keys) && AllHeld(schema, columns - columns.Keys)
  {
  }

  /** The columns not in `rest`, and one more. */
  lemma OneMoreColumn(schema: Schema, columns: map<string, ColumnMeta>, rest: set<string>, name: string)
    requires name in rest && name in columns
    ensures var c := CoveringOf(columns[name]);
      && (Readable(schema, columns - (rest - {name})) <==> Readable(schema, columns - rest) && CanSample(schema, name) && PathsThere(c))
      && (AllHeld(schema, columns - (rest - {name})) <==> AllHeld(schema, columns - rest) && CoveringHeld(schema, c))
      && (Readable(schema, columns) ==> CanSample(schema, name) && PathsThere(c))
  {
    hide CanSample, PathsThere, CoveringHeld, CoveringOf;
    var before, after := columns - rest, columns - (rest - {name});
    assert after == before[name := columns[name]];
    if Readable(schema, after) || AllHeld(schema, after) {
      assert forall n :: n in before ==> n in after && after[n] == before[n];
      assert name in after;
    }
  }

  /** `temporal_parquet_verify`, without the rows it prints; sampling a column for them can raise. */
  method Verify(file: File) returns (v: Verdict)
    ensures v == VerdictOf(file)
  {
    if METADATA_KEY !in file.metadata {
      return Says(false);
    }
    if file.metadata[METADATA_KEY].Raw? || !FileDecodable(file.metadata[METADATA_KEY].dict) {
      return Raised;
    }
    var columns := DecodeFile(file.metadata[METADATA_KEY].dict).columns;
    hide FileDecodable, DecodeFile, PathsThere, CoveringHeld, CanSample, Readable, AllHeld, CoveringOf;
    NoColumns(file.schema, columns);
    var ok := true;
    var rest := columns.Keys;
    while rest != {}
      invariant rest <= columns.Keys
      invariant Readable(file.schema, columns - rest)
      invariant ok <==> AllHeld(file.schema, columns - rest)
      decreases rest
    {
      var name :| name in rest;
      OneMoreColumn(file.schema, columns, rest, name);
      if !CanSample(file.schema, name) {
        return Raised;
      }
      var stop, held := CheckCovering(file.schema, CoveringOf(columns[name]));
      if stop {
        return Raised;
      }
      ok := ok && held;
      rest := rest - {name};
    }
    assert columns - rest == columns;
    return Says(ok);
  }

  // ---------- the writer ----------

  datatype WriteResult =
    | Written(file: File)
    | NotFound(column: string)
    | NotBinary(column: string)

  /** A `TemporalColumnMeta` object, whose covering the writer may fill in. */
  class Column {
    var meta: ColumnMeta

    constructor (meta: ColumnMeta)
      ensures this.meta == meta
    {
      this.meta := meta;
    }
  }

  /** A binary column can be sampled, whatever its rows hold. */
  lemma BinaryCanSample(schema: Schema, name: string)
    requires BinaryColumn(schema, name)
    ensures CanSample(schema, name)
  {
    hide FieldNamed;
  }

  /** What the writer says of the columns declared: the first that is missing or not binary, if any. */
  function Problem(schema: Schema, names: seq<string>): Option<WriteResult> {
    if names == [] then None
    else
      match KindOf(schema, names[0])
      case None => Some(NotFound(names[0]))
      case Some(kind) => if IsBinary(kind) then Problem(schema, names[1..]) else Some(NotBinary(names[0]))
  }

  /** `coverings_in_schema(…) or None`. */
  function Derived(schema: Schema, column: string): Option<Covering> {
    if Coverings(schema, column) == map[] then None else Some(Coverings(schema, column))
  }

  function PrimaryOf(primary: Option<string>, names: seq<string>): Option<string> {
    if primary.Some? && primary.value != "" then primary
    else if |names| == 1 then Some(names[0])
    else None
  }

  /** The file with the metadata written under its key and everything else kept. */
  function Annotated(source: File, m: FileMeta): File {
    File(source.schema, source.metadata[METADATA_KEY := Temporal(EncodeFile(m))])
  }

  function NamesOf(columns: seq<(string, Column)>): (names: seq<string>)
    ensures |names| == |columns| && forall i :: 0 <= i < |columns| ==> names[i] == columns[i].0
  {
    seq(|columns|, i requires 0 <= i < |columns| => columns[i].0)
  }

  function ObjectsOf(columns: seq<(string, Column)>): set<Column> {
    set i | 0 <= i < |columns| :: columns[i].1
  }

  function MetaOf(columns: seq<(string, Column)>): (m: map<string, ColumnMeta>)
    reads ObjectsOf(columns)
    ensures forall name :: name in m <==> name in NamesOf(columns)
  {
    if columns == [] then map[]
    else
      var n := |columns| - 1;
      assert forall i :: 0 <= i < n ==> columns[..n][i] == columns[i];
      assert NamesOf(columns) == NamesOf(columns[..n]) + [columns[n].0];
      MetaOf(columns[..n])[columns[n].0 := columns[n].1.meta]
  }

  /** A derived covering is held by the schema it is derived from. */
  lemma {:induction false} DerivedHeld(schema: Schema, column: string, n: nat)
    requires n <= |COVERING_FIELDS|
    ensures CoveringHeld(schema, CoveringsUpTo(schema, column, n)) && PathsThere(CoveringsUpTo(schema, column, n))
  {
    hide HasStructField;
    if n > 0 {
      DerivedHeld(schema, column, n - 1);
    }
  }

  ghost predicate ColumnHeld(schema: Schema, c: ColumnMeta) {
    CoveringHeld(schema, CoveringOf(c)) && PathsThere(CoveringOf(c))
  }

  /** The verifier accepts a written file exactly when every covering of its columns is held by its schema. */
  lemma AnnotatedVerdict(source: File, m: FileMeta)
    requires forall name :: name in m.columns ==> BinaryColumn(source.schema, name)
    ensures VerdictOf(Annotated(source, m)) == Says(true) <==>
      forall name :: name in m.columns ==> ColumnHeld(source.schema, m.columns[name])
  {
    hide EncodeFile, DecodeFile, FileDecodable, CoveringHeld, PathsThere, Canonical;
    FileRoundTrip(m);
    var columns := CanonicalFile(m).columns;
    forall name | name in m.columns
      ensures CoveringOf(columns[name]) == CoveringOf(m.columns[name]) && CanSample(source.schema, name)
    {
      CanonicalCovering(m.columns[name]);
      BinaryCanSample(source.schema, name);
    }
  }

  lemma CanonicalCovering(c: ColumnMeta)
    ensures CoveringOf(Canonical(c)) == CoveringOf(c)
  {
  }

  /** The validation loop of the writer. */
  method FindProblem(schema: Schema, columns: seq<(string, Column)>) returns (p: Option<WriteResult>)
    ensures p == Problem(schema, NamesOf(columns))
  {
    hide KindOf;
    ghost var names := NamesOf(columns);
    assert names[0..] == names;
    var i := 0;
    while i < |columns|
      invariant i <= |columns|
      invariant Problem(schema, names) == Problem(schema, names[i..])
    {
      assert names[i..][0] == columns[i].0 && names[i..][1..] == names[i + 1..];
      var kind := KindOf(schema, columns[i].0);
      if kind.None? {
        return Some(NotFound(columns[i].0));
      }
      if !IsBinary(kind.value) {
        return Some(NotBinary(columns[i].0));
      }
      i := i + 1;
    }
    return None;
  }

  /** The metadata of a column once the writer has looked at it. */
  function Filled(schema: Schema, name: string, c: ColumnMeta): ColumnMeta {
    if c.covering.None? then c.(covering := Derived(schema, name)) else c
  }

  method FillColumn(schema: Schema, name: string, column: Column)
    modifies column
    ensures column.meta == Filled(schema, name, old(column.meta))
  {
    if column.meta.covering.None? {
      var covering := CoveringsInSchema(schema, name);
      column.meta := column.meta.(covering := if covering == map[] then None else Some(covering));
    }
  }

  lemma FilledHeld(schema: Schema, name: string, c: ColumnMeta)
    requires c.covering.None?
    ensures ColumnHeld(schema, Filled(schema, name, c))
  {
    DerivedHeld(schema, name, |COVERING_FIELDS|);
  }

  /** The object of column `i` is the object of no other column. */
  ghost predicate OwnObject(columns: seq<(string, Column)>, i: nat)
    requires i < |columns|
  {
    forall j :: 0 <= j < |columns| && columns[j].1 == columns[i].1 ==> j == i
  }

  /** A column is as it was, or had no covering and got one that is held. */
  ghost predicate FilledOrSame(schema: Schema, before: ColumnMeta, after: ColumnMeta) {
    after == before || (before.covering.None? && after == before.(covering := after.covering) && ColumnHeld(schema, after))
  }

  lemma FilledIs(schema: Schema, name: string, c: ColumnMeta)
    ensures FilledOrSame(schema, c, Filled(schema, name, c))
    ensures c.covering.None? ==> ColumnHeld(schema, Filled(schema, name, c))
    ensures c.covering.Some? ==> Filled(schema, name, c) == c
  {
    hide ColumnHeld, Derived;
    if c.covering.None? {
      FilledHeld(schema, name, c);
    }
  }

  /** The covering declares the path to the bound. */
  ghost predicate Declared(covering: Option<Covering>, key: string, bound: string, path: seq<string>) {
    covering.Some? && key in covering.value && bound in covering.value[key] && covering.value[key][bound] == path
  }

  /**
   * A column without a covering gets one that declares exactly the bounds its struct columns hold, or none
   * where they hold none; nothing else of it changes, and nothing at all of a column that has a covering.
   */
  lemma {:induction false} FilledMeans(schema: Schema, name: string, c: ColumnMeta, key: string, bound: string, path: seq<string>)
    requires DistinctNames(schema)
    ensures var after := Filled(schema, name, c);
      && after == c.(covering := after.covering)
      && (c.covering.Some? ==> after == c)
      && (c.covering.None? ==>
            && (Declared(after.covering, key, bound, path) <==>
                  IsBound(key, bound) && HasField(schema, name + "_" + key, bound) && path == [name + "_" + key, bound])
            && after.covering != Some(map[]))
  {
    BoundDeclaredIffHeld(schema, name, key, bound);
    hide Coverings, HasField, IsBound;
  }

  /** The loop that fills in the coverings; columns may share an object. */
  method FillCoverings(schema: Schema, columns: seq<(string, Column)>)
    modifies ObjectsOf(columns)
    ensures forall o :: o in ObjectsOf(columns) ==> o.meta == old(o.meta).(covering := o.meta.covering)
    ensures forall o :: o in ObjectsOf(columns) && old(o.meta).covering.Some? ==> o.meta == old(o.meta)
    ensures forall o :: o in ObjectsOf(columns) && old(o.meta).covering.None? ==> ColumnHeld(schema, o.meta)
    ensures forall i :: 0 <= i < |columns| && OwnObject(columns, i) ==>
              columns[i].1.meta == Filled(schema, columns[i].0, old(columns[i].1.meta))
  {
    hide ColumnHeld, Filled;
    var i := 0;
    while i < |columns|
      invariant i <= |columns|
      invariant forall o :: o in ObjectsOf(columns) ==> FilledOrSame(schema, old(o.meta), o.meta)
      invariant forall j :: 0 <= j < i && old(columns[j].1.meta).covering.None? ==> ColumnHeld(schema, columns[j].1.meta)
      invariant forall j :: 0 <= j < i && OwnObject(columns, j) ==>
                  columns[j].1.meta == Filled(schema, columns[j].0, old(columns[j].1.meta))
      invariant forall j :: i <= j < |columns| && OwnObject(columns, j) ==> columns[j].1.meta == old(columns[j].1.meta)
    {
      var column := columns[i].1;
      ghost var before := column.meta;
      assert column in ObjectsOf(columns);
      FillColumn(schema, columns[i].0, column);
      FilledIs(schema, columns[i].0, before);
      i := i + 1;
    }
  }

  lemma {:induction false} MetaOfColumn(columns: seq<(string, Column)>, i: nat)
    requires i < |columns| && forall j, k :: 0 <= j < k < |columns| ==> columns[j].0 != columns[k].0
    ensures columns[i].0 in MetaOf(columns) && MetaOf(columns)[columns[i].0] == columns[i].1.meta
  {
    assert NamesOf(columns)[i] == columns[i].0;
    if i < |columns| - 1 {
      MetaOfColumn(columns[..|columns| - 1], i);
    }
  }

  lemma {:induction false} NoProblem(schema: Schema, names: seq<string>)
    requires Problem(schema, names).None?
    ensures forall name :: name in names ==> BinaryColumn(schema, name)
  {
    hide KindOf;
    if names == [] {
    } else {
      NoProblem(schema, names[1..]);
    }
  }

  lemma {:induction false} ColumnOfName(columns: seq<(string, Column)>, name: string) returns (i: nat)
    requires forall j, k :: 0 <= j < k < |columns| ==> columns[j].0 != columns[k].0
    requires name in MetaOf(columns)
    ensures i < |columns| && columns[i].0 == name && MetaOf(columns)[name] == columns[i].1.meta
    ensures columns[i].1 in ObjectsOf(columns)
  {
    i :| 0 <= i < |columns| && NamesOf(columns)[i] == name;
    hide MetaOf;
    MetaOfColumn(columns, i);
  }

  lemma {:induction false} ObjectNamed(columns: seq<(string, Column)>, o: Column) returns (name: string)
    requires forall j, k :: 0 <= j < k < |columns| ==> columns[j].0 != columns[k].0
    requires o in ObjectsOf(columns)
    ensures name in MetaOf(columns) && MetaOf(columns)[name] == o.meta
  {
    hide MetaOf;
    var i :| 0 <= i < |columns| && columns[i].1 == o;
    MetaOfColumn(columns, i);
    name := columns[i].0;
  }

  lemma {:induction false} HeldByName(schema: Schema, columns: seq<(string, Column)>)
    requires forall j, k :: 0 <= j < k < |columns| ==> columns[j].0 != columns[k].0
    ensures (forall name :: name in MetaOf(columns) ==> ColumnHeld(schema, MetaOf(columns)[name])) <==>
      forall o :: o in ObjectsOf(columns) ==> ColumnHeld(schema, o.meta)
  {
    hide ColumnHeld, MetaOf, NamesOf, ObjectsOf;
    if name :| name in MetaOf(columns) && !ColumnHeld(schema, MetaOf(columns)[name]) {
      var i := ColumnOfName(columns, name);
    } else if o :| o in ObjectsOf(columns) && !ColumnHeld(schema, o.meta) {
      var name := ObjectNamed(columns, o);
    }
  }

  /** Whether the verifier accepts is a matter of the coverings in the columns' objects. */
  lemma {:induction false} VerdictOfColumns(source: File, columns: seq<(string, Column)>, primary: Option<string>)
    requires forall j, k :: 0 <= j < k < |columns| ==> columns[j].0 != columns[k].0
    requires Problem(source.schema, NamesOf(columns)).None?
    ensures VerdictOf(Annotated(source, FileMeta(MetaOf(columns), TEMPORAL_PARQUET_VERSION, primary))) == Says(true) <==>
      forall o :: o in ObjectsOf(columns) ==> ColumnHeld(source.schema, o.meta)
  {
    hide ColumnHeld, BinaryColumn, VerdictOf, Annotated, MetaOf, ObjectsOf, Problem, NamesOf;
    NoProblem(source.schema, NamesOf(columns));
    AnnotatedVerdict(source, FileMeta(MetaOf(columns), TEMPORAL_PARQUET_VERSION, primary));
    HeldByName(source.schema, columns);
  }

  /** The metadata a written file is read back with: the columns' canonical forms, the version, and the primary column. */
  ghost predicate ReadsAs(file: File, columns: seq<(string, Column)>, primary: Option<string>)
    reads ObjectsOf(columns)
  {
    && "temporal" in file.metadata && file.metadata["temporal"].Temporal?
    && FileDecodable(file.metadata["temporal"].dict)
    && var m := DecodeFile(file.metadata["temporal"].dict);
       && (forall name :: name in m.columns <==> exists i :: 0 <= i < |columns| && columns[i].0 == name)
       && (forall i :: 0 <= i < |columns| ==> columns[i].0 in m.columns && m.columns[columns[i].0] == Canonical(columns[i].1.meta))
       && m.version == "2.0.0"
       && m.primary ==
            if primary.Some? && primary.value != "" then primary
            else if |columns| == 1 && columns[0].0 != "" then Some(columns[0].0)
            else None
  }

  /** `file` is `source` but for the value under the metadata key. */
  ghost predicate OnlyKeyWritten(source: File, file: File) {
    && file.schema == source.schema
    && file.metadata.Keys == source.metadata.Keys + {"temporal"}
    && forall key :: key in source.metadata && key != "temporal" ==> file.metadata[key] == source.metadata[key]
  }

  lemma AnnotatedKeeps(source: File, m: FileMeta)
    ensures OnlyKeyWritten(source, Annotated(source, m))
    ensures Annotated(source, m).metadata["temporal"] == Temporal(EncodeFile(m))
  {
    hide EncodeFile;
  }

  lemma CanonicalParts(m: FileMeta)
    ensures var c := CanonicalFile(m);
      && (forall name :: name in c.columns <==> name in m.columns)
      && (forall name :: name in m.columns ==> c.columns[name] == Canonical(m.columns[name]))
      && c.version == m.version
      && c.primary == if m.primary == Some("") then None else m.primary
  {
    hide Canonical;
  }

  lemma NamesMean(columns: seq<(string, Column)>, name: string)
    ensures name in NamesOf(columns) <==> exists i :: 0 <= i < |columns| && columns[i].0 == name
  {
    if i :| 0 <= i < |columns| && columns[i].0 == name {
      assert NamesOf(columns)[i] == name;
    }
  }

  /** What the writer writes is read back as what it was given. */
  lemma {:induction false} WrittenReadsAs(source: File, columns: seq<(string, Column)>, primary: Option<string>)
    requires forall j, k :: 0 <= j < k < |columns| ==> columns[j].0 != columns[k].0
    ensures var m := FileMeta(MetaOf(columns), TEMPORAL_PARQUET_VERSION, PrimaryOf(primary, NamesOf(columns)));
      ReadsAs(Annotated(source, m), columns, primary)
  {
    var m := FileMeta(MetaOf(columns), TEMPORAL_PARQUET_VERSION, PrimaryOf(primary, NamesOf(columns)));
    AnnotatedKeeps(source, m);
    FileRoundTrip(m);
    CanonicalParts(m);
    hide Annotated, EncodeFile, DecodeFile, FileDecodable, CanonicalFile, Canonical, MetaOf, NamesOf;
    forall name ensures name in MetaOf(columns) <==> exists i :: 0 <= i < |columns| && columns[i].0 == name {
      NamesMean(columns, name);
    }
    forall i | 0 <= i < |columns| ensures columns[i].0 in MetaOf(columns) && MetaOf(columns)[columns[i].0] == columns[i].1.meta {
      MetaOfColumn(columns, i);
    }
  }

  /** The columns before `i` are binary columns of the schema. */
  ghost predicate BinaryUpTo(schema: Schema, columns: seq<(string, Column)>, i: nat) {
    i <= |columns| && forall j :: 0 <= j < i ==> HasBinary(schema, columns[j].0)
  }

  /** The error is about the first column that is no binary column of the schema: it is missing, or of another type. */
  ghost predicate IsFirstProblem(schema: Schema, columns: seq<(string, Column)>, r: WriteResult) {
    exists i :: 0 <= i < |columns| && BinaryUpTo(schema, columns, i) && !HasBinary(schema, columns[i].0)
      && r == if HasColumn(schema, columns[i].0) then NotBinary(columns[i].0) else NotFound(columns[i].0)
  }

  lemma {:induction false} ProblemFrom(schema: Schema, columns: seq<(string, Column)>, i: nat)
    requires DistinctNames(schema) && BinaryUpTo(schema, columns, i)
    ensures match Problem(schema, NamesOf(columns)[i..])
      case None => BinaryUpTo(schema, columns, |columns|)
      case Some(p) => IsFirstProblem(schema, columns, p)
    decreases |columns| - i
  {
    hide KindOf, HasBinary, HasColumn, DistinctNames;
    var names := NamesOf(columns);
    if i < |columns| {
      assert names[i..][0] == columns[i].0 && names[i..][1..] == names[i + 1..];
      SchemaMeans(schema, columns[i].0);
      if HasBinary(schema, columns[i].0) {
        ProblemFrom(schema, columns, i + 1);
      }
    }
  }

  /** The writer's error, if any, is about the first column that cannot be annotated. */
  lemma {:induction false} ProblemMeans(schema: Schema, columns: seq<(string, Column)>)
    requires DistinctNames(schema)
    ensures match Problem(schema, NamesOf(columns))
      case None => BinaryUpTo(schema, columns, |columns|)
      case Some(p) => IsFirstProblem(schema, columns, p)
  {
    hide *;
    assert NamesOf(columns)[0..] == NamesOf(columns);
    NoneBefore(schema, columns);
    ProblemFrom(schema, columns, 0);
  }

  lemma NoneBefore(schema: Schema, columns: seq<(string, Column)>)
    ensures BinaryUpTo(schema, columns, 0)
  {
  }

  /** `temporal_parquet_write`, from the table read to the table written. */
  method Write(source: File, columns: seq<(string, Column)>, primary: Option<string>) returns (r: WriteResult)
    requires DistinctNames(source.schema)
    requires forall i, j :: 0 <= i < j < |columns| ==> columns[i].0 != columns[j].0
    modifies ObjectsOf(columns)
    // The file is written exactly when all columns are there and binary; otherwise the first that is not is
    // reported, before anything is changed.
    ensures r.Written? <==> BinaryUpTo(source.schema, columns, |columns|)
    ensures !r.Written? ==> IsFirstProblem(source.schema, columns, r) && forall o :: o in ObjectsOf(columns) ==> o.meta == old(o.meta)
    // The schema and all other metadata stay, and the key's value is read back as the metadata given.
    ensures r.Written? ==> OnlyKeyWritten(source, r.file) && ReadsAs(r.file, columns, primary)
    // Only coverings are filled in, and an explicit covering is left as given.
    ensures forall o :: o in ObjectsOf(columns) ==> o.meta == old(o.meta).(covering := o.meta.covering)
    ensures forall o :: o in ObjectsOf(columns) && old(o.meta).covering.Some? ==> o.meta == old(o.meta)
    // A column with its own object and no covering gets what its struct columns provide.
    ensures r.Written? ==> forall i :: 0 <= i < |columns| && OwnObject(columns, i) ==>
      columns[i].1.meta == Filled(source.schema, columns[i].0, old(columns[i].1.meta))
    // The verifier accepts what is written, exactly when the coverings given by the caller are held.
    ensures r.Written? ==>
      (VerdictOf(r.file) == Says(true) <==>
        forall o :: o in ObjectsOf(columns) && old(o.meta).covering.Some? ==> ColumnHeld(source.schema, old(o.meta)))
  {
    hide ColumnHeld, VerdictOf, Filled, Problem, Annotated, EncodeFile, ReadsAs, OnlyKeyWritten, IsFirstProblem, BinaryUpTo, DistinctNames;
    var problem := FindProblem(source.schema, columns);
    ProblemMeans(source.schema, columns);
    if problem.Some? {
      ProblemIsError(source.schema, NamesOf(columns));
      FirstIsNotBinary(source.schema, columns, problem.value);
      return problem.value;
    }
    FillCoverings(source.schema, columns);
    VerdictOfColumns(source, columns, PrimaryOf(primary, NamesOf(columns)));
    WrittenReadsAs(source, columns, primary);
    var m := FileMeta(MetaOf(columns), TEMPORAL_PARQUET_VERSION, PrimaryOf(primary, NamesOf(columns)));
    AnnotatedKeeps(source, m);
    r := Written(Annotated(source, m));
  }

  lemma FirstIsNotBinary(schema: Schema, columns: seq<(string, Column)>, r: WriteResult)
    requires IsFirstProblem(schema, columns, r)
    ensures !BinaryUpTo(schema, columns, |columns|)
  {
    hide HasBinary, HasColumn;
  }

  lemma {:induction false} ProblemIsError(schema: Schema, names: seq<string>)
    requires Problem(schema, names).Some?
    ensures !Problem(schema, names).value.Written?
  {
    if KindOf(schema, names[0]).Some? && IsBinary(KindOf(schema, names[0]).value) {
      ProblemIsError(schema, names[1..]);
    }
  }
}
