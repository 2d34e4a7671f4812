/** The metadata codec of tools/temporal_parquet.py. */
module TemporalMeta {
  import opened Text

  /** A parsed JSON value. */
  datatype Json =
    | JNull
    | JBool(b: bool)
    | JInt(n: int)
    | JStr(s: string)
    | JArr(items: seq<Json>)
    | JObj(fields: map<string, Json>)

  /** The keys of a column's dictionary. */
  datatype Key =
    | Encoding | EncodingVersion | BaseType | Subtype | Interpolation | Srid | Crs | Edges | Geodetic | HasZ | CoveringKey
    | OtherKey(name: string)

  /** A column's dictionary. */
  type Dict = map<Key, Json>

  /** A covering: key to bound to the path of the field that carries it. */
  type Covering = map<string, map<string, seq<string>>>

  /** `TemporalColumnMeta`. For `crs`, None is ABSENT and Some(JNull) is None. */
  datatype ColumnMeta = ColumnMeta(
    baseType: string, encoding: string, encodingVersion: string,
    subtype: Option<string>, interpolation: Option<string>,
    srid: Option<int>, crs: Option<Json>, edges: Option<string>, hasZ: Option<bool>,
    covering: Option<Covering>)

  /** `TemporalParquetMeta`. */
  datatype FileMeta = FileMeta(columns: map<string, ColumnMeta>, version: string, primary: Option<string>)

  const TEMPORAL_PARQUET_VERSION := "2.0.0"
  const ENCODING_VERSION := "1.0"
  const DEFAULT_ENCODING := "MEOS-WKB"

  /** `BASE_TYPE_EDGES.get(base_type)`. */
  function BaseTypeEdges(baseType: string): Option<string> {
    if baseType == "tgeompoint" || baseType == "tgeometry" then Some("planar")
    else if baseType == "tgeogpoint" || baseType == "tgeography" then Some("spherical")
    else None
  }

  // ---------- encoding ----------

  /** `self.edges or BASE_TYPE_EDGES.get(self.base_type)`. */
  function ResolvedEdges(c: ColumnMeta): Option<string> {
    if c.edges.Some? && c.edges.value != "" then c.edges else BaseTypeEdges(c.baseType)
  }

  function ResolvedCrs(c: ColumnMeta): Option<Json> {
    if c.crs.None? && c.srid == Some(0) then Some(JNull) else c.crs
  }

  function Strings(ss: seq<string>): (r: seq<Json>)
    ensures |r| == |ss| && forall i :: 0 <= i < |ss| ==> r[i] == JStr(ss[i])
  {
    seq(|ss|, i requires 0 <= i < |ss| => JStr(ss[i]))
  }

  function EncodeBounds(bounds: map<string, seq<string>>): Json {
    JObj(map b | b in bounds :: JArr(Strings(bounds[b])))
  }

  function EncodeCovering(covering: Covering): Json {
    JObj(map k | k in covering :: EncodeBounds(covering[k]))
  }

  /** What `to_dict` writes under a key, if anything. */
  function FieldOf(c: ColumnMeta, key: Key): Option<Json> {
    match key
    case Encoding => Some(JStr(c.encoding))
    case EncodingVersion => Some(JStr(c.encodingVersion))
    case BaseType => Some(JStr(c.baseType))
    case Subtype => OptionalStr(c.subtype)
    case Interpolation => OptionalStr(c.interpolation)
    case Srid => if c.srid.Some? then Some(JInt(c.srid.value)) else None
    case Crs => ResolvedCrs(c)
    case Edges => OptionalStr(ResolvedEdges(c))
    case Geodetic => if ResolvedEdges(c).Some? then Some(JBool(ResolvedEdges(c).value != "planar")) else None
    case HasZ => if c.hasZ.Some? then Some(JBool(c.hasZ.value)) else None
    case CoveringKey => if c.covering.Some? && c.covering.value != map[] then Some(EncodeCovering(c.covering.value)) else None
    case OtherKey(_) => None
  }

  function OptionalStr(value: Option<string>): Option<Json> {
    if value.Some? then Some(JStr(value.value)) else None
  }

  const KEYS: set<Key> :=
    {Encoding, EncodingVersion, BaseType, Subtype, Interpolation, Srid, Crs, Edges, Geodetic, HasZ, CoveringKey}

  /** The dictionary `to_dict` returns, key by key. */
  function Encode(c: ColumnMeta): Dict {
    map key | key in KEYS && FieldOf(c, key).Some? :: FieldOf(c, key).value
  }

  /** The place of a key in the order `to_dict` writes them. */
  function Rank(key: Key): nat {
    match key
    case Encoding => 0
    case EncodingVersion => 1
    case BaseType => 2
    case Subtype => 3
    case Interpolation => 4
    case Srid => 5
    case Crs => 6
    case Edges => 7
    case Geodetic => 8
    case HasZ => 9
    case CoveringKey => 10
    case OtherKey(_) => 11
  }

  /** The dictionary holds what belongs under the first `n` keys, and nothing else. */
  ghost predicate WrittenUpTo(d: Dict, c: ColumnMeta, n: nat) {
    forall key ::
      && (key in d <==> Rank(key) < n && FieldOf(c, key).Some?)
      && (key in d ==> d[key] == FieldOf(c, key).value)
  }

  /** `to_dict`, as it builds the dictionary. */
  method ToDict(c: ColumnMeta) returns (d: Dict)
    ensures d == Encode(c)
  {
    hide ResolvedEdges, EncodeCovering, Encode, WrittenUpTo, ResolvedCrs;
    d := map[Encoding := JStr(c.encoding), EncodingVersion := JStr(c.encodingVersion), BaseType := JStr(c.baseType)];
    RequiredHeld(c);
    ghost var d0 := d;
    if c.subtype.Some? {
      d := d[Subtype := JStr(c.subtype.value)];
    }
    OneMoreHeld(d0, d, c, Subtype);
    d0 := d;
    if c.interpolation.Some? {
      d := d[Interpolation := JStr(c.interpolation.value)];
    }
    OneMoreHeld(d0, d, c, Interpolation);
    d0 := d;
    if c.srid.Some? {
      d := d[Srid := JInt(c.srid.value)];
    }
    OneMoreHeld(d0, d, c, Srid);
    d := AddSpatial(c, d);
    d0 := d;
    if c.hasZ.Some? {
      d := d[HasZ := JBool(c.hasZ.value)];
    }
    OneMoreHeld(d0, d, c, HasZ);
    d0 := d;
    if c.covering.Some? && c.covering.value != map[] {
      d := d[CoveringKey := EncodeCovering(c.covering.value)];
    }
    OneMoreHeld(d0, d, c, CoveringKey);
    AllWritten(d, c);
  }

  /** The part of `to_dict` for `crs`, `edges` and `geodetic`. */
  method AddSpatial(c: ColumnMeta, d0: Dict) returns (d: Dict)
    requires WrittenUpTo(d0, c, Rank(Crs))
    ensures WrittenUpTo(d, c, Rank(HasZ))
  {
    hide ResolvedEdges, EncodeCovering, WrittenUpTo;
    d := d0;
    var crs := c.crs;
    if crs.None? && c.srid == Some(0) {
      crs := Some(JNull);
    }
    if crs.Some? {
      d := d[Crs := crs.value];
    }
    OneMoreHeld(d0, d, c, Crs);
    var edges := ResolvedEdges(c);
    ghost var d1 := d;
    if edges.Some? {
      d := d[Edges := JStr(edges.value)];
      OneMoreHeld(d1, d, c, Edges);
      d1 := d;
      d := d[Geodetic := JBool(edges.value != "planar")];
    } else {
      OneMoreHeld(d1, d, c, Edges);
    }
    OneMoreHeld(d1, d, c, Geodetic);
  }

  lemma RequiredHeld(c: ColumnMeta)
    ensures WrittenUpTo(map[Encoding := JStr(c.encoding), EncodingVersion := JStr(c.encodingVersion), BaseType := JStr(c.baseType)],
                  c, Rank(Subtype))
  {
    hide ResolvedEdges, EncodeCovering, ResolvedCrs;
  }

  lemma SameRank(a: Key, b: Key)
    requires Rank(a) == Rank(b) < 11
    ensures a == b
  {
  }

  /** Writing a field that is there, or leaving out one that is not, keeps the dictionary right. */
  lemma OneMoreHeld(d0: Dict, d: Dict, c: ColumnMeta, key: Key)
    requires Rank(key) < 11 && WrittenUpTo(d0, c, Rank(key))
    requires d == if FieldOf(c, key).Some? then d0[key := FieldOf(c, key).value] else d0
    ensures WrittenUpTo(d, c, Rank(key) + 1)
  {
    hide FieldOf, Rank;
    forall k ensures k in d <==> Rank(k) < Rank(key) + 1 && FieldOf(c, k).Some?
      ensures k in d ==> d[k] == FieldOf(c, k).value
    {
      if Rank(k) == Rank(key) {
        SameRank(k, key);
      }
    }
  }

  lemma AllWritten(d: Dict, c: ColumnMeta)
    requires WrittenUpTo(d, c, 11)
    ensures d == Encode(c)
  {
    forall key ensures key in KEYS <==> Rank(key) < 11 {
    }
    hide FieldOf, Rank;
  }

  // ---------- decoding ----------

  /** `d.get(key)`: a missing key and a null both read as null. */
  function Get(d: Dict, key: Key): Json {
    if key in d then d[key] else JNull
  }

  /** Whether the value under a key is what the dataclass declares for it. */
  predicate OptStr(j: Json) { j.JNull? || j.JStr? }
  predicate OptInt(j: Json) { j.JNull? || j.JInt? }
  predicate OptBool(j: Json) { j.JNull? || j.JBool? }

  predicate IsPath(j: Json) {
    j.JArr? && forall i :: 0 <= i < |j.items| ==> j.items[i].JStr?
  }

  predicate IsBounds(j: Json) {
    j.JObj? && forall b :: b in j.fields ==> IsPath(j.fields[b])
  }

  predicate OptCovering(j: Json) {
    j.JNull? || (j.JObj? && forall k :: k in j.fields ==> IsBounds(j.fields[k]))
  }

  /** The dictionary has a base type, and every field has its declared type. */
  predicate Decodable(d: Dict) {
    && BaseType in d && d[BaseType].JStr?
    && (Encoding in d ==> d[Encoding].JStr?)
    && (EncodingVersion in d ==> d[EncodingVersion].JStr?)
    && OptStr(Get(d, Subtype)) && OptStr(Get(d, Interpolation))
    && OptInt(Get(d, Srid))
    && OptStr(Get(d, Edges)) && OptBool(Get(d, Geodetic))
    && OptBool(Get(d, HasZ))
    && OptCovering(Get(d, CoveringKey))
  }

  function StrOf(j: Json): Option<string> {
    if j.JStr? then Some(j.s) else None
  }

  function DecodePath(j: Json): (r: seq<string>)
    requires IsPath(j)
    ensures |r| == |j.items| && forall i :: 0 <= i < |r| ==> r[i] == j.items[i].s
  {
    seq(|j.items|, i requires 0 <= i < |j.items| => j.items[i].s)
  }

  function DecodeBounds(j: Json): map<string, seq<string>>
    requires IsBounds(j)
  {
    map b | b in j.fields :: DecodePath(j.fields[b])
  }

  function DecodeCovering(j: Json): Option<Covering>
    requires OptCovering(j)
  {
    if j.JNull? then None else Some(map k | k in j.fields :: DecodeBounds(j.fields[k]))
  }

  /** `edges`, or what the legacy `geodetic` says where `edges` is missing. */
  function DecodeEdges(edges: Json, geodetic: Json): Option<string> {
    if edges.JStr? then Some(edges.s)
    else if geodetic.JBool? then Some(if geodetic.b then "spherical" else "planar")
    else None
  }

  /** `from_dict`. */
  function Decode(d: Dict): ColumnMeta
    requires Decodable(d)
  {
    ColumnMeta(
      d[BaseType].s,
      if Encoding in d then d[Encoding].s else DEFAULT_ENCODING,
      if EncodingVersion in d then d[EncodingVersion].s else ENCODING_VERSION,
      StrOf(Get(d, Subtype)),
      StrOf(Get(d, Interpolation)),
      if Get(d, Srid).JInt? then Some(Get(d, Srid).n) else None,
      if Crs in d then Some(d[Crs]) else None,
      DecodeEdges(Get(d, Edges), Get(d, Geodetic)),
      if Get(d, HasZ).JBool? then Some(Get(d, HasZ).b) else None,
      DecodeCovering(Get(d, CoveringKey)))
  }

  // ---------- the canonical form ----------

  /** What writing settles: the edges of the base type, a null CRS for SRID 0, and no empty covering. */
  function Canonical(c: ColumnMeta): ColumnMeta {
    c.(edges := ResolvedEdges(c),
       crs := ResolvedCrs(c),
       covering := if c.covering == Some(map[]) then None else c.covering)
  }

  lemma DecodeEncodeBounds(bounds: map<string, seq<string>>)
    ensures IsBounds(EncodeBounds(bounds)) && DecodeBounds(EncodeBounds(bounds)) == bounds
  {
    var j := EncodeBounds(bounds);
    forall b | b in bounds ensures IsPath(j.fields[b]) && DecodePath(j.fields[b]) == bounds[b] {
      assert j.fields[b] == JArr(Strings(bounds[b]));
    }
  }

  lemma DecodeEncodeCovering(covering: Covering)
    ensures OptCovering(EncodeCovering(covering)) && DecodeCovering(EncodeCovering(covering)) == Some(covering)
  {
    var j := EncodeCovering(covering);
    forall k | k in covering ensures IsBounds(j.fields[k]) && DecodeBounds(j.fields[k]) == covering[k] {
      DecodeEncodeBounds(covering[k]);
    }
    hide DecodeBounds;
    assert (map k | k in j.fields :: DecodeBounds(j.fields[k])) == covering;
  }

  /** What an encoded column reads under each key. */
  lemma EncodedField(c: ColumnMeta, key: Key)
    ensures key in Encode(c) <==> FieldOf(c, key).Some?
    ensures key in Encode(c) ==> Encode(c)[key] == FieldOf(c, key).value
    ensures Get(Encode(c), key) == if FieldOf(c, key).Some? then FieldOf(c, key).value else JNull
  {
    assert FieldOf(c, key).Some? ==> key in KEYS;
    hide FieldOf;
  }

  lemma EncodedFields(c: ColumnMeta)
    ensures forall key :: key in Encode(c) <==> FieldOf(c, key).Some?
    ensures forall key :: key in Encode(c) ==> Encode(c)[key] == FieldOf(c, key).value
  {
    hide FieldOf, Encode;
    forall key ensures key in Encode(c) <==> FieldOf(c, key).Some?
      ensures key in Encode(c) ==> Encode(c)[key] == FieldOf(c, key).value
    {
      EncodedField(c, key);
    }
  }

  lemma CoveringRoundTrip(covering: Option<Covering>)
    ensures var j := if covering.Some? && covering.value != map[] then EncodeCovering(covering.value) else JNull;
      OptCovering(j) && DecodeCovering(j) == if covering == Some(map[]) then None else covering
  {
    if covering.Some? && covering.value != map[] {
      DecodeEncodeCovering(covering.value);
    }
  }

  /** Decoding an encoded column gives its canonical form. */
  lemma EncodedDecodable(c: ColumnMeta)
    ensures Decodable(Encode(c))
  {
    EncodedFields(c);
    CoveringRoundTrip(c.covering);
    hide Encode, ResolvedEdges, ResolvedCrs, EncodeCovering, DecodeCovering, OptCovering;
  }

  lemma {:induction false} ColumnRoundTrip(c: ColumnMeta)
    ensures Decodable(Encode(c)) && Decode(Encode(c)) == Canonical(c)
  {
    EncodedDecodable(c);
    EncodedFields(c);
    CoveringRoundTrip(c.covering);
    hide Encode, Decodable, ResolvedEdges, ResolvedCrs, EncodeCovering, DecodeCovering, OptCovering;
  }

  /** The canonical form is its own, and is written the same. */
  lemma {:induction false} CanonicalIsStable(c: ColumnMeta)
    ensures Canonical(Canonical(c)) == Canonical(c)
    ensures Encode(Canonical(c)) == Encode(c)
  {
    EdgesAreStable(c);
    hide ResolvedEdges, EncodeCovering;
    forall key ensures FieldOf(Canonical(c), key) == FieldOf(c, key) {
    }
  }

  lemma EdgesAreStable(c: ColumnMeta)
    ensures ResolvedEdges(Canonical(c)) == ResolvedEdges(c)
  {
  }

  /** `geodetic` is written iff `edges` is, and always agrees with it. */
  lemma GeodeticAgrees(c: ColumnMeta)
    ensures var d := Encode(c);
      && (Geodetic in d <==> Edges in d)
      && (Edges in d ==> d[Edges].JStr? && d[Geodetic] == JBool(d[Edges].s != "planar"))
  {
    EncodedFields(c);
    hide ResolvedEdges, ResolvedCrs, EncodeCovering, Encode;
  }

  /** Reading any dictionary and writing it back settles at once: a second pass changes nothing. */
  lemma {:induction false} RewriteSettles(d: Dict)
    requires Decodable(d)
    ensures var once := Encode(Decode(d)); Decodable(once) && Encode(Decode(once)) == once
  {
    hide Encode, Decode, Decodable, Canonical;
    ColumnRoundTrip(Decode(d));
    CanonicalIsStable(Decode(d));
  }

  // ---------- what is written under the keys ----------

  /** The dictionary of a column with every field set. */
  function FullDict(base: string, encoding: string, version: string, subtype: string, interpolation: string,
                    srid: int, crs: Json, edges: string, hasZ: bool, covering: Covering): Dict {
    map[BaseType := JStr(base), Encoding := JStr(encoding), EncodingVersion := JStr(version),
        Subtype := JStr(subtype), Interpolation := JStr(interpolation), Srid := JInt(srid), Crs := crs,
        Edges := JStr(edges), Geodetic := JBool(edges != "planar"), HasZ := JBool(hasZ), CoveringKey := EncodeCovering(covering)]
  }

  lemma {:induction false} FullField(c: ColumnMeta, key: Key)
    requires c.subtype.Some? && c.interpolation.Some? && c.srid.Some? && c.crs.Some? && c.hasZ.Some?
    requires c.edges.Some? && c.edges.value != "" && c.covering.Some? && c.covering.value != map[]
    ensures var d := FullDict(c.baseType, c.encoding, c.encodingVersion, c.subtype.value, c.interpolation.value, c.srid.value,
                              c.crs.value, c.edges.value, c.hasZ.value, c.covering.value);
      (key in d <==> FieldOf(c, key).Some?) && (key in d ==> d[key] == FieldOf(c, key).value)
  {
    hide EncodeCovering;
  }

  /** A column with every field set is the dictionary with every key, both ways. */
  lemma {:induction false} FullColumn(base: string, encoding: string, version: string, subtype: string, interpolation: string,
                                      srid: int, crs: Json, edges: string, hasZ: bool, covering: Covering)
    requires edges != "" && covering != map[]
    ensures var c := ColumnMeta(base, encoding, version, Some(subtype), Some(interpolation), Some(srid), Some(crs), Some(edges), Some(hasZ), Some(covering));
      var d := FullDict(base, encoding, version, subtype, interpolation, srid, crs, edges, hasZ, covering);
      Encode(c) == d && Decodable(d) && Decode(d) == c
  {
    var c := ColumnMeta(base, encoding, version, Some(subtype), Some(interpolation), Some(srid), Some(crs), Some(edges), Some(hasZ), Some(covering));
    assert Canonical(c) == c;
    hide *;
    EncodedFields(c);
    forall key {
      FullField(c, key);
    }
    assert Encode(c) == FullDict(base, encoding, version, subtype, interpolation, srid, crs, edges, hasZ, covering);
    ColumnRoundTrip(c);
  }

  /** A dictionary with a base type alone is read with the default encoding and nothing else set. */
  lemma BareColumn(base: string)
    ensures var d: Dict := map[BaseType := JStr(base)];
      Decodable(d) && Decode(d) == ColumnMeta(base, "MEOS-WKB", "1.0", None, None, None, None, None, None, None)
  {
  }

  /** A covering is an object of objects of lists: each bound's path, name by name. */
  lemma CoveringShape(covering: Covering)
    ensures var j := EncodeCovering(covering);
      && j.JObj? && j.fields.Keys == covering.Keys
      && forall k :: k in covering ==>
           && j.fields[k].JObj? && j.fields[k].fields.Keys == covering[k].Keys
           && forall b :: b in covering[k] ==>
                && j.fields[k].fields[b].JArr? && |j.fields[k].fields[b].items| == |covering[k][b]|
                && forall i :: 0 <= i < |covering[k][b]| ==> j.fields[k].fields[b].items[i] == JStr(covering[k][b][i])
  {
  }

  /** What is written for a column without edges or CRS: the edges its base type fixes, and a null CRS for SRID 0. */
  lemma {:induction false} FixedByType(c: ColumnMeta)
    ensures var d := Encode(c);
      && (c.edges.None? || c.edges == Some("") ==>
            && (Edges in d && d[Edges] == JStr("planar") <==> c.baseType in {"tgeompoint", "tgeometry"})
            && (Edges in d && d[Edges] == JStr("spherical") <==> c.baseType in {"tgeogpoint", "tgeography"})
            && (Edges in d <==> c.baseType in {"tgeompoint", "tgeometry", "tgeogpoint", "tgeography"}))
      && (c.edges.Some? && c.edges != Some("") ==> Edges in d && d[Edges] == JStr(c.edges.value))
      && (Crs in d <==> c.crs.Some? || c.srid == Some(0))
      && (Crs in d ==> d[Crs] == if c.crs.Some? then c.crs.value else JNull)
      && (CoveringKey in d <==> c.covering.Some? && c.covering.value != map[])
  {
    assert "planar"[0] == 'p' && "spherical"[0] == 's';
    EncodedField(c, Edges);
    EncodedField(c, Crs);
    EncodedField(c, CoveringKey);
    hide Encode, EncodeCovering;
  }

  /** A legacy dictionary, with `geodetic` and no `edges`, is written back with the same `geodetic` and the edges it stands for. */
  lemma {:induction false} LegacyKept(d: Dict)
    requires Decodable(d) && Get(d, Edges) == JNull && Get(d, Geodetic).JBool?
    ensures var once := Encode(Decode(d));
      && Geodetic in once && once[Geodetic] == d[Geodetic]
      && Edges in once && once[Edges] == JStr(if d[Geodetic].b then "spherical" else "planar")
  {
    assert "planar"[0] == 'p' && "spherical"[0] == 's';
    EncodedField(Decode(d), Edges);
    EncodedField(Decode(d), Geodetic);
    hide Encode, EncodeCovering, DecodeCovering;
  }

  /** Where there are `edges`, they are kept whatever `geodetic` says; with neither, the base type decides. */
  lemma {:induction false} EdgesRead(d: Dict)
    requires Decodable(d)
    ensures Get(d, Edges).JStr? ==> Decode(d).edges == Some(d[Edges].s)
    ensures Get(d, Edges) == JNull && Get(d, Geodetic) == JNull ==> Decode(d).edges.None?
  {
    hide DecodeCovering;
  }

  // ---------- the file's metadata ----------

  /** The `temporal` object: what it holds under its three keys, its columns by name. */
  datatype FileDict = FileDict(version: Option<Json>, primary: Option<Json>, columns: Option<map<string, Dict>>)

  function EncodeColumns(columns: map<string, ColumnMeta>): map<string, Dict> {
    map name | name in columns :: Encode(columns[name])
  }

  function KeepPrimary(primary: Option<string>): Option<string> {
    if primary == Some("") then None else primary
  }

  /** `to_json`, up to `json.dumps`. */
  function EncodeFile(m: FileMeta): FileDict {
    FileDict(Some(JStr(m.version)), OptionalStr(KeepPrimary(m.primary)), Some(EncodeColumns(m.columns)))
  }

  /** `to_json`, as it fills the `columns` object. */
  method ToJson(m: FileMeta) returns (obj: FileDict)
    ensures obj == EncodeFile(m)
  {
    hide Encode;
    obj := FileDict(Some(JStr(m.version)), None, None);
    if m.primary.Some? && m.primary.value != "" {
      obj := obj.(primary := Some(JStr(m.primary.value)));
    }
    var columns: map<string, Dict> := map[];
    var rest := m.columns.Keys;
    while rest != {}
      invariant rest <= m.columns.Keys
      invariant columns == map name | name in m.columns.Keys - rest :: Encode(m.columns[name])
      decreases rest
    {
      var name :| name in rest;
      var d := ToDict(m.columns[name]);
      columns := columns[name := d];
      rest := rest - {name};
    }
    assert columns == EncodeColumns(m.columns);
    obj := obj.(columns := Some(columns));
  }

  predicate ColumnsDecodable(columns: map<string, Dict>) {
    forall name :: name in columns ==> Decodable(columns[name])
  }

  predicate FileDecodable(j: FileDict) {
    && (j.version.Some? ==> j.version.value.JStr?)
    && (j.primary.Some? ==> OptStr(j.primary.value))
    && (j.columns.Some? ==> ColumnsDecodable(j.columns.value))
  }

  function DecodeColumns(columns: map<string, Dict>): map<string, ColumnMeta>
    requires ColumnsDecodable(columns)
  {
    map name | name in columns :: Decode(columns[name])
  }

  /** `from_json`, after `json.loads`. */
  function DecodeFile(j: FileDict): FileMeta
    requires FileDecodable(j)
  {
    FileMeta(
      if j.columns.Some? then DecodeColumns(j.columns.value) else map[],
      if j.version.Some? then j.version.value.s else TEMPORAL_PARQUET_VERSION,
      if j.primary.Some? then StrOf(j.primary.value) else None)
  }

  function CanonicalFile(m: FileMeta): FileMeta {
    FileMeta(map name | name in m.columns :: Canonical(m.columns[name]), m.version, KeepPrimary(m.primary))
  }

  lemma {:induction false} ColumnsRoundTrip(columns: map<string, ColumnMeta>)
    ensures ColumnsDecodable(EncodeColumns(columns))
    ensures DecodeColumns(EncodeColumns(columns)) == map name | name in columns :: Canonical(columns[name])
  {
    hide Encode, Decode, Decodable, Canonical;
    forall name | name in columns
      ensures Decodable(Encode(columns[name])) && Decode(Encode(columns[name])) == Canonical(columns[name])
    {
      ColumnRoundTrip(columns[name]);
    }
  }

  /** Decoding the metadata of a file, with any number of columns, gives its canonical form. */
  lemma {:induction false} FileRoundTrip(m: FileMeta)
    ensures FileDecodable(EncodeFile(m)) && DecodeFile(EncodeFile(m)) == CanonicalFile(m)
  {
    hide EncodeColumns, DecodeColumns, ColumnsDecodable, Canonical;
    ColumnsRoundTrip(m.columns);
  }

  /** The three keys of a file's metadata, both ways, and what is read where they are missing. */
  lemma FileKeys(columns: map<string, ColumnMeta>, version: string, primary: string)
    requires primary != ""
    ensures EncodeFile(FileMeta(columns, version, Some(primary)))
         == FileDict(Some(JStr(version)), Some(JStr(primary)), Some(map name | name in columns :: Encode(columns[name])))
    ensures FileDecodable(FileDict(None, None, None)) && DecodeFile(FileDict(None, None, None)) == FileMeta(map[], "2.0.0", None)
  {
    hide Encode, Decode, Decodable;
  }

  /** Canonicalising a file's metadata twice is doing it once, and leaves what is written unchanged. */
  lemma CanonicalFileIsStable(m: FileMeta)
    ensures CanonicalFile(CanonicalFile(m)) == CanonicalFile(m)
    ensures EncodeFile(CanonicalFile(m)) == EncodeFile(m)
  {
    var c := CanonicalFile(m);
    hide Encode, Canonical;
    forall name | name in m.columns
      ensures Canonical(c.columns[name]) == c.columns[name] && Encode(c.columns[name]) == Encode(m.columns[name])
    {
      CanonicalIsStable(m.columns[name]);
    }
    assert EncodeColumns(c.columns) == EncodeColumns(m.columns);
  }
}
