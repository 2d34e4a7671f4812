/** The classification and the counts of `write_report` in scripts/parity-audit.py. */
module Coverage {
  import opened Text
  import opened Declarations
  import opened SqlScan
  import SignatureTypes

  // ---------- what is compared ----------

  /** One function name of a section: how often it is declared, and every type its declarations name. */
  datatype Entry = Entry(name: string, count: nat, types: set<string>)

  /** A SQL file of MobilityDB, its names in sorted order. */
  datatype Section = Section(path: string, entries: seq<Entry>)

  /** MobilityDB's value types, and the functions and types MobilityDuck registers. */
  datatype Surface = Surface(valueTypes: set<string>, funcs: set<string>, types: set<string>)

  datatype BlockedEntry = BlockedEntry(name: string, count: nat, unregistered: set<string>)

  datatype Row = Row(path: string, total: nat, covered: seq<Entry>, missing: seq<Entry>,
                     blocked: seq<BlockedEntry>, outOfScope: seq<Entry>)

  const OUT_OF_SCOPE_SECTIONS: set<string> := {
    "temporal/011_span_indexes.in.sql", "temporal/012_spanset_indexes.in.sql",
    "temporal/013_set_indexes.in.sql", "temporal/019_geo_constructors.in.sql",
    "temporal/043_temporal_gist.in.sql", "temporal/044_temporal_spgist.in.sql",
    "temporal/999_oid_cache.in.sql", "geo/073_tgeo_gist.in.sql",
    "geo/073_tpoint_gist.in.sql", "geo/074_tgeo_spgist.in.sql"
  }

  const OUT_OF_SCOPE_NAME_SUFFIXES: seq<string> := [
    "_transfn", "_combinefn", "_finalfn", "_serialize", "_deserialize",
    "_sel", "_joinsel", "_supportfn", "_analyze", "_typmod_in", "_typmod_out",
    "_in", "_out", "_recv", "_send"
  ]

  predicate EndsWith(s: string, suffix: string) {
    |suffix| <= |s| && s[|s| - |suffix|..] == suffix
  }

  predicate IsOutOfScopeName(name: string) {
    var lower := Lower(name);
    exists i :: 0 <= i < |OUT_OF_SCOPE_NAME_SUFFIXES|
      && EndsWith(lower, OUT_OF_SCOPE_NAME_SUFFIXES[i]) && |lower| > |OUT_OF_SCOPE_NAME_SUFFIXES[i]|
  }

  predicate IsOutOfScopeSection(path: string) {
    path in OUT_OF_SCOPE_SECTIONS
  }

  // ---------- one name ----------

  datatype Bucket = OutOfScope | Blocked | Covered | Missing

  function Unregistered(e: Entry, surface: Surface): set<string> {
    set t | t in e.types && t in surface.valueTypes && t !in surface.types
  }

  predicate RegisteredName(name: string, surface: Surface) {
    exists f :: f in surface.funcs && Lower(f) == Lower(name)
  }

  function Classify(path: string, e: Entry, surface: Surface): Bucket {
    if IsOutOfScopeSection(path) || IsOutOfScopeName(e.name) then OutOfScope
    else if Unregistered(e, surface) != {} then Blocked
    else if RegisteredName(e.name, surface) then Covered
    else Missing
  }

  /** The entries of one bucket, in order. */
  function Bucketed(path: string, entries: seq<Entry>, surface: Surface, b: Bucket): seq<Entry> {
    if entries == [] then []
    else
      var n := |entries| - 1;
      Bucketed(path, entries[..n], surface, b) + if Classify(path, entries[n], surface) == b then [entries[n]] else []
  }

  function WithTypes(es: seq<Entry>, surface: Surface): seq<BlockedEntry> {
    if es == [] then []
    else
      var e := es[|es| - 1];
      WithTypes(es[..|es| - 1], surface) + [BlockedEntry(e.name, e.count, Unregistered(e, surface))]
  }

  function RowOf(s: Section, surface: Surface): Row {
    Row(s.path, |s.entries|,
        Bucketed(s.path, s.entries, surface, Covered),
        Bucketed(s.path, s.entries, surface, Missing),
        WithTypes(Bucketed(s.path, s.entries, surface, Blocked), surface),
        Bucketed(s.path, s.entries, surface, OutOfScope))
  }

  /** The rows of the sections inside or outside the audit, empty sections left out. */
  function Rows(sections: seq<Section>, surface: Surface, outOfScope: bool): seq<Row> {
    if sections == [] then []
    else
      var s := sections[|sections| - 1];
      Rows(sections[..|sections| - 1], surface, outOfScope)
        + if s.entries != [] && IsOutOfScopeSection(s.path) == outOfScope then [RowOf(s, surface)] else []
  }

  // ---------- which types block which sections ----------

  predicate BlocksRow(row: Row, t: string) {
    exists i :: 0 <= i < |row.blocked| && t in row.blocked[i].unregistered
  }

  /** The sections holding an entry blocked on `t`. */
  function Blockers(rows: seq<Row>, t: string): set<string> {
    if rows == [] then {}
    else
      var row := rows[|rows| - 1];
      Blockers(rows[..|rows| - 1], t) + if BlocksRow(row, t) then {row.path} else {}
  }

  /** `blocking_types` as a dictionary: only types that block something are keys. */
  ghost predicate IsBlocking(blocking: map<string, set<string>>, rows: seq<Row>) {
    forall t ::
      && (t in blocking <==> Blockers(rows, t) != {})
      && SectionsOf(blocking, t) == Blockers(rows, t)
  }

  // ---------- the report's loops ----------

  method BucketSection(s: Section, surface: Surface) returns (row: Row)
    ensures row == RowOf(s, surface)
  {
    hide Unregistered, RegisteredName, IsOutOfScopeName, IsOutOfScopeSection;
    var covered: seq<Entry>, missing: seq<Entry>, blocked: seq<BlockedEntry>, oosNames: seq<Entry> := [], [], [], [];
    ghost var blockedEntries: seq<Entry> := [];
    var i := 0;
    while i < |s.entries|
      invariant i <= |s.entries|
      invariant covered == Bucketed(s.path, s.entries[..i], surface, Covered)
      invariant missing == Bucketed(s.path, s.entries[..i], surface, Missing)
      invariant oosNames == Bucketed(s.path, s.entries[..i], surface, OutOfScope)
      invariant blocked == WithTypes(Bucketed(s.path, s.entries[..i], surface, Blocked), surface)
    {
      var e := s.entries[i];
      BucketStep(s.path, s.entries, i, surface);
      var unregistered := Unregistered(e, surface);
      if IsOutOfScopeSection(s.path) {
        oosNames := oosNames + [e];
      } else if IsOutOfScopeName(e.name) {
        oosNames := oosNames + [e];
      } else if unregistered != {} {
        WithTypesSnoc(Bucketed(s.path, s.entries[..i], surface, Blocked), e, surface);
        blocked := blocked + [BlockedEntry(e.name, e.count, unregistered)];
      } else if RegisteredName(e.name, surface) {
        covered := covered + [e];
      } else {
        missing := missing + [e];
      }
      i := i + 1;
    }
    assert s.entries[..i] == s.entries;
    row := Row(s.path, |s.entries|, covered, missing, blocked, oosNames);
  }

  lemma BucketStep(path: string, entries: seq<Entry>, i: nat, surface: Surface)
    requires i < |entries|
    ensures forall b ::
      Bucketed(path, entries[..i + 1], surface, b) ==
      AppendIf(Bucketed(path, entries[..i], surface, b), entries[i], Classify(path, entries[i], surface) == b)
  {
    hide Classify;
    assert entries[..i + 1][..i] == entries[..i];
  }

  function AppendIf<T>(s: seq<T>, x: T, keep: bool): seq<T> {
    if keep then s + [x] else s
  }

  lemma WithTypesSnoc(es: seq<Entry>, e: Entry, surface: Surface)
    ensures WithTypes(es + [e], surface) == WithTypes(es, surface) + [BlockedEntry(e.name, e.count, Unregistered(e, surface))]
  {
    assert (es + [e])[..|es|] == es;
  }

  function SectionsOf(blocking: map<string, set<string>>, t: string): set<string> {
    if t in blocking then blocking[t] else {}
  }

  /** `for t in unregistered: blocking_types[t].add(sec)`. */
  method AddTypes(blocking: map<string, set<string>>, types: set<string>, path: string) returns (r: map<string, set<string>>)
    ensures forall t :: t in r <==> t in blocking || t in types
    ensures forall t :: SectionsOf(r, t) == SectionsOf(blocking, t) + if t in types then {path} else {}
  {
    r := blocking;
    var rest := types;
    while rest != {}
      invariant rest <= types
      invariant forall t :: t in r <==> t in blocking || t in types - rest
      invariant forall t :: SectionsOf(r, t) == SectionsOf(blocking, t) + if t in types - rest then {path} else {}
      decreases rest
    {
      var t :| t in rest;
      r := r[t := SectionsOf(r, t) + {path}];
      rest := rest - {t};
    }
  }

  predicate BlocksUpTo(row: Row, n: nat, t: string)
    requires n <= |row.blocked|
  {
    exists i :: 0 <= i < n && t in row.blocked[i].unregistered
  }

  /** The blocking types after the blocked entries of a row. */
  method AddBlockers(blocking: map<string, set<string>>, row: Row) returns (r: map<string, set<string>>)
    ensures forall t :: t in r <==> t in blocking || BlocksRow(row, t)
    ensures forall t :: SectionsOf(r, t) == SectionsOf(blocking, t) + if BlocksRow(row, t) then {row.path} else {}
  {
    hide SectionsOf;
    r := blocking;
    var i := 0;
    while i < |row.blocked|
      invariant i <= |row.blocked|
      invariant forall t :: t in r <==> t in blocking || BlocksUpTo(row, i, t)
      invariant forall t :: SectionsOf(r, t) == SectionsOf(blocking, t) + if BlocksUpTo(row, i, t) then {row.path} else {}
    {
      assert forall t :: BlocksUpTo(row, i + 1, t) <==> BlocksUpTo(row, i, t) || t in row.blocked[i].unregistered;
      r := AddTypes(r, row.blocked[i].unregistered, row.path);
      i := i + 1;
    }
    assert forall t :: BlocksUpTo(row, i, t) <==> BlocksRow(row, t);
  }

  /** The loop of `write_report` over the sections. */
  method ClassifyAll(sections: seq<Section>, surface: Surface)
    returns (active: seq<Row>, outOfScope: seq<Row>, blocking: map<string, set<string>>)
    ensures active == Rows(sections, surface, false)
    ensures outOfScope == Rows(sections, surface, true)
    ensures IsBlocking(blocking, active)
  {
    hide RowOf, BlocksRow, IsOutOfScopeSection;
    active, outOfScope, blocking := [], [], map[];
    var i := 0;
    while i < |sections|
      invariant i <= |sections|
      invariant active == Rows(sections[..i], surface, false)
      invariant outOfScope == Rows(sections[..i], surface, true)
      invariant IsBlocking(blocking, active)
    {
      var s := sections[i];
      assert sections[..i + 1][..i] == sections[..i];
      if s.entries != [] {
        var row := BucketSection(s, surface);
        if IsOutOfScopeSection(s.path) {
          outOfScope := outOfScope + [row];
        } else {
          BlockersSnoc(active, row);
          blocking := AddBlockers(blocking, row);
          active := active + [row];
        }
      }
      i := i + 1;
    }
    assert sections[..i] == sections;
  }

  lemma BlockersSnoc(rows: seq<Row>, row: Row)
    ensures forall t :: Blockers(rows + [row], t) == Blockers(rows, t) + if BlocksRow(row, t) then {row.path} else {}
  {
    assert (rows + [row])[..|rows|] == rows;
  }

  // ---------- what the buckets hold ----------

  /** The section is in the audit, and the name does not end in a helper's suffix, in any casing, behind something. */
  ghost predicate InScope(path: string, name: string) {
    path !in OUT_OF_SCOPE_SECTIONS && !HelperName(name)
  }

  ghost predicate HelperName(name: string) {
    exists base, suffix, i ::
      && 0 <= i < |OUT_OF_SCOPE_NAME_SUFFIXES|
      && base != "" && name == base + suffix && SameLetters(suffix, OUT_OF_SCOPE_NAME_SUFFIXES[i])
  }

  /** `t` is a value type the entry names and MobilityDuck does not register. */
  predicate Misses(e: Entry, surface: Surface, t: string) {
    t in e.types && t in surface.valueTypes && t !in surface.types
  }

  ghost predicate MissesType(e: Entry, surface: Surface) {
    exists t :: Misses(e, surface, t)
  }

  /** Some registered name is the same up to casing. */
  ghost predicate IsRegistered(name: string, surface: Surface) {
    exists f :: f in surface.funcs && SameLetters(f, name)
  }

  lemma SuffixesAreSmall(i: nat)
    requires i < |OUT_OF_SCOPE_NAME_SUFFIXES|
    ensures NoCapitals(OUT_OF_SCOPE_NAME_SUFFIXES[i])
  {
  }

  lemma {:induction false} LowerEnd(s: string, n: nat)
    requires n <= |s|
    ensures Lower(s)[n..] == Lower(s[n..])
  {
    if n == 0 {
      assert s[0..] == s && Lower(s)[0..] == Lower(s);
    } else {
      var first, rest := [LowerChar(s[0])], Lower(s[1..]);
      LowerEnd(s[1..], n - 1);
      assert Lower(s) == first + rest && s[1..][n - 1..] == s[n..];
      hide *;
      assert (first + rest)[n..] == rest[n - 1..];
    }
  }

  lemma {:induction false} SuffixMeans(name: string, suffix: string)
    requires NoCapitals(suffix)
    ensures EndsWith(Lower(name), suffix) && |name| > |suffix| <==>
      exists base, end :: base != "" && name == base + end && SameLetters(end, suffix)
  {
    hide Lower;
    if |name| > |suffix| {
      var n := |name| - |suffix|;
      LowerEnd(name, n);
      LowerMeans(name[n..], suffix);
      assert name == name[..n] + name[n..];
    }
    forall base, end | base != "" && name == base + end && SameLetters(end, suffix)
      ensures EndsWith(Lower(name), suffix) && |name| > |suffix|
    {
      LowerEnd(name, |base|);
      assert name[|base|..] == end;
      LowerMeans(end, suffix);
    }
  }

  lemma HelperMeans(name: string)
    ensures IsOutOfScopeName(name) <==> HelperName(name)
  {
    hide Lower, EndsWith, SameLetters, NoCapitals;
    forall i | 0 <= i < |OUT_OF_SCOPE_NAME_SUFFIXES|
      ensures EndsWith(Lower(name), OUT_OF_SCOPE_NAME_SUFFIXES[i]) && |name| > |OUT_OF_SCOPE_NAME_SUFFIXES[i]| <==>
        exists base, end :: base != "" && name == base + end && SameLetters(end, OUT_OF_SCOPE_NAME_SUFFIXES[i])
    {
      SuffixesAreSmall(i);
      SuffixMeans(name, OUT_OF_SCOPE_NAME_SUFFIXES[i]);
    }
  }

  lemma RegisteredMeans(name: string, surface: Surface)
    ensures RegisteredName(name, surface) <==> IsRegistered(name, surface)
  {
    hide Lower, SameLetters;
    forall f ensures Lower(f) == Lower(name) <==> SameLetters(f, name) {
      LowerSame(f, name);
    }
  }

  lemma UnregisteredMeans(e: Entry, surface: Surface)
    ensures Unregistered(e, surface) != {} <==> MissesType(e, surface)
    ensures forall t :: t in Unregistered(e, surface) <==> Misses(e, surface, t)
  {
    if t :| t in Unregistered(e, surface) {
      assert Misses(e, surface, t);
    }
    if t :| Misses(e, surface, t) {
      assert t in Unregistered(e, surface);
    }
  }

  /**
   * A name out of scope is a helper or in a section left out; one in scope is blocked when it names a type that
   * is not registered, and otherwise covered or missing as some registered name is it, up to casing, or none is.
   */
  lemma {:induction false} ClassifyMeans(path: string, e: Entry, surface: Surface)
    ensures Classify(path, e, surface) == OutOfScope <==> !InScope(path, e.name)
    ensures Classify(path, e, surface) == Blocked <==> InScope(path, e.name) && MissesType(e, surface)
    ensures Classify(path, e, surface) == Covered <==>
      InScope(path, e.name) && !MissesType(e, surface) && IsRegistered(e.name, surface)
    ensures Classify(path, e, surface) == Missing <==>
      InScope(path, e.name) && !MissesType(e, surface) && !IsRegistered(e.name, surface)
  {
    HelperMeans(e.name);
    UnregisteredMeans(e, surface);
    RegisteredMeans(e.name, surface);
    hide IsOutOfScopeName, HelperName, Unregistered, MissesType, RegisteredName, IsRegistered;
  }

  /** A bucket keeps the order of the entries. */
  lemma {:induction false} BucketInOrder(path: string, a: seq<Entry>, b: seq<Entry>, surface: Surface, bucket: Bucket)
    ensures Bucketed(path, a + b, surface, bucket) == Bucketed(path, a, surface, bucket) + Bucketed(path, b, surface, bucket)
  {
    hide Classify;
    if b == [] {
      assert a + b == a;
    } else {
      BucketInOrder(path, a, b[..|b| - 1], surface, bucket);
      assert (a + b)[..|a + b| - 1] == a + b[..|b| - 1];
    }
  }

  /** A bucket holds the entries that are classified so. */
  lemma {:induction false} BucketHolds(path: string, entries: seq<Entry>, surface: Surface, bucket: Bucket, e: Entry)
    ensures e in Bucketed(path, entries, surface, bucket) <==> e in entries && Classify(path, e, surface) == bucket
  {
    hide Classify;
    if entries == [] {
    } else {
      var init, last := entries[..|entries| - 1], entries[|entries| - 1];
      BucketHolds(path, init, surface, bucket, e);
      assert entries == init + [last];
    }
  }

  /** The blocked entry of `e` lists exactly the types that block it. */
  ghost predicate IsBlockedEntry(b: BlockedEntry, e: Entry, surface: Surface) {
    b.name == e.name && b.count == e.count && forall t :: t in b.unregistered <==> Misses(e, surface, t)
  }

  lemma {:induction false} WithTypesHolds(es: seq<Entry>, surface: Surface)
    ensures |WithTypes(es, surface)| == |es|
    ensures forall i :: 0 <= i < |es| ==> IsBlockedEntry(WithTypes(es, surface)[i], es[i], surface)
  {
    if es == [] {
    } else {
      var n := |es| - 1;
      WithTypesHolds(es[..n], surface);
      UnregisteredMeans(es[n], surface);
      hide Unregistered, Misses;
      forall i | 0 <= i < |es| ensures IsBlockedEntry(WithTypes(es, surface)[i], es[i], surface) {
        assert i < n ==> es[..n][i] == es[i];
      }
    }
  }

  /** The blocked entries of a section are those in scope that miss a type, each with the types it misses. */
  lemma {:induction false} BlockedMeans(s: Section, surface: Surface, e: Entry)
    requires e in s.entries
    ensures (exists i :: 0 <= i < |RowOf(s, surface).blocked| && IsBlockedEntry(RowOf(s, surface).blocked[i], e, surface)) <==>
      InScope(s.path, e.name) && MissesType(e, surface)
  {
    var blocked := Bucketed(s.path, s.entries, surface, Blocked);
    var rows := WithTypes(blocked, surface);
    WithTypesHolds(blocked, surface);
    forall e ensures e in blocked <==> e in s.entries && InScope(s.path, e.name) && MissesType(e, surface) {
      BucketHolds(s.path, s.entries, surface, Blocked, e);
      ClassifyMeans(s.path, e, surface);
    }
    assert rows == RowOf(s, surface).blocked;
    hide RowOf, Classify, Bucketed, WithTypes, InScope, Misses;
    if e in blocked {
      var i :| 0 <= i < |blocked| && blocked[i] == e;
      assert IsBlockedEntry(rows[i], e, surface);
    }
    if i :| 0 <= i < |rows| && IsBlockedEntry(rows[i], e, surface) {
      assert blocked[i] in blocked && IsBlockedEntry(rows[i], blocked[i], surface);
      var t :| Misses(blocked[i], surface, t);
      assert t in rows[i].unregistered;
    }
  }

  /** What the row of a section says of one of its entries. */
  lemma {:induction false} RowMeans(s: Section, surface: Surface, e: Entry)
    requires e in s.entries
    ensures var row := RowOf(s, surface);
      && row.path == s.path && row.total == |s.entries|
      && (e in row.outOfScope <==> !InScope(s.path, e.name))
      && (e in row.covered <==> InScope(s.path, e.name) && !MissesType(e, surface) && IsRegistered(e.name, surface))
      && (e in row.missing <==> InScope(s.path, e.name) && !MissesType(e, surface) && !IsRegistered(e.name, surface))
    ensures (exists i :: 0 <= i < |RowOf(s, surface).blocked| && IsBlockedEntry(RowOf(s, surface).blocked[i], e, surface)) <==>
      InScope(s.path, e.name) && MissesType(e, surface)
  {
    BlockedMeans(s, surface, e);
    ClassifyMeans(s.path, e, surface);
    BucketHolds(s.path, s.entries, surface, OutOfScope, e);
    BucketHolds(s.path, s.entries, surface, Covered, e);
    BucketHolds(s.path, s.entries, surface, Missing, e);
    hide Classify, Bucketed, WithTypes, InScope, MissesType, IsRegistered, IsBlockedEntry;
  }

  /** A section blocks on `t`: it is in the audit, and one of its names in scope misses `t`. */
  ghost predicate BlocksSection(s: Section, surface: Surface, t: string) {
    exists i :: 0 <= i < |s.entries| && InScope(s.path, s.entries[i].name) && Misses(s.entries[i], surface, t)
  }

  lemma {:induction false} RowBlocks(s: Section, surface: Surface, t: string)
    ensures BlocksRow(RowOf(s, surface), t) <==> BlocksSection(s, surface, t)
  {
    var blocked := Bucketed(s.path, s.entries, surface, Blocked);
    WithTypesHolds(blocked, surface);
    forall e ensures e in blocked <==> e in s.entries && InScope(s.path, e.name) && MissesType(e, surface) {
      BucketHolds(s.path, s.entries, surface, Blocked, e);
      ClassifyMeans(s.path, e, surface);
    }
    assert RowOf(s, surface).blocked == WithTypes(blocked, surface);
    hide RowOf, Classify, Bucketed, WithTypes, InScope, Misses;
    if BlocksRow(RowOf(s, surface), t) {
      var i :| 0 <= i < |blocked| && t in RowOf(s, surface).blocked[i].unregistered;
      assert IsBlockedEntry(WithTypes(blocked, surface)[i], blocked[i], surface);
      assert blocked[i] in s.entries;
    }
    if BlocksSection(s, surface, t) {
      var k :| 0 <= k < |s.entries| && InScope(s.path, s.entries[k].name) && Misses(s.entries[k], surface, t);
      assert s.entries[k] in blocked;
      var i :| 0 <= i < |blocked| && blocked[i] == s.entries[k];
      assert IsBlockedEntry(WithTypes(blocked, surface)[i], blocked[i], surface);
    }
  }

  /** The rows keep the order of the sections. */
  lemma {:induction false} RowsInOrder(a: seq<Section>, b: seq<Section>, surface: Surface, outOfScope: bool)
    ensures Rows(a + b, surface, outOfScope) == Rows(a, surface, outOfScope) + Rows(b, surface, outOfScope)
  {
    hide RowOf, IsOutOfScopeSection;
    if b == [] {
      assert a + b == a;
    } else {
      RowsInOrder(a, b[..|b| - 1], surface, outOfScope);
      assert (a + b)[..|a + b| - 1] == a + b[..|b| - 1];
    }
  }

  /** The rows are those of the sections that have names and are in, or out of, the audit. */
  lemma {:induction false} RowsHold(sections: seq<Section>, surface: Surface, outOfScope: bool, row: Row)
    ensures row in Rows(sections, surface, outOfScope) <==>
      exists i :: 0 <= i < |sections|
        && sections[i].entries != [] && (sections[i].path in OUT_OF_SCOPE_SECTIONS <==> outOfScope) && row == RowOf(sections[i], surface)
  {
    hide RowOf;
    if sections == [] {
    } else {
      var n := |sections| - 1;
      RowsHold(sections[..n], surface, outOfScope, row);
      assert forall i :: 0 <= i < n ==> sections[..n][i] == sections[i];
    }
  }

  lemma {:induction false} BlockersStep(sections: seq<Section>, surface: Surface, t: string)
    requires sections != []
    ensures var init, s := sections[..|sections| - 1], sections[|sections| - 1];
      Blockers(Rows(sections, surface, false), t) ==
        Blockers(Rows(init, surface, false), t) + if BlocksSection(s, surface, t) then {s.path} else {}
  {
    var init, s := sections[..|sections| - 1], sections[|sections| - 1];
    RowBlocks(s, surface, t);
    assert BlocksSection(s, surface, t) ==> s.entries != [] && !IsOutOfScopeSection(s.path);
    assert s.entries == [] || IsOutOfScopeSection(s.path) ==> !BlocksSection(s, surface, t);
    assert RowOf(s, surface).path == s.path;
    hide *;
    RowsStep(sections, surface, false);
    BlockersSnoc(Rows(init, surface, false), RowOf(s, surface));
  }

  /** Some section with the path blocks on `t`. */
  ghost predicate SomeBlocks(sections: seq<Section>, surface: Surface, t: string, path: string) {
    exists i :: 0 <= i < |sections| && sections[i].path == path && BlocksSection(sections[i], surface, t)
  }

  lemma SomeBlocksStep(sections: seq<Section>, surface: Surface, t: string, path: string)
    requires sections != []
    ensures var init, s := sections[..|sections| - 1], sections[|sections| - 1];
      SomeBlocks(sections, surface, t, path) <==>
        SomeBlocks(init, surface, t, path) || (s.path == path && BlocksSection(s, surface, t))
  {
    hide BlocksSection;
    assert forall i :: 0 <= i < |sections| - 1 ==> sections[..|sections| - 1][i] == sections[i];
  }

  /** A type is listed with the paths of exactly the sections in the audit that block on it. */
  lemma {:induction false} BlockersMean(sections: seq<Section>, surface: Surface, t: string, path: string)
    ensures path in Blockers(Rows(sections, surface, false), t) <==> SomeBlocks(sections, surface, t, path)
  {
    if sections == [] {
    } else {
      hide *;
      BlockersMean(sections[..|sections| - 1], surface, t, path);
      BlockersStep(sections, surface, t);
      SomeBlocksStep(sections, surface, t, path);
    }
  }

  // ---------- totals ----------

  datatype Counts = Counts(covered: nat, missing: nat, blocked: nat, outOfScope: nat)

  /** The sums of the bucket sizes over the rows. */
  function Totals(rows: seq<Row>): Counts {
    if rows == [] then Counts(0, 0, 0, 0)
    else
      var c, r := Totals(rows[..|rows| - 1]), rows[|rows| - 1];
      Counts(c.covered + |r.covered|, c.missing + |r.missing|, c.blocked + |r.blocked|, c.outOfScope + |r.outOfScope|)
  }

  function Addressable(c: Counts): nat {
    c.covered + c.missing + c.blocked
  }

  function NameCount(sections: seq<Section>): nat {
    if sections == [] then 0 else NameCount(sections[..|sections| - 1]) + |sections[|sections| - 1].entries|
  }

  lemma {:induction false} SameLength(es: seq<Entry>, surface: Surface)
    ensures |WithTypes(es, surface)| == |es|
  {
    if es == [] {
    } else {
      SameLength(es[..|es| - 1], surface);
    }
  }

  lemma AppendCounts<T>(s: seq<T>, x: T)
    ensures multiset(AppendIf(s, x, true)) == multiset(s) + multiset{x} && |AppendIf(s, x, true)| == |s| + 1
    ensures AppendIf(s, x, false) == s
  {
  }

  /** The four lists hold the elements of `all` between them. */
  ghost predicate Partition(all: seq<Entry>, c: seq<Entry>, m: seq<Entry>, b: seq<Entry>, o: seq<Entry>) {
    && multiset(c) + multiset(m) + multiset(b) + multiset(o) == multiset(all)
    && |c| + |m| + |b| + |o| == |all|
  }

  lemma PartitionStep(all: seq<Entry>, c: seq<Entry>, m: seq<Entry>, b: seq<Entry>, o: seq<Entry>, e: Entry, bucket: Bucket)
    requires Partition(all, c, m, b, o)
    ensures Partition(all + [e], AppendIf(c, e, bucket == Covered), AppendIf(m, e, bucket == Missing),
                      AppendIf(b, e, bucket == Blocked), AppendIf(o, e, bucket == OutOfScope))
  {
    AppendCounts(c, e);
    AppendCounts(m, e);
    AppendCounts(b, e);
    AppendCounts(o, e);
    hide AppendIf;
    assert multiset(all + [e]) == multiset(all) + multiset{e};
  }

  lemma LastBucketed(path: string, entries: seq<Entry>, surface: Surface, b: Bucket)
    requires entries != []
    ensures var init, e := entries[..|entries| - 1], entries[|entries| - 1];
      Bucketed(path, entries, surface, b) == AppendIf(Bucketed(path, init, surface, b), e, Classify(path, e, surface) == b)
  {
    hide Classify;
  }

  /** Every entry of a section lands in exactly one bucket. */
  lemma {:induction false} BucketsPartition(path: string, entries: seq<Entry>, surface: Surface)
    ensures Partition(entries, Bucketed(path, entries, surface, Covered), Bucketed(path, entries, surface, Missing),
                      Bucketed(path, entries, surface, Blocked), Bucketed(path, entries, surface, OutOfScope))
  {
    if entries == [] {
    } else {
      var init, e := entries[..|entries| - 1], entries[|entries| - 1];
      LastBucketed(path, entries, surface, Covered);
      LastBucketed(path, entries, surface, Missing);
      LastBucketed(path, entries, surface, Blocked);
      LastBucketed(path, entries, surface, OutOfScope);
      hide Classify, Bucketed, Partition, AppendIf;
      BucketsPartition(path, init, surface);
      PartitionStep(init, Bucketed(path, init, surface, Covered), Bucketed(path, init, surface, Missing),
                    Bucketed(path, init, surface, Blocked), Bucketed(path, init, surface, OutOfScope), e, Classify(path, e, surface));
      assert entries == init + [e];
    }
  }

  lemma {:induction false} NothingAddressable(path: string, entries: seq<Entry>, surface: Surface)
    requires IsOutOfScopeSection(path)
    ensures Bucketed(path, entries, surface, OutOfScope) == entries
  {
    if entries == [] {
    } else {
      NothingAddressable(path, entries[..|entries| - 1], surface);
    }
  }

  lemma RowConserves(s: Section, surface: Surface)
    ensures var r := RowOf(s, surface);
      && |r.covered| + |r.missing| + |r.blocked| + |r.outOfScope| == |s.entries| == r.total
      && (IsOutOfScopeSection(s.path) ==> |r.outOfScope| == r.total)
  {
    BucketsPartition(s.path, s.entries, surface);
    SameLength(Bucketed(s.path, s.entries, surface, Blocked), surface);
    if IsOutOfScopeSection(s.path) {
      NothingAddressable(s.path, s.entries, surface);
    }
  }

  function Plus(c: Counts, r: Row): Counts {
    Counts(c.covered + |r.covered|, c.missing + |r.missing|, c.blocked + |r.blocked|, c.outOfScope + |r.outOfScope|)
  }

  lemma TotalsStep(sections: seq<Section>, surface: Surface, outOfScope: bool)
    requires sections != []
    ensures var init, s := sections[..|sections| - 1], sections[|sections| - 1];
      Totals(Rows(sections, surface, outOfScope)) ==
        if s.entries != [] && IsOutOfScopeSection(s.path) == outOfScope
        then Plus(Totals(Rows(init, surface, outOfScope)), RowOf(s, surface))
        else Totals(Rows(init, surface, outOfScope))
  {
    hide RowOf, IsOutOfScopeSection;
    var init, s := sections[..|sections| - 1], sections[|sections| - 1];
    var rows := Rows(init, surface, outOfScope);
    assert (rows + [RowOf(s, surface)])[..|rows|] == rows;
    assert rows + [] == rows;
  }

  /** Nothing is lost or counted twice: addressable and out-of-scope names add up to the names of all sections. */
  lemma {:induction false} TotalsConserve(sections: seq<Section>, surface: Surface)
    ensures var active, outside := Totals(Rows(sections, surface, false)), Totals(Rows(sections, surface, true));
      && Addressable(active) + (active.outOfScope + outside.outOfScope) == NameCount(sections)
      && Addressable(outside) == 0
  {
    hide RowOf, IsOutOfScopeSection, Totals, Rows, Addressable, Plus;
    if sections == [] {
      NoRows(surface);
      NothingCounted();
    } else {
      TotalsStep(sections, surface, false);
      TotalsStep(sections, surface, true);
      var init, s := sections[..|sections| - 1], sections[|sections| - 1];
      PlusCounts(Totals(Rows(init, surface, false)), RowOf(s, surface));
      PlusCounts(Totals(Rows(init, surface, true)), RowOf(s, surface));
      RowConserves(sections[|sections| - 1], surface);
      TotalsConserve(sections[..|sections| - 1], surface);
    }
  }

  lemma NothingCounted()
    ensures Addressable(Counts(0, 0, 0, 0)) == 0
  {
  }

  lemma PlusCounts(c: Counts, r: Row)
    ensures Addressable(Plus(c, r)) == Addressable(c) + |r.covered| + |r.missing| + |r.blocked|
    ensures Plus(c, r).outOfScope == c.outOfScope + |r.outOfScope|
  {
  }

  lemma NoRows(surface: Surface)
    ensures forall outOfScope :: Totals(Rows([], surface, outOfScope)) == Counts(0, 0, 0, 0)
  {
  }

  // ---------- registering more ----------

  /** `more` registers at least what `surface` does. */
  predicate Extends(more: Surface, surface: Surface) {
    more.valueTypes == surface.valueTypes && surface.funcs <= more.funcs && surface.types <= more.types
  }

  lemma ClassifyExtends(path: string, e: Entry, surface: Surface, more: Surface)
    requires Extends(more, surface)
    ensures Classify(path, e, more) == OutOfScope <==> Classify(path, e, surface) == OutOfScope
    ensures Classify(path, e, surface) == Covered ==> Classify(path, e, more) == Covered
    ensures Classify(path, e, more) == Blocked ==> Classify(path, e, surface) == Blocked
  {
    assert Unregistered(e, more) <= Unregistered(e, surface);
    assert RegisteredName(e.name, surface) ==> RegisteredName(e.name, more);
  }

  lemma {:induction false} BucketsExtend(path: string, entries: seq<Entry>, surface: Surface, more: Surface)
    requires Extends(more, surface)
    ensures Bucketed(path, entries, more, OutOfScope) == Bucketed(path, entries, surface, OutOfScope)
    ensures multiset(Bucketed(path, entries, surface, Covered)) <= multiset(Bucketed(path, entries, more, Covered))
    ensures multiset(Bucketed(path, entries, more, Blocked)) <= multiset(Bucketed(path, entries, surface, Blocked))
    ensures |Bucketed(path, entries, surface, Covered)| <= |Bucketed(path, entries, more, Covered)|
    ensures |Bucketed(path, entries, more, Blocked)| <= |Bucketed(path, entries, surface, Blocked)|
  {
    if entries == [] {
    } else {
      ClassifyExtends(path, entries[|entries| - 1], surface, more);
      hide Classify, Extends;
      BucketsExtend(path, entries[..|entries| - 1], surface, more);
    }
  }

  lemma RowExtends(s: Section, surface: Surface, more: Surface)
    requires Extends(more, surface)
    ensures var r, r' := RowOf(s, surface), RowOf(s, more);
      && |r'.outOfScope| == |r.outOfScope|
      && |r'.covered| + |r'.missing| + |r'.blocked| == |r.covered| + |r.missing| + |r.blocked|
      && |r.covered| <= |r'.covered|
      && |r'.blocked| <= |r.blocked|
  {
    BucketsExtend(s.path, s.entries, surface, more);
    RowConserves(s, surface);
    RowConserves(s, more);
    SameLength(Bucketed(s.path, s.entries, surface, Blocked), surface);
    SameLength(Bucketed(s.path, s.entries, more, Blocked), more);
  }

  /** The rows are of the same sections, and what was covered still is. */
  ghost predicate StaysCovered(before: seq<Row>, after: seq<Row>) {
    && |before| == |after|
    && forall i :: 0 <= i < |before| ==>
         before[i].path == after[i].path && multiset(before[i].covered) <= multiset(after[i].covered)
  }

  lemma RowStaysCovered(s: Section, surface: Surface, more: Surface)
    requires Extends(more, surface)
    ensures StaysCovered([RowOf(s, surface)], [RowOf(s, more)])
  {
    hide Extends, WithTypes;
    BucketsExtend(s.path, s.entries, surface, more);
  }

  /** Registering more takes no name out of covered, section by section. */
  lemma {:induction false} NoNameLost(sections: seq<Section>, surface: Surface, more: Surface)
    requires Extends(more, surface)
    ensures StaysCovered(Rows(sections, surface, false), Rows(sections, more, false))
  {
    hide RowOf, IsOutOfScopeSection, Extends;
    if sections == [] {
    } else {
      NoNameLost(sections[..|sections| - 1], surface, more);
      RowStaysCovered(sections[|sections| - 1], surface, more);
    }
  }

  /** Registering more names or types changes no total but moves names towards covered. */
  lemma {:induction false} RegisteringMoreHelps(sections: seq<Section>, surface: Surface, more: Surface)
    requires Extends(more, surface)
    ensures var before, after := Totals(Rows(sections, surface, false)), Totals(Rows(sections, more, false));
      && Addressable(after) == Addressable(before)
      && after.outOfScope == before.outOfScope
      && before.covered <= after.covered
      && after.blocked <= before.blocked
    ensures StaysCovered(Rows(sections, surface, false), Rows(sections, more, false))
  {
    NoNameLost(sections, surface, more);
    hide RowOf, IsOutOfScopeSection, Totals, Extends, Rows, StaysCovered;
    if sections == [] {
      NoRows(surface);
      NoRows(more);
    } else {
      TotalsStep(sections, surface, false);
      TotalsStep(sections, more, false);
      RowExtends(sections[|sections| - 1], surface, more);
      RegisteringMoreHelps(sections[..|sections| - 1], surface, more);
    }
  }

  // ---------- appendix C ----------

  /** The blocked entries of all rows. */
  function AllBlocked(rows: seq<Row>): seq<BlockedEntry> {
    if rows == [] then [] else AllBlocked(rows[..|rows| - 1]) + rows[|rows| - 1].blocked
  }

  /** How many blocked entries name `t`. */
  function PerType(bs: seq<BlockedEntry>, t: string): nat {
    if bs == [] then 0
    else PerType(bs[..|bs| - 1], t) + if t in bs[|bs| - 1].unregistered then 1 else 0
  }

  /** How many unregistered types the blocked entries name, entry by entry. */
  function UnregisteredNamed(bs: seq<BlockedEntry>): nat {
    if bs == [] then 0 else UnregisteredNamed(bs[..|bs| - 1]) + |bs[|bs| - 1].unregistered|
  }

  function CountOf(counts: map<string, nat>, t: string): nat {
    if t in counts then counts[t] else 0
  }

  ghost predicate IsRecount(counts: map<string, nat>, bs: seq<BlockedEntry>) {
    forall t :: CountOf(counts, t) == PerType(bs, t) && (t in counts ==> counts[t] > 0)
  }

  /** `for t in unregistered: blocked_per_type[t] += 1`. */
  method AddCounts(counts: map<string, nat>, types: set<string>) returns (r: map<string, nat>)
    ensures forall t :: CountOf(r, t) == CountOf(counts, t) + if t in types then 1 else 0
    ensures forall t :: t in r ==> t in counts || r[t] > 0
    ensures forall t :: t in r && t in counts ==> r[t] >= counts[t]
  {
    r := counts;
    var rest := types;
    while rest != {}
      invariant rest <= types
      invariant forall t :: CountOf(r, t) == CountOf(counts, t) + if t in types - rest then 1 else 0
      invariant forall t :: t in r ==> t in counts || r[t] > 0
      decreases rest
    {
      var t :| t in rest;
      r := r[t := CountOf(r, t) + 1];
      rest := rest - {t};
    }
    assert forall t :: t in r && t in counts ==> CountOf(r, t) >= CountOf(counts, t);
  }

  /** Counting the types of one more blocked entry. */
  lemma OneMoreCounted(counts: map<string, nat>, r: map<string, nat>, bs: seq<BlockedEntry>, b: BlockedEntry)
    requires IsRecount(counts, bs)
    requires forall t :: CountOf(r, t) == CountOf(counts, t) + if t in b.unregistered then 1 else 0
    requires forall t :: t in r ==> t in counts || r[t] > 0
    requires forall t :: t in r && t in counts ==> r[t] >= counts[t]
    ensures IsRecount(r, bs + [b])
  {
    PerTypeSnoc(bs, b);
    hide PerType;
  }

  lemma NoneCounted(rows: seq<Row>)
    ensures IsRecount(map[], AllBlocked(rows[..0]))
  {
  }

  lemma OneMoreBlocked(seen: seq<BlockedEntry>, blocked: seq<BlockedEntry>, j: nat)
    requires j < |blocked|
    ensures seen + blocked[..j] + [blocked[j]] == seen + blocked[..j + 1]
  {
  }

  lemma RowCounted(rows: seq<Row>, i: nat)
    requires i < |rows|
    ensures AllBlocked(rows[..i + 1]) == AllBlocked(rows[..i]) + rows[i].blocked
  {
    assert rows[..i + 1][..i] == rows[..i];
  }

  /** The recount of appendix C from the rows. */
  method RecountBlocked(rows: seq<Row>) returns (counts: map<string, nat>)
    ensures IsRecount(counts, AllBlocked(rows))
  {
    hide *;
    counts := map[];
    NoneCounted(rows);
    var i := 0;
    while i < |rows|
      invariant i <= |rows|
      invariant IsRecount(counts, AllBlocked(rows[..i]))
    {
      ghost var seen := AllBlocked(rows[..i]);
      var blocked := rows[i].blocked;
      assert seen + blocked[..0] == seen;
      var j := 0;
      while j < |blocked|
        invariant j <= |blocked|
        invariant IsRecount(counts, seen + blocked[..j])
      {
        ghost var before := counts;
        counts := AddCounts(counts, blocked[j].unregistered);
        OneMoreCounted(before, counts, seen + blocked[..j], blocked[j]);
        OneMoreBlocked(seen, blocked, j);
        j := j + 1;
      }
      assert blocked[..j] == blocked;
      RowCounted(rows, i);
      i := i + 1;
    }
    assert rows[..i] == rows;
  }

  lemma PerTypeSnoc(bs: seq<BlockedEntry>, b: BlockedEntry)
    ensures forall t :: PerType(bs + [b], t) == PerType(bs, t) + if t in b.unregistered then 1 else 0
    ensures UnregisteredNamed(bs + [b]) == UnregisteredNamed(bs) + |b.unregistered|
  {
    assert (bs + [b])[..|bs|] == bs;
  }

  lemma {:induction false} PerTypeConcat(a: seq<BlockedEntry>, b: seq<BlockedEntry>, t: string)
    ensures PerType(a + b, t) == PerType(a, t) + PerType(b, t)
  {
    if b == [] {
      assert a + b == a;
    } else {
      PerTypeConcat(a, b[..|b| - 1], t);
      assert (a + b)[..|a + b| - 1] == a + b[..|b| - 1];
    }
  }

  lemma {:induction false} NamedIffCounted(bs: seq<BlockedEntry>, t: string)
    ensures PerType(bs, t) > 0 <==> exists i :: 0 <= i < |bs| && t in bs[i].unregistered
  {
    if bs == [] {
    } else {
      NamedIffCounted(bs[..|bs| - 1], t);
      assert forall i :: 0 <= i < |bs| - 1 ==> bs[..|bs| - 1][i] == bs[i];
    }
  }

  /** A type blocks some section iff some blocked entry names it, and never more sections than entries. */
  lemma {:induction false} SectionsAtMostEntries(rows: seq<Row>, t: string)
    ensures Blockers(rows, t) != {} <==> PerType(AllBlocked(rows), t) > 0
    ensures |Blockers(rows, t)| <= PerType(AllBlocked(rows), t)
  {
    if rows == [] {
    } else {
      var init, row := rows[..|rows| - 1], rows[|rows| - 1];
      SectionsAtMostEntries(init, t);
      PerTypeConcat(AllBlocked(init), row.blocked, t);
      NamedIffCounted(row.blocked, t);
      OneMoreAtMost(Blockers(init, t), row.path);
    }
  }

  lemma OneMoreAtMost(s: set<string>, x: string)
    ensures |s + {x}| <= |s| + 1
  {
    if x in s {
      assert s + {x} == s;
    }
  }

  /** The sum of the counts of the types in `ts`. */
  ghost function SumOver(counts: map<string, nat>, ts: set<string>): nat {
    if ts == {} then 0
    else
      var t :| t in ts;
      CountOf(counts, t) + SumOver(counts, ts - {t})
  }

  /** How many types of `ts` the blocked entries name, entry by entry. */
  ghost function Overlap(bs: seq<BlockedEntry>, ts: set<string>): nat {
    if bs == [] then 0 else Overlap(bs[..|bs| - 1], ts) + |ts * bs[|bs| - 1].unregistered|
  }

  lemma {:induction false} OverlapStep(bs: seq<BlockedEntry>, ts: set<string>, t: string)
    requires t in ts
    ensures Overlap(bs, ts) == PerType(bs, t) + Overlap(bs, ts - {t})
  {
    if bs == [] {
    } else {
      OverlapStep(bs[..|bs| - 1], ts, t);
      var u := bs[|bs| - 1].unregistered;
      if t in u {
        assert ts * u == ((ts - {t}) * u) + {t};
      } else {
        assert ts * u == (ts - {t}) * u;
      }
    }
  }

  lemma {:induction false} OverlapNone(bs: seq<BlockedEntry>)
    ensures Overlap(bs, {}) == 0
  {
    if bs == [] {
    } else {
      OverlapNone(bs[..|bs| - 1]);
      assert {} * bs[|bs| - 1].unregistered == {};
    }
  }

  lemma {:induction false} SumIsOverlap(counts: map<string, nat>, bs: seq<BlockedEntry>, ts: set<string>)
    requires forall t :: CountOf(counts, t) == PerType(bs, t)
    ensures SumOver(counts, ts) == Overlap(bs, ts)
    decreases ts
  {
    if ts == {} {
      OverlapNone(bs);
    } else {
      var t :| t in ts && SumOver(counts, ts) == CountOf(counts, t) + SumOver(counts, ts - {t});
      SumIsOverlap(counts, bs, ts - {t});
      OverlapStep(bs, ts, t);
    }
  }

  lemma {:induction false} OverlapAll(bs: seq<BlockedEntry>, ts: set<string>)
    requires forall i :: 0 <= i < |bs| ==> bs[i].unregistered <= ts
    ensures Overlap(bs, ts) == UnregisteredNamed(bs)
  {
    if bs == [] {
    } else {
      OverlapAll(bs[..|bs| - 1], ts);
      assert ts * bs[|bs| - 1].unregistered == bs[|bs| - 1].unregistered;
    }
  }

  /** Every blocked entry names a type. */
  ghost predicate NameTypes(bs: seq<BlockedEntry>) {
    forall i :: 0 <= i < |bs| ==> bs[i].unregistered != {}
  }

  lemma {:induction false} EachNamesOne(bs: seq<BlockedEntry>)
    requires NameTypes(bs)
    ensures |bs| <= UnregisteredNamed(bs)
  {
    if bs == [] {
    } else {
      EachNamesOne(bs[..|bs| - 1]);
    }
  }

  lemma BlockedHasTypes(path: string, e: Entry, surface: Surface)
    ensures Classify(path, e, surface) == Blocked ==> Unregistered(e, surface) != {}
  {
  }

  lemma {:induction false} BlockedNameTypes(path: string, entries: seq<Entry>, surface: Surface)
    ensures NameTypes(WithTypes(Bucketed(path, entries, surface, Blocked), surface))
  {
    if entries == [] {
    } else {
      var n := |entries| - 1;
      BlockedNameTypes(path, entries[..n], surface);
      BucketStep(path, entries, n, surface);
      assert entries[..n + 1] == entries;
      BlockedHasTypes(path, entries[n], surface);
      hide Classify, Unregistered, Bucketed, WithTypes;
      WithTypesSnoc(Bucketed(path, entries[..n], surface, Blocked), entries[n], surface);
    }
  }

  lemma AllBlockedSnoc(rows: seq<Row>, row: Row)
    ensures AllBlocked(rows + [row]) == AllBlocked(rows) + row.blocked
  {
    assert (rows + [row])[..|rows|] == rows;
  }

  lemma RowsStep(sections: seq<Section>, surface: Surface, outOfScope: bool)
    requires sections != []
    ensures var init, s := sections[..|sections| - 1], sections[|sections| - 1];
      Rows(sections, surface, outOfScope) ==
        if s.entries != [] && IsOutOfScopeSection(s.path) == outOfScope
        then Rows(init, surface, outOfScope) + [RowOf(s, surface)]
        else Rows(init, surface, outOfScope)
  {
    hide RowOf, IsOutOfScopeSection;
    assert Rows(sections[..|sections| - 1], surface, outOfScope) + [] == Rows(sections[..|sections| - 1], surface, outOfScope);
  }

  lemma {:induction false} AllBlockedOfRows(sections: seq<Section>, surface: Surface)
    ensures var rows := Rows(sections, surface, false);
      |AllBlocked(rows)| == Totals(rows).blocked && NameTypes(AllBlocked(rows))
  {
    if sections == [] {
    } else {
      var init, s := sections[..|sections| - 1], sections[|sections| - 1];
      AllBlockedOfRows(init, surface);
      BlockedNameTypes(s.path, s.entries, surface);
      TotalsStep(sections, surface, false);
      RowsStep(sections, surface, false);
      var rows, row := Rows(init, surface, false), RowOf(s, surface);
      AllBlockedSnoc(rows, row);
      assert row.blocked == WithTypes(Bucketed(s.path, s.entries, surface, Blocked), surface);
      hide IsOutOfScopeSection, Totals, WithTypes, Bucketed, Rows, RowOf, AllBlocked, NameTypes;
      NameTypesConcat(AllBlocked(rows), row.blocked);
    }
  }

  lemma NameTypesConcat(a: seq<BlockedEntry>, b: seq<BlockedEntry>)
    requires NameTypes(a) && NameTypes(b)
    ensures NameTypes(a + b)
  {
  }

  /**
   * Appendix C adds up: the recounted types are the keys of `blocking_types`, their counts sum to all
   * the unregistered types the blocked entries name, at least one each, and no type has more sections
   * than entries.
   */
  lemma {:induction false} AppendixC(sections: seq<Section>, surface: Surface, blocking: map<string, set<string>>, counts: map<string, nat>)
    requires IsBlocking(blocking, Rows(sections, surface, false))
    requires IsRecount(counts, AllBlocked(Rows(sections, surface, false)))
    ensures var rows := Rows(sections, surface, false);
      && blocking.Keys == counts.Keys
      && SumOver(counts, counts.Keys) == UnregisteredNamed(AllBlocked(rows)) >= Totals(rows).blocked
      && forall t :: t in blocking ==> t in counts && |blocking[t]| <= counts[t]
  {
    var rows := Rows(sections, surface, false);
    var bs := AllBlocked(rows);
    hide Rows, AllBlocked, PerType, Blockers, Totals, UnregisteredNamed;
    forall t ensures t in blocking <==> t in counts
      ensures t in blocking && t in counts ==> |blocking[t]| <= counts[t]
    {
      SectionsAtMostEntries(rows, t);
      assert CountOf(counts, t) == PerType(bs, t);
      assert SectionsOf(blocking, t) == Blockers(rows, t);
    }
    forall i | 0 <= i < |bs| ensures bs[i].unregistered <= counts.Keys {
      forall t | t in bs[i].unregistered ensures t in counts {
        NamedIffCounted(bs, t);
        assert CountOf(counts, t) == PerType(bs, t);
      }
    }
    SumIsOverlap(counts, bs, counts.Keys);
    OverlapAll(bs, counts.Keys);
    AllBlockedOfRows(sections, surface);
    EachNamesOne(bs);
  }

  // ---------- from the text of a section ----------

  function DeclCount(decls: seq<Decl>, name: string): nat {
    if decls == [] then 0
    else DeclCount(decls[..|decls| - 1], name) + if decls[|decls| - 1].name == name then 1 else 0
  }

  /** Every type a declaration of `name` names. */
  function DeclTypes(decls: seq<Decl>, name: string): set<string> {
    if decls == [] then {}
    else
      var d := decls[|decls| - 1];
      DeclTypes(decls[..|decls| - 1], name)
        + if d.name == name then SignatureTypes.SignatureTypes(d.args, d.ret) else {}
  }

  /** The counts and the types of the declarations, name by name. */
  ghost predicate Collected(funcs: map<string, nat>, funcTypes: map<string, set<string>>, decls: seq<Decl>) {
    funcs.Keys == funcTypes.Keys && forall name :: CollectedName(funcs, funcTypes, decls, name)
  }

  ghost predicate CollectedName(funcs: map<string, nat>, funcTypes: map<string, set<string>>, decls: seq<Decl>, name: string) {
    && CountOf(funcs, name) == DeclCount(decls, name)
    && (name in funcs <==> DeclCount(decls, name) > 0)
    && SectionsOf(funcTypes, name) == DeclTypes(decls, name)
  }

  /** The loop of `collect_mobilitydb` over the declarations of one file. */
  method CollectSection(sql: string) returns (funcs: map<string, nat>, funcTypes: map<string, set<string>>)
    ensures Collected(funcs, funcTypes, Decls(StripComments(sql), 0))
  {
    hide SignatureTypes.SignatureTypes, Decls, StripComments;
    funcs, funcTypes := map[], map[];
    var decls := IterCreateFunctions(StripComments(sql));
    var i := 0;
    assert Collected(funcs, funcTypes, decls[..0]);
    hide Collected, CountOf, SectionsOf, DeclCount, DeclTypes;
    while i < |decls|
      invariant i <= |decls|
      invariant Collected(funcs, funcTypes, decls[..i])
    {
      var d := decls[i];
      var types := SignatureTypes.SignatureTypesLoop(d.args, d.ret);
      OneMoreDecl(decls, i, funcs, funcTypes, types);
      funcs := funcs[d.name := CountOf(funcs, d.name) + 1];
      funcTypes := funcTypes[d.name := SectionsOf(funcTypes, d.name) + types];
      i := i + 1;
    }
    assert decls[..i] == decls;
  }

  lemma CountUpdated(funcs: map<string, nat>, n: string, name: string)
    ensures CountOf(funcs[n := CountOf(funcs, n) + 1], name) == CountOf(funcs, name) + if name == n then 1 else 0
  {
  }

  lemma SectionsUpdated(funcTypes: map<string, set<string>>, n: string, types: set<string>, name: string)
    ensures SectionsOf(funcTypes[n := SectionsOf(funcTypes, n) + types], name)
         == SectionsOf(funcTypes, name) + if name == n then types else {}
  {
  }

  lemma OneMoreDecl(decls: seq<Decl>, i: nat, funcs: map<string, nat>, funcTypes: map<string, set<string>>, types: set<string>)
    requires i < |decls| && Collected(funcs, funcTypes, decls[..i])
    requires types == SignatureTypes.SignatureTypes(decls[i].args, decls[i].ret)
    ensures var name := decls[i].name;
      Collected(funcs[name := CountOf(funcs, name) + 1], funcTypes[name := SectionsOf(funcTypes, name) + types], decls[..i + 1])
  {
    var d, init, more := decls[i], decls[..i], decls[..i + 1];
    var f, g := funcs[d.name := CountOf(funcs, d.name) + 1], funcTypes[d.name := SectionsOf(funcTypes, d.name) + types];
    assert f.Keys == g.Keys;
    hide SignatureTypes.SignatureTypes, DeclCount, DeclTypes, CountOf, SectionsOf;
    forall name: string ensures CollectedName(f, g, more, name) {
      assert CollectedName(funcs, funcTypes, init, name);
      OneMoreOfName(decls, i, name);
      CountUpdated(funcs, d.name, name);
      SectionsUpdated(funcTypes, d.name, types, name);
    }
  }

  lemma OneMoreOfName(decls: seq<Decl>, i: nat, name: string)
    requires i < |decls|
    ensures var d := decls[i];
      && DeclCount(decls[..i + 1], name) == DeclCount(decls[..i], name) + (if d.name == name then 1 else 0)
      && DeclTypes(decls[..i + 1], name) == DeclTypes(decls[..i], name) + if d.name == name then SignatureTypes.SignatureTypes(d.args, d.ret) else {}
  {
    hide SignatureTypes.SignatureTypes;
    assert decls[..i + 1][..i] == decls[..i];
  }

  /** The count of a name is the number of its declarations. */
  lemma {:induction false} CountIsNumber(decls: seq<Decl>, name: string)
    ensures DeclCount(decls, name) == |DeclaredAt(decls, name)|
  {
    if decls == [] {
    } else {
      CountIsNumber(decls[..|decls| - 1], name);
      LastDeclared(decls, name);
      hide DeclaredAt;
    }
  }

  /** The places of the declarations of `name`. */
  function DeclaredAt(decls: seq<Decl>, name: string): set<nat> {
    set i | 0 <= i < |decls| && decls[i].name == name
  }

  lemma LastDeclared(decls: seq<Decl>, name: string)
    requires decls != []
    ensures var n := |decls| - 1;
      && n !in DeclaredAt(decls[..n], name)
      && DeclaredAt(decls, name) == DeclaredAt(decls[..n], name) + if decls[n].name == name then {n} else {}
  {
  }

  /** A declaration of `name` names the type `t`. */
  ghost predicate DeclNames(d: Decl, name: string, t: string) {
    d.name == name && t in SignatureTypes.SignatureTypes(d.args, d.ret)
  }

  lemma {:induction false} NamedByDecl(decls: seq<Decl>, name: string, t: string)
    ensures t in DeclTypes(decls, name) <==> exists i :: 0 <= i < |decls| && DeclNames(decls[i], name, t)
  {
    hide SignatureTypes.SignatureTypes;
    if decls == [] {
    } else {
      NamedByDecl(decls[..|decls| - 1], name, t);
      assert forall i :: 0 <= i < |decls| - 1 ==> decls[..|decls| - 1][i] == decls[i];
    }
  }

  /** Some declaration of `name` names a value type that is not registered. */
  ghost predicate NamesUnregistered(decls: seq<Decl>, name: string, surface: Surface) {
    exists i, t :: 0 <= i < |decls| && DeclNames(decls[i], name, t) && t in surface.valueTypes && t !in surface.types
  }

  /** A name in scope is blocked exactly when one of its declarations names a value type that is not registered. */
  lemma {:induction false} BlockedByDeclaration(path: string, decls: seq<Decl>, e: Entry, surface: Surface)
    requires e.types == DeclTypes(decls, e.name)
    requires !IsOutOfScopeSection(path) && !IsOutOfScopeName(e.name)
    ensures Classify(path, e, surface) == Blocked <==> NamesUnregistered(decls, e.name, surface)
  {
    hide DeclTypes, DeclNames, RegisteredName, IsOutOfScopeSection, IsOutOfScopeName;
    if Unregistered(e, surface) != {} {
      var t :| t in Unregistered(e, surface);
      NamedByDecl(decls, e.name, t);
    }
    if NamesUnregistered(decls, e.name, surface) {
      var i, t :| 0 <= i < |decls| && DeclNames(decls[i], e.name, t) && t in surface.valueTypes && t !in surface.types;
      NamedByDecl(decls, e.name, t);
      assert t in Unregistered(e, surface);
    }
  }

  /** The types of a declaration printed anywhere in a file, arguments and return type, are collected under its name. */
  lemma {:induction false} PrintedTypesCollected(s: string, i: nat, d: Printed, args: seq<SignatureTypes.Arg>)
    requires PrintedAt(s, i, d) && d.args == Join(SignatureTypes.PrintAll(args), ',')
    requires forall k :: 0 <= k < |args| ==> SignatureTypes.ArgOk(args[k])
    ensures forall k :: 0 <= k < |args| ==> Lower(args[k].ty) in DeclTypes(Decls(s, 0), d.head.name)
    ensures d.clause.Some? ==> Lower(d.clause.value.ty) in DeclTypes(Decls(s, 0), d.head.name)
  {
    TypeIsThere(s, i, d);
    hide PrintedAt, Decls, DeclTypes, Lower, Join, SignatureTypes.ArgOk, SignatureTypes.SignatureTypes;
    ScanFindsPrinted(s, i, d);
    SignatureTypes.SignatureRoundTrip(args, DeclOf(d).ret);
    TypesOfDecl(Decls(s, 0), DeclOf(d));
  }

  lemma TypeIsThere(s: string, i: nat, d: Printed)
    requires PrintedAt(s, i, d)
    ensures d.clause.Some? ==> d.clause.value.ty != ""
  {
    hide At, HeadOk, Nested, Lower, IsKey, Blank, ClauseEnds, PrintedText;
  }

  lemma TypesOfDecl(decls: seq<Decl>, d: Decl)
    requires d in decls
    ensures SignatureTypes.SignatureTypes(d.args, d.ret) <= DeclTypes(decls, d.name)
  {
    hide DeclTypes, SignatureTypes.SignatureTypes;
    forall t | t in SignatureTypes.SignatureTypes(d.args, d.ret) ensures t in DeclTypes(decls, d.name) {
      var i :| 0 <= i < |decls| && decls[i] == d;
      assert DeclNames(decls[i], d.name, t);
      NamedByDecl(decls, d.name, t);
    }
  }
}
