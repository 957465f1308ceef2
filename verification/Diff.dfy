/**
 * Structural comparison of two catalogs (introspect/diff.go). Objects are compared through
 * name-keyed maps; canonical JSON texts are equal exactly when the values are, so they are
 * compared as values. A line is the structured form of one printed difference.
 */
module Diff {
  import opened Sequences
  import opened Ordering
  import opened CatalogModel
  import opened Strings

  datatype Line =
    | ServerVersionChanged(was: string, now: string)
    | Removed(kind: string, name: string)
    | Added(kind: string, name: string)
    | Changed(kind: string, name: string)
    | ColumnRemoved(kind: string, name: string, column: string)
    | ColumnAdded(kind: string, name: string, column: string, desc: string)
    | ColumnTypeChanged(kind: string, name: string, column: string, was: string, now: string)
    | ColumnChanged(kind: string, name: string, column: string)
    | TableChanged(kind: string, name: string, aspects: seq<string>)

  // ----- sorted keys

  ghost predicate SortedKeysOf(keys: set<string>, xs: seq<string>) {
    && (forall k :: k in xs <==> k in keys)
    && (forall i, j :: 0 <= i < j < |xs| ==> xs[i] != xs[j])
    && SortedBy(StringKey, xs)
  }

  lemma SortedKeysUnique(keys: set<string>, xs: seq<string>, ys: seq<string>)
    requires SortedKeysOf(keys, xs) && SortedKeysOf(keys, ys)
    ensures xs == ys
  {
    StringSortsAgree(xs, ys);
  }

  lemma SortedKeysOfSort(keys: set<string>, xs: seq<string>, ys: seq<string>)
    requires forall k :: k in xs <==> k in keys
    requires forall i, j :: 0 <= i < j < |xs| ==> xs[i] != xs[j]
    requires SortOf(StringKey, xs, ys)
    ensures SortedKeysOf(keys, ys)
  {
    assert forall k :: k in xs <==> k in multiset(xs);
    assert forall k :: k in ys <==> k in multiset(ys);
    DistinctPermuted(xs, ys);
  }

  /** The keys of a map, sorted: the order every report is printed in. */
  ghost function SortedKeys(keys: set<string>): (xs: seq<string>)
    ensures SortedKeysOf(keys, xs)
  {
    SortedKeysOfSort(keys, Listing(keys), Sort(StringKey, Listing(keys)));
    Sort(StringKey, Listing(keys))
  }

  /** Map iteration yields the keys in any order; sorting makes the result unique. */
  method CollectSortedKeys(keys: set<string>) returns (xs: seq<string>)
    ensures xs == SortedKeys(keys)
  {
    var out := [];
    var todo := keys;
    while todo != {}
      invariant todo <= keys
      invariant forall k :: k in out <==> k in keys && k !in todo
      invariant forall i, j :: 0 <= i < j < |out| ==> out[i] != out[j]
      decreases todo
    {
      var k :| k in todo;
      out, todo := out + [k], todo - {k};
    }
    xs := SortSlice(StringKey, out);
    SortedKeysOfSort(keys, out, xs);
    SortedKeysUnique(keys, xs, SortedKeys(keys));
  }

  // ----- name-keyed maps: a later entry replaces an earlier one

  function MapBy<T(!new)>(name: T -> string, xs: seq<T>): (m: map<string, T>)
    ensures forall k :: k in m <==> exists x :: x in xs && name(x) == k
    ensures forall k :: k in m ==> m[k] in xs && name(m[k]) == k
  {
    if xs == [] then map[]
    else
      var last := xs[|xs| - 1];
      assert forall x :: x in xs <==> x == last || x in xs[..|xs| - 1];
      MapBy(name, xs[..|xs| - 1])[name(last) := last]
  }

  method BuildMap<T(!new)>(name: T -> string, xs: seq<T>) returns (m: map<string, T>)
    ensures m == MapBy(name, xs)
  {
    m := map[];
    for i := 0 to |xs|
      invariant m == MapBy(name, xs[..i])
    {
      m := m[name(xs[i]) := xs[i]];
      assert xs[..i + 1][..i] == xs[..i];
    }
    assert xs[..|xs|] == xs;
  }

  ghost predicate DistinctNames<T>(name: T -> string, xs: seq<T>) {
    forall i, j :: 0 <= i < j < |xs| ==> name(xs[i]) != name(xs[j])
  }

  /** Without name clashes, a map and the list it was built from carry the same information. */
  lemma MapsAgree<T(!new)>(name: T -> string, xs: seq<T>, ys: seq<T>)
    requires DistinctNames(name, xs) && DistinctNames(name, ys)
    ensures MapBy(name, xs) == MapBy(name, ys) <==> multiset(xs) == multiset(ys)
  {
    var c, l := MapBy(name, xs), MapBy(name, ys);
    if c == l {
      forall x
        ensures x in xs <==> x in ys
      {
        MapHolds(name, xs, x);
        MapHolds(name, ys, x);
      }
      SameElements(xs, ys);
    }
    if multiset(xs) == multiset(ys) {
      assert forall x :: x in xs <==> x in multiset(xs);
      assert forall x :: x in ys <==> x in multiset(ys);
      forall k | k in c
        ensures k in l && l[k] == c[k]
      {
        assert c[k] in ys;
        MapHolds(name, ys, c[k]);
      }
      assert c.Keys == l.Keys;
    }
  }

  lemma MapHolds<T(!new)>(name: T -> string, xs: seq<T>, x: T)
    requires DistinctNames(name, xs)
    ensures x in xs <==> name(x) in MapBy(name, xs) && MapBy(name, xs)[name(x)] == x
  {
  }

  function EnumName(e: Enum): string { QualifiedName(e.schema, e.name) }
  function CompositeName(c: Composite): string { QualifiedName(c.schema, c.name) }
  function TableName(t: TableData): string { QualifiedName(t.schema, t.name) }
  function ColumnName(c: ColumnData): string { c.name }

  /** Overloads are told apart by their argument types. */
  function FunctionName(f: Function): string {
    QualifiedName(f.schema, f.name) + "("
    + Join(", ", seq(|f.args|, i requires 0 <= i < |f.args| => f.args[i].pgType)) + ")"
  }

  // ----- what each comparison reports

  function When(b: bool, line: Line): seq<Line> { if b then [line] else [] }

  function GoneLine(kind: string, live: set<string>): string -> seq<Line> {
    n => When(n !in live, Removed(kind, n))
  }

  function NewLine(kind: string, cached: set<string>): string -> seq<Line> {
    n => When(n !in cached, Added(kind, n))
  }

  ghost function SetDiff(kind: string, cached: set<string>, live: set<string>): seq<Line> {
    FlatMap(GoneLine(kind, live), SortedKeys(cached)) + FlatMap(NewLine(kind, cached), SortedKeys(live))
  }

  function NamedLine<T(==)>(kind: string, cached: map<string, T>, live: map<string, T>): string -> seq<Line> {
    n => if n !in live then []
         else if n !in cached then [Added(kind, n)]
         else When(cached[n] != live[n], Changed(kind, n))
  }

  ghost function NamedDiff<T>(kind: string, cached: map<string, T>, live: map<string, T>): seq<Line> {
    FlatMap(GoneLine(kind, live.Keys), SortedKeys(cached.Keys))
    + FlatMap(NamedLine(kind, cached, live), SortedKeys(live.Keys))
  }

  function TypeDesc(c: ColumnData): string {
    c.pgType + (if c.isArray then "[]" else "") + (if c.notNull then " not null" else "")
  }

  type Columns = map<string, ColumnData>

  function ColumnGoneLine(kind: string, name: string, live: set<string>): string -> seq<Line> {
    cn => When(cn !in live, ColumnRemoved(kind, name, cn))
  }

  function ColumnLine(kind: string, name: string, cc: Columns, lc: Columns): string -> seq<Line> {
    cn => if cn !in lc then []
          else if cn !in cc then [ColumnAdded(kind, name, cn, TypeDesc(lc[cn]))]
          else if TypeDesc(cc[cn]) != TypeDesc(lc[cn]) then
            [ColumnTypeChanged(kind, name, cn, TypeDesc(cc[cn]), TypeDesc(lc[cn]))]
          else When(cc[cn] != lc[cn], ColumnChanged(kind, name, cn))
  }

  ghost function ColumnsDiff(name: string, cachedKind: string, liveKind: string, cc: Columns, lc: Columns): seq<Line> {
    FlatMap(ColumnGoneLine(cachedKind, name, lc.Keys), SortedKeys(cc.Keys))
    + FlatMap(ColumnLine(liveKind, name, cc, lc), SortedKeys(lc.Keys))
  }

  function Aspect(part: string, differs: bool): seq<string> { if differs then [part] else [] }

  function AspectChanges(cached: TableData, live: TableData): seq<string> {
    var parts :=
      Aspect("kind", cached.kind != live.kind)
      + Aspect("comment", cached.comment != live.comment)
      + Aspect("rls", cached.rlsEnabled != live.rlsEnabled)
      + Aspect("primary key", cached.primaryKey != live.primaryKey)
      + Aspect("unique constraints", cached.uniques != live.uniques)
      + Aspect("foreign keys", cached.foreignKeys != live.foreignKeys)
      + Aspect("indexes", cached.indexes != live.indexes)
      + Aspect("privileges", cached.privileges != live.privileges);
    if parts == [] then ["definition"] else parts
  }

  ghost function TableDiff(name: string, cached: TableData, live: TableData): seq<Line> {
    var lines := ColumnsDiff(name, cached.kind, live.kind,
                             MapBy(ColumnName, cached.columns), MapBy(ColumnName, live.columns));
    if lines != [] then lines
    else When(cached != live, TableChanged(live.kind, name, AspectChanges(cached, live)))
  }

  type Tables = map<string, TableData>

  function TableGoneLine(c: Tables, l: Tables): string -> seq<Line> {
    n => if n !in c then [] else When(n !in l, Removed(c[n].kind, n))
  }

  ghost function TableLine(c: Tables, l: Tables): string -> seq<Line> {
    n => if n !in l then []
         else if n !in c then [Added(l[n].kind, n)]
         else TableDiff(n, c[n], l[n])
  }

  ghost function TableMapDiff(c: Tables, l: Tables): seq<Line> {
    FlatMap(TableGoneLine(c, l), SortedKeys(c.Keys)) + FlatMap(TableLine(c, l), SortedKeys(l.Keys))
  }

  function Members(xs: seq<string>): set<string> { set s | s in xs }

  ghost function CatalogDiff(cached: CatalogData, live: CatalogData): seq<Line> {
    When(cached.serverVersion != live.serverVersion, ServerVersionChanged(cached.serverVersion, live.serverVersion))
    + SetDiff("schema", Members(cached.schemas), Members(live.schemas))
    + TableMapDiff(MapBy(TableName, cached.tables), MapBy(TableName, live.tables))
    + NamedDiff("enum", MapBy(EnumName, cached.enums), MapBy(EnumName, live.enums))
    + NamedDiff("composite type", MapBy(CompositeName, cached.composites), MapBy(CompositeName, live.composites))
    + NamedDiff("function", MapBy(FunctionName, cached.functions), MapBy(FunctionName, live.functions))
  }

  // ----- the comparisons as the program runs them

  lemma FlatMapStep<T, U>(f: T -> seq<U>, xs: seq<T>, i: nat)
    requires i < |xs|
    ensures FlatMap(f, xs[..i + 1]) == FlatMap(f, xs[..i]) + f(xs[i])
  {
    assert xs[..i + 1] == xs[..i] + [xs[i]];
    FlatMapSnoc(f, xs[..i], xs[i]);
  }

  lemma WholeSlice<T>(xs: seq<T>)
    ensures xs[..|xs|] == xs
  {
  }

  /** The first loop of each comparison: what only the cached side has. */
  method ReportGone(kind: string, keys: seq<string>, live: set<string>) returns (out: seq<Line>)
    ensures out == FlatMap(GoneLine(kind, live), keys)
  {
    out := [];
    for i := 0 to |keys|
      invariant out == FlatMap(GoneLine(kind, live), keys[..i])
    {
      FlatMapStep(GoneLine(kind, live), keys, i);
      if keys[i] !in live {
        out := out + [Removed(kind, keys[i])];
      }
    }
    WholeSlice(keys);
  }

  method DiffStringSet(kind: string, cached: seq<string>, live: seq<string>) returns (out: seq<Line>)
    ensures out == SetDiff(kind, Members(cached), Members(live))
  {
    var c, l := Members(cached), Members(live);
    var cKeys := CollectSortedKeys(c);
    var gone := ReportGone(kind, cKeys, l);
    var lKeys := CollectSortedKeys(l);
    var added := [];
    for i := 0 to |lKeys|
      invariant added == FlatMap(NewLine(kind, c), lKeys[..i])
    {
      FlatMapStep(NewLine(kind, c), lKeys, i);
      if lKeys[i] !in c {
        added := added + [Added(kind, lKeys[i])];
      }
    }
    WholeSlice(lKeys);
    out := gone + added;
  }

  method DiffNamed<T(==)>(kind: string, cached: map<string, T>, live: map<string, T>) returns (out: seq<Line>)
    ensures out == NamedDiff(kind, cached, live)
  {
    var cKeys := CollectSortedKeys(cached.Keys);
    var gone := ReportGone(kind, cKeys, live.Keys);
    var lKeys := CollectSortedKeys(live.Keys);
    var changes := [];
    for i := 0 to |lKeys|
      invariant changes == FlatMap(NamedLine(kind, cached, live), lKeys[..i])
    {
      FlatMapStep(NamedLine(kind, cached, live), lKeys, i);
      var name := lKeys[i];
      if name !in cached {
        changes := changes + [Added(kind, name)];
      } else if cached[name] != live[name] {
        changes := changes + [Changed(kind, name)];
      }
    }
    WholeSlice(lKeys);
    out := gone + changes;
  }

  /** Each call of the source's aspect closure appends the part when the two sides differ. */
  method TableAspectChanges(cached: TableData, live: TableData) returns (parts: seq<string>)
    ensures parts == AspectChanges(cached, live)
  {
    parts := Aspect("kind", cached.kind != live.kind);
    parts := parts + Aspect("comment", cached.comment != live.comment);
    parts := parts + Aspect("rls", cached.rlsEnabled != live.rlsEnabled);
    parts := parts + Aspect("primary key", cached.primaryKey != live.primaryKey);
    parts := parts + Aspect("unique constraints", cached.uniques != live.uniques);
    parts := parts + Aspect("foreign keys", cached.foreignKeys != live.foreignKeys);
    parts := parts + Aspect("indexes", cached.indexes != live.indexes);
    parts := parts + Aspect("privileges", cached.privileges != live.privileges);
    if |parts| == 0 {
      parts := ["definition"];
    }
  }

  method DiffColumns(name: string, cachedKind: string, liveKind: string, cc: Columns, lc: Columns)
    returns (out: seq<Line>)
    ensures out == ColumnsDiff(name, cachedKind, liveKind, cc, lc)
  {
    var gone := [];
    var cKeys := CollectSortedKeys(cc.Keys);
    for i := 0 to |cKeys|
      invariant gone == FlatMap(ColumnGoneLine(cachedKind, name, lc.Keys), cKeys[..i])
    {
      FlatMapStep(ColumnGoneLine(cachedKind, name, lc.Keys), cKeys, i);
      if cKeys[i] !in lc {
        gone := gone + [ColumnRemoved(cachedKind, name, cKeys[i])];
      }
    }
    WholeSlice(cKeys);
    var changes := [];
    var lKeys := CollectSortedKeys(lc.Keys);
    for i := 0 to |lKeys|
      invariant changes == FlatMap(ColumnLine(liveKind, name, cc, lc), lKeys[..i])
    {
      FlatMapStep(ColumnLine(liveKind, name, cc, lc), lKeys, i);
      var cn := lKeys[i];
      if cn !in cc {
        changes := changes + [ColumnAdded(liveKind, name, cn, TypeDesc(lc[cn]))];
      } else if TypeDesc(cc[cn]) != TypeDesc(lc[cn]) {
        changes := changes + [ColumnTypeChanged(liveKind, name, cn, TypeDesc(cc[cn]), TypeDesc(lc[cn]))];
      } else if cc[cn] != lc[cn] {
        changes := changes + [ColumnChanged(liveKind, name, cn)];
      }
    }
    WholeSlice(lKeys);
    out := gone + changes;
  }

  method DiffTable(name: string, cached: TableData, live: TableData) returns (out: seq<Line>)
    ensures out == TableDiff(name, cached, live)
  {
    var cc := BuildMap(ColumnName, cached.columns);
    var lc := BuildMap(ColumnName, live.columns);
    out := DiffColumns(name, cached.kind, live.kind, cc, lc);
    if |out| == 0 && cached != live {
      var aspects := TableAspectChanges(cached, live);
      out := out + [TableChanged(live.kind, name, aspects)];
    }
  }

  method DiffTables(cached: seq<TableData>, live: seq<TableData>) returns (out: seq<Line>)
    ensures out == TableMapDiff(MapBy(TableName, cached), MapBy(TableName, live))
  {
    hide TableDiff, MapBy;
    var c := BuildMap(TableName, cached);
    var l := BuildMap(TableName, live);
    var gone := [];
    var cKeys := CollectSortedKeys(c.Keys);
    for i := 0 to |cKeys|
      invariant gone == FlatMap(TableGoneLine(c, l), cKeys[..i])
    {
      FlatMapStep(TableGoneLine(c, l), cKeys, i);
      if cKeys[i] !in l {
        gone := gone + [Removed(c[cKeys[i]].kind, cKeys[i])];
      }
    }
    WholeSlice(cKeys);
    var changes := [];
    var lKeys := CollectSortedKeys(l.Keys);
    for i := 0 to |lKeys|
      invariant changes == FlatMap(TableLine(c, l), lKeys[..i])
    {
      FlatMapStep(TableLine(c, l), lKeys, i);
      var name := lKeys[i];
      if name !in c {
        changes := changes + [Added(l[name].kind, name)];
      } else {
        var lines := DiffTable(name, c[name], l[name]);
        changes := changes + lines;
      }
    }
    WholeSlice(lKeys);
    out := gone + changes;
  }

  method DiffCatalogs(cached: CatalogData, live: CatalogData) returns (out: seq<Line>)
    ensures out == CatalogDiff(cached, live)
  {
    out := When(cached.serverVersion != live.serverVersion,
                ServerVersionChanged(cached.serverVersion, live.serverVersion));
    var schemas := DiffStringSet("schema", cached.schemas, live.schemas);
    out := out + schemas;
    var tables := DiffTables(cached.tables, live.tables);
    out := out + tables;
    var cEnums := BuildMap(EnumName, cached.enums);
    var lEnums := BuildMap(EnumName, live.enums);
    var enums := DiffNamed("enum", cEnums, lEnums);
    out := out + enums;
    var cComposites := BuildMap(CompositeName, cached.composites);
    var lComposites := BuildMap(CompositeName, live.composites);
    var composites := DiffNamed("composite type", cComposites, lComposites);
    out := out + composites;
    var cFunctions := BuildMap(FunctionName, cached.functions);
    var lFunctions := BuildMap(FunctionName, live.functions);
    var functions := DiffNamed("function", cFunctions, lFunctions);
    out := out + functions;
  }

  // ----- what an empty report means

  lemma SetDiffEmpty(kind: string, cached: set<string>, live: set<string>)
    ensures SetDiff(kind, cached, live) == [] <==> cached == live
  {
    FlatMapEmpty(GoneLine(kind, live), SortedKeys(cached));
    FlatMapEmpty(NewLine(kind, cached), SortedKeys(live));
  }

  lemma GoneEmpty(kind: string, cached: set<string>, live: set<string>)
    ensures FlatMap(GoneLine(kind, live), SortedKeys(cached)) == [] <==> cached <= live
  {
    FlatMapEmpty(GoneLine(kind, live), SortedKeys(cached));
    assert forall n :: GoneLine(kind, live)(n) == [] <==> n in live;
  }

  lemma NamedLinesEmpty<T>(kind: string, cached: map<string, T>, live: map<string, T>)
    ensures FlatMap(NamedLine(kind, cached, live), SortedKeys(live.Keys)) == [] <==>
            forall n :: n in live ==> n in cached && cached[n] == live[n]
  {
    FlatMapEmpty(NamedLine(kind, cached, live), SortedKeys(live.Keys));
    forall n | n in live
      ensures NamedLine(kind, cached, live)(n) == [] <==> n in cached && cached[n] == live[n]
    {
    }
  }

  lemma NamedDiffEmpty<T>(kind: string, cached: map<string, T>, live: map<string, T>)
    ensures NamedDiff(kind, cached, live) == [] <==> cached == live
  {
    GoneEmpty(kind, cached.Keys, live.Keys);
    NamedLinesEmpty(kind, cached, live);
    MapsEqualIff(cached, live);
  }

  lemma ColumnsDiffOfEqual(name: string, kind: string, cc: Columns)
    ensures ColumnsDiff(name, kind, kind, cc, cc) == []
  {
    FlatMapEmpty(ColumnGoneLine(kind, name, cc.Keys), SortedKeys(cc.Keys));
    FlatMapEmpty(ColumnLine(kind, name, cc, cc), SortedKeys(cc.Keys));
  }

  /**
   * A table's report is empty exactly when nothing about it changed: column order, keys, indexes,
   * privileges and comments included, whatever else differs and whether or not names repeat.
   */
  lemma TableDiffEmpty(name: string, cached: TableData, live: TableData)
    ensures TableDiff(name, cached, live) == [] <==> cached == live
  {
    ColumnsDiffOfEqual(name, live.kind, MapBy(ColumnName, live.columns));
  }

  lemma TablesGoneEmpty(c: Tables, l: Tables)
    ensures FlatMap(TableGoneLine(c, l), SortedKeys(c.Keys)) == [] <==> c.Keys <= l.Keys
  {
    FlatMapEmpty(TableGoneLine(c, l), SortedKeys(c.Keys));
    assert forall n :: n in c ==> (TableGoneLine(c, l)(n) == [] <==> n in l);
  }

  lemma TableLinesEmpty(c: Tables, l: Tables)
    ensures FlatMap(TableLine(c, l), SortedKeys(l.Keys)) == [] <==>
            forall n :: n in l ==> n in c && c[n] == l[n]
  {
    FlatMapEmpty(TableLine(c, l), SortedKeys(l.Keys));
    forall n | n in l
      ensures TableLine(c, l)(n) == [] <==> n in c && c[n] == l[n]
    {
      if n in c {
        TableDiffEmpty(n, c[n], l[n]);
      }
    }
  }

  lemma TablesDiffEmpty(c: Tables, l: Tables)
    ensures TableMapDiff(c, l) == [] <==> c == l
  {
    TablesGoneEmpty(c, l);
    TableLinesEmpty(c, l);
    MapsEqualIff(c, l);
  }

  lemma MapsEqualIff<T>(c: map<string, T>, l: map<string, T>)
    ensures c == l <==> c.Keys <= l.Keys && forall n :: n in l ==> n in c && c[n] == l[n]
  {
    if c.Keys <= l.Keys && forall n :: n in l ==> n in c && c[n] == l[n] {
      assert c.Keys == l.Keys;
    }
  }

  /** The exact blind spots of a report: list order, format version and replaced duplicates. */
  ghost predicate SameByName(cached: CatalogData, live: CatalogData) {
    && cached.serverVersion == live.serverVersion
    && Members(cached.schemas) == Members(live.schemas)
    && MapBy(TableName, cached.tables) == MapBy(TableName, live.tables)
    && MapBy(EnumName, cached.enums) == MapBy(EnumName, live.enums)
    && MapBy(CompositeName, cached.composites) == MapBy(CompositeName, live.composites)
    && MapBy(FunctionName, cached.functions) == MapBy(FunctionName, live.functions)
  }

  lemma AllEmpty<T>(a: seq<T>, b: seq<T>, c: seq<T>, d: seq<T>, e: seq<T>, f: seq<T>)
    ensures a + b + c + d + e + f == [] <==> a == b == c == d == e == f == []
  {
    assert |a + b + c + d + e + f| == |a| + |b| + |c| + |d| + |e| + |f|;
  }

  lemma NamedSectionEmpty<T(!new)>(kind: string, name: T -> string, cached: seq<T>, live: seq<T>)
    ensures NamedDiff(kind, MapBy(name, cached), MapBy(name, live)) == [] <==> MapBy(name, cached) == MapBy(name, live)
  {
    NamedDiffEmpty(kind, MapBy(name, cached), MapBy(name, live));
  }

  lemma DiffEmptyIff(cached: CatalogData, live: CatalogData)
    ensures CatalogDiff(cached, live) == [] <==> SameByName(cached, live)
  {
    hide SetDiff, TableMapDiff, NamedDiff, MapBy, Members;
    AllEmpty(When(cached.serverVersion != live.serverVersion,
                  ServerVersionChanged(cached.serverVersion, live.serverVersion)),
             SetDiff("schema", Members(cached.schemas), Members(live.schemas)),
             TableMapDiff(MapBy(TableName, cached.tables), MapBy(TableName, live.tables)),
             NamedDiff("enum", MapBy(EnumName, cached.enums), MapBy(EnumName, live.enums)),
             NamedDiff("composite type", MapBy(CompositeName, cached.composites),
                       MapBy(CompositeName, live.composites)),
             NamedDiff("function", MapBy(FunctionName, cached.functions), MapBy(FunctionName, live.functions)));
    SetDiffEmpty("schema", Members(cached.schemas), Members(live.schemas));
    TablesDiffEmpty(MapBy(TableName, cached.tables), MapBy(TableName, live.tables));
    NamedSectionEmpty("enum", EnumName, cached.enums, live.enums);
    NamedSectionEmpty("composite type", CompositeName, cached.composites, live.composites);
    NamedSectionEmpty("function", FunctionName, cached.functions, live.functions);
  }

  /** No schema is listed twice and no two objects of a kind share the name they are compared by. */
  ghost predicate WellKeyed(c: CatalogData) {
    && (forall i, j :: 0 <= i < j < |c.schemas| ==> c.schemas[i] != c.schemas[j])
    && DistinctNames(TableName, c.tables)
    && DistinctNames(EnumName, c.enums)
    && DistinctNames(CompositeName, c.composites)
    && DistinctNames(FunctionName, c.functions)
  }

  /** The report is empty exactly when the live catalog lists the cached objects in some order. */
  lemma DiffEmptyIffReordering(cached: CatalogData, live: CatalogData)
    requires WellKeyed(cached) && WellKeyed(live)
    requires cached.formatVersion == live.formatVersion
    ensures CatalogDiff(cached, live) == [] <==> Reordering(cached, live)
  {
    DiffEmptyIff(cached, live);
    SchemasAgree(cached.schemas, live.schemas);
    MapsAgree(TableName, cached.tables, live.tables);
    MapsAgree(EnumName, cached.enums, live.enums);
    MapsAgree(CompositeName, cached.composites, live.composites);
    MapsAgree(FunctionName, cached.functions, live.functions);
  }

  lemma SchemasAgree(xs: seq<string>, ys: seq<string>)
    requires forall i, j :: 0 <= i < j < |xs| ==> xs[i] != xs[j]
    requires forall i, j :: 0 <= i < j < |ys| ==> ys[i] != ys[j]
    ensures Members(xs) == Members(ys) <==> multiset(xs) == multiset(ys)
  {
    if Members(xs) == Members(ys) {
      assert forall s :: s in xs <==> s in Members(xs);
      assert forall s :: s in ys <==> s in Members(ys);
      SameElements(xs, ys);
    }
    if multiset(xs) == multiset(ys) {
      assert forall s :: s in xs <==> s in multiset(xs);
      assert forall s :: s in ys <==> s in multiset(ys);
    }
  }

  /**
   * The structural comparison and the canonical form agree: an empty report means equal canonical
   * forms, hence equal hashes. Overloaded functions must be excluded, as they share a sort key.
   */
  lemma DiffAgreesWithCanonical(cached: CatalogData, live: CatalogData)
    requires WellKeyed(cached) && WellKeyed(live)
    requires KeyDetermines(FunctionSortKey, cached.functions)
    requires cached.formatVersion == live.formatVersion
    ensures CatalogDiff(cached, live) == [] <==> Canonical(cached) == Canonical(live)
  {
    DiffEmptyIffReordering(cached, live);
    WellKeyedSorts(cached);
    CanonicalOfReordering(cached, live);
  }

  lemma WellKeyedSorts(c: CatalogData)
    requires WellKeyed(c) && KeyDetermines(FunctionSortKey, c.functions)
    ensures SortKeysDetermine(c)
  {
    NamesSort(TableName, TableSortKey, c.tables);
    NamesSort(EnumName, EnumSortKey, c.enums);
    NamesSort(CompositeName, CompositeSortKey, c.composites);
  }

  lemma NamesSort<T>(name: T -> string, key: T -> Key, xs: seq<T>)
    requires DistinctNames(name, xs)
    requires forall i :: 0 <= i < |xs| ==> name(xs[i]) == QualifiedName(key(xs[i]).schema, key(xs[i]).name)
    ensures KeyDetermines(key, xs)
  {
  }

  // ----- what a report says

  lemma GoneReports(kind: string, cached: set<string>, live: set<string>, line: Line)
    ensures line in FlatMap(GoneLine(kind, live), SortedKeys(cached)) <==>
            exists n :: n in cached && n !in live && line == Removed(kind, n)
  {
    FlatMapMembers(GoneLine(kind, live), SortedKeys(cached), line);
    assert forall n :: line in GoneLine(kind, live)(n) <==> n !in live && line == Removed(kind, n);
  }

  predicate NamedFinding<T(==)>(kind: string, cached: map<string, T>, live: map<string, T>, n: string, line: Line) {
    && n in live
    && if n in cached then cached[n] != live[n] && line == Changed(kind, n) else line == Added(kind, n)
  }

  /** Additions, removals and changes of named objects are reported, each on its own line and only when real. */
  lemma NamedDiffReports<T>(kind: string, cached: map<string, T>, live: map<string, T>, line: Line)
    ensures line in NamedDiff(kind, cached, live) <==>
            || (exists n :: n in cached && n !in live && line == Removed(kind, n))
            || (exists n :: NamedFinding(kind, cached, live, n, line))
  {
    GoneReports(kind, cached.Keys, live.Keys, line);
    FlatMapMembers(NamedLine(kind, cached, live), SortedKeys(live.Keys), line);
    forall n | n in live { NamedLineReports(kind, cached, live, n, line); }
  }

  lemma NamedLineReports<T>(kind: string, cached: map<string, T>, live: map<string, T>, n: string, line: Line)
    requires n in live
    ensures line in NamedLine(kind, cached, live)(n) <==> NamedFinding(kind, cached, live, n, line)
  {
  }

  predicate ColumnFinding(kind: string, name: string, cc: Columns, lc: Columns, n: string, line: Line) {
    && n in lc
    && if n in cc then cc[n] != lc[n] && line == ColumnChange(kind, name, n, cc[n], lc[n])
       else line == ColumnAdded(kind, name, n, TypeDesc(lc[n]))
  }

  /** A change of the printed type is told apart from any other change of the column. */
  function ColumnChange(kind: string, name: string, cn: string, was: ColumnData, now: ColumnData): Line {
    if TypeDesc(was) != TypeDesc(now) then ColumnTypeChanged(kind, name, cn, TypeDesc(was), TypeDesc(now))
    else ColumnChanged(kind, name, cn)
  }

  lemma ColumnsGoneReports(kind: string, name: string, cached: set<string>, live: set<string>, line: Line)
    ensures line in FlatMap(ColumnGoneLine(kind, name, live), SortedKeys(cached)) <==>
            exists n :: n in cached && n !in live && line == ColumnRemoved(kind, name, n)
  {
    FlatMapMembers(ColumnGoneLine(kind, name, live), SortedKeys(cached), line);
    assert forall n :: line in ColumnGoneLine(kind, name, live)(n) <==>
                       n !in live && line == ColumnRemoved(kind, name, n);
  }

  lemma ColumnLinesReport(kind: string, name: string, cc: Columns, lc: Columns, line: Line)
    ensures line in FlatMap(ColumnLine(kind, name, cc, lc), SortedKeys(lc.Keys)) <==>
            exists n :: ColumnFinding(kind, name, cc, lc, n, line)
  {
    FlatMapMembers(ColumnLine(kind, name, cc, lc), SortedKeys(lc.Keys), line);
    forall n | n in lc { ColumnLineReports(kind, name, cc, lc, n, line); }
  }

  lemma ColumnLineReports(kind: string, name: string, cc: Columns, lc: Columns, n: string, line: Line)
    requires n in lc
    ensures line in ColumnLine(kind, name, cc, lc)(n) <==> ColumnFinding(kind, name, cc, lc, n, line)
  {
  }

  /** A column line always states a real column change, and every column change has its line. */
  lemma ColumnsDiffReports(name: string, was: string, now: string, cc: Columns, lc: Columns, line: Line)
    ensures line in ColumnsDiff(name, was, now, cc, lc) <==>
            || (exists n :: n in cc && n !in lc && line == ColumnRemoved(was, name, n))
            || (exists n :: ColumnFinding(now, name, cc, lc, n, line))
  {
    ColumnsGoneReports(was, name, cc.Keys, lc.Keys, line);
    ColumnLinesReport(now, name, cc, lc, line);
  }

  lemma TablesGoneReport(c: Tables, l: Tables, line: Line)
    ensures line in FlatMap(TableGoneLine(c, l), SortedKeys(c.Keys)) <==>
            exists n :: n in c && n !in l && line == Removed(c[n].kind, n)
  {
    FlatMapMembers(TableGoneLine(c, l), SortedKeys(c.Keys), line);
    forall n | n in c { TableGoneLineReports(c, l, n, line); }
  }

  lemma TableGoneLineReports(c: Tables, l: Tables, n: string, line: Line)
    requires n in c
    ensures line in TableGoneLine(c, l)(n) <==> n !in l && line == Removed(c[n].kind, n)
  {
  }

  ghost predicate TableFinding(c: Tables, l: Tables, n: string, line: Line) {
    n in l && if n in c then line in TableDiff(n, c[n], l[n]) else line == Added(l[n].kind, n)
  }

  lemma TableLineReports(c: Tables, l: Tables, n: string, line: Line)
    requires n in l
    ensures line in TableLine(c, l)(n) <==> TableFinding(c, l, n, line)
  {
    hide TableDiff;
  }

  lemma TableLinesReport(c: Tables, l: Tables, line: Line)
    ensures line in FlatMap(TableLine(c, l), SortedKeys(l.Keys)) <==> exists n :: TableFinding(c, l, n, line)
  {
    FlatMapMembers(TableLine(c, l), SortedKeys(l.Keys), line);
    hide TableLine, TableDiff;
    forall n | n in l { TableLineReports(c, l, n, line); }
  }

  /** A missing table is named by its cached kind, a new one by its live kind, a common one by its own report. */
  lemma TablesDiffReports(c: Tables, l: Tables, line: Line)
    ensures line in TableMapDiff(c, l) <==>
            || (exists n :: n in c && n !in l && line == Removed(c[n].kind, n))
            || (exists n :: TableFinding(c, l, n, line))
  {
    hide TableLine, TableFinding, FlatMap;
    TablesGoneReport(c, l, line);
    TableLinesReport(c, l, line);
  }

  predicate Named(parts: seq<string>) { forall p :: p in parts ==> |p| > 0 && p[0] != 'd' }

  /** One step of the list of aspects; the two facts say where a label can come from. */
  lemma NamedAspect(part: string, differs: bool, parts: seq<string>)
    requires Named(parts) && |part| > 0 && part[0] != 'd'
    ensures Named(parts + Aspect(part, differs))
    ensures parts + Aspect(part, differs) == [] <==> parts == [] && !differs
  {
    if !differs {
      assert parts + Aspect(part, differs) == parts;
    }
  }

  lemma NamedAspects(ls: seq<string>, b0: bool, b1: bool, b2: bool, b3: bool, b4: bool, b5: bool, b6: bool, b7: bool,
                     parts: seq<string>)
    requires |ls| == 8 && forall i :: 0 <= i < 8 ==> |ls[i]| > 0 && ls[i][0] != 'd'
    requires parts == Aspect(ls[0], b0) + Aspect(ls[1], b1) + Aspect(ls[2], b2) + Aspect(ls[3], b3)
                      + Aspect(ls[4], b4) + Aspect(ls[5], b5) + Aspect(ls[6], b6) + Aspect(ls[7], b7)
    ensures Named(parts)
    ensures parts == [] <==> !b0 && !b1 && !b2 && !b3 && !b4 && !b5 && !b6 && !b7
  {
    var p0 := Aspect(ls[0], b0);
    var p1 := p0 + Aspect(ls[1], b1);
    var p2 := p1 + Aspect(ls[2], b2);
    var p3 := p2 + Aspect(ls[3], b3);
    var p4 := p3 + Aspect(ls[4], b4);
    var p5 := p4 + Aspect(ls[5], b5);
    var p6 := p5 + Aspect(ls[6], b6);
    NamedAspect(ls[1], b1, p0);
    NamedAspect(ls[2], b2, p1);
    NamedAspect(ls[3], b3, p2);
    NamedAspect(ls[4], b4, p3);
    NamedAspect(ls[5], b5, p4);
    NamedAspect(ls[6], b6, p5);
    hide Aspect;
    NamedAspect(ls[7], b7, p6);
  }

  /** The coarse line falls back to "definition" exactly when none of the named aspects changed. */
  lemma DefinitionIff(cached: TableData, live: TableData)
    ensures AspectChanges(cached, live) == ["definition"] <==>
            live == TableData(live.schema, live.name, cached.kind, cached.comment, cached.rlsEnabled, live.columns,
                              cached.primaryKey, cached.uniques, cached.foreignKeys, cached.indexes, cached.privileges)
  {
    hide Aspect, Named, AspectChanges;
    var parts, ls := AspectParts(cached, live);
    NamedAspects(ls, cached.kind != live.kind, cached.comment != live.comment, cached.rlsEnabled != live.rlsEnabled,
                 cached.primaryKey != live.primaryKey, cached.uniques != live.uniques,
                 cached.foreignKeys != live.foreignKeys, cached.indexes != live.indexes,
                 cached.privileges != live.privileges, parts);
    NotDefinition(parts);
  }

  lemma NotDefinition(parts: seq<string>)
    requires Named(parts)
    ensures parts != ["definition"]
  {
    assert ["definition"][0][0] == 'd';
  }

  lemma AspectParts(cached: TableData, live: TableData) returns (parts: seq<string>, ls: seq<string>)
    ensures |ls| == 8 && forall i :: 0 <= i < 8 ==> |ls[i]| > 0 && ls[i][0] != 'd'
    ensures parts == Aspect(ls[0], cached.kind != live.kind) + Aspect(ls[1], cached.comment != live.comment)
                     + Aspect(ls[2], cached.rlsEnabled != live.rlsEnabled)
                     + Aspect(ls[3], cached.primaryKey != live.primaryKey)
                     + Aspect(ls[4], cached.uniques != live.uniques)
                     + Aspect(ls[5], cached.foreignKeys != live.foreignKeys)
                     + Aspect(ls[6], cached.indexes != live.indexes)
                     + Aspect(ls[7], cached.privileges != live.privileges)
    ensures AspectChanges(cached, live) == if parts == [] then ["definition"] else parts
  {
    hide Aspect;
    ls := ["kind", "comment", "rls", "primary key", "unique constraints", "foreign keys", "indexes", "privileges"];
    parts := Aspect(ls[0], cached.kind != live.kind) + Aspect(ls[1], cached.comment != live.comment)
             + Aspect(ls[2], cached.rlsEnabled != live.rlsEnabled)
             + Aspect(ls[3], cached.primaryKey != live.primaryKey)
             + Aspect(ls[4], cached.uniques != live.uniques)
             + Aspect(ls[5], cached.foreignKeys != live.foreignKeys)
             + Aspect(ls[6], cached.indexes != live.indexes)
             + Aspect(ls[7], cached.privileges != live.privileges);
  }

  // ----- what the words of a report say

  /** Two columns print alike exactly when type, array mark and nullability agree, for type names without marks. */
  lemma TypeDescIff(c: ColumnData, d: ColumnData)
    requires '[' !in c.pgType && ' ' !in c.pgType && '[' !in d.pgType && ' ' !in d.pgType
    ensures TypeDesc(c) == TypeDesc(d) <==> c.pgType == d.pgType && c.isArray == d.isArray && c.notNull == d.notNull
  {
    var marks := (x: ColumnData) => (if x.isArray then "[]" else "") + (if x.notNull then " not null" else "");
    assert TypeDesc(c) == c.pgType + marks(c) && TypeDesc(d) == d.pgType + marks(d);
    MarkedName(c.pgType, marks(c), d.pgType, marks(d));
    assert "[]"[0] == '[' && " not null"[0] == ' ' && |"[]"| == 2 && |" not null"| == 9;
  }

  lemma MarkInside(s: string, m: string, t: string, n: string)
    requires s + m == t + n && |s| < |t|
    ensures m != "" && m[0] in t
  {
    assert |m| > 0 && t[|s|] == (t + n)[|s|] == (s + m)[|s|] == m[0];
  }

  lemma MarkedName(s: string, m: string, t: string, n: string)
    requires '[' !in s && ' ' !in s && '[' !in t && ' ' !in t
    requires (m == "" || m[0] == '[' || m[0] == ' ') && (n == "" || n[0] == '[' || n[0] == ' ')
    ensures s + m == t + n <==> s == t && m == n
  {
    if s + m == t + n {
      if |s| < |t| {
        MarkInside(s, m, t, n);
      } else if |t| < |s| {
        MarkInside(t, n, s, m);
      }
      assert s == (s + m)[..|s|] && t == (t + n)[..|t|] && m == (s + m)[|s|..] && n == (t + n)[|t|..];
    }
  }

  lemma TypeDescSamples(c: ColumnData)
    requires c.pgType == "int4"
    ensures TypeDesc(c.(isArray := false, notNull := false)) == "int4"
    ensures TypeDesc(c.(isArray := true, notNull := false)) == "int4[]"
    ensures TypeDesc(c.(isArray := false, notNull := true)) == "int4 not null"
    ensures TypeDesc(c.(isArray := true, notNull := true)) == "int4[] not null"
  {
  }

  lemma {:induction false} SelectedAspects(ls: seq<string>, flags: seq<bool>, parts: seq<string>, i: nat)
    requires |ls| == |flags| == 8 && i < 8 && forall j, k :: 0 <= j < k < 8 ==> ls[j] != ls[k]
    requires parts == Aspect(ls[0], flags[0]) + Aspect(ls[1], flags[1]) + Aspect(ls[2], flags[2])
                      + Aspect(ls[3], flags[3]) + Aspect(ls[4], flags[4]) + Aspect(ls[5], flags[5])
                      + Aspect(ls[6], flags[6]) + Aspect(ls[7], flags[7])
    ensures ls[i] in parts <==> flags[i]
  {
    hide Aspect;
    forall j | 0 <= j < 8
      ensures ls[i] in Aspect(ls[j], flags[j]) <==> i == j && flags[j]
    {
      AspectHolds(ls[j], flags[j], ls[i]);
    }
  }

  lemma AspectHolds(part: string, differs: bool, l: string)
    ensures l in Aspect(part, differs) <==> differs && l == part
  {
  }

  lemma LabelsDiffer(ls: seq<string>)
    requires ls == ["kind", "comment", "rls", "primary key", "unique constraints", "foreign keys", "indexes",
                    "privileges"]
    ensures |ls| == 8 && forall j, k :: 0 <= j < k < 8 ==> ls[j] != ls[k]
  {
    assert |ls[0]| == 4 && |ls[1]| == 7 && |ls[2]| == 3 && |ls[3]| == 11 && |ls[4]| == 18 && |ls[5]| == 12;
    assert |ls[6]| == 7 && |ls[7]| == 10 && ls[1][0] == 'c' && ls[6][0] == 'i';
  }

  /** Each label stands in the list exactly when its own aspect of the table changed. */
  lemma AspectsIff(cached: TableData, live: TableData)
    ensures var parts := AspectChanges(cached, live);
            && ("kind" in parts <==> cached.kind != live.kind)
            && ("comment" in parts <==> cached.comment != live.comment)
            && ("rls" in parts <==> cached.rlsEnabled != live.rlsEnabled)
            && ("primary key" in parts <==> cached.primaryKey != live.primaryKey)
            && ("unique constraints" in parts <==> cached.uniques != live.uniques)
            && ("foreign keys" in parts <==> cached.foreignKeys != live.foreignKeys)
            && ("indexes" in parts <==> cached.indexes != live.indexes)
            && ("privileges" in parts <==> cached.privileges != live.privileges)
  {
    hide *;
    var ls := ["kind", "comment", "rls", "primary key", "unique constraints", "foreign keys", "indexes", "privileges"];
    var flags := [cached.kind != live.kind, cached.comment != live.comment, cached.rlsEnabled != live.rlsEnabled,
                  cached.primaryKey != live.primaryKey, cached.uniques != live.uniques,
                  cached.foreignKeys != live.foreignKeys, cached.indexes != live.indexes,
                  cached.privileges != live.privileges];
    var parts := LabelledParts(cached, live, ls, flags);
    LabelsDiffer(ls);
    forall i | 0 <= i < 8
      ensures ls[i] in AspectChanges(cached, live) <==> flags[i]
    {
      SelectedAspects(ls, flags, parts, i);
      NoDefinition(ls, i);
    }
    assert ls[0] in AspectChanges(cached, live) <==> flags[0];
    assert ls[1] in AspectChanges(cached, live) <==> flags[1];
    assert ls[2] in AspectChanges(cached, live) <==> flags[2];
    assert ls[3] in AspectChanges(cached, live) <==> flags[3];
    assert ls[4] in AspectChanges(cached, live) <==> flags[4];
    assert ls[5] in AspectChanges(cached, live) <==> flags[5];
    assert ls[6] in AspectChanges(cached, live) <==> flags[6];
    assert ls[7] in AspectChanges(cached, live) <==> flags[7];
  }

  lemma NoDefinition(ls: seq<string>, i: nat)
    requires ls == ["kind", "comment", "rls", "primary key", "unique constraints", "foreign keys", "indexes",
                    "privileges"]
    requires i < 8
    ensures ls[i] !in ["definition"]
  {
    assert ls[i][0] != 'd' && "definition"[0] == 'd';
  }

  lemma LabelledParts(cached: TableData, live: TableData, ls: seq<string>, flags: seq<bool>)
    returns (parts: seq<string>)
    requires ls == ["kind", "comment", "rls", "primary key", "unique constraints", "foreign keys", "indexes",
                    "privileges"]
    requires flags == [cached.kind != live.kind, cached.comment != live.comment, cached.rlsEnabled != live.rlsEnabled,
                       cached.primaryKey != live.primaryKey, cached.uniques != live.uniques,
                       cached.foreignKeys != live.foreignKeys, cached.indexes != live.indexes,
                       cached.privileges != live.privileges]
    ensures parts == Aspect(ls[0], flags[0]) + Aspect(ls[1], flags[1]) + Aspect(ls[2], flags[2])
                     + Aspect(ls[3], flags[3]) + Aspect(ls[4], flags[4]) + Aspect(ls[5], flags[5])
                     + Aspect(ls[6], flags[6]) + Aspect(ls[7], flags[7])
    ensures AspectChanges(cached, live) == if parts == [] then ["definition"] else parts
  {
    hide Aspect;
    parts := Aspect(ls[0], flags[0]) + Aspect(ls[1], flags[1]) + Aspect(ls[2], flags[2])
             + Aspect(ls[3], flags[3]) + Aspect(ls[4], flags[4]) + Aspect(ls[5], flags[5])
             + Aspect(ls[6], flags[6]) + Aspect(ls[7], flags[7]);
  }

  /** A schema, or an object of a kind that has no parts, that only one side has. */
  lemma SetDiffReports(kind: string, cached: set<string>, live: set<string>, line: Line)
    ensures line in SetDiff(kind, cached, live) <==>
            || (exists n :: n in cached && n !in live && line == Removed(kind, n))
            || (exists n :: n in live && n !in cached && line == Added(kind, n))
  {
    GoneReports(kind, cached, live, line);
    FlatMapMembers(NewLine(kind, cached), SortedKeys(live), line);
    assert forall n :: line in NewLine(kind, cached)(n) <==> n !in cached && line == Added(kind, n);
  }

  /** The whole report: every line states a real difference of its kind, and every difference has its line. */
  lemma CatalogDiffReports(c: CatalogData, l: CatalogData, line: Line)
    ensures line in CatalogDiff(c, l) <==>
            || (c.serverVersion != l.serverVersion && line == ServerVersionChanged(c.serverVersion, l.serverVersion))
            || line in SetDiff("schema", Members(c.schemas), Members(l.schemas))
            || line in TableMapDiff(MapBy(TableName, c.tables), MapBy(TableName, l.tables))
            || line in NamedDiff("enum", MapBy(EnumName, c.enums), MapBy(EnumName, l.enums))
            || line in NamedDiff("composite type", MapBy(CompositeName, c.composites),
                                 MapBy(CompositeName, l.composites))
            || line in NamedDiff("function", MapBy(FunctionName, c.functions), MapBy(FunctionName, l.functions))
  {
    hide SetDiff, TableMapDiff, NamedDiff, MapBy, Members;
  }

  // ----- the order of a report

  /** Every line the function yields for a key is about that key. */
  ghost predicate About(name: Line -> string, f: string -> seq<Line>, keys: seq<string>) {
    forall k, line :: k in keys && line in f(k) ==> name(line) == k
  }

  ghost predicate InNameOrder(name: Line -> string, lines: seq<Line>) {
    forall i, j :: 0 <= i < j < |lines| ==> StringLe(name(lines[i]), name(lines[j]))
  }

  lemma {:induction false} FlatMapInOrder(name: Line -> string, f: string -> seq<Line>, keys: seq<string>)
    requires About(name, f, keys) && SortedBy(StringKey, keys)
    ensures InNameOrder(name, FlatMap(f, keys))
  {
    hide StringLe, FlatMap;
    if keys == [] {
      assert FlatMap(f, keys) == [] by { FlatMapNothing(f); }
    } else {
      var n := |keys| - 1;
      var before, here := FlatMap(f, keys[..n]), f(keys[n]);
      FlatMapInOrder(name, f, keys[..n]);
      FlatMapStep(f, keys, n);
      assert keys[..n + 1] == keys;
      forall i, j | 0 <= i < j < |before + here|
        ensures StringLe(name((before + here)[i]), name((before + here)[j]))
      {
        if j >= |before| {
          assert (before + here)[j] == here[j - |before|] && name(here[j - |before|]) == keys[n];
          if i < |before| {
            NamedByKey(name, f, keys, before, i);
          } else {
            assert (before + here)[i] == here[i - |before|] && name(here[i - |before|]) == keys[n];
            StringTotal(keys[n], keys[n]);
          }
        }
      }
    }
  }

  lemma FlatMapNothing(f: string -> seq<Line>)
    ensures FlatMap(f, []) == []
  {
  }

  lemma NamedByKey(name: Line -> string, f: string -> seq<Line>, keys: seq<string>, before: seq<Line>, i: nat)
    requires About(name, f, keys) && SortedBy(StringKey, keys) && keys != []
    requires before == FlatMap(f, keys[..|keys| - 1]) && i < |before|
    ensures StringLe(name(before[i]), keys[|keys| - 1])
  {
    var n := |keys| - 1;
    FlatMapMembers(f, keys[..n], before[i]);
    assert before[i] in before;
    var k :| k in keys[..n] && before[i] in f(k);
    var l :| 0 <= l < n && keys[l] == k;
    assert KeyLe(StringKey(keys[l]), StringKey(keys[n]));
    StringTotal(keys[n], keys[n]);
  }

  function ObjectName(line: Line): string { if line.ServerVersionChanged? then "" else line.name }

  /** Removals come first, and within removals and within the rest the names are in order. */
  ghost predicate ReportOrder(lines: seq<Line>) {
    forall i, j :: 0 <= i < j < |lines| ==>
      && (lines[j].Removed? ==> lines[i].Removed?)
      && ((lines[i].Removed? <==> lines[j].Removed?) ==> StringLe(ObjectName(lines[i]), ObjectName(lines[j])))
  }

  lemma TwoGroups(gone: seq<Line>, rest: seq<Line>)
    requires (forall line :: line in gone ==> line.Removed?) && forall line :: line in rest ==> !line.Removed?
    requires InNameOrder(ObjectName, gone) && InNameOrder(ObjectName, rest)
    ensures ReportOrder(gone + rest)
  {
    hide StringLe;
    var lines := gone + rest;
    assert forall i :: 0 <= i < |lines| ==> lines[i] == (if i < |gone| then gone[i] else rest[i - |gone|]);
    assert forall i :: 0 <= i < |gone| ==> gone[i] in gone;
    assert forall i :: 0 <= i < |rest| ==> rest[i] in rest;
  }

  lemma AllLines(p: Line -> bool, f: string -> seq<Line>, keys: seq<string>)
    requires forall k, line :: line in f(k) ==> p(line)
    ensures forall line :: line in FlatMap(f, keys) ==> p(line)
  {
    hide FlatMap;
    forall line | line in FlatMap(f, keys)
      ensures p(line)
    {
      FlatMapMembers(f, keys, line);
    }
  }

  /** A first loop of removals and a second of everything else, each over sorted keys. */
  lemma TwoLoops(f: string -> seq<Line>, g: string -> seq<Line>, a: set<string>, b: set<string>)
    requires forall k, line :: line in f(k) ==> line.Removed? && ObjectName(line) == k
    requires forall k, line :: line in g(k) ==> !line.Removed? && ObjectName(line) == k
    ensures ReportOrder(FlatMap(f, SortedKeys(a)) + FlatMap(g, SortedKeys(b)))
  {
    hide FlatMap, ReportOrder, InNameOrder, ObjectName, SortedBy;
    FlatMapInOrder(ObjectName, f, SortedKeys(a));
    FlatMapInOrder(ObjectName, g, SortedKeys(b));
    AllLines((line: Line) => line.Removed?, f, SortedKeys(a));
    AllLines((line: Line) => !line.Removed?, g, SortedKeys(b));
    TwoGroups(FlatMap(f, SortedKeys(a)), FlatMap(g, SortedKeys(b)));
  }

  lemma NamedDiffInOrder<T>(kind: string, cached: map<string, T>, live: map<string, T>)
    ensures ReportOrder(NamedDiff(kind, cached, live))
  {
    hide FlatMap, ReportOrder;
    TwoLoops(GoneLine(kind, live.Keys), NamedLine(kind, cached, live), cached.Keys, live.Keys);
  }

  lemma SetDiffInOrder(kind: string, cached: set<string>, live: set<string>)
    ensures ReportOrder(SetDiff(kind, cached, live))
  {
    hide FlatMap, ReportOrder;
    TwoLoops(GoneLine(kind, live), NewLine(kind, cached), cached, live);
  }

  /** The lines of one table carry its name, so the table section is in the same order. */
  lemma TableMapDiffInOrder(c: Tables, l: Tables)
    ensures ReportOrder(TableMapDiff(c, l))
  {
    hide FlatMap, ReportOrder, TableLine, ObjectName;
    forall n, line
      ensures line in TableLine(c, l)(n) ==> !line.Removed? && ObjectName(line) == n
      ensures line in TableGoneLine(c, l)(n) ==> line.Removed? && ObjectName(line) == n
    {
      TableLineNamed(c, l, n, line);
      GoneLineNamed(c, l, n, line);
    }
    TwoLoops(TableGoneLine(c, l), TableLine(c, l), c.Keys, l.Keys);
  }

  lemma GoneLineNamed(c: Tables, l: Tables, n: string, line: Line)
    ensures line in TableGoneLine(c, l)(n) ==> line.Removed? && ObjectName(line) == n
  {
  }

  lemma TableLineNamed(c: Tables, l: Tables, n: string, line: Line)
    ensures line in TableLine(c, l)(n) ==> !line.Removed? && ObjectName(line) == n
  {
    hide FlatMap, ColumnsDiff, AspectChanges;
    if n in l && n in c {
      var cc, lc := MapBy(ColumnName, c[n].columns), MapBy(ColumnName, l[n].columns);
      ColumnsDiffReports(n, c[n].kind, l[n].kind, cc, lc, line);
    }
  }

  /** Within a table, dropped columns come first, and both groups are in column order. */
  lemma ColumnsInOrder(name: string, was: string, now: string, cc: Columns, lc: Columns)
    ensures InColumnOrder(ColumnsDiff(name, was, now, cc, lc))
  {
    hide FlatMap, InColumnOrder;
    TwoColumnLoops(ColumnGoneLine(was, name, lc.Keys), ColumnLine(now, name, cc, lc), cc.Keys, lc.Keys);
  }

  lemma TwoColumnLoops(f: string -> seq<Line>, g: string -> seq<Line>, a: set<string>, b: set<string>)
    requires forall k, line :: line in f(k) ==> line.ColumnRemoved? && ColumnOf(line) == k
    requires forall k, line :: line in g(k) ==> !line.ColumnRemoved? && ColumnOf(line) == k
    ensures InColumnOrder(FlatMap(f, SortedKeys(a)) + FlatMap(g, SortedKeys(b)))
  {
    hide FlatMap, InColumnOrder, InNameOrder, ColumnOf, SortedBy;
    FlatMapInOrder(ColumnOf, f, SortedKeys(a));
    FlatMapInOrder(ColumnOf, g, SortedKeys(b));
    AllLines((line: Line) => line.ColumnRemoved?, f, SortedKeys(a));
    AllLines((line: Line) => !line.ColumnRemoved?, g, SortedKeys(b));
    TwoColumnGroups(FlatMap(f, SortedKeys(a)), FlatMap(g, SortedKeys(b)));
  }

  function ColumnOf(line: Line): string {
    match line
    case ColumnRemoved(_, _, column) => column
    case ColumnAdded(_, _, column, _) => column
    case ColumnTypeChanged(_, _, column, _, _) => column
    case ColumnChanged(_, _, column) => column
    case _ => ""
  }

  ghost predicate InColumnOrder(lines: seq<Line>) {
    forall i, j :: 0 <= i < j < |lines| ==>
      && (lines[j].ColumnRemoved? ==> lines[i].ColumnRemoved?)
      && ((lines[i].ColumnRemoved? <==> lines[j].ColumnRemoved?) ==> StringLe(ColumnOf(lines[i]), ColumnOf(lines[j])))
  }

  lemma TwoColumnGroups(gone: seq<Line>, rest: seq<Line>)
    requires forall line :: line in gone ==> line.ColumnRemoved?
    requires forall line :: line in rest ==> !line.ColumnRemoved?
    requires InNameOrder(ColumnOf, gone) && InNameOrder(ColumnOf, rest)
    ensures InColumnOrder(gone + rest)
  {
    hide StringLe, ColumnOf;
    var lines := gone + rest;
    assert forall i :: 0 <= i < |lines| ==> lines[i] == (if i < |gone| then gone[i] else rest[i - |gone|]);
    assert forall i :: 0 <= i < |gone| ==> gone[i] in gone;
    assert forall i :: 0 <= i < |rest| ==> rest[i] in rest;
  }

  // ----- one table's lines

  lemma ColumnLineEmpty(now: string, name: string, cc: Columns, lc: Columns, n: string)
    requires n in lc
    ensures ColumnLine(now, name, cc, lc)(n) == [] <==> n in cc && cc[n] == lc[n]
  {
  }

  lemma ColumnsGoneEmpty(was: string, name: string, cached: set<string>, live: set<string>)
    ensures FlatMap(ColumnGoneLine(was, name, live), SortedKeys(cached)) == [] <==> cached <= live
  {
    hide FlatMap;
    FlatMapEmpty(ColumnGoneLine(was, name, live), SortedKeys(cached));
    assert forall n :: ColumnGoneLine(was, name, live)(n) == [] <==> n in live;
  }

  lemma ColumnLinesEmpty(now: string, name: string, cc: Columns, lc: Columns)
    ensures FlatMap(ColumnLine(now, name, cc, lc), SortedKeys(lc.Keys)) == [] <==>
            forall n :: n in lc ==> n in cc && cc[n] == lc[n]
  {
    hide FlatMap, ColumnLine;
    FlatMapEmpty(ColumnLine(now, name, cc, lc), SortedKeys(lc.Keys));
    forall n | n in lc
      ensures ColumnLine(now, name, cc, lc)(n) == [] <==> n in cc && cc[n] == lc[n]
    {
      ColumnLineEmpty(now, name, cc, lc, n);
    }
  }

  lemma ColumnsDiffEmpty(name: string, was: string, now: string, cc: Columns, lc: Columns)
    ensures ColumnsDiff(name, was, now, cc, lc) == [] <==> cc == lc
  {
    hide FlatMap, ColumnLine, ColumnGoneLine;
    ColumnsGoneEmpty(was, name, cc.Keys, lc.Keys);
    ColumnLinesEmpty(now, name, cc, lc);
    MapsEqualIff(cc, lc);
  }

  /**
   * A table's lines: its column changes, dropped columns under the old kind and the rest under the new
   * one; or, where no column of any name changed but the tables differ, the one coarse line.
   */
  lemma TableDiffReports(name: string, cached: TableData, live: TableData, line: Line)
    ensures var cc, lc := MapBy(ColumnName, cached.columns), MapBy(ColumnName, live.columns);
            line in TableDiff(name, cached, live) <==>
            || (exists n :: n in cc && n !in lc && line == ColumnRemoved(cached.kind, name, n))
            || (exists n :: ColumnFinding(live.kind, name, cc, lc, n, line))
            || (cc == lc && cached != live && line == TableChanged(live.kind, name, AspectChanges(cached, live)))
  {
    var cc, lc := MapBy(ColumnName, cached.columns), MapBy(ColumnName, live.columns);
    hide ColumnsDiff, AspectChanges, MapBy, TypeDesc;
    ColumnsDiffReports(name, cached.kind, live.kind, cc, lc, line);
    ColumnsDiffEmpty(name, cached.kind, live.kind, cc, lc);
  }

  /** The name of a function lists its argument types between parentheses. */
  lemma FunctionNameLists(f: Function, types: seq<string>)
    requires |types| == |f.args| && forall i :: 0 <= i < |types| ==> f.args[i].pgType == types[i]
    ensures FunctionName(f) == f.schema + "." + f.name + "(" + Join(", ", types) + ")"
  {
    assert seq(|f.args|, i requires 0 <= i < |f.args| => f.args[i].pgType) == types;
  }
}
