/**
 * The catalog as the program holds it: tables are shared mutable objects and every rewrite happens
 * in place. Data() reads an object graph back as a value.
 */
module CatalogHeap {
  import opened Sequences
  import opened Ordering
  import opened CatalogModel

  class Table {
    const schema: string
    const name: string
    const kind: string
    const comment: string
    const rlsEnabled: bool
    var columns: seq<ColumnData>
    var primaryKey: Option<Constraint>
    var uniques: seq<Constraint>
    var foreignKeys: seq<ForeignKey>
    var indexes: seq<Index>
    var privileges: Privileges

    constructor (d: TableData)
      ensures Data() == d
    {
      schema, name, kind, comment, rlsEnabled := d.schema, d.name, d.kind, d.comment, d.rlsEnabled;
      columns, primaryKey, uniques, foreignKeys, indexes, privileges :=
        d.columns, d.primaryKey, d.uniques, d.foreignKeys, d.indexes, d.privileges;
    }

    function Data(): TableData
      reads this
    {
      TableData(schema, name, kind, comment, rlsEnabled, columns, primaryKey, uniques, foreignKeys,
                indexes, privileges)
    }

    /** The position of the first column of that name, or of none. */
    method ColumnIndex(columnName: string) returns (i: nat)
      ensures i == NameIndex(ColumnNames(columns), columnName)
    {
      i := 0;
      while i < |columns|
        invariant i <= |columns|
        invariant forall k :: 0 <= k < i ==> columns[k].name != columnName
      {
        if columns[i].name == columnName {
          return;
        }
        i := i + 1;
      }
    }
  }

  function TablesData(tables: seq<Table>): (r: seq<TableData>)
    reads tables
    ensures |r| == |tables|
    ensures forall i :: 0 <= i < |tables| ==> r[i] == tables[i].Data()
  {
    seq(|tables|, i requires 0 <= i < |tables| reads tables => tables[i].Data())
  }

  predicate DistinctObjects(tables: seq<Table>) {
    forall i, j :: 0 <= i < j < |tables| ==> tables[i] != tables[j]
  }

  lemma {:induction false} FilteredDistinct(keep: Table -> bool, tables: seq<Table>)
    requires DistinctObjects(tables)
    ensures DistinctObjects(Filter(keep, tables))
  {
    if tables != [] {
      FilteredDistinct(keep, tables[1..]);
    }
  }

  lemma TablesDataConcat(xs: seq<Table>, ys: seq<Table>)
    ensures TablesData(xs + ys) == TablesData(xs) + TablesData(ys)
  {
  }

  /** Filtering table objects filters the tables they hold. */
  lemma {:induction false} FilteredData(keep: Table -> bool, keepData: TableData -> bool, tables: seq<Table>)
    requires forall t :: t in tables ==> (keep(t) <==> keepData(t.Data()))
    ensures TablesData(Filter(keep, tables)) == Filter(keepData, TablesData(tables))
  {
    if tables != [] {
      FilteredData(keep, keepData, tables[1..]);
      assert TablesData(tables)[1..] == TablesData(tables[1..]);
      TablesDataConcat(if keep(tables[0]) then [tables[0]] else [], Filter(keep, tables[1..]));
    }
  }

  function TableObjectKey(t: Table): Key { Key(t.schema, t.name) }

  class Catalog {
    var formatVersion: int
    var serverVersion: string
    var schemas: seq<string>
    var tables: seq<Table>
    var enums: seq<Enum>
    var composites: seq<Composite>
    var functions: seq<Function>

    /** No table object is listed twice. */
    predicate Valid()
      reads this
    {
      DistinctObjects(tables)
    }

    function Data(): CatalogData
      reads this, tables
    {
      CatalogData(formatVersion, serverVersion, schemas, TablesData(tables), enums, composites, functions)
    }

    constructor (d: CatalogData)
      ensures Valid() && Data() == d && fresh(tables)
    {
      formatVersion, serverVersion, schemas := d.formatVersion, d.serverVersion, d.schemas;
      enums, composites, functions := d.enums, d.composites, d.functions;
      tables := [];
      new;
      for i := 0 to |d.tables|
        invariant |tables| == i && Valid() && fresh(tables)
        invariant Data() == d.(tables := d.tables[..i])
      {
        var t := new Table(d.tables[i]);
        tables := tables + [t];
      }
    }

    method SortTables()
      requires Valid()
      modifies this`tables
      ensures Valid() && forall t :: t in tables <==> t in old(tables)
      ensures SortOf(TableSortKey, TablesData(old(tables)), TablesData(tables))
    {
      hide SortOf, TableObjectKey, TableSortKey;
      ghost var data := map t | t in tables :: t.Data();
      ghost var before := tables;
      tables := SortSlice(TableObjectKey, tables);
      SortedObjects(data, before, tables);
      assert TablesData(before) == Image(data, before);
      assert TablesData(tables) == Image(data, tables);
    }

    /** Sorting only reorders; the sort is not stable, so ties may land either way round. */
    method SortStable()
      requires Valid()
      modifies this
      ensures Valid() && forall t :: t in tables <==> t in old(tables)
      ensures CanonicalFormOf(old(Data()), Data())
    {
      SortNames();
      SortTables();
    }

    method SortNames()
      modifies this`schemas, this`enums, this`composites, this`functions
      ensures SortOf(StringKey, old(schemas), schemas)
      ensures SortOf(EnumSortKey, old(enums), enums)
      ensures SortOf(CompositeSortKey, old(composites), composites)
      ensures SortOf(FunctionSortKey, old(functions), functions)
    {
      schemas := SortSlice(StringKey, schemas);
      enums := SortSlice(EnumSortKey, enums);
      composites := SortSlice(CompositeSortKey, composites);
      functions := SortSlice(FunctionSortKey, functions);
    }

    /** A stable content hash; digest stands for SHA-256 over the JSON text. */
    method Hash(digest: CatalogData -> string) returns (h: string)
      requires Valid()
      modifies this
      ensures Valid() && forall t :: t in tables <==> t in old(tables)
      ensures CanonicalFormOf(old(Data()), Data())
      ensures h == digest(Data())
    {
      SortStable();
      h := digest(Data());
    }
  }

  /** Sorting table objects sorts the tables they hold. */
  lemma SortedObjects(data: map<Table, TableData>, before: seq<Table>, after: seq<Table>)
    requires forall t :: t in before <==> t in data
    requires forall t :: t in data ==> data[t].schema == t.schema && data[t].name == t.name
    requires SortOf(TableObjectKey, before, after)
    requires DistinctObjects(before)
    ensures DistinctObjects(after) && forall t :: t in after <==> t in before
    ensures SortOf(TableSortKey, Image(data, before), Image(data, after))
  {
    assert forall t :: t in before <==> t in multiset(before);
    assert forall t :: t in after <==> t in multiset(after);
    ImagePermutes(data, before, after);
    DistinctPermuted(before, after);
  }
}
