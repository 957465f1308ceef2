/** The introspected catalog as a value: what its JSON form shows and what hashes, diffs and caches compare. */
module CatalogModel {
  import opened Sequences
  import opened Ordering

  const CATALOG_FORMAT_VERSION := 3

  datatype Constraint = Constraint(name: string, columns: seq<string>, comment: string)

  datatype ForeignKey = ForeignKey(name: string, columns: seq<string>, refSchema: string,
                                   refTable: string, refColumns: seq<string>, comment: string)

  /** Expression indexes contribute no columns. */
  datatype Index = Index(name: string, columns: seq<string>, unique: bool, indexMethod: string)

  datatype Privileges = Privileges(select: bool, insert: bool, update: bool, delete: bool)

  datatype ColumnData = ColumnData(name: string, position: int, pgType: string, typeSchema: string,
                                   isArray: bool, notNull: bool, hasDefault: bool, generated: bool,
                                   comment: string, enumRef: string)

  datatype TableData = TableData(schema: string, name: string, kind: string, comment: string,
                                 rlsEnabled: bool, columns: seq<ColumnData>,
                                 primaryKey: Option<Constraint>, uniques: seq<Constraint>,
                                 foreignKeys: seq<ForeignKey>, indexes: seq<Index>,
                                 privileges: Privileges)

  datatype Enum = Enum(schema: string, name: string, values: seq<string>, comment: string,
                       valueDescriptions: seq<string>, tableBacked: bool)

  datatype Composite = Composite(schema: string, name: string, fields: seq<ColumnData>)

  datatype FuncArg = FuncArg(name: string, pgType: string, typeSchema: string)

  datatype Function = Function(schema: string, name: string, args: seq<FuncArg>, returnType: string,
                               returnTypeSchema: string, returnsSet: bool, volatility: string,
                               comment: string)

  datatype CatalogData = CatalogData(formatVersion: int, serverVersion: string, schemas: seq<string>,
                                     tables: seq<TableData>, enums: seq<Enum>,
                                     composites: seq<Composite>, functions: seq<Function>)

  /** The "schema.name" form used as a map key throughout. */
  function QualifiedName(schema: string, name: string): string { schema + "." + name }

  function TableSortKey(t: TableData): Key { Key(t.schema, t.name) }
  function EnumSortKey(e: Enum): Key { Key(e.schema, e.name) }
  function CompositeSortKey(c: Composite): Key { Key(c.schema, c.name) }
  function FunctionSortKey(f: Function): Key { Key(f.schema, f.name) }

  /** Where the first occurrence of a name is; the length when there is none. */
  function NameIndex(names: seq<string>, name: string): (i: nat)
    ensures i <= |names|
    ensures i < |names| ==> names[i] == name
    ensures forall k :: 0 <= k < i ==> names[k] != name
  {
    if names == [] || names[0] == name then 0 else 1 + NameIndex(names[1..], name)
  }

  function ColumnNames(columns: seq<ColumnData>): (r: seq<string>)
    ensures |r| == |columns| && forall i :: 0 <= i < |r| ==> r[i] == columns[i].name
  {
    seq(|columns|, i requires 0 <= i < |columns| => columns[i].name)
  }

  /** The first column of that name, if any. */
  function FindColumn(columns: seq<ColumnData>, name: string): Option<ColumnData> {
    var i := NameIndex(ColumnNames(columns), name);
    if i < |columns| then Some(columns[i]) else None
  }

  function FindTable(tables: seq<TableData>, schema: string, name: string): (r: Option<TableData>)
    ensures r.Some? ==> r.value in tables && r.value.schema == schema && r.value.name == name
    ensures r.None? ==> forall t :: t in tables ==> !(t.schema == schema && t.name == name)
  {
    if tables == [] then None
    else if tables[0].schema == schema && tables[0].name == name then Some(tables[0])
    else FindTable(tables[1..], schema, name)
  }

  /** The first table-backed enum a column's reference names; the empty reference names none. */
  function EnumByRef(enums: seq<Enum>, ref: string): (r: Option<Enum>)
    ensures r.Some? ==> r.value in enums && r.value.tableBacked
                        && QualifiedName(r.value.schema, r.value.name) == ref
    ensures r.None? && ref != "" ==>
              forall e :: e in enums && e.tableBacked ==> QualifiedName(e.schema, e.name) != ref
  {
    if ref == "" || enums == [] then None
    else if enums[0].tableBacked && QualifiedName(enums[0].schema, enums[0].name) == ref then Some(enums[0])
    else EnumByRef(enums[1..], ref)
  }

  predicate ColumnsNamed(columns: seq<ColumnData>, names: seq<string>) {
    forall k :: 0 <= k < |names| ==> names[k] in ColumnNames(columns)
  }

  /** The referenced table is listed and has the referenced columns. */
  ghost predicate Resolves(tables: seq<TableData>, fk: ForeignKey) {
    exists t :: t in tables && t.schema == fk.refSchema && t.name == fk.refTable
                && ColumnsNamed(t.columns, fk.refColumns)
  }

  ghost predicate Closed(c: CatalogData) {
    forall t, fk :: t in c.tables && fk in t.foreignKeys ==> Resolves(c.tables, fk)
  }

  /** The leading columns of indexes and keys: what may be filtered on under the indexed-only policy. */
  function Leading(columns: seq<string>): set<string> { if columns == [] then {} else {columns[0]} }

  function IndexLeads(xs: seq<Index>): set<string> { set x, n | x in xs && n in Leading(x.columns) :: n }

  function KeyLeads(xs: seq<Constraint>): set<string> { set x, n | x in xs && n in Leading(x.columns) :: n }

  function LeadingColumns(t: TableData): set<string> {
    IndexLeads(t.indexes)
    + (if t.primaryKey.Some? then Leading(t.primaryKey.value.columns) else {})
    + KeyLeads(t.uniques)
  }

  lemma IndexLeadsSnoc(xs: seq<Index>, x: Index)
    ensures IndexLeads(xs + [x]) == IndexLeads(xs) + Leading(x.columns)
  {
    assert x in xs + [x];
  }

  lemma KeyLeadsSnoc(xs: seq<Constraint>, x: Constraint)
    ensures KeyLeads(xs + [x]) == KeyLeads(xs) + Leading(x.columns)
  {
    assert x in xs + [x];
  }

  lemma NoLeads()
    ensures IndexLeads([]) == {} && KeyLeads([]) == {}
  {
  }

  method IndexedColumns(t: TableData) returns (out: set<string>)
    ensures out == LeadingColumns(t)
  {
    hide IndexLeads, KeyLeads;
    out := {};
    NoLeads();
    assert t.indexes[..0] == [] && t.uniques[..0] == [];
    for i := 0 to |t.indexes|
      invariant out == IndexLeads(t.indexes[..i])
    {
      IndexLeadsSnoc(t.indexes[..i], t.indexes[i]);
      assert t.indexes[..i + 1] == t.indexes[..i] + [t.indexes[i]];
      if |t.indexes[i].columns| > 0 {
        out := out + {t.indexes[i].columns[0]};
      }
    }
    assert t.indexes[..|t.indexes|] == t.indexes;
    if t.primaryKey.Some? && |t.primaryKey.value.columns| > 0 {
      out := out + {t.primaryKey.value.columns[0]};
    }
    ghost var before := out;
    for i := 0 to |t.uniques|
      invariant out == before + KeyLeads(t.uniques[..i])
    {
      KeyLeadsSnoc(t.uniques[..i], t.uniques[i]);
      assert t.uniques[..i + 1] == t.uniques[..i] + [t.uniques[i]];
      if |t.uniques[i].columns| > 0 {
        out := out + {t.uniques[i].columns[0]};
      }
    }
    assert t.uniques[..|t.uniques|] == t.uniques;
  }

  /** Each list is a sorted permutation of the original one; everything else is untouched. */
  predicate CanonicalFormOf(c: CatalogData, d: CatalogData) {
    && d.formatVersion == c.formatVersion
    && d.serverVersion == c.serverVersion
    && SortOf(StringKey, c.schemas, d.schemas)
    && SortOf(TableSortKey, c.tables, d.tables)
    && SortOf(EnumSortKey, c.enums, d.enums)
    && SortOf(CompositeSortKey, c.composites, d.composites)
    && SortOf(FunctionSortKey, c.functions, d.functions)
  }

  /** A representative canonical form. */
  function Canonical(c: CatalogData): (d: CatalogData)
    ensures CanonicalFormOf(c, d)
  {
    c.(schemas := Sort(StringKey, c.schemas), tables := Sort(TableSortKey, c.tables),
       enums := Sort(EnumSortKey, c.enums), composites := Sort(CompositeSortKey, c.composites),
       functions := Sort(FunctionSortKey, c.functions))
  }

  /** Within each list, entries that sort alike are equal. */
  predicate SortKeysDetermine(c: CatalogData) {
    && KeyDetermines(TableSortKey, c.tables)
    && KeyDetermines(EnumSortKey, c.enums)
    && KeyDetermines(CompositeSortKey, c.composites)
    && KeyDetermines(FunctionSortKey, c.functions)
  }

  /** The same catalog with its lists in another order. */
  predicate Reordering(c: CatalogData, d: CatalogData) {
    && d.formatVersion == c.formatVersion
    && d.serverVersion == c.serverVersion
    && multiset(c.schemas) == multiset(d.schemas)
    && multiset(c.tables) == multiset(d.tables)
    && multiset(c.enums) == multiset(d.enums)
    && multiset(c.composites) == multiset(d.composites)
    && multiset(c.functions) == multiset(d.functions)
  }

  /**
   * Exactly when hashing is independent of the order introspection returned things in and of the
   * sort's treatment of ties.
   */
  lemma CanonicalDeterminedIff(c: CatalogData)
    ensures SortKeysDetermine(c) <==>
            forall d, e :: CanonicalFormOf(c, d) && CanonicalFormOf(c, e) ==> d == e
  {
    if SortKeysDetermine(c) {
      forall d, e | CanonicalFormOf(c, d) && CanonicalFormOf(c, e)
        ensures d == e
      {
        CanonicalUnique(c, d, e);
      }
    } else {
      var d, e := TwoCanonicalForms(c);
    }
  }

  lemma CanonicalUnique(c: CatalogData, d: CatalogData, e: CatalogData)
    requires SortKeysDetermine(c) && CanonicalFormOf(c, d) && CanonicalFormOf(c, e)
    ensures d == e
  {
    SortsAgree(StringKey, c.schemas, d.schemas, e.schemas);
    SortsAgree(TableSortKey, c.tables, d.tables, e.tables);
    SortsAgree(EnumSortKey, c.enums, d.enums, e.enums);
    SortsAgree(CompositeSortKey, c.composites, d.composites, e.composites);
    SortsAgree(FunctionSortKey, c.functions, d.functions, e.functions);
  }

  lemma SortsAgree<T>(key: T -> Key, xs: seq<T>, ys: seq<T>, zs: seq<T>)
    requires KeyDetermines(key, xs) && SortOf(key, xs, ys) && SortOf(key, xs, zs)
    ensures ys == zs
  {
    KeyDeterminesPermuted(key, xs, ys);
    SortUnique(key, ys, zs);
  }

  lemma TwoCanonicalForms(c: CatalogData) returns (d: CatalogData, e: CatalogData)
    requires !SortKeysDetermine(c)
    ensures CanonicalFormOf(c, d) && CanonicalFormOf(c, e) && d != e
  {
    d, e := Canonical(c), Canonical(c);
    if !KeyDetermines(TableSortKey, c.tables) {
      var ys, zs := TwoSorts(TableSortKey, c.tables);
      d, e := d.(tables := ys), e.(tables := zs);
    } else if !KeyDetermines(EnumSortKey, c.enums) {
      var ys, zs := TwoSorts(EnumSortKey, c.enums);
      d, e := d.(enums := ys), e.(enums := zs);
    } else if !KeyDetermines(CompositeSortKey, c.composites) {
      var ys, zs := TwoSorts(CompositeSortKey, c.composites);
      d, e := d.(composites := ys), e.(composites := zs);
    } else {
      var ys, zs := TwoSorts(FunctionSortKey, c.functions);
      d, e := d.(functions := ys), e.(functions := zs);
    }
  }

  lemma CanonicalFormOfReordering(c: CatalogData, d: CatalogData, e: CatalogData)
    requires Reordering(c, d) && CanonicalFormOf(d, e)
    ensures CanonicalFormOf(c, e)
  {
  }

  lemma SharedCanonicalForm(c: CatalogData, d: CatalogData, e: CatalogData)
    requires CanonicalFormOf(c, e) && CanonicalFormOf(d, e)
    ensures Reordering(c, d)
  {
  }

  /** Reorderings share their canonical form, and only reorderings do. */
  lemma CanonicalOfReordering(c: CatalogData, d: CatalogData)
    requires SortKeysDetermine(c)
    ensures Reordering(c, d) <==> Canonical(c) == Canonical(d)
  {
    var e, f := Canonical(c), Canonical(d);
    if Reordering(c, d) {
      CanonicalFormOfReordering(c, d, f);
      CanonicalUnique(c, e, f);
    }
    if e == f {
      SharedCanonicalForm(c, d, e);
    }
  }

  /** The hash is the same for every reordering and however ties are broken. */
  lemma ReorderingsHashAlike<H>(digest: CatalogData -> H, c: CatalogData, d: CatalogData,
                                e: CatalogData, f: CatalogData)
    requires SortKeysDetermine(c) && Reordering(c, d)
    requires CanonicalFormOf(c, e) && CanonicalFormOf(d, f)
    ensures digest(e) == digest(f)
  {
    hide SortKeysDetermine, Reordering, CanonicalFormOf;
    CanonicalFormOfReordering(c, d, f);
    CanonicalUnique(c, e, f);
  }

  /** Sorting an already sorted catalog changes nothing. */
  lemma CanonicalIdempotent(c: CatalogData, d: CatalogData, e: CatalogData)
    requires SortKeysDetermine(c)
    requires CanonicalFormOf(c, d) && CanonicalFormOf(d, e)
    ensures e == d
  {
    assert CanonicalFormOf(c, e);
    CanonicalUnique(c, d, e);
  }

  /** Overloads share a sort key, so a catalog with two of them has two canonical forms. */
  lemma OverloadsBreakDeterminism(c: CatalogData, f: Function, g: Function)
    requires f in c.functions && g in c.functions && f.schema == g.schema && f.name == g.name && f.args != g.args
    ensures exists d, e :: CanonicalFormOf(c, d) && CanonicalFormOf(c, e) && d != e
  {
    assert FunctionSortKey(f) == FunctionSortKey(g);
    var d, e := TwoCanonicalForms(c);
  }

  /** A column leads when an index, the primary key or a unique constraint starts with it. */
  lemma LeadingIff(t: TableData, n: string)
    ensures n in LeadingColumns(t) <==>
            || (exists x :: x in t.indexes && |x.columns| > 0 && x.columns[0] == n)
            || (t.primaryKey.Some? && |t.primaryKey.value.columns| > 0 && t.primaryKey.value.columns[0] == n)
            || (exists u :: u in t.uniques && |u.columns| > 0 && u.columns[0] == n)
  {
    assert n in IndexLeads(t.indexes) <==> exists x :: x in t.indexes && n in Leading(x.columns);
    assert n in KeyLeads(t.uniques) <==> exists u :: u in t.uniques && n in Leading(u.columns);
    assert forall columns :: n in Leading(columns) <==> |columns| > 0 && columns[0] == n;
  }

  /** The order of a canonical form: schema first, then name, character by character. */
  lemma CanonicalOrder(c: CatalogData, d: CatalogData, i: nat, j: nat)
    requires CanonicalFormOf(c, d) && i < j
    ensures j < |d.schemas| ==> StringLe(d.schemas[i], d.schemas[j])
    ensures j < |d.tables| ==> InOrder(d.tables[i].schema, d.tables[i].name, d.tables[j].schema, d.tables[j].name)
    ensures j < |d.enums| ==> InOrder(d.enums[i].schema, d.enums[i].name, d.enums[j].schema, d.enums[j].name)
    ensures j < |d.composites| ==>
              InOrder(d.composites[i].schema, d.composites[i].name, d.composites[j].schema, d.composites[j].name)
    ensures j < |d.functions| ==>
              InOrder(d.functions[i].schema, d.functions[i].name, d.functions[j].schema, d.functions[j].name)
  {
    hide StringLe;
    if j < |d.schemas| {
      StringTotal(d.schemas[i], d.schemas[i]);
    }
  }

  predicate InOrder(schema: string, name: string, schema': string, name': string) {
    if schema == schema' then StringLe(name, name') else StringLe(schema, schema')
  }
}
