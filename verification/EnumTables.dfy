/**
 * Tables commented @enum become enums (introspect/enumtables.go): their rows are read, the tables
 * leave the catalog, and foreign keys to their value column turn into enum bindings.
 */
module EnumTables {
  import opened Sequences
  import opened CatalogModel
  import opened CatalogHeap
  import opened SmartTags

  /** One SELECT of a value and its description, ordered by value; "" stands for no description column. */
  datatype Query = Query(schema: string, table: string, valueColumn: string, descriptionColumn: string)

  datatype Rows = Rows(pairs: seq<(string, string)>) | Failed(error: string)

  type Database = Query -> Rows

  datatype Result<+T> = Ok(value: T) | Err(error: string)

  /** "schema.table" to the value column, for every converted table. */
  type ValueColumns = map<string, string>

  // ----- which tables qualify

  predicate IsTextFamily(pgType: string) { pgType in {"text", "varchar", "bpchar", "citext", "name"} }

  function PickColumn(columns: seq<ColumnData>, key: Option<Constraint>): string {
    if key.None? || |key.value.columns| != 1 then ""
    else
      var c := FindColumn(columns, key.value.columns[0]);
      if c.None? || c.value.isArray || !IsTextFamily(c.value.pgType) then "" else c.value.name
  }

  function TaggedUniqueColumn(columns: seq<ColumnData>, uniques: seq<Constraint>): string {
    if uniques == [] then ""
    else if Has(TagsOf(uniques[0].comment), "enum") && PickColumn(columns, Some(uniques[0])) != ""
    then PickColumn(columns, Some(uniques[0]))
    else TaggedUniqueColumn(columns, uniques[1..])
  }

  /** A single-column unique constraint commented @enum wins over a single-column primary key. */
  function ValueColumn(t: TableData): string {
    var tagged := TaggedUniqueColumn(t.columns, t.uniques);
    if tagged != "" then tagged else PickColumn(t.columns, t.primaryKey)
  }

  method EnumValueColumn(t: Table) returns (vc: string)
    ensures vc == ValueColumn(t.Data())
  {
    for i := 0 to |t.uniques|
      invariant TaggedUniqueColumn(t.columns, t.uniques) == TaggedUniqueColumn(t.columns, t.uniques[i..])
    {
      assert t.uniques[i..][1..] == t.uniques[i + 1..];
      var tags, _ := Parse(t.uniques[i].comment);
      if Has(tags, "enum") {
        vc := PickColumn(t.columns, Some(t.uniques[i]));
        if vc != "" {
          return;
        }
      }
    }
    vc := PickColumn(t.columns, t.primaryKey);
  }

  function TaggedDescription(columns: seq<ColumnData>, vc: string): string {
    if columns == [] then ""
    else if Has(TagsOf(columns[0].comment), "enumDescription") && columns[0].name != vc then columns[0].name
    else TaggedDescription(columns[1..], vc)
  }

  function DescriptionColumn(columns: seq<ColumnData>, vc: string): string {
    if exists c :: c in columns && Has(TagsOf(c.comment), "enumDescription") && c.name != vc
    then TaggedDescription(columns, vc)
    else if FindColumn(columns, "description").Some? && "description" != vc then "description"
    else ""
  }

  method EnumDescriptionColumn(columns: seq<ColumnData>, vc: string) returns (dc: string)
    ensures dc == DescriptionColumn(columns, vc)
  {
    for i := 0 to |columns|
      invariant forall k :: 0 <= k < i ==>
        !(Has(TagsOf(columns[k].comment), "enumDescription") && columns[k].name != vc)
      invariant TaggedDescription(columns, vc) == TaggedDescription(columns[i..], vc)
    {
      assert columns[i..][1..] == columns[i + 1..];
      var tags, _ := Parse(columns[i].comment);
      if Has(tags, "enumDescription") && columns[i].name != vc {
        assert columns[i] in columns;
        return columns[i].name;
      }
    }
    var c := FindColumn(columns, "description");
    if c.Some? && c.value.name != vc {
      return c.value.name;
    }
    return "";
  }

  /** A single-column key on a text column that is not an array. */
  predicate PicksColumn(columns: seq<ColumnData>, key: Constraint, vc: string) {
    && vc != "" && key.columns == [vc]
    && FindColumn(columns, vc).Some? && !FindColumn(columns, vc).value.isArray
    && FindColumn(columns, vc).value.pgType in {"text", "varchar", "bpchar", "citext", "name"}
  }

  lemma PickColumnIff(columns: seq<ColumnData>, key: Constraint, vc: string)
    requires vc != ""
    ensures PickColumn(columns, Some(key)) == vc <==> PicksColumn(columns, key, vc)
  {
    if |key.columns| == 1 {
      assert key.columns == [key.columns[0]];
    }
  }

  predicate Tagged(key: Constraint) { Has(TagsOf(key.comment), "enum") }

  lemma {:induction false} TaggedUniqueFirst(columns: seq<ColumnData>, uniques: seq<Constraint>)
    ensures var vc := TaggedUniqueColumn(columns, uniques);
            if vc == "" then
              forall i :: 0 <= i < |uniques| && Tagged(uniques[i]) ==> PickColumn(columns, Some(uniques[i])) == ""
            else exists i :: 0 <= i < |uniques| && Tagged(uniques[i]) && PicksColumn(columns, uniques[i], vc)
                             && forall k :: 0 <= k < i && Tagged(uniques[k]) ==>
                                  PickColumn(columns, Some(uniques[k])) == ""
  {
    hide TagsOf, PickColumn, PicksColumn;
    if uniques != [] {
      TaggedUniqueFirst(columns, uniques[1..]);
      var vc := PickColumn(columns, Some(uniques[0]));
      if vc != "" {
        PickColumnIff(columns, uniques[0], vc);
      }
      assert forall k :: 0 < k < |uniques| ==> uniques[k] == uniques[1..][k - 1];
      var rest := TaggedUniqueColumn(columns, uniques[1..]);
      if rest != "" && !(Tagged(uniques[0]) && vc != "") {
        var i :| 0 <= i < |uniques[1..]| && Tagged(uniques[1..][i]) && PicksColumn(columns, uniques[1..][i], rest)
                 && forall k :: 0 <= k < i && Tagged(uniques[1..][k]) ==>
                      PickColumn(columns, Some(uniques[1..][k])) == "";
        assert Tagged(uniques[i + 1]) && PicksColumn(columns, uniques[i + 1], rest);
      }
    }
  }

  /**
   * A table qualifies by a single text column under a key: the first unique constraint tagged @enum
   * that has one, and the primary key only when no tagged constraint does.
   */
  lemma ValueColumnQualifies(t: TableData)
    ensures var vc := ValueColumn(t);
            vc != "" ==>
              || (exists i :: 0 <= i < |t.uniques| && Tagged(t.uniques[i]) && PicksColumn(t.columns, t.uniques[i], vc))
              || (t.primaryKey.Some? && PicksColumn(t.columns, t.primaryKey.value, vc)
                  && forall i :: 0 <= i < |t.uniques| && Tagged(t.uniques[i]) ==>
                       PickColumn(t.columns, Some(t.uniques[i])) == "")
    ensures ValueColumn(t) == "" ==>
              PickColumn(t.columns, t.primaryKey) == ""
              && forall i :: 0 <= i < |t.uniques| && Tagged(t.uniques[i]) ==>
                   PickColumn(t.columns, Some(t.uniques[i])) == ""
  {
    hide TagsOf, PicksColumn, TaggedUniqueColumn;
    TaggedUniqueFirst(t.columns, t.uniques);
    if t.primaryKey.Some? && PickColumn(t.columns, t.primaryKey) != "" {
      PickColumnIff(t.columns, t.primaryKey.value, PickColumn(t.columns, t.primaryKey));
    }
  }

  // ----- reading the rows

  function Firsts(pairs: seq<(string, string)>): seq<string> {
    seq(|pairs|, i requires 0 <= i < |pairs| => pairs[i].0)
  }

  function Seconds(pairs: seq<(string, string)>): seq<string> {
    seq(|pairs|, i requires 0 <= i < |pairs| => pairs[i].1)
  }

  function EnumOf(t: TableData, pairs: seq<(string, string)>): Enum {
    Enum(t.schema, t.name, Firsts(pairs), t.comment, Seconds(pairs), true)
  }

  function QueryFor(t: TableData, vc: string): Query {
    Query(t.schema, t.name, vc, DescriptionColumn(t.columns, vc))
  }

  /** An empty table yields no enum; a failed read yields the error. */
  function EnumRead(db: Database, t: TableData, vc: string): Result<Option<Enum>> {
    match db(QueryFor(t, vc))
    case Failed(error) => Err(error)
    case Rows(pairs) => if pairs == [] then Ok(None) else Ok(Some(EnumOf(t, pairs)))
  }

  method ReadEnumTable(db: Database, t: Table, vc: string) returns (r: Result<Option<Enum>>)
    ensures r == EnumRead(db, t.Data(), vc)
  {
    hide DescriptionColumn;
    var dc := EnumDescriptionColumn(t.columns, vc);
    var rows := db(Query(t.schema, t.name, vc, dc));
    if rows.Failed? {
      return Err(rows.error);
    }
    var values, descriptions := [], [];
    for i := 0 to |rows.pairs|
      invariant values == Firsts(rows.pairs[..i]) && descriptions == Seconds(rows.pairs[..i])
    {
      values := values + [rows.pairs[i].0];
      descriptions := descriptions + [rows.pairs[i].1];
    }
    assert rows.pairs[..|rows.pairs|] == rows.pairs;
    if |values| == 0 {
      return Ok(None);
    }
    return Ok(Some(Enum(t.schema, t.name, values, t.comment, descriptions, true)));
  }

  datatype Conversion = Skip | Convert(column: string, enum: Enum) | Abort(error: string)

  /** What becomes of one table. */
  function ConversionOf(db: Database, t: TableData): Conversion {
    if !Has(TagsOf(t.comment), "enum") || ValueColumn(t) == "" then Skip
    else
      match EnumRead(db, t, ValueColumn(t))
      case Err(error) => Abort(error)
      case Ok(None) => Skip
      case Ok(Some(e)) => Convert(ValueColumn(t), e)
  }

  datatype Plan = Plan(columns: ValueColumns, enums: seq<Enum>)

  function TableKey(t: TableData): string { QualifiedName(t.schema, t.name) }

  /** Tables are visited in order; the first failure ends the pass. */
  function PlanFor(db: Database, tables: seq<TableData>): Result<Plan> {
    if tables == [] then Ok(Plan(map[], []))
    else
      var n := |tables| - 1;
      match PlanFor(db, tables[..n])
      case Err(error) => Err(error)
      case Ok(plan) =>
        match ConversionOf(db, tables[n])
        case Skip => Ok(plan)
        case Abort(error) => Err(error)
        case Convert(column, e) => Ok(Plan(plan.columns[TableKey(tables[n]) := column], plan.enums + [e]))
  }

  // ----- rewriting what is left

  function RefKey(fk: ForeignKey): string { QualifiedName(fk.refSchema, fk.refTable) }

  /** A single-column key on the value column of a converted table. */
  predicate Binds(vcs: ValueColumns, fk: ForeignKey) {
    && RefKey(fk) in vcs
    && |fk.columns| == 1 && |fk.refColumns| == 1 && fk.refColumns[0] == vcs[RefKey(fk)]
  }

  function SetEnumRef(columns: seq<ColumnData>, name: string, ref: string): (r: seq<ColumnData>)
    ensures |r| == |columns|
  {
    var i := NameIndex(ColumnNames(columns), name);
    if i < |columns| then columns[i := columns[i].(enumRef := ref)] else columns
  }

  function BindColumns(vcs: ValueColumns, columns: seq<ColumnData>, fks: seq<ForeignKey>): (r: seq<ColumnData>)
    ensures |r| == |columns|
  {
    if fks == [] then columns
    else
      var n := |fks| - 1;
      var before := BindColumns(vcs, columns, fks[..n]);
      if Binds(vcs, fks[n]) then SetEnumRef(before, fks[n].columns[0], RefKey(fks[n])) else before
  }

  function StaysKey(vcs: ValueColumns): ForeignKey -> bool { fk => RefKey(fk) !in vcs }

  function StaysTable(vcs: ValueColumns): TableData -> bool { t => TableKey(t) !in vcs }

  function Rebind(vcs: ValueColumns, t: TableData): TableData {
    t.(columns := BindColumns(vcs, t.columns, t.foreignKeys),
       foreignKeys := Filter(StaysKey(vcs), t.foreignKeys))
  }

  function RebindAll(vcs: ValueColumns, tables: seq<TableData>): (r: seq<TableData>)
    ensures |r| == |tables| && forall i :: 0 <= i < |r| ==> r[i] == Rebind(vcs, tables[i])
  {
    seq(|tables|, i requires 0 <= i < |tables| => Rebind(vcs, tables[i]))
  }

  function Rewrite(plan: Plan, c: CatalogData): CatalogData {
    if plan.enums == [] then c
    else c.(enums := c.enums + plan.enums,
            tables := RebindAll(plan.columns, Filter(StaysTable(plan.columns), c.tables)))
  }

  // ----- the conversion as the program runs it

  /** Removes or rebinds keys in one pass that overwrites the key list it is reading. */
  method RebindForeignKeys(vcs: ValueColumns, t: Table)
    modifies t
    ensures t.Data() == Rebind(vcs, old(t.Data()))
  {
    hide Compacting, Filter;
    ghost var fks, columns := t.foreignKeys, t.columns;
    var kept, n := 0, |t.foreignKeys|;
    CompactStart(StaysKey(vcs), fks);
    for i := 0 to n
      invariant Compacting(StaysKey(vcs), fks, t.foreignKeys, i, kept)
      invariant t.columns == BindColumns(vcs, columns, fks[..i])
      invariant t.Data() == old(t.Data()).(columns := t.columns, foreignKeys := t.foreignKeys)
    {
      CompactStep(StaysKey(vcs), fks, t.foreignKeys, i, kept);
      var fk := t.foreignKeys[i];
      assert fks[..i + 1][..i] == fks[..i];
      if RefKey(fk) !in vcs {
        t.foreignKeys := t.foreignKeys[kept := fk];
        kept := kept + 1;
      } else if |fk.columns| == 1 && |fk.refColumns| == 1 && fk.refColumns[0] == vcs[RefKey(fk)] {
        var c := t.ColumnIndex(fk.columns[0]);
        if c < |t.columns| {
          t.columns := t.columns[c := t.columns[c].(enumRef := RefKey(fk))];
        }
      }
    }
    CompactDone(StaysKey(vcs), fks, t.foreignKeys, kept);
    assert fks[..n] == fks;
    t.foreignKeys := t.foreignKeys[..kept];
  }

  function StaysObject(vcs: ValueColumns): Table -> bool { (t: Table) => QualifiedName(t.schema, t.name) !in vcs }

  /** Drops converted tables, overwriting the table list while reading it. */
  method DropConverted(vcs: ValueColumns, cat: Catalog)
    requires cat.Valid()
    modifies cat`tables
    ensures cat.tables == Filter(StaysObject(vcs), old(cat.tables))
  {
    hide Compacting, Filter;
    ghost var tables := cat.tables;
    var kept, n := 0, |cat.tables|;
    CompactStart(StaysObject(vcs), tables);
    for i := 0 to n
      invariant Compacting(StaysObject(vcs), tables, cat.tables, i, kept)
    {
      CompactStep(StaysObject(vcs), tables, cat.tables, i, kept);
      var t := cat.tables[i];
      if QualifiedName(t.schema, t.name) !in vcs {
        cat.tables := cat.tables[kept := t];
        kept := kept + 1;
      }
    }
    CompactDone(StaysObject(vcs), tables, cat.tables, kept);
    cat.tables := cat.tables[..kept];
  }

  /** Reads every qualifying table before anything is changed. */
  method ReadTables(db: Database, cat: Catalog) returns (r: Result<Plan>)
    ensures r == PlanFor(db, TablesData(cat.tables))
  {
    hide TagsOf, ValueColumn, EnumRead;
    ghost var data := TablesData(cat.tables);
    var plan := Plan(map[], []);
    for i := 0 to |cat.tables|
      invariant PlanFor(db, data[..i]) == Ok(plan)
    {
      var t := cat.tables[i];
      PlanStep(db, data, i);
      var tags, _ := Parse(t.comment);
      if Has(tags, "enum") {
        var vc := EnumValueColumn(t);
        if vc != "" {
          var e := ReadEnumTable(db, t, vc);
          if e.Err? {
            PlanFails(db, data, i + 1);
            return Err(e.error);
          }
          if e.value.Some? {
            plan := Plan(plan.columns[QualifiedName(t.schema, t.name) := vc], plan.enums + [e.value.value]);
          }
        }
      }
    }
    assert data[..|data|] == data;
    r := Ok(plan);
  }

  lemma PlanStep(db: Database, tables: seq<TableData>, i: nat)
    requires i < |tables|
    ensures tables[..i + 1][..i] == tables[..i] && tables[..i + 1][i] == tables[i]
  {
  }

  /** A failure is final. */
  lemma {:induction false} PlanFails(db: Database, tables: seq<TableData>, k: nat)
    requires k <= |tables| && PlanFor(db, tables[..k]).Err?
    ensures PlanFor(db, tables) == PlanFor(db, tables[..k])
  {
    if k == |tables| {
      assert tables[..k] == tables;
    } else {
      var n := |tables| - 1;
      assert tables[..n][..k] == tables[..k];
      PlanFails(db, tables[..n], k);
    }
  }

  method ConvertEnumTables(db: Database, cat: Catalog) returns (r: Result<()>)
    requires cat.Valid()
    modifies cat, cat.tables
    ensures cat.Valid()
    ensures match PlanFor(db, old(cat.Data()).tables)
            case Err(error) => r == Err(error) && cat.Data() == old(cat.Data())
            case Ok(plan) => r == Ok(()) && cat.Data() == Rewrite(plan, old(cat.Data()))
  {
    hide PlanFor, RebindAll, Filter, StaysTable;
    var planned := ReadTables(db, cat);
    if planned.Err? {
      return Err(planned.error);
    }
    var plan := planned.value;
    if |plan.enums| == 0 {
      return Ok(());
    }
    cat.enums := cat.enums + plan.enums;
    RewriteTables(plan.columns, cat);
    r := Ok(());
  }

  lemma StayingData(vcs: ValueColumns, tables: seq<Table>)
    ensures TablesData(Filter(StaysObject(vcs), tables)) == Filter(StaysTable(vcs), TablesData(tables))
  {
    FilteredData(StaysObject(vcs), StaysTable(vcs), tables);
  }

  method RewriteTables(vcs: ValueColumns, cat: Catalog)
    requires cat.Valid()
    modifies cat`tables, cat.tables
    ensures cat.Valid()
    ensures TablesData(cat.tables) == RebindAll(vcs, Filter(StaysTable(vcs), old(TablesData(cat.tables))))
  {
    hide Filter, StaysObject, StaysTable;
    ghost var staying := Filter(StaysObject(vcs), cat.tables);
    assert forall i :: 0 <= i < |staying| ==> staying[i] in cat.tables;
    FilteredDistinct(StaysObject(vcs), cat.tables);
    StayingData(vcs, cat.tables);
    ghost var data := TablesData(staying);
    DropConverted(vcs, cat);
    assert TablesData(cat.tables) == data;
    assert forall t :: t in cat.tables ==> t in old(cat.tables);
    RebindTables(vcs, cat.tables);
  }

  method RebindTables(vcs: ValueColumns, tables: seq<Table>)
    requires DistinctObjects(tables)
    modifies tables
    ensures TablesData(tables) == RebindAll(vcs, old(TablesData(tables)))
  {
    ghost var data := TablesData(tables);
    for i := 0 to |tables|
      invariant forall k :: 0 <= k < i ==> tables[k].Data() == Rebind(vcs, data[k])
      invariant forall k :: i <= k < |tables| ==> tables[k].Data() == data[k]
    {
      RebindForeignKeys(vcs, tables[i]);
    }
  }

  // ----- what a conversion guarantees

  predicate IsConverted(db: Database, t: TableData) { ConversionOf(db, t).Convert? }

  /** The plan names exactly the converted tables and carries an enum for each of them. */
  lemma {:induction false} PlanCovers(db: Database, tables: seq<TableData>, plan: Plan, ref: string)
    requires PlanFor(db, tables) == Ok(plan)
    ensures ref in plan.columns <==> exists t :: t in tables && IsConverted(db, t) && TableKey(t) == ref
    ensures ref in plan.columns ==>
              exists t :: t in tables && TableKey(t) == ref
                          && ConversionOf(db, t).Convert? && ConversionOf(db, t).column == plan.columns[ref]
                          && ConversionOf(db, t).enum in plan.enums
  {
    hide ConversionOf, TableKey;
    if tables != [] {
      var n := |tables| - 1;
      PlanCovers(db, tables[..n], PlanFor(db, tables[..n]).value, ref);
      assert forall t :: t in tables <==> t in tables[..n] || t == tables[n];
    }
  }

  /** Every enum of the plan is table-backed and holds the rows of the table it is named after. */
  lemma {:induction false} PlanEnums(db: Database, tables: seq<TableData>, plan: Plan, e: Enum)
    requires PlanFor(db, tables) == Ok(plan) && e in plan.enums
    ensures e.tableBacked && e.values != [] && |e.values| == |e.valueDescriptions|
    ensures exists t :: t in tables && ConversionOf(db, t).Convert? && ConversionOf(db, t).enum == e
                        && e.schema == t.schema && e.name == t.name
  {
    var n := |tables| - 1;
    var before := PlanFor(db, tables[..n]).value;
    assert tables[n] in tables;
    if e in before.enums {
      PlanEnums(db, tables[..n], before, e);
      assert forall t :: t in tables[..n] ==> t in tables;
    }
  }

  function ConvertedEnum(db: Database): TableData -> seq<Enum> {
    t => match ConversionOf(db, t) case Convert(_, e) => [e] case _ => []
  }

  lemma PlanEnumsStep(db: Database, tables: seq<TableData>, plan: Plan)
    requires PlanFor(db, tables) == Ok(plan) && tables != []
    ensures var before := PlanFor(db, tables[..|tables| - 1]);
            before.Ok? && plan.enums == before.value.enums + ConvertedEnum(db)(tables[|tables| - 1])
  {
    hide ConversionOf;
  }

  /** One enum per converted table, in table order. */
  lemma {:induction false} PlanEnumsInOrder(db: Database, tables: seq<TableData>, plan: Plan)
    requires PlanFor(db, tables) == Ok(plan)
    ensures plan.enums == FlatMap(ConvertedEnum(db), tables)
  {
    hide ConversionOf;
    if tables != [] {
      PlanEnumsStep(db, tables, plan);
      hide PlanFor, ConvertedEnum, FlatMap;
      var n := |tables| - 1;
      PlanEnumsInOrder(db, tables[..n], PlanFor(db, tables[..n]).value);
      FlatMapSnoc(ConvertedEnum(db), tables[..n], tables[n]);
      assert tables == tables[..n] + [tables[n]];
    }
  }

  lemma {:induction false} BindingKeepsNames(vcs: ValueColumns, columns: seq<ColumnData>, fks: seq<ForeignKey>)
    ensures ColumnNames(BindColumns(vcs, columns, fks)) == ColumnNames(columns)
  {
    if fks != [] {
      BindingKeepsNames(vcs, columns, fks[..|fks| - 1]);
    }
  }

  lemma ResolvesStill(vcs: ValueColumns, tables: seq<TableData>, fk: ForeignKey)
    requires Resolves(tables, fk) && RefKey(fk) !in vcs
    ensures Resolves(RebindAll(vcs, Filter(StaysTable(vcs), tables)), fk)
  {
    var t :| t in tables && t.schema == fk.refSchema && t.name == fk.refTable && ColumnsNamed(t.columns, fk.refColumns);
    var staying := Filter(StaysTable(vcs), tables);
    assert StaysTable(vcs)(t) && t in staying;
    var i :| 0 <= i < |staying| && staying[i] == t;
    BindingKeepsNames(vcs, t.columns, t.foreignKeys);
    assert RebindAll(vcs, staying)[i] == Rebind(vcs, t);
  }

  /** If every foreign key resolved before, every remaining one resolves after. */
  lemma ClosurePreserved(plan: Plan, c: CatalogData)
    requires Closed(c)
    ensures Closed(Rewrite(plan, c))
  {
    var d := Rewrite(plan, c);
    if plan.enums != [] {
      var staying := Filter(StaysTable(plan.columns), c.tables);
      forall u, fk | u in d.tables && fk in u.foreignKeys
        ensures Resolves(d.tables, fk)
      {
        var i :| 0 <= i < |staying| && u == Rebind(plan.columns, staying[i]);
        assert staying[i] in c.tables && fk in staying[i].foreignKeys;
        ResolvesStill(plan.columns, c.tables, fk);
      }
    }
  }

  /** Some converted table goes by this name. */
  ghost predicate NamesConverted(db: Database, tables: seq<TableData>, ref: string) {
    exists u :: u in tables && IsConverted(db, u) && TableKey(u) == ref
  }

  /** No key left in the catalog points at a converted table, and only those that did were dropped. */
  lemma NoKeyToConverted(db: Database, c: CatalogData, plan: Plan, t: TableData, fk: ForeignKey)
    requires PlanFor(db, c.tables) == Ok(plan)
    ensures fk in Rebind(plan.columns, t).foreignKeys <==>
            fk in t.foreignKeys && !NamesConverted(db, c.tables, RefKey(fk))
  {
    PlanCovers(db, c.tables, plan, RefKey(fk));
    assert StaysKey(plan.columns)(fk) <==> RefKey(fk) !in plan.columns;
  }

  lemma KeysConserved(vcs: ValueColumns, t: TableData)
    ensures multiset(Rebind(vcs, t).foreignKeys) + multiset(Filter(Not(StaysKey(vcs)), t.foreignKeys))
            == multiset(t.foreignKeys)
  {
    FilterPartition(StaysKey(vcs), t.foreignKeys);
  }

  /** Every table stays, in order, or leaves; it leaves exactly when it shares its name with a converted one. */
  lemma TablesConserved(db: Database, c: CatalogData, plan: Plan)
    requires PlanFor(db, c.tables) == Ok(plan)
    ensures multiset(Filter(StaysTable(plan.columns), c.tables))
            + multiset(Filter(Not(StaysTable(plan.columns)), c.tables))
            == multiset(c.tables)
    ensures forall t :: StaysTable(plan.columns)(t) <==> !NamesConverted(db, c.tables, TableKey(t))
  {
    hide ConversionOf;
    FilterPartition(StaysTable(plan.columns), c.tables);
    forall t
      ensures StaysTable(plan.columns)(t) <==> !NamesConverted(db, c.tables, TableKey(t))
    {
      PlanCovers(db, c.tables, plan, TableKey(t));
    }
  }

  // ----- column bindings

  /** The reference given by the last qualifying key on that column. */
  function LastBinding(vcs: ValueColumns, fks: seq<ForeignKey>, name: string): Option<string> {
    if fks == [] then None
    else
      var fk := fks[|fks| - 1];
      if Binds(vcs, fk) && fk.columns[0] == name then Some(RefKey(fk))
      else LastBinding(vcs, fks[..|fks| - 1], name)
  }

  function BoundColumn(vcs: ValueColumns, columns: seq<ColumnData>, fks: seq<ForeignKey>, i: nat): ColumnData
    requires i < |columns|
  {
    var c := columns[i];
    var last := LastBinding(vcs, fks, c.name);
    if last.Some? && NameIndex(ColumnNames(columns), c.name) == i then c.(enumRef := last.value) else c
  }

  /** When several keys bind one column the last one wins, and nothing but the binding changes. */
  lemma {:induction false} LastBindingWins(vcs: ValueColumns, columns: seq<ColumnData>, fks: seq<ForeignKey>, i: nat)
    requires i < |columns|
    ensures BindColumns(vcs, columns, fks)[i] == BoundColumn(vcs, columns, fks, i)
  {
    if fks != [] {
      var n := |fks| - 1;
      LastBindingWins(vcs, columns, fks[..n], i);
      BindingKeepsNames(vcs, columns, fks[..n]);
    }
  }

  lemma {:induction false} BindingNamesConverted(vcs: ValueColumns, fks: seq<ForeignKey>, name: string)
    ensures LastBinding(vcs, fks, name).Some? ==> LastBinding(vcs, fks, name).value in vcs
  {
    if fks != [] {
      BindingNamesConverted(vcs, fks[..|fks| - 1], name);
    }
  }

  lemma QualifiedNonEmpty(schema: string, name: string)
    ensures QualifiedName(schema, name) != ""
  {
    assert QualifiedName(schema, name)[|schema|] == '.';
  }

  /** Some key binds the column, and it is the first of its name. */
  predicate Bound(vcs: ValueColumns, t: TableData, i: nat)
    requires i < |t.columns|
  {
    LastBinding(vcs, t.foreignKeys, t.columns[i].name).Some?
    && NameIndex(ColumnNames(t.columns), t.columns[i].name) == i
  }

  /** Every binding a conversion makes resolves to a table-backed enum of the resulting catalog. */
  lemma BindingsResolve(db: Database, c: CatalogData, plan: Plan, t: TableData, i: nat)
    requires PlanFor(db, c.tables) == Ok(plan) && i < |t.columns|
    ensures !Bound(plan.columns, t, i) ==> Rebind(plan.columns, t).columns[i] == t.columns[i]
    ensures var ref := Rebind(plan.columns, t).columns[i].enumRef;
            Bound(plan.columns, t, i) ==>
              ref in plan.columns
              && EnumByRef(Rewrite(plan, c).enums, ref).Some?
              && EnumByRef(Rewrite(plan, c).enums, ref).value.tableBacked
    ensures var ref := Rebind(plan.columns, t).columns[i].enumRef;
            Bound(plan.columns, t, i) && (forall e :: e in c.enums ==> !e.tableBacked) ==>
              EnumByRef(Rewrite(plan, c).enums, ref).value in plan.enums
  {
    hide PlanFor, BindColumns, LastBinding;
    LastBindingWins(plan.columns, t.columns, t.foreignKeys, i);
    if Bound(plan.columns, t, i) {
      var ref := Rebind(plan.columns, t).columns[i].enumRef;
      BindingNamesConverted(plan.columns, t.foreignKeys, t.columns[i].name);
      PlanCovers(db, c.tables, plan, ref);
      ConvertedEnumFound(db, c, plan, ref);
    }
  }

  lemma ConvertedEnumFound(db: Database, c: CatalogData, plan: Plan, ref: string)
    requires exists u :: u in c.tables && TableKey(u) == ref
                         && ConversionOf(db, u).Convert? && ConversionOf(db, u).enum in plan.enums
    ensures ref != "" && exists e :: e in plan.enums && e.tableBacked && QualifiedName(e.schema, e.name) == ref
  {
    var u :| u in c.tables && TableKey(u) == ref
             && ConversionOf(db, u).Convert? && ConversionOf(db, u).enum in plan.enums;
    QualifiedNonEmpty(u.schema, u.name);
    assert ConversionOf(db, u).enum.tableBacked;
  }

  // ----- a conversion in terms of comments, columns and rows

  ghost predicate PicksAny(columns: seq<ColumnData>, key: Constraint) { exists vc :: PicksColumn(columns, key, vc) }

  lemma PicksAnyIff(columns: seq<ColumnData>, key: Constraint)
    ensures PickColumn(columns, Some(key)) != "" <==> PicksAny(columns, key)
  {
    hide PicksColumn, PickColumn;
    var vc := PickColumn(columns, Some(key));
    if vc != "" {
      PickColumnIff(columns, key, vc);
    }
    if vc :| PicksColumn(columns, key, vc) {
      PicksNonEmpty(columns, key, vc);
      PickColumnIff(columns, key, vc);
    }
  }

  lemma PicksNonEmpty(columns: seq<ColumnData>, key: Constraint, vc: string)
    requires PicksColumn(columns, key, vc)
    ensures vc != "" && key.columns == [vc]
  {
  }

  /** The first unique constraint tagged @enum that picks a column decides; the primary key only where none does. */
  ghost predicate Qualifies(t: TableData, vc: string) {
    || (exists i :: 0 <= i < |t.uniques| && Tagged(t.uniques[i]) && PicksColumn(t.columns, t.uniques[i], vc)
                    && forall k :: 0 <= k < i && Tagged(t.uniques[k]) ==> !PicksAny(t.columns, t.uniques[k]))
    || (t.primaryKey.Some? && PicksColumn(t.columns, t.primaryKey.value, vc)
        && forall k :: 0 <= k < |t.uniques| && Tagged(t.uniques[k]) ==> !PicksAny(t.columns, t.uniques[k]))
  }

  lemma QualifiesOnce(t: TableData, vc: string, vc': string)
    requires Qualifies(t, vc) && Qualifies(t, vc')
    ensures vc == vc' && vc != ""
  {
    hide PicksColumn, Tagged;
    forall key, c | PicksColumn(t.columns, key, c)
      ensures key.columns == [c] && c != "" && PicksAny(t.columns, key)
    {
      PicksNonEmpty(t.columns, key, c);
    }
  }

  /** The value column is exactly the qualifying one. */
  lemma QualifiesIff(t: TableData, vc: string)
    ensures Qualifies(t, vc) <==> ValueColumn(t) == vc && vc != ""
  {
    hide PicksColumn, Tagged, PickColumn;
    var w := ValueColumn(t);
    if w != "" {
      ValueFound(t);
      assert Qualifies(t, w);
      if Qualifies(t, vc) {
        QualifiesOnce(t, vc, w);
      }
    } else {
      ValueColumnQualifies(t);
      forall k | 0 <= k < |t.uniques| && Tagged(t.uniques[k])
        ensures !PicksAny(t.columns, t.uniques[k])
      {
        PicksAnyIff(t.columns, t.uniques[k]);
      }
      if t.primaryKey.Some? {
        PicksAnyIff(t.columns, t.primaryKey.value);
      }
    }
  }

  lemma ValueFound(t: TableData)
    requires ValueColumn(t) != ""
    ensures Qualifies(t, ValueColumn(t))
  {
    hide PicksColumn, Tagged, PickColumn, TaggedUniqueColumn;
    TaggedUniqueFirst(t.columns, t.uniques);
    forall k | 0 <= k < |t.uniques|
      ensures PickColumn(t.columns, Some(t.uniques[k])) == "" ==> !PicksAny(t.columns, t.uniques[k])
    {
      PicksAnyIff(t.columns, t.uniques[k]);
    }
    if TaggedUniqueColumn(t.columns, t.uniques) == "" {
      assert PickColumn(t.columns, None) == "" by { NoKeyNoColumn(t.columns); }
      PickColumnIff(t.columns, t.primaryKey.value, ValueColumn(t));
    }
  }

  lemma NoKeyNoColumn(columns: seq<ColumnData>)
    ensures PickColumn(columns, None) == ""
  {
  }

  /** A column other than the value column whose comment is tagged @enumDescription. */
  predicate Describes(c: ColumnData, vc: string) { Has(TagsOf(c.comment), "enumDescription") && c.name != vc }

  /** The first describing column; else one called description; else none. */
  ghost predicate DescribedBy(columns: seq<ColumnData>, vc: string, dc: string) {
    if exists i :: 0 <= i < |columns| && Describes(columns[i], vc) then
      exists i :: 0 <= i < |columns| && Describes(columns[i], vc) && columns[i].name == dc
                  && forall k :: 0 <= k < i ==> !Describes(columns[k], vc)
    else if vc != "description" && exists c :: c in columns && c.name == "description" then dc == "description"
    else dc == ""
  }

  lemma {:induction false} FirstDescribes(columns: seq<ColumnData>, vc: string) returns (i: nat)
    requires exists k :: 0 <= k < |columns| && Describes(columns[k], vc)
    ensures i < |columns| && Describes(columns[i], vc) && TaggedDescription(columns, vc) == columns[i].name
    ensures forall k :: 0 <= k < i ==> !Describes(columns[k], vc)
  {
    hide TagsOf;
    if Describes(columns[0], vc) {
      i := 0;
    } else {
      var k :| 0 <= k < |columns| && Describes(columns[k], vc);
      assert columns[1..][k - 1] == columns[k];
      i := FirstDescribes(columns[1..], vc);
      i := i + 1;
    }
  }

  lemma DescribedByIff(columns: seq<ColumnData>, vc: string, dc: string)
    ensures DescribedBy(columns, vc, dc) <==> DescriptionColumn(columns, vc) == dc
  {
    hide TagsOf, TaggedDescription;
    if exists i :: 0 <= i < |columns| && Describes(columns[i], vc) {
      var i := FirstDescribes(columns, vc);
      assert columns[i] in columns;
    } else {
      assert forall c :: c in columns ==> !Describes(c, vc);
      NamedColumn(columns, "description");
    }
  }

  lemma NamedColumn(columns: seq<ColumnData>, name: string)
    ensures FindColumn(columns, name).Some? <==> exists c :: c in columns && c.name == name
  {
    if c :| c in columns && c.name == name {
      var k :| 0 <= k < |columns| && columns[k] == c;
      assert ColumnNames(columns)[k] == name;
    }
  }

  /** The answer to the read a tagged, qualifying table calls for. */
  ghost predicate Answered(db: Database, t: TableData, vc: string, rows: Rows) {
    && Has(TagsOf(t.comment), "enum") && Qualifies(t, vc)
    && exists dc :: DescribedBy(t.columns, vc, dc) && rows == db(Query(t.schema, t.name, vc, dc))
  }

  /** A tagged table with a qualifying column that has at least one row. */
  ghost predicate TurnsInto(db: Database, t: TableData, vc: string, pairs: seq<(string, string)>) {
    Answered(db, t, vc, Rows(pairs)) && pairs != []
  }

  /** A table-backed enum named and commented like its table, its values and descriptions the rows in order. */
  ghost predicate HoldsRows(e: Enum, t: TableData, pairs: seq<(string, string)>) {
    && e.schema == t.schema && e.name == t.name && e.comment == t.comment && e.tableBacked
    && |e.values| == |e.valueDescriptions| == |pairs|
    && forall i :: 0 <= i < |pairs| ==> (e.values[i], e.valueDescriptions[i]) == pairs[i]
  }

  lemma AnsweredIff(db: Database, t: TableData, vc: string, rows: Rows)
    ensures Answered(db, t, vc, rows) <==>
            Has(TagsOf(t.comment), "enum") && ValueColumn(t) == vc && vc != "" && rows == db(QueryFor(t, vc))
  {
    hide TagsOf, ValueColumn, Qualifies, DescriptionColumn, DescribedBy;
    QualifiesIff(t, vc);
    DescribedByIff(t.columns, vc, DescriptionColumn(t.columns, vc));
    forall dc { DescribedByIff(t.columns, vc, dc); }
  }

  /** What becomes of a table, by what its database answers. */
  lemma ConversionMeaning(db: Database, t: TableData)
    ensures ConversionOf(db, t).Convert? ==>
              exists pairs :: TurnsInto(db, t, ConversionOf(db, t).column, pairs)
                              && HoldsRows(ConversionOf(db, t).enum, t, pairs)
    ensures forall vc, pairs :: TurnsInto(db, t, vc, pairs) ==>
              ConversionOf(db, t).Convert? && ConversionOf(db, t).column == vc
              && HoldsRows(ConversionOf(db, t).enum, t, pairs)
    ensures forall vc, error :: Answered(db, t, vc, Failed(error)) ==> ConversionOf(db, t) == Abort(error)
    ensures ConversionOf(db, t).Abort? ==> exists vc :: Answered(db, t, vc, Failed(ConversionOf(db, t).error))
  {
    hide TagsOf, ValueColumn, Answered, QueryFor;
    var vc := ValueColumn(t);
    forall vc', rows { AnsweredIff(db, t, vc', rows); }
    if Has(TagsOf(t.comment), "enum") && vc != "" {
      var rows := db(QueryFor(t, vc));
      assert Answered(db, t, vc, rows);
      if rows.Rows? && rows.pairs != [] {
        assert TurnsInto(db, t, vc, rows.pairs) && HoldsRows(EnumOf(t, rows.pairs), t, rows.pairs);
      }
    }
  }

  /** Some table of this joined name turns into an enum. */
  ghost predicate SomeTurns(db: Database, tables: seq<TableData>, joined: string) {
    exists u, vc, pairs :: u in tables && QualifiedName(u.schema, u.name) == joined && TurnsInto(db, u, vc, pairs)
  }

  lemma SomeTurnsIff(db: Database, tables: seq<TableData>, joined: string)
    ensures SomeTurns(db, tables, joined) <==> NamesConverted(db, tables, joined)
  {
    hide ConversionOf, TurnsInto, HoldsRows, QualifiedName;
    forall u { ConversionMeaning(db, u); }
  }

  /**
   * A table leaves exactly when some table of its joined name is tagged @enum, has a qualifying
   * column and returned at least one row.
   */
  lemma LeavesIff(db: Database, c: CatalogData, plan: Plan, t: TableData)
    requires PlanFor(db, c.tables) == Ok(plan) && t in c.tables
    ensures (exists r :: r in Rewrite(plan, c).tables && r.schema == t.schema && r.name == t.name) <==>
            !SomeTurns(db, c.tables, QualifiedName(t.schema, t.name))
  {
    hide PlanFor, QualifiedName, SomeTurns, BindColumns;
    SomeTurnsIff(db, c.tables, TableKey(t));
    TablesConserved(db, c, plan);
    NoEnumsNoColumns(db, c.tables, plan);
    StaysOrLeaves(plan, c, t);
  }

  lemma StaysOrLeaves(plan: Plan, c: CatalogData, t: TableData)
    requires t in c.tables && (plan.enums == [] ==> plan.columns == map[])
    ensures (exists r :: r in Rewrite(plan, c).tables && r.schema == t.schema && r.name == t.name) <==>
            StaysTable(plan.columns)(t)
  {
    hide BindColumns;
    var staying := Filter(StaysTable(plan.columns), c.tables);
    if plan.enums != [] {
      if StaysTable(plan.columns)(t) {
        var k :| 0 <= k < |staying| && staying[k] == t;
        assert RebindAll(plan.columns, staying)[k] in Rewrite(plan, c).tables;
      }
      if r :| r in Rewrite(plan, c).tables && r.schema == t.schema && r.name == t.name {
        var k :| 0 <= k < |staying| && Rebind(plan.columns, staying[k]) == r;
        assert staying[k] in staying;
      }
    }
  }

  lemma {:induction false} NoEnumsNoColumns(db: Database, tables: seq<TableData>, plan: Plan)
    requires PlanFor(db, tables) == Ok(plan)
    ensures plan.enums == [] <==> plan.columns == map[]
  {
    if tables != [] {
      hide ConversionOf, TableKey;
      var n := |tables| - 1;
      NoEnumsNoColumns(db, tables[..n], PlanFor(db, tables[..n]).value);
      if ConversionOf(db, tables[n]).Convert? {
        assert TableKey(tables[n]) in plan.columns;
      }
    }
  }

  /** The enums of the new catalog: the old ones first, then those the rows of converted tables make. */
  lemma EnumsAre(db: Database, c: CatalogData, plan: Plan, e: Enum)
    requires PlanFor(db, c.tables) == Ok(plan)
    ensures c.enums <= Rewrite(plan, c).enums
    ensures e in Rewrite(plan, c).enums <==>
            e in c.enums
            || exists t, vc, pairs :: t in c.tables && TurnsInto(db, t, vc, pairs) && HoldsRows(e, t, pairs)
  {
    hide PlanFor, ConversionOf, TurnsInto, HoldsRows;
    PlanEnumsInOrder(db, c.tables, plan);
    FlatMapMembers(ConvertedEnum(db), c.tables, e);
    forall t { ConversionMeaning(db, t); }
    forall t, pairs, d, d' | HoldsRows(d, t, pairs) && HoldsRows(d', t, pairs)
      ensures d == d'
    {
      SameRows(d, d', t, pairs);
    }
    forall t, vc, pairs, vc', pairs' | TurnsInto(db, t, vc, pairs) && TurnsInto(db, t, vc', pairs')
      ensures pairs == pairs'
    {
      AnsweredOnce(db, t, vc, pairs, vc', pairs');
    }
  }

  lemma AnsweredOnce(db: Database, t: TableData, vc: string, pairs: seq<(string, string)>,
                     vc': string, pairs': seq<(string, string)>)
    requires TurnsInto(db, t, vc, pairs) && TurnsInto(db, t, vc', pairs')
    ensures pairs == pairs'
  {
    hide Answered;
    AnsweredIff(db, t, vc, Rows(pairs));
    AnsweredIff(db, t, vc', Rows(pairs'));
  }

  lemma SameRows(d: Enum, e: Enum, t: TableData, pairs: seq<(string, string)>)
    requires HoldsRows(d, t, pairs) && HoldsRows(e, t, pairs)
    ensures d == e
  {
    forall i | 0 <= i < |pairs|
      ensures d.values[i] == e.values[i] && d.valueDescriptions[i] == e.valueDescriptions[i]
    {
    }
  }

  /** A read this table calls for fails. */
  ghost predicate ReadFails(db: Database, t: TableData, error: string) {
    exists vc :: Answered(db, t, vc, Failed(error))
  }

  lemma ReadFailsIff(db: Database, t: TableData, error: string)
    ensures ReadFails(db, t, error) <==> ConversionOf(db, t) == Abort(error)
  {
    hide ConversionOf, Answered;
    ConversionMeaning(db, t);
  }

  /** The i-th table is the first whose read fails. */
  ghost predicate FailsFirst(db: Database, tables: seq<TableData>, i: nat, error: string) {
    && i < |tables| && ReadFails(db, tables[i], error)
    && forall k, e :: 0 <= k < i ==> !ReadFails(db, tables[k], e)
  }

  /** What the last table adds to a plan. */
  lemma PlanLast(db: Database, tables: seq<TableData>)
    requires tables != []
    ensures var n := |tables| - 1;
            match PlanFor(db, tables[..n])
            case Err(error) => PlanFor(db, tables) == Err(error)
            case Ok(before) =>
              match ConversionOf(db, tables[n])
              case Abort(error) => PlanFor(db, tables) == Err(error)
              case Skip => PlanFor(db, tables) == Ok(before)
              case Convert(column, e) =>
                PlanFor(db, tables) == Ok(Plan(before.columns[TableKey(tables[n]) := column], before.enums + [e]))
  {
    hide ConversionOf, TableKey;
  }

  lemma {:induction false} NoFailures(db: Database, tables: seq<TableData>)
    requires PlanFor(db, tables).Ok?
    ensures forall k, e :: 0 <= k < |tables| ==> !ReadFails(db, tables[k], e)
  {
    hide ConversionOf, ReadFails, TableKey, PlanFor;
    if tables != [] {
      var n := |tables| - 1;
      PlanLast(db, tables);
      NoFailures(db, tables[..n]);
      forall e { ReadFailsIff(db, tables[n], e); }
      assert forall k :: 0 <= k < n ==> tables[..n][k] == tables[k];
    }
  }

  lemma EmptyPlan(db: Database)
    ensures PlanFor(db, []).Ok?
  {
  }

  lemma {:induction false} FirstFailure(db: Database, tables: seq<TableData>) returns (i: nat)
    requires PlanFor(db, tables).Err?
    ensures FailsFirst(db, tables, i, PlanFor(db, tables).error)
  {
    hide ConversionOf, ReadFails, TableKey, PlanFor;
    EmptyPlan(db);
    var n := |tables| - 1;
    PlanLast(db, tables);
    assert forall k :: 0 <= k < n ==> tables[..n][k] == tables[k];
    if PlanFor(db, tables[..n]).Err? {
      i := FirstFailure(db, tables[..n]);
    } else {
      i := n;
      NoFailures(db, tables[..n]);
      ReadFailsIff(db, tables[n], PlanFor(db, tables).error);
    }
  }

  /** A conversion fails exactly when a read it calls for fails, with the error of the first that does. */
  lemma PlanErrIff(db: Database, tables: seq<TableData>, error: string)
    ensures PlanFor(db, tables) == Err(error) <==> exists i: nat :: FailsFirst(db, tables, i, error)
  {
    hide PlanFor, ReadFails;
    if PlanFor(db, tables).Err? {
      var i := FirstFailure(db, tables);
      if j: nat :| FailsFirst(db, tables, j, error) {
        assert i == j;
        FailsOnce(db, tables[i], error, PlanFor(db, tables).error);
      }
    } else {
      NoFailures(db, tables);
    }
  }

  lemma FailsOnce(db: Database, t: TableData, e: string, e': string)
    requires ReadFails(db, t, e) && ReadFails(db, t, e')
    ensures e == e'
  {
    hide ConversionOf;
    ReadFailsIff(db, t, e);
    ReadFailsIff(db, t, e');
  }

  /** No table is commented @enum. */
  predicate NoneTagged(tables: seq<TableData>) { forall t :: t in tables ==> !Has(TagsOf(t.comment), "enum") }

  lemma {:induction false} UntaggedStay(db: Database, tables: seq<TableData>)
    requires NoneTagged(tables)
    ensures PlanFor(db, tables) == Ok(Plan(map[], []))
  {
    if tables != [] {
      hide TagsOf, ValueColumn, EnumRead;
      UntaggedStay(db, tables[..|tables| - 1]);
      assert tables[|tables| - 1] in tables;
    }
  }

  /** Without a table tagged @enum the conversion succeeds and changes nothing, whatever the database answers. */
  method ConvertUntagged(db: Database, cat: Catalog) returns (r: Result<()>)
    requires cat.Valid() && NoneTagged(cat.Data().tables)
    modifies cat, cat.tables
    ensures r == Ok(()) && cat.Data() == old(cat.Data())
  {
    UntaggedStay(db, cat.Data().tables);
    hide *;
    r := ConvertEnumTables(db, cat);
    RewriteNothing(old(cat.Data()));
  }

  lemma RewriteNothing(c: CatalogData)
    ensures Rewrite(Plan(map[], []), c) == c
  {
  }

  // ----- which column is bound to what

  /** The last table of this joined name that turns into an enum does so by this column. */
  ghost predicate ValueColumnOf(db: Database, tables: seq<TableData>, joined: string, vc: string) {
    exists i :: 0 <= i < |tables| && TurnsBy(db, tables[i], joined, vc)
                && forall k, v :: i < k < |tables| ==> !TurnsBy(db, tables[k], joined, v)
  }

  ghost predicate TurnsBy(db: Database, t: TableData, joined: string, vc: string) {
    QualifiedName(t.schema, t.name) == joined && exists pairs :: TurnsInto(db, t, vc, pairs)
  }

  lemma TurnsByIff(db: Database, t: TableData, joined: string, vc: string)
    ensures TurnsBy(db, t, joined, vc) <==>
            TableKey(t) == joined && ConversionOf(db, t).Convert? && ConversionOf(db, t).column == vc
  {
    hide ConversionOf, TurnsInto, HoldsRows, QualifiedName;
    ConversionMeaning(db, t);
  }

  lemma ValueColumnStep(db: Database, tables: seq<TableData>, joined: string, vc: string)
    requires tables != []
    ensures var n := |tables| - 1;
            ValueColumnOf(db, tables, joined, vc) <==>
            if exists v :: TurnsBy(db, tables[n], joined, v) then TurnsBy(db, tables[n], joined, vc)
            else ValueColumnOf(db, tables[..n], joined, vc)
  {
    hide TurnsBy;
    var n := |tables| - 1;
    assert forall k :: 0 <= k < n ==> tables[..n][k] == tables[k];
  }

  lemma {:induction false} PlanColumnIff(db: Database, tables: seq<TableData>, plan: Plan, joined: string, vc: string)
    requires PlanFor(db, tables) == Ok(plan)
    ensures joined in plan.columns && plan.columns[joined] == vc <==> ValueColumnOf(db, tables, joined, vc)
  {
    hide ConversionOf, TableKey, TurnsBy;
    if tables == [] {
    } else {
      hide PlanFor, ValueColumnOf;
      var n := |tables| - 1;
      PlanLast(db, tables);
      PlanColumnIff(db, tables[..n], PlanFor(db, tables[..n]).value, joined, vc);
      forall v { TurnsByIff(db, tables[n], joined, v); }
      if ConversionOf(db, tables[n]).Convert? {
        TurnsByIff(db, tables[n], joined, ConversionOf(db, tables[n]).column);
      }
      ValueColumnStep(db, tables, joined, vc);
    }
  }

  /** A key over this column alone, to the value column alone of a converted table. */
  ghost predicate BindsTo(db: Database, tables: seq<TableData>, fk: ForeignKey, name: string, joined: string) {
    && fk.columns == [name] && QualifiedName(fk.refSchema, fk.refTable) == joined
    && exists vc :: fk.refColumns == [vc] && ValueColumnOf(db, tables, joined, vc)
  }

  /** The last such key of a list. */
  ghost predicate BindsLast(db: Database, tables: seq<TableData>, fks: seq<ForeignKey>, name: string, joined: string) {
    exists k :: 0 <= k < |fks| && BindsTo(db, tables, fks[k], name, joined)
                && forall l, j :: k < l < |fks| ==> !BindsTo(db, tables, fks[l], name, j)
  }

  lemma BindsToIff(db: Database, tables: seq<TableData>, plan: Plan, fk: ForeignKey, name: string, joined: string)
    requires PlanFor(db, tables) == Ok(plan)
    ensures BindsTo(db, tables, fk, name, joined) <==>
            Binds(plan.columns, fk) && fk.columns[0] == name && RefKey(fk) == joined
  {
    hide PlanFor, ValueColumnOf, QualifiedName;
    forall vc { PlanColumnIff(db, tables, plan, joined, vc); }
    if |fk.columns| == 1 {
      assert fk.columns == [fk.columns[0]];
    }
    if |fk.refColumns| == 1 {
      assert fk.refColumns == [fk.refColumns[0]];
    }
  }

  lemma BindsLastStep(db: Database, tables: seq<TableData>, fks: seq<ForeignKey>, name: string, joined: string)
    requires fks != []
    ensures var n := |fks| - 1;
            BindsLast(db, tables, fks, name, joined) <==>
            if exists j :: BindsTo(db, tables, fks[n], name, j) then BindsTo(db, tables, fks[n], name, joined)
            else BindsLast(db, tables, fks[..n], name, joined)
  {
    hide BindsTo;
    var n := |fks| - 1;
    assert forall k :: 0 <= k < n ==> fks[..n][k] == fks[k];
  }

  lemma {:induction false} LastBindingIff(db: Database, tables: seq<TableData>, plan: Plan, fks: seq<ForeignKey>,
                                          name: string, joined: string)
    requires PlanFor(db, tables) == Ok(plan)
    ensures LastBinding(plan.columns, fks, name) == Some(joined) <==> BindsLast(db, tables, fks, name, joined)
  {
    hide PlanFor, BindsTo, Binds, RefKey;
    if fks != [] {
      var n := |fks| - 1;
      LastBindingIff(db, tables, plan, fks[..n], name, joined);
      forall j { BindsToIff(db, tables, plan, fks[n], name, j); }
      BindsToIff(db, tables, plan, fks[n], name, RefKey(fks[n]));
      BindsLastStep(db, tables, fks, name, joined);
    }
  }

  /**
   * A column is bound exactly as its table's keys say: the last key over it alone, to the value column
   * of a converted table, binds the first column of the name to that table; no other column changes.
   */
  lemma BindingIff(db: Database, c: CatalogData, plan: Plan, t: TableData, i: nat, joined: string)
    requires PlanFor(db, c.tables) == Ok(plan) && i < |t.columns|
    ensures var name := t.columns[i].name;
            var first := forall k :: 0 <= k < i ==> t.columns[k].name != name;
            && (first && BindsLast(db, c.tables, t.foreignKeys, name, joined) ==>
                  Rebind(plan.columns, t).columns[i] == t.columns[i].(enumRef := joined))
            && (!first || (forall j :: !BindsLast(db, c.tables, t.foreignKeys, name, j)) ==>
                  Rebind(plan.columns, t).columns[i] == t.columns[i])
  {
    hide PlanFor, BindColumns, BindsLast;
    var name := t.columns[i].name;
    LastBindingWins(plan.columns, t.columns, t.foreignKeys, i);
    forall j { LastBindingIff(db, c.tables, plan, t.foreignKeys, name, j); }
    assert forall k :: 0 <= k < |t.columns| ==> ColumnNames(t.columns)[k] == t.columns[k].name;
  }
}
