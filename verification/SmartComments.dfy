/**
 * The catalog half of the smart-comments plugin (smartcomments/catalog/hook.go): tags on tables,
 * columns and constraints reshape the catalog in place.
 */
module SmartComments {
  import opened Sequences
  import opened Strings
  import opened CatalogModel
  import opened CatalogHeap
  import opened SmartTags
  import opened TagIndexing

  /** The four captured groups of "(cols) references [schema.]table (cols)". */
  datatype Groups = Groups(columns: string, schema: string, table: string, refColumns: string)

  /** The regular expression, applied to the trimmed specification. */
  type Matcher = string -> Option<Groups>

  function Get(m: ExactMap, key: string): Option<Tags> { if key in m then Some(m[key]) else None }

  // ----- what key synthesis sees of the other tables: names only, which no tag changes

  datatype Shape = Shape(schema: string, name: string, columns: seq<string>)

  function ShapeOf(t: TableData): Shape { Shape(t.schema, t.name, ColumnNames(t.columns)) }

  function Shapes(tables: seq<TableData>): (r: seq<Shape>)
    ensures |r| == |tables| && forall i :: 0 <= i < |r| ==> r[i] == ShapeOf(tables[i])
  {
    seq(|tables|, i requires 0 <= i < |tables| => ShapeOf(tables[i]))
  }

  function FindShape(shapes: seq<Shape>, schema: string, name: string): (r: Option<Shape>)
    ensures r.Some? ==> r.value in shapes && r.value.schema == schema && r.value.name == name
  {
    if shapes == [] then None
    else if shapes[0].schema == schema && shapes[0].name == name then Some(shapes[0])
    else FindShape(shapes[1..], schema, name)
  }

  predicate NamesExist(columns: seq<string>, names: seq<string>) { forall n :: n in names ==> n in columns }

  // ----- synthesised keys

  /** Splits at the first separator; without one, everything is before it. */
  function CutIndex(s: string, sep: char): (n: nat)
    ensures n <= |s|
  {
    if s == "" || s[0] == sep then 0 else 1 + CutIndex(s[1..], sep)
  }

  function Before(s: string, sep: char): string { s[..CutIndex(s, sep)] }

  function After(s: string, sep: char): string {
    if CutIndex(s, sep) < |s| then s[CutIndex(s, sep) + 1..] else ""
  }

  function KeyName(v: string): string { "@foreignKey " + Before(v, '|') }

  /** The foreign key a tag value describes, if everything it names exists. */
  function KeyFor(matcher: Matcher, shapes: seq<Shape>, t: Shape, v: string): Option<ForeignKey> {
    var m := matcher(TrimSpace(Before(v, '|')));
    if m.None? then None
    else
      var cols, refCols := SplitList(m.value.columns), SplitList(m.value.refColumns);
      var refSchema := if m.value.schema == "" then t.schema else m.value.schema;
      var ref := FindShape(shapes, refSchema, m.value.table);
      if |cols| == 0 || |cols| != |refCols| then None
      else if !NamesExist(t.columns, cols) then None
      else if ref.None? then None
      else if !NamesExist(ref.value.columns, refCols) then None
      else Some(ForeignKey(KeyName(v), cols, refSchema, m.value.table, refCols, ""))
  }

  function StripAt(part: string): string { if HasPrefix(part, "@") then part[1..] else part }

  function AddSegment(tags: Tags, part: string): Tags {
    var p := StripAt(TrimSpace(part));
    if p == "" then tags else AddValue(tags, Before(p, ' '), TrimSpace(After(p, ' ')))
  }

  function SegmentTags(parts: seq<string>): Tags {
    if parts == [] then map[] else AddSegment(SegmentTags(parts[..|parts| - 1]), parts[|parts| - 1])
  }

  /** What one segment gives a name: its value, or nothing. */
  function SegmentValue(name: string): string -> seq<string> {
    (part: string) =>
      var p := StripAt(TrimSpace(part));
      if p != "" && Before(p, ' ') == name then [TrimSpace(After(p, ' '))] else []
  }

  lemma AddSegmentValue(tags: Tags, part: string, name: string)
    ensures All(Some(AddSegment(tags, part)), name) == All(Some(tags), name) + SegmentValue(name)(part)
    ensures name in AddSegment(tags, part) <==> name in tags || SegmentValue(name)(part) != []
  {
    hide TrimSpace, StripAt, Before, After;
  }

  lemma NoSegments(name: string)
    ensures All(Some(SegmentTags([])), name) == FlatMap(SegmentValue(name), []) == []
  {
    hide SegmentValue;
  }

  /** A name collects the values of its segments, in order, and is recorded when there is one. */
  lemma {:induction false} SegmentTagsMeaning(parts: seq<string>, name: string)
    ensures All(Some(SegmentTags(parts)), name) == FlatMap(SegmentValue(name), parts)
    ensures name in SegmentTags(parts) <==> FlatMap(SegmentValue(name), parts) != []
  {
    hide AddSegment, SegmentValue, All, Has;
    if parts == [] {
      NoSegments(name);
    } else {
      hide FlatMap;
      var n := |parts| - 1;
      SegmentTagsMeaning(parts[..n], name);
      AddSegmentValue(SegmentTags(parts[..n]), parts[n], name);
      FlatMapSnoc(SegmentValue(name), parts[..n], parts[n]);
      assert parts == parts[..n] + [parts[n]];
    }
  }

  predicate Segment(p: Piece) {
    p.Tag? && WellFormed(p) && '|' !in p.name && '|' !in p.value
  }

  lemma {:induction false} CutAt(name: string, rest: string, sep: char)
    requires sep !in name && (rest == "" || rest[0] == sep)
    ensures CutIndex(name + rest, sep) == |name|
  {
    if name == "" {
      assert name + rest == rest;
    } else {
      assert (name + rest)[1..] == name[1..] + rest;
      CutAt(name[1..], rest, sep);
    }
  }

  lemma NamedCut(name: string, value: string)
    requires ' ' !in name
    ensures var p := name + (if value == "" then "" else " " + value);
            Before(p, ' ') == name && After(p, ' ') == value
  {
    var rest := if value == "" then "" else " " + value;
    CutAt(name, rest, ' ');
    assert (name + rest)[..|name|] == name;
    if value != "" {
      assert (name + rest)[|name| + 1..] == value;
    }
  }

  lemma SegmentText(p: Piece)
    requires Segment(p)
    ensures StripAt(PieceText(p)) == p.name + (if p.value == "" then "" else " " + p.value)
    ensures '|' !in PieceText(p) && ' ' !in p.name && p.name != ""
  {
    assert PieceText(p)[1..] == p.name + (if p.value == "" then "" else " " + p.value);
  }

  lemma SegmentTrimmed(p: Piece)
    requires Segment(p)
    ensures TrimSpace(PieceText(p)) == PieceText(p) && TrimSpace(p.value) == p.value
  {
    assert p == Tag(p.name, p.value);
    hide TrimSpace, PieceText, TagName, TagValue, IsTagLine;
    TagLineParses(p.name, p.value);
    TrimSpaceOfTrimmed(p.value);
  }

  lemma SegmentParses(p: Piece, name: string)
    requires Segment(p)
    ensures SegmentValue(name)(PieceText(p)) == if p.name == name then [p.value] else []
  {
    hide Before, After, StripAt, TrimSpace, PieceText, Segment;
    SegmentIsTag(p);
    SegmentText(p);
    SegmentTrimmed(p);
    NamedCut(p.name, p.value);
    var text := p.name + (if p.value == "" then "" else " " + p.value);
    assert text != "";
  }

  lemma {:induction false} SegmentValues(ps: seq<Piece>, name: string)
    requires forall i :: 0 <= i < |ps| ==> Segment(ps[i])
    ensures FlatMap(SegmentValue(name), Texts(ps)) == ValuesOf(ps, name)
  {
    hide SegmentValue, PieceText, Segment;
    if ps != [] {
      assert ps[0].Tag? by { SegmentIsTag(ps[0]); }
      SegmentValues(ps[1..], name);
      SegmentParses(ps[0], name);
      assert Texts(ps)[1..] == Texts(ps[1..]);
    }
  }

  lemma SegmentIsTag(p: Piece)
    requires Segment(p)
    ensures p.Tag?
  {
  }

  /** Segments printed after a key parse back: every name's values, in order. */
  lemma SegmentsPrinted(ps: seq<Piece>, name: string)
    requires ps != [] && forall i :: 0 <= i < |ps| ==> Segment(ps[i])
    ensures All(Some(SegmentTags(Split(Join("|", Texts(ps)), '|'))), name) == ValuesOf(ps, name)
  {
    hide Segment, SegmentTags, SegmentValue;
    forall i | 0 <= i < |ps|
      ensures '|' !in Texts(ps)[i]
    {
      SegmentText(ps[i]);
    }
    SplitJoin(Texts(ps), '|');
    SegmentTagsMeaning(Texts(ps), name);
    SegmentValues(ps, name);
  }

  /** The trailing "|@name value" segments of an accepted key are indexed under its name. */
  function KeyTags(constraints: ExactMap, schema: string, v: string, accepted: bool): ExactMap {
    if accepted && After(v, '|') != ""
    then constraints[QualifiedName(schema, KeyName(v)) := SegmentTags(Split(After(v, '|'), '|'))]
    else constraints
  }

  function KeyList(matcher: Matcher, shapes: seq<Shape>, t: Shape): string -> seq<ForeignKey> {
    v => match KeyFor(matcher, shapes, t, v) case None => [] case Some(fk) => [fk]
  }

  function AllKeyTags(matcher: Matcher, shapes: seq<Shape>, t: Shape, constraints: ExactMap,
                      vs: seq<string>): ExactMap {
    if vs == [] then constraints
    else
      var n := |vs| - 1;
      KeyTags(AllKeyTags(matcher, shapes, t, constraints, vs[..n]), t.schema, vs[n],
              KeyFor(matcher, shapes, t, vs[n]).Some?)
  }

  function UniqueList(columns: seq<string>): string -> seq<Constraint> {
    v => if SplitList(v) == [] || !NamesExist(columns, SplitList(v)) then []
         else [Constraint("@unique " + v, SplitList(v), "")]
  }

  function TaggedPrimaryKey(names: seq<string>, key: Option<Constraint>, tags: Option<Tags>): Option<Constraint> {
    var v := First(tags, "primaryKey");
    if v != "" && key.None? && NamesExist(names, SplitList(v))
    then Some(Constraint("@primaryKey", SplitList(v), ""))
    else key
  }

  function Gate(p: Privileges, omits: set<string>): Privileges {
    Privileges(p.select, p.insert && "create" !in omits, p.update && "update" !in omits, p.delete && "delete" !in omits)
  }

  // ----- columns

  function ColumnTags(index: ExactMap, schema: string, table: string, c: ColumnData): Option<Tags> {
    Get(index, QualifiedName(schema, table) + "." + c.name)
  }

  /** @nullable is applied after @notNull and so wins. */
  function TagColumn(tags: Option<Tags>, c: ColumnData): ColumnData {
    if Has(tags, "nullable") then c.(notNull := false)
    else if Has(tags, "notNull") then c.(notNull := true)
    else c
  }

  function SyntheticIndex(name: string): Index { Index("@filterable " + name, [name], false, "btree") }

  function IndexList(index: ExactMap, schema: string, table: string): ColumnData -> seq<Index> {
    (c: ColumnData) =>
      var tags := ColumnTags(index, schema, table, c);
      if Has(tags, "filterable") || Has(tags, "sortable") then [SyntheticIndex(c.name)] else []
  }

  function TagColumns(index: ExactMap, schema: string, table: string, columns: seq<ColumnData>): (r: seq<ColumnData>)
    ensures |r| == |columns|
    ensures forall i :: 0 <= i < |r| ==> r[i] == TagColumn(ColumnTags(index, schema, table, columns[i]), columns[i])
  {
    seq(|columns|, i requires 0 <= i < |columns| => TagColumn(ColumnTags(index, schema, table, columns[i]), columns[i]))
  }

  // ----- dropped constraints

  function KeepsUnique(constraints: ExactMap, schema: string): Constraint -> bool {
    (u: Constraint) => !OmitsEverything(Get(constraints, QualifiedName(schema, u.name)))
  }

  function KeepsKey(constraints: ExactMap, schema: string): ForeignKey -> bool {
    (fk: ForeignKey) => !OmitsEverything(Get(constraints, QualifiedName(schema, fk.name)))
  }

  // ----- one table, and the whole catalog

  /** Everything the constraint filters read: introspected and synthesised constraints together. */
  function Synthesised(matcher: Matcher, index: ExactMap, shapes: seq<Shape>, t: TableData,
                       tags: Option<Tags>): TableData {
    t.(privileges := Gate(t.privileges, OmittedActions(tags)),
       primaryKey := TaggedPrimaryKey(ColumnNames(t.columns), t.primaryKey, tags),
       uniques := t.uniques + FlatMap(UniqueList(ColumnNames(t.columns)), All(tags, "unique")),
       foreignKeys := t.foreignKeys + FlatMap(KeyList(matcher, shapes, ShapeOf(t)), All(tags, "foreignKey")),
       columns := TagColumns(index, t.schema, t.name, t.columns),
       indexes := t.indexes + FlatMap(IndexList(index, t.schema, t.name), t.columns))
  }

  function Pruned(constraints: ExactMap, t: TableData): TableData {
    t.(uniques := Filter(KeepsUnique(constraints, t.schema), t.uniques),
       foreignKeys := Filter(KeepsKey(constraints, t.schema), t.foreignKeys))
  }

  function ApplyTags(matcher: Matcher, index: ExactMap, shapes: seq<Shape>, constraints: ExactMap,
                     t: TableData, tags: Option<Tags>): (TableData, ExactMap) {
    var after := AllKeyTags(matcher, shapes, ShapeOf(t), constraints, All(tags, "foreignKey"));
    (Pruned(after, Synthesised(matcher, index, shapes, t, tags)), after)
  }

  function TableTags(index: ExactMap, schema: string, name: string): Option<Tags> {
    Get(index, QualifiedName(schema, name))
  }

  /** Tables are rewritten in order; each may add to the constraint index the later ones read. */
  function ApplyAll(matcher: Matcher, tableIndex: ExactMap, columnIndex: ExactMap, shapes: seq<Shape>,
                    constraints: ExactMap, tables: seq<TableData>): (r: (seq<TableData>, ExactMap))
    ensures |r.0| == |tables|
  {
    if tables == [] then ([], constraints)
    else
      var n := |tables| - 1;
      var (done, before) := ApplyAll(matcher, tableIndex, columnIndex, shapes, constraints, tables[..n]);
      var (t, after) := ApplyTags(matcher, columnIndex, shapes, before, tables[n],
                                  TableTags(tableIndex, tables[n].schema, tables[n].name));
      (done + [t], after)
  }

  function KeepsTable(index: ExactMap): TableData -> bool {
    (t: TableData) => !OmitsEverything(TableTags(index, t.schema, t.name))
  }

  function KeepsFunction(index: ExactMap): Function -> bool {
    (f: Function) => !OmitsEverything(Get(index, QualifiedName(f.schema, f.name)))
  }

  function KeptTables(c: CatalogData): seq<TableData> { Filter(KeepsTable(Exact(TableEntries(c.tables))), c.tables) }

  /** Omitted tables go first, so that no synthesised key can refer to one. */
  function Transform(matcher: Matcher, c: CatalogData): (CatalogData, ExactMap) {
    var kept := KeptTables(c);
    var (tables, constraints) :=
      ApplyAll(matcher, Exact(TableEntries(c.tables)), Exact(ColumnEntries(c.tables)), Shapes(kept),
               Exact(ConstraintEntries(c.tables)), kept);
    (c.(tables := tables, functions := Filter(KeepsFunction(Exact(FunctionEntries(c.functions))), c.functions)),
     constraints)
  }

  // ----- the hook as the program runs it

  function ObjectShape(t: Table): Shape
    reads t`columns
  {
    Shape(t.schema, t.name, ColumnNames(t.columns))
  }

  function ObjectShapes(tables: seq<Table>): (r: seq<Shape>)
    reads tables
    ensures |r| == |tables| && forall i :: 0 <= i < |r| ==> r[i] == ObjectShape(tables[i])
  {
    seq(|tables|, i requires 0 <= i < |tables| reads tables => ObjectShape(tables[i]))
  }

  lemma ShapesOfData(tables: seq<Table>)
    ensures ObjectShapes(tables) == Shapes(TablesData(tables))
  {
  }

  method FindTableObject(tables: seq<Table>, schema: string, name: string) returns (t: Table?)
    ensures match FindShape(ObjectShapes(tables), schema, name)
            case None => t == null
            case Some(shape) => t != null && t in tables && ObjectShape(t) == shape
  {
    ghost var shapes := ObjectShapes(tables);
    for i := 0 to |tables|
      invariant FindShape(shapes, schema, name) == FindShape(shapes[i..], schema, name)
    {
      assert shapes[i..][1..] == shapes[i + 1..];
      if tables[i].schema == schema && tables[i].name == name {
        return tables[i];
      }
    }
    return null;
  }

  method ColumnsExist(t: Table, names: seq<string>) returns (all: bool)
    ensures all <==> NamesExist(ColumnNames(t.columns), names)
  {
    for i := 0 to |names|
      invariant forall k :: 0 <= k < i ==> names[k] in ColumnNames(t.columns)
    {
      var c := t.ColumnIndex(names[i]);
      if c == |t.columns| {
        assert names[i] in names;
        return false;
      }
      assert ColumnNames(t.columns)[c] == names[i];
    }
    return true;
  }

  method ParseSegments(rest: string) returns (tags: Tags)
    ensures tags == SegmentTags(Split(rest, '|'))
  {
    tags := map[];
    var parts := Split(rest, '|');
    for i := 0 to |parts|
      invariant tags == SegmentTags(parts[..i])
    {
      assert parts[..i + 1][..i] == parts[..i];
      var part := StripAt(TrimSpace(parts[i]));
      if part != "" {
        var name, value := Before(part, ' '), TrimSpace(After(part, ' '));
        tags := tags[name := (if name in tags then tags[name] else []) + [value]];
      }
    }
    assert parts[..|parts|] == parts;
  }

  class Hook {
    var idx: TagIndex

    constructor (empty: TagIndex)
      ensures idx == empty
    {
      idx := empty;
    }

    method ParseForeignKey(matcher: Matcher, tables: seq<Table>, t: Table, v: string) returns (fk: Option<ForeignKey>)
      modifies idx`constraints
      ensures fk == KeyFor(matcher, ObjectShapes(tables), ObjectShape(t), v)
      ensures idx.constraints == KeyTags(old(idx.constraints), t.schema, v, fk.Some?)
    {
      hide SplitList, TrimSpace, NamesExist, FindShape, Before, After, SegmentTags, Split;
      var spec, rest := Before(v, '|'), After(v, '|');
      var m := matcher(TrimSpace(spec));
      if m.None? {
        return None;
      }
      var cols, refCols := SplitList(m.value.columns), SplitList(m.value.refColumns);
      var refSchema := if m.value.schema == "" then t.schema else m.value.schema;
      var ref := FindTableObject(tables, refSchema, m.value.table);
      if |cols| == 0 || |cols| != |refCols| {
        return None;
      }
      var local := ColumnsExist(t, cols);
      if !local || ref == null {
        return None;
      }
      var remote := ColumnsExist(ref, refCols);
      if !remote {
        return None;
      }
      var name := "@foreignKey " + spec;
      if rest != "" {
        var tags := ParseSegments(rest);
        idx.constraints := idx.constraints[QualifiedName(t.schema, name) := tags];
      }
      return Some(ForeignKey(name, cols, refSchema, m.value.table, refCols, ""));
    }

    method GatePrivileges(t: Table, tags: Option<Tags>)
      modifies t`privileges
      ensures t.privileges == Gate(old(t.privileges), OmittedActions(tags))
    {
      hide OmittedActions;
      var omits, _ := Omits(tags);
      if "create" in omits {
        t.privileges := t.privileges.(insert := false);
      }
      if "update" in omits {
        t.privileges := t.privileges.(update := false);
      }
      if "delete" in omits {
        t.privileges := t.privileges.(delete := false);
      }
    }

    /** A logical primary key never replaces a real one. */
    method AddPrimaryKey(t: Table, tags: Option<Tags>)
      modifies t`primaryKey
      ensures t.primaryKey == TaggedPrimaryKey(ColumnNames(t.columns), old(t.primaryKey), tags)
    {
      hide SplitList, NamesExist;
      var v := First(tags, "primaryKey");
      if v != "" {
        var cols := SplitList(v);
        var exist := ColumnsExist(t, cols);
        if t.primaryKey.None? && exist {
          t.primaryKey := Some(Constraint("@primaryKey", cols, ""));
        }
      }
    }

    method AddUniques(t: Table, vs: seq<string>)
      modifies t`uniques
      ensures t.uniques == old(t.uniques) + FlatMap(UniqueList(ColumnNames(t.columns)), vs)
    {
      hide SplitList, NamesExist, FlatMap;
      ghost var before, f := t.uniques, UniqueList(ColumnNames(t.columns));
      EmptyFlatMap(f);
      for i := 0 to |vs|
        invariant t.uniques == before + FlatMap(f, vs[..i])
      {
        PrefixFlatMap(f, vs, i);
        var cols := SplitList(vs[i]);
        var exist := ColumnsExist(t, cols);
        if |cols| != 0 && exist {
          t.uniques := t.uniques + [Constraint("@unique " + vs[i], cols, "")];
        }
      }
      assert vs[..|vs|] == vs;
    }

    method AddForeignKeys(matcher: Matcher, tables: seq<Table>, t: Table, vs: seq<string>)
      modifies t`foreignKeys, idx`constraints
      ensures t.foreignKeys
              == old(t.foreignKeys) + FlatMap(KeyList(matcher, old(ObjectShapes(tables)), ObjectShape(t)), vs)
      ensures idx.constraints
              == AllKeyTags(matcher, old(ObjectShapes(tables)), ObjectShape(t), old(idx.constraints), vs)
    {
      hide KeyFor, KeyTags, FlatMap;
      ghost var shapes, shape := ObjectShapes(tables), ObjectShape(t);
      ghost var before, tagsBefore, f := t.foreignKeys, idx.constraints, KeyList(matcher, shapes, shape);
      EmptyFlatMap(f);
      for i := 0 to |vs|
        invariant t.foreignKeys == before + FlatMap(f, vs[..i])
        invariant idx.constraints == AllKeyTags(matcher, shapes, shape, tagsBefore, vs[..i])
      {
        PrefixFlatMap(f, vs, i);
        assert vs[..i + 1][..i] == vs[..i];
        assert ObjectShapes(tables) == shapes;
        var fk := ParseForeignKey(matcher, tables, t, vs[i]);
        if fk.Some? {
          t.foreignKeys := t.foreignKeys + [fk.value];
        }
      }
      assert vs[..|vs|] == vs;
    }

    method TagColumnsOf(t: Table)
      modifies t`columns, t`indexes
      ensures t.columns == TagColumns(idx.columns, t.schema, t.name, old(t.columns))
      ensures t.indexes == old(t.indexes) + FlatMap(IndexList(idx.columns, t.schema, t.name), old(t.columns))
    {
      hide FlatMap, ColumnTags;
      ghost var columns, before, f := t.columns, t.indexes, IndexList(idx.columns, t.schema, t.name);
      EmptyFlatMap(f);
      for i := 0 to |t.columns|
        invariant |t.columns| == |columns| && t.columns[i..] == columns[i..]
        invariant forall k :: 0 <= k < i ==>
          t.columns[k] == TagColumn(ColumnTags(idx.columns, t.schema, t.name, columns[k]), columns[k])
        invariant t.indexes == before + FlatMap(f, columns[..i])
      {
        PrefixFlatMap(f, columns, i);
        assert t.columns[i] == t.columns[i..][0] == columns[i];
        ghost var rest := t.columns[i + 1..];
        assert rest == columns[i + 1..];
        var c := t.columns[i];
        var tags := ColumnTags(idx.columns, t.schema, t.name, c);
        if tags.Some? {
          var notNull := if Has(tags, "notNull") then true else c.notNull;
          notNull := if Has(tags, "nullable") then false else notNull;
          t.columns := t.columns[i := c.(notNull := notNull)];
          assert t.columns[i + 1..] == rest;
          if Has(tags, "filterable") || Has(tags, "sortable") {
            t.indexes := t.indexes + [SyntheticIndex(c.name)];
          }
        }
      }
      assert columns[..|columns|] == columns;
    }

    /** The filter overwrites the list it is reading; so does the next. */
    method PruneUniques(t: Table)
      modifies t`uniques
      ensures t.uniques == Filter(KeepsUnique(idx.constraints, t.schema), old(t.uniques))
    {
      hide Compacting, Filter, OmitsEverything, QualifiedName;
      ghost var uniques, keep := t.uniques, KeepsUnique(idx.constraints, t.schema);
      var kept := 0;
      CompactStart(keep, uniques);
      for i := 0 to |t.uniques|
        invariant Compacting(keep, uniques, t.uniques, i, kept)
      {
        CompactStep(keep, uniques, t.uniques, i, kept);
        var u := t.uniques[i];
        var _, everything := Omits(Get(idx.constraints, QualifiedName(t.schema, u.name)));
        if !everything {
          t.uniques := t.uniques[kept := u];
          kept := kept + 1;
        }
      }
      CompactDone(keep, uniques, t.uniques, kept);
      t.uniques := t.uniques[..kept];
    }

    method PruneKeys(t: Table)
      modifies t`foreignKeys
      ensures t.foreignKeys == Filter(KeepsKey(idx.constraints, t.schema), old(t.foreignKeys))
    {
      hide Compacting, Filter, OmitsEverything, QualifiedName;
      ghost var fks, keep := t.foreignKeys, KeepsKey(idx.constraints, t.schema);
      var kept := 0;
      CompactStart(keep, fks);
      for i := 0 to |t.foreignKeys|
        invariant Compacting(keep, fks, t.foreignKeys, i, kept)
      {
        CompactStep(keep, fks, t.foreignKeys, i, kept);
        var fk := t.foreignKeys[i];
        var _, everything := Omits(Get(idx.constraints, QualifiedName(t.schema, fk.name)));
        if !everything {
          t.foreignKeys := t.foreignKeys[kept := fk];
          kept := kept + 1;
        }
      }
      CompactDone(keep, fks, t.foreignKeys, kept);
      t.foreignKeys := t.foreignKeys[..kept];
    }

    method ApplyTableCatalogTags(matcher: Matcher, tables: seq<Table>, t: Table, tags: Option<Tags>)
      modifies t, idx`constraints
      ensures (t.Data(), idx.constraints)
              == ApplyTags(matcher, idx.columns, old(ObjectShapes(tables)), old(idx.constraints), old(t.Data()), tags)
      ensures ObjectShape(t) == old(ObjectShape(t))
    {
      hide Gate, OmittedActions, TaggedPrimaryKey, FlatMap, UniqueList, KeyList, AllKeyTags, TagColumns, IndexList,
        Filter, KeepsUnique, KeepsKey;
      GatePrivileges(t, tags);
      AddPrimaryKey(t, tags);
      AddUniques(t, All(tags, "unique"));
      assert ObjectShapes(tables) == old(ObjectShapes(tables));
      AddForeignKeys(matcher, tables, t, All(tags, "foreignKey"));
      TaggingKeepsNames(idx.columns, t.schema, t.name, t.columns);
      TagColumnsOf(t);
      PruneUniques(t);
      PruneKeys(t);
    }

    method KeepTables(c: Catalog) returns (tables: seq<Table>)
      ensures tables == Filter(KeepsObject(idx.tables), c.tables)
    {
      hide Filter, OmitsEverything, QualifiedName;
      tables := [];
      EmptyFilter(KeepsObject(idx.tables));
      for i := 0 to |c.tables|
        invariant tables == Filter(KeepsObject(idx.tables), c.tables[..i])
      {
        var t := c.tables[i];
        PrefixFilter(KeepsObject(idx.tables), c.tables, i);
        var _, everything := Omits(Get(idx.tables, QualifiedName(t.schema, t.name)));
        if !everything {
          tables := tables + [t];
        }
      }
      assert c.tables[..|c.tables|] == c.tables;
    }

    /** The filter overwrites the function list it is reading. */
    method PruneFunctions(c: Catalog)
      modifies c`functions
      ensures c.functions == Filter(KeepsFunction(idx.functions), old(c.functions))
    {
      hide Compacting, Filter, OmitsEverything, QualifiedName;
      ghost var functions, keep := c.functions, KeepsFunction(idx.functions);
      var kept := 0;
      CompactStart(keep, functions);
      for i := 0 to |c.functions|
        invariant Compacting(keep, functions, c.functions, i, kept)
      {
        CompactStep(keep, functions, c.functions, i, kept);
        var f := c.functions[i];
        var _, everything := Omits(Get(idx.functions, QualifiedName(f.schema, f.name)));
        if !everything {
          c.functions := c.functions[kept := f];
          kept := kept + 1;
        }
      }
      CompactDone(keep, functions, c.functions, kept);
      c.functions := c.functions[..kept];
    }

    /** Applies the tags of every remaining table, in order. */
    method ApplyAllTags(matcher: Matcher, tables: seq<Table>)
      requires DistinctObjects(tables)
      modifies tables, idx`constraints
      ensures (TablesData(tables), idx.constraints)
              == ApplyAll(matcher, idx.tables, idx.columns, old(ObjectShapes(tables)), old(idx.constraints),
                          old(TablesData(tables)))
    {
      hide ApplyTags, ApplyAll, TableTags;
      ghost var data, shapes, constraints := TablesData(tables), ObjectShapes(tables), idx.constraints;
      ghost var done: seq<TableData> := [];
      ApplyAllStart(matcher, idx.tables, idx.columns, shapes, constraints);
      for i := 0 to |tables|
        invariant |done| == i && ObjectShapes(tables) == shapes
        invariant (done, idx.constraints) == ApplyAll(matcher, idx.tables, idx.columns, shapes, constraints, data[..i])
        invariant forall k :: 0 <= k < i ==> tables[k].Data() == done[k]
        invariant forall k :: i <= k < |tables| ==> tables[k].Data() == data[k]
      {
        var t := tables[i];
        ApplyAllStep(matcher, idx.tables, idx.columns, shapes, constraints, data, i);
        ApplyTableCatalogTags(matcher, tables, t, TableTags(idx.tables, t.schema, t.name));
        done := done + [t.Data()];
        assert ObjectShapes(tables) == shapes;
      }
      assert data[..|data|] == data;
      assert TablesData(tables) == done;
    }

    method TransformCatalog(matcher: Matcher, c: Catalog)
      requires c.Valid()
      modifies this, c, c.tables
      ensures c.Valid() && fresh(idx) && idx.DescribesObjects(old(c.Data()))
      ensures (c.Data(), idx.constraints) == Transform(matcher, old(c.Data()))
    {
      hide ApplyAll, Exact, By, TableEntries, ColumnEntries, ConstraintEntries, EnumEntries, FunctionEntries,
        KeepsFunction, Filter;
      idx := new TagIndex(c.Data());
      RewriteTables(matcher, c);
      PruneFunctions(c);
    }

    method RewriteTables(matcher: Matcher, c: Catalog)
      requires c.Valid()
      modifies idx`constraints, c`tables, c.tables
      ensures c.Valid()
      ensures var kept := Filter(KeepsTable(idx.tables), old(TablesData(c.tables)));
              (TablesData(c.tables), idx.constraints)
              == ApplyAll(matcher, idx.tables, idx.columns, Shapes(kept), old(idx.constraints), kept)
    {
      hide ApplyAll, Filter, KeepsObject, KeepsTable, ShapeOf, ObjectShape;
      var tables := KeepTables(c);
      KeptObjects(idx.tables, c.tables);
      c.tables := tables;
      ShapesOfData(c.tables);
      ApplyAllTags(matcher, c.tables);
    }
  }

  function KeepsObject(index: ExactMap): Table -> bool {
    (t: Table) => !OmitsEverything(TableTags(index, t.schema, t.name))
  }

  lemma ApplyAllStart(matcher: Matcher, tableIndex: ExactMap, columnIndex: ExactMap, shapes: seq<Shape>,
                      constraints: ExactMap)
    ensures ApplyAll(matcher, tableIndex, columnIndex, shapes, constraints, []) == ([], constraints)
  {
  }

  lemma ApplyAllStep(matcher: Matcher, tableIndex: ExactMap, columnIndex: ExactMap, shapes: seq<Shape>,
                     constraints: ExactMap, tables: seq<TableData>, i: nat)
    requires i < |tables|
    ensures tables[..0] == []
    ensures var (done, before) := ApplyAll(matcher, tableIndex, columnIndex, shapes, constraints, tables[..i]);
            var (t, after) := ApplyTags(matcher, columnIndex, shapes, before, tables[i],
                                        TableTags(tableIndex, tables[i].schema, tables[i].name));
            ApplyAll(matcher, tableIndex, columnIndex, shapes, constraints, tables[..i + 1]) == (done + [t], after)
  {
    hide ApplyTags, TableTags;
    assert tables[..i + 1][..i] == tables[..i];
  }

  lemma KeptObjects(index: ExactMap, tables: seq<Table>)
    requires DistinctObjects(tables)
    ensures DistinctObjects(Filter(KeepsObject(index), tables))
    ensures forall i :: 0 <= i < |Filter(KeepsObject(index), tables)| ==>
            Filter(KeepsObject(index), tables)[i] in tables
    ensures TablesData(Filter(KeepsObject(index), tables)) == Filter(KeepsTable(index), TablesData(tables))
  {
    hide KeepsObject, KeepsTable;
    FilteredDistinct(KeepsObject(index), tables);
    KeptData(index, tables);
  }

  lemma KeptData(index: ExactMap, tables: seq<Table>)
    ensures TablesData(Filter(KeepsObject(index), tables)) == Filter(KeepsTable(index), TablesData(tables))
  {
    hide OmitsEverything, TableTags, Filter;
    FilteredData(KeepsObject(index), KeepsTable(index), tables);
  }

  lemma EmptyFilter<T>(keep: T -> bool)
    ensures Filter(keep, []) == []
  {
  }

  lemma PrefixFilter<T>(keep: T -> bool, xs: seq<T>, i: nat)
    requires i < |xs|
    ensures xs[..0] == []
    ensures Filter(keep, xs[..i + 1]) == Filter(keep, xs[..i]) + (if keep(xs[i]) then [xs[i]] else [])
  {
    assert xs[..i + 1] == xs[..i] + [xs[i]];
    FilterSnoc(keep, xs[..i], xs[i]);
  }

  lemma TaggingKeepsNames(index: ExactMap, schema: string, table: string, columns: seq<ColumnData>)
    ensures ColumnNames(TagColumns(index, schema, table, columns)) == ColumnNames(columns)
  {
  }

  lemma EmptyFlatMap<T, U>(f: T -> seq<U>)
    ensures FlatMap(f, []) == []
  {
  }

  lemma PrefixFlatMap<T, U>(f: T -> seq<U>, xs: seq<T>, i: nat)
    requires i < |xs|
    ensures xs[..0] == []
    ensures FlatMap(f, xs[..i + 1]) == FlatMap(f, xs[..i]) + f(xs[i])
  {
    assert xs[..i + 1] == xs[..i] + [xs[i]];
    FlatMapSnoc(f, xs[..i], xs[i]);
  }
}
