/** What a reader of a transformed catalog may rely on (smartcomments/catalog/hook.go). */
module HookGuarantees {
  import opened Sequences
  import opened CatalogModel
  import opened SmartTags
  import opened TagIndexing
  import opened SmartComments

  /** u is what the hook made of t, for some state of the constraint index. */
  ghost predicate Outcome(matcher: Matcher, columnIndex: ExactMap, shapes: seq<Shape>, tags: Option<Tags>,
                          t: TableData, u: TableData)
  {
    exists before :: u == ApplyTags(matcher, columnIndex, shapes, before, t, tags).0
  }

  lemma {:induction false} ApplyAllOutcome(matcher: Matcher, tableIndex: ExactMap, columnIndex: ExactMap,
                                           shapes: seq<Shape>, constraints: ExactMap, tables: seq<TableData>, i: nat)
    requires i < |tables|
    ensures Outcome(matcher, columnIndex, shapes, TableTags(tableIndex, tables[i].schema, tables[i].name), tables[i],
                    ApplyAll(matcher, tableIndex, columnIndex, shapes, constraints, tables).0[i])
  {
    hide ApplyTags, TableTags;
    var n := |tables| - 1;
    if i < n {
      ApplyAllOutcome(matcher, tableIndex, columnIndex, shapes, constraints, tables[..n], i);
    } else {
      var before := ApplyAll(matcher, tableIndex, columnIndex, shapes, constraints, tables[..n]).1;
      assert ApplyAll(matcher, tableIndex, columnIndex, shapes, constraints, tables).0[i]
          == ApplyTags(matcher, columnIndex, shapes, before, tables[i],
                       TableTags(tableIndex, tables[i].schema, tables[i].name)).0;
    }
  }

  function TagsIn(c: CatalogData, t: TableData): Option<Tags> {
    TableTags(Exact(TableEntries(c.tables)), t.schema, t.name)
  }

  function Result(matcher: Matcher, c: CatalogData): CatalogData { Transform(matcher, c).0 }

  /** Each kept table appears once, in order, rewritten by its own tags. */
  lemma TablesInOrder(matcher: Matcher, c: CatalogData, i: nat)
    requires i < |KeptTables(c)|
    ensures |Result(matcher, c).tables| == |KeptTables(c)|
    ensures Outcome(matcher, Exact(ColumnEntries(c.tables)), Shapes(KeptTables(c)), TagsIn(c, KeptTables(c)[i]),
                    KeptTables(c)[i], Result(matcher, c).tables[i])
  {
    hide ApplyAll, Exact, TableEntries, ColumnEntries, ConstraintEntries, KeptTables, Outcome;
    ApplyAllOutcome(matcher, Exact(TableEntries(c.tables)), Exact(ColumnEntries(c.tables)), Shapes(KeptTables(c)),
                    Exact(ConstraintEntries(c.tables)), KeptTables(c), i);
  }

  // ----- one table

  lemma Unfold(matcher: Matcher, columnIndex: ExactMap, shapes: seq<Shape>, tags: Option<Tags>,
               t: TableData, u: TableData)
    returns (after: ExactMap)
    requires Outcome(matcher, columnIndex, shapes, tags, t, u)
    ensures u == Pruned(after, Synthesised(matcher, columnIndex, shapes, t, tags))
  {
    hide Pruned, Synthesised, AllKeyTags;
    var before :| u == ApplyTags(matcher, columnIndex, shapes, before, t, tags).0;
    after := ApplyTags(matcher, columnIndex, shapes, before, t, tags).1;
  }

  /** No tag grants a privilege, and exactly the omitted actions are withdrawn. */
  lemma PrivilegesOnlyShrink(matcher: Matcher, columnIndex: ExactMap, shapes: seq<Shape>, tags: Option<Tags>,
                             t: TableData, u: TableData)
    requires Outcome(matcher, columnIndex, shapes, tags, t, u)
    ensures u.privileges.select == t.privileges.select
    ensures u.privileges.insert <==> t.privileges.insert && "create" !in OmittedActions(tags)
    ensures u.privileges.update <==> t.privileges.update && "update" !in OmittedActions(tags)
    ensures u.privileges.delete <==> t.privileges.delete && "delete" !in OmittedActions(tags)
  {
    hide Outcome, OmittedActions, FlatMap, Filter, TagColumns, TaggedPrimaryKey;
    var after := Unfold(matcher, columnIndex, shapes, tags, t, u);
  }

  /** Identity survives, columns change only in nullability, and a real primary key is never replaced. */
  lemma IdentityKept(matcher: Matcher, columnIndex: ExactMap, shapes: seq<Shape>, tags: Option<Tags>,
                     t: TableData, u: TableData)
    requires Outcome(matcher, columnIndex, shapes, tags, t, u)
    ensures ShapeOf(u) == ShapeOf(t) && u.kind == t.kind && u.comment == t.comment && u.rlsEnabled == t.rlsEnabled
    ensures u.columns == TagColumns(columnIndex, t.schema, t.name, t.columns)
    ensures t.primaryKey.Some? ==> u.primaryKey == t.primaryKey
    ensures t.indexes <= u.indexes
  {
    hide Outcome, OmittedActions, FlatMap, Filter, TagColumns;
    var after := Unfold(matcher, columnIndex, shapes, tags, t, u);
    TaggingKeepsNames(columnIndex, t.schema, t.name, t.columns);
  }

  /** @nullable beats @notNull, and an untagged column is left alone. */
  lemma Nullability(matcher: Matcher, columnIndex: ExactMap, shapes: seq<Shape>, tags: Option<Tags>,
                    t: TableData, u: TableData, k: nat)
    requires Outcome(matcher, columnIndex, shapes, tags, t, u) && k < |t.columns|
    ensures |u.columns| == |t.columns|
    ensures var ctags := ColumnTags(columnIndex, t.schema, t.name, t.columns[k]);
            u.columns[k] == t.columns[k].(notNull := !Has(ctags, "nullable")
                                                     && (Has(ctags, "notNull") || t.columns[k].notNull))
  {
    hide Outcome, ColumnTags;
    IdentityKept(matcher, columnIndex, shapes, tags, t, u);
  }

  /** A logical key names existing columns; it has no columns at all exactly when the tag lists none. */
  lemma LogicalPrimaryKey(names: seq<string>, tags: Option<Tags>)
    ensures var v, key := First(tags, "primaryKey"), TaggedPrimaryKey(names, None, tags);
            && (key.Some? ==> NamesExist(names, key.value.columns))
            && (key.Some? && key.value.columns == [] <==> v != "" && SplitList(v) == [])
  {
  }

  /** The separator alone is such a tag, although @unique and @foreignKey reject an empty list. */
  lemma EmptyPrimaryKeyAccepted(names: seq<string>, v: string)
    requires v == ","
    ensures TaggedPrimaryKey(names, None, Some(map["primaryKey" := [v]])) == Some(Constraint("@primaryKey", [], ""))
    ensures UniqueList(names)(v) == []
  {
    assert v[0] == ',' && v[1..] == "";
    assert SplitList(v) == SplitList("") == [];
    assert All(Some(map["primaryKey" := [v]]), "primaryKey") == [v];
  }

  /** Every synthesised unique key is over existing columns and has at least one. */
  lemma SynthesisedUniques(matcher: Matcher, columnIndex: ExactMap, shapes: seq<Shape>, tags: Option<Tags>,
                           t: TableData, u: TableData, key: Constraint)
    requires Outcome(matcher, columnIndex, shapes, tags, t, u) && key in u.uniques
    ensures key in t.uniques || (key.columns != [] && NamesExist(ColumnNames(t.columns), key.columns))
  {
    hide Outcome, OmittedActions, TagColumns, TaggedPrimaryKey, NamesExist, UniqueList, FlatMap, KeyList, IndexList;
    var after := Unfold(matcher, columnIndex, shapes, tags, t, u);
    var names := ColumnNames(t.columns);
    FlatMapMembers(UniqueList(names), All(tags, "unique"), key);
    if key !in t.uniques {
      var v :| v in All(tags, "unique") && key in UniqueList(names)(v);
      UniqueListSound(names, v, key);
    }
  }

  lemma UniqueListSound(names: seq<string>, v: string, key: Constraint)
    requires key in UniqueList(names)(v)
    ensures key.columns != [] && NamesExist(names, key.columns)
  {
    hide SplitList, NamesExist;
  }

  // ----- filterability

  predicate AsksFilter(tags: Option<Tags>) { Has(tags, "filterable") || Has(tags, "sortable") }

  /** Every unique key that was dropped is backed by an index with the same leading column. */
  ghost predicate DropsBacked(t: TableData, u: TableData) {
    forall key, n :: key in t.uniques && key !in u.uniques && n in Leading(key.columns) ==>
      exists x :: x in t.indexes && n in Leading(x.columns)
  }

  /** Filterability is never taken away, except where a dropped unique key was all there was. */
  lemma FilterableOnlyGrows(matcher: Matcher, columnIndex: ExactMap, shapes: seq<Shape>, tags: Option<Tags>,
                            t: TableData, u: TableData)
    requires Outcome(matcher, columnIndex, shapes, tags, t, u)
    ensures LeadingColumns(t) - LeadingColumns(u) <= KeyLeads(t.uniques)
    ensures DropsBacked(t, u) ==> LeadingColumns(t) <= LeadingColumns(u)
  {
    hide OmittedActions, AllKeyTags, Outcome, TagColumns, Filter;
    IdentityKept(matcher, columnIndex, shapes, tags, t, u);
    forall n | n in LeadingColumns(t)
      ensures n in LeadingColumns(u) || n in KeyLeads(t.uniques)
      ensures DropsBacked(t, u) ==> n in LeadingColumns(u)
    {
      if x :| x in t.indexes && n in Leading(x.columns) {
        assert x in u.indexes;
      } else if key :| key in t.uniques && n in Leading(key.columns) {
        assert key in u.uniques ==> n in KeyLeads(u.uniques);
      }
    }
  }

  lemma TaggedColumnsFilterable(matcher: Matcher, columnIndex: ExactMap, shapes: seq<Shape>, tags: Option<Tags>,
                                t: TableData, u: TableData, c: ColumnData)
    requires Outcome(matcher, columnIndex, shapes, tags, t, u) && c in t.columns
    requires AsksFilter(ColumnTags(columnIndex, t.schema, t.name, c))
    ensures c.name in LeadingColumns(u)
  {
    hide Outcome, OmittedActions, Filter, TagColumns, TaggedPrimaryKey, ColumnTags, FlatMap;
    var after := Unfold(matcher, columnIndex, shapes, tags, t, u);
    var x := SyntheticIndex(c.name);
    assert x in IndexList(columnIndex, t.schema, t.name)(c);
    FlatMapMembers(IndexList(columnIndex, t.schema, t.name), t.columns, x);
    assert x in u.indexes && c.name in Leading(x.columns);
  }

  // ----- foreign keys

  /** A usable relation: non-empty lists of equal length, over columns both tables have. */
  ghost predicate SoundKey(tables: seq<TableData>, t: TableData, fk: ForeignKey) {
    && fk.columns != [] && |fk.columns| == |fk.refColumns|
    && NamesExist(ColumnNames(t.columns), fk.columns)
    && exists r :: r in tables && r.schema == fk.refSchema && r.name == fk.refTable
                   && NamesExist(ColumnNames(r.columns), fk.refColumns)
  }

  lemma KeyForIsSound(matcher: Matcher, tables: seq<TableData>, t: TableData, v: string)
    ensures KeyFor(matcher, Shapes(tables), ShapeOf(t), v).Some? ==>
              SoundKey(tables, t, KeyFor(matcher, Shapes(tables), ShapeOf(t), v).value)
  {
    hide SplitList, Strings.TrimSpace, Before, NamesExist;
    var fk := KeyFor(matcher, Shapes(tables), ShapeOf(t), v);
    if fk.Some? {
      var ref := FindShape(Shapes(tables), fk.value.refSchema, fk.value.refTable);
      assert ref.Some?;
      var j :| 0 <= j < |tables| && Shapes(tables)[j] == ref.value;
      assert tables[j] in tables;
    }
  }

  lemma SoundKeyByShape(before: seq<TableData>, after: seq<TableData>, t: TableData, u: TableData, fk: ForeignKey)
    requires Shapes(before) == Shapes(after) && ShapeOf(t) == ShapeOf(u) && SoundKey(before, t, fk)
    ensures SoundKey(after, u, fk)
  {
    var r :| r in before && r.schema == fk.refSchema && r.name == fk.refTable
             && NamesExist(ColumnNames(r.columns), fk.refColumns);
    var j :| 0 <= j < |before| && before[j] == r;
    assert Shapes(after)[j] == ShapeOf(r);
    assert after[j] in after;
  }

  lemma SynthesisedKey(matcher: Matcher, columnIndex: ExactMap, tables: seq<TableData>, tags: Option<Tags>,
                       t: TableData, u: TableData, fk: ForeignKey)
    requires Outcome(matcher, columnIndex, Shapes(tables), tags, t, u) && fk in u.foreignKeys
    ensures fk in t.foreignKeys || SoundKey(tables, t, fk)
  {
    hide Outcome, OmittedActions, TagColumns, TaggedPrimaryKey, KeyFor, SoundKey, KeyList, UniqueList, IndexList,
      FlatMap;
    var after := Unfold(matcher, columnIndex, Shapes(tables), tags, t, u);
    FlatMapMembers(KeyList(matcher, Shapes(tables), ShapeOf(t)), All(tags, "foreignKey"), fk);
    if fk !in t.foreignKeys {
      var v :| v in All(tags, "foreignKey") && fk in KeyList(matcher, Shapes(tables), ShapeOf(t))(v);
      KeyListIsSound(matcher, tables, t, v, fk);
    }
  }

  lemma KeyListIsSound(matcher: Matcher, tables: seq<TableData>, t: TableData, v: string, fk: ForeignKey)
    requires fk in KeyList(matcher, Shapes(tables), ShapeOf(t))(v)
    ensures SoundKey(tables, t, fk)
  {
    hide KeyFor, SoundKey;
    KeyForIsSound(matcher, tables, t, v);
  }

  lemma ShapesKept(matcher: Matcher, c: CatalogData)
    ensures Shapes(Result(matcher, c).tables) == Shapes(KeptTables(c))
  {
    hide Transform, KeptTables, Outcome, ShapeOf;
    var d, kept := Result(matcher, c), KeptTables(c);
    KeptCount(matcher, c);
    forall i | 0 <= i < |kept|
      ensures ShapeOf(d.tables[i]) == ShapeOf(kept[i])
    {
      TablesInOrder(matcher, c, i);
      IdentityKept(matcher, Exact(ColumnEntries(c.tables)), Shapes(kept), TagsIn(c, kept[i]), kept[i], d.tables[i]);
    }
  }

  lemma KeptCount(matcher: Matcher, c: CatalogData)
    ensures |Result(matcher, c).tables| == |KeptTables(c)|
  {
    hide ApplyAll, Exact, TableEntries, ColumnEntries, ConstraintEntries, KeptTables;
  }

  /**
   * Every key in the final catalog was introspected or is sound in the final catalog: its columns
   * exist, and so do the table it refers to and the columns it names there.
   */
  lemma SynthesisedKeysResolve(matcher: Matcher, c: CatalogData, i: nat, fk: ForeignKey)
    requires i < |Result(matcher, c).tables| && fk in Result(matcher, c).tables[i].foreignKeys
    ensures |Result(matcher, c).tables| == |KeptTables(c)|
    ensures fk in KeptTables(c)[i].foreignKeys
            || SoundKey(Result(matcher, c).tables, Result(matcher, c).tables[i], fk)
  {
    hide Transform, KeptTables, Outcome, SoundKey;
    var d, kept := Result(matcher, c), KeptTables(c);
    KeptCount(matcher, c);
    TablesInOrder(matcher, c, i);
    SynthesisedKey(matcher, Exact(ColumnEntries(c.tables)), kept, TagsIn(c, kept[i]), kept[i], d.tables[i], fk);
    if fk !in kept[i].foreignKeys {
      ShapesKept(matcher, c);
      assert Shapes(d.tables)[i] == Shapes(kept)[i];
      SoundKeyByShape(kept, d.tables, kept[i], d.tables[i], fk);
    }
  }

  ghost predicate Refers(t: TableData, fk: ForeignKey) {
    t.schema == fk.refSchema && t.name == fk.refTable && ColumnsNamed(t.columns, fk.refColumns)
  }

  /** Whether a key resolves in the final catalog depends only on whether a table it refers to was kept. */
  lemma ResolvesIffTargetKept(matcher: Matcher, c: CatalogData, fk: ForeignKey)
    ensures Resolves(Result(matcher, c).tables, fk) <==> exists t :: t in KeptTables(c) && Refers(t, fk)
  {
    hide Transform, KeptTables;
    var d, kept := Result(matcher, c), KeptTables(c);
    ShapesKept(matcher, c);
    KeptCount(matcher, c);
    forall i | 0 <= i < |kept|
      ensures Refers(d.tables[i], fk) <==> Refers(kept[i], fk)
    {
      assert Shapes(d.tables)[i] == Shapes(kept)[i];
    }
    if t :| t in kept && Refers(t, fk) {
      var i :| 0 <= i < |kept| && kept[i] == t;
      assert d.tables[i] in d.tables && Refers(d.tables[i], fk);
    }
    if Resolves(d.tables, fk) {
      var u :| u in d.tables && Refers(u, fk);
      var i :| 0 <= i < |kept| && d.tables[i] == u;
      assert kept[i] in kept;
    }
  }

  // ----- what is omitted

  /** Without name clashes the index gives every table its own tags back. */
  lemma OwnTags(c: CatalogData, t: TableData)
    requires t in c.tables
    requires forall u :: u in c.tables && QualifiedName(u.schema, u.name) == QualifiedName(t.schema, t.name) ==> u == t
    ensures TagsIn(c, t) == TagsOf(t.comment)
  {
    hide TagsOf, QualifiedName, Exact;
    var j :| 0 <= j < |c.tables| && c.tables[j] == t;
    SoleOwnerGetsItsTags(TableEntries(c.tables), j);
  }

  /** Then exactly the tables whose own comment carries a bare @omit disappear. */
  lemma OmittedTables(c: CatalogData, t: TableData)
    requires t in c.tables
    requires forall u :: u in c.tables && QualifiedName(u.schema, u.name) == QualifiedName(t.schema, t.name) ==> u == t
    ensures t in KeptTables(c) <==> !OmitsEverything(TagsOf(t.comment))
  {
    hide TagsOf, Exact, TableEntries, OmitsEverything;
    OwnTags(c, t);
    assert KeepsTable(Exact(TableEntries(c.tables)))(t) <==> !OmitsEverything(TagsIn(c, t));
  }

  /** A table goes exactly when the last tagged table of its name carries a bare @omit. */
  lemma TableKeptIff(c: CatalogData, t: TableData)
    requires t in c.tables
    ensures t in KeptTables(c) <==>
            !OmitsEverything(IndexedTags(TableEntries(c.tables), QualifiedName(t.schema, t.name)))
  {
    hide Exact, OmitsEverything, QualifiedName, TableEntries;
    var entries, key := TableEntries(c.tables), QualifiedName(t.schema, t.name);
    ExactMeansLast(entries, key);
    assert KeepsTable(Exact(entries))(t) <==> !OmitsEverything(IndexedTags(entries, key));
  }

  /** Every table is treated as its own comment asks exactly when tables of one qualified name ask for the same. */
  lemma TablesFollowCommentsIff(c: CatalogData)
    ensures NamesakesAgree(OmitsEverything, TableEntries(c.tables)) <==>
            forall i :: 0 <= i < |c.tables| ==>
              (c.tables[i] in KeptTables(c) <==> !OmitsEverything(TagsOf(c.tables[i].comment)))
  {
    assert !OmitsEverything(None);
    hide TagsOf, KeptTables, OmitsEverything, IndexedTags, QualifiedName, NamesakesAgree;
    var entries, kept := TableEntries(c.tables), (t: TableData) => t in KeptTables(c);
    forall i | 0 <= i < |c.tables|
      ensures kept(c.tables[i]) <==> !OmitsEverything(IndexedTags(entries, entries[i].ExactKey()))
    {
      TableKeptIff(c, c.tables[i]);
    }
    ObjectsFollowCommentsIff(OmitsEverything, entries, c.tables, (t: TableData) => t.comment, kept);
  }

  /** A function goes exactly when the last tagged function of its name carries a bare @omit. */
  lemma FunctionKeptIff(matcher: Matcher, c: CatalogData, f: Function)
    requires f in c.functions
    ensures f in Result(matcher, c).functions <==>
            !OmitsEverything(IndexedTags(FunctionEntries(c.functions), QualifiedName(f.schema, f.name)))
  {
    hide ApplyAll, Exact, TableEntries, ColumnEntries, ConstraintEntries, FunctionEntries, KeptTables, OmitsEverything,
      QualifiedName;
    var entries, key := FunctionEntries(c.functions), QualifiedName(f.schema, f.name);
    ExactMeansLast(entries, key);
    assert KeepsFunction(Exact(entries))(f) <==> !OmitsEverything(IndexedTags(entries, key));
  }

  /** Every function is treated as its own comment asks exactly when its overloads ask for the same. */
  lemma FunctionsFollowCommentsIff(matcher: Matcher, c: CatalogData)
    ensures NamesakesAgree(OmitsEverything, FunctionEntries(c.functions)) <==>
            forall i :: 0 <= i < |c.functions| ==>
              (c.functions[i] in Result(matcher, c).functions <==> !OmitsEverything(TagsOf(c.functions[i].comment)))
  {
    assert !OmitsEverything(None);
    var entries, kept := FunctionEntries(c.functions), (f: Function) => f in Result(matcher, c).functions;
    hide TagsOf, Result, OmitsEverything, IndexedTags, QualifiedName, NamesakesAgree, FunctionEntries, Entry.ExactKey;
    forall i | 0 <= i < |c.functions|
      ensures entries[i].comment == c.functions[i].comment
      ensures kept(c.functions[i]) <==> !OmitsEverything(IndexedTags(entries, entries[i].ExactKey()))
    {
      FunctionJudged(matcher, c, i);
    }
    ObjectsFollowCommentsIff(OmitsEverything, entries, c.functions, (f: Function) => f.comment, kept);
  }

  lemma FunctionJudged(matcher: Matcher, c: CatalogData, i: nat)
    requires i < |c.functions|
    ensures var e := FunctionEntries(c.functions)[i];
            && e.comment == c.functions[i].comment
            && (c.functions[i] in Result(matcher, c).functions <==>
                !OmitsEverything(IndexedTags(FunctionEntries(c.functions), e.ExactKey())))
  {
    hide Result, OmitsEverything, IndexedTags, QualifiedName;
    FunctionKeptIff(matcher, c, c.functions[i]);
  }

  /** Without overloads exactly the functions whose own comment carries a bare @omit disappear. */
  lemma OmittedFunctions(matcher: Matcher, c: CatalogData, f: Function)
    requires f in c.functions
    requires forall g :: g in c.functions && QualifiedName(g.schema, g.name) == QualifiedName(f.schema, f.name) ==>
               g == f
    ensures f in Result(matcher, c).functions <==> !OmitsEverything(TagsOf(f.comment))
  {
    hide TagsOf, QualifiedName, Result, OmitsEverything;
    var entries := FunctionEntries(c.functions);
    var j :| 0 <= j < |c.functions| && c.functions[j] == f;
    FunctionKeptIff(matcher, c, f);
    ExactMeansLast(entries, entries[j].ExactKey());
    SoleOwnerGetsItsTags(entries, j);
  }

  /** An untagged overload goes with the one that carries @omit. */
  lemma UntaggedOverloadDropped(matcher: Matcher, c: CatalogData, f: Function, g: Function)
    requires c.functions == [f, g] && f.schema == g.schema && f.name == g.name
    requires f.comment == "@omit" && g.comment == ""
    ensures Result(matcher, c).functions == []
  {
    SampleComments();
    OverloadPair(matcher, c, f, g);
  }

  /** An overload that carries @omit stays when a later one is tagged otherwise. */
  lemma TaggedOverloadSurvives(matcher: Matcher, c: CatalogData, f: Function, g: Function)
    requires c.functions == [f, g] && f.schema == g.schema && f.name == g.name
    requires f.comment == "@omit" && g.comment == "@name total"
    ensures f in Result(matcher, c).functions
  {
    SampleComments();
    OverloadPair(matcher, c, f, g);
  }

  /** Of two overloads the later one decides for both, unless it carries no tags. */
  lemma OverloadPair(matcher: Matcher, c: CatalogData, f: Function, g: Function)
    requires c.functions == [f, g] && f.schema == g.schema && f.name == g.name
    ensures var deciding := if TagsOf(g.comment).Some? then g else f;
            Result(matcher, c).functions == if OmitsEverything(TagsOf(deciding.comment)) then [] else [f, g]
  {
    hide TagsOf, OmitsEverything, QualifiedName;
    var entries, key := FunctionEntries(c.functions), QualifiedName(f.schema, f.name);
    var x, y := entries[0], entries[1];
    assert entries == [x, y];
    hide Result, IndexedTags, FunctionEntries;
    LaterDecides(x, y);
    FunctionKeptIff(matcher, c, f);
    FunctionKeptIff(matcher, c, g);
    PairFiltered(matcher, c, f, g);
  }

  lemma PairFiltered(matcher: Matcher, c: CatalogData, f: Function, g: Function)
    requires c.functions == [f, g]
    requires f in Result(matcher, c).functions <==> g in Result(matcher, c).functions
    ensures Result(matcher, c).functions == if f in Result(matcher, c).functions then [f, g] else []
  {
    hide ApplyAll, Exact, TableEntries, ColumnEntries, ConstraintEntries, FunctionEntries, KeptTables, OmitsEverything,
      QualifiedName;
    var keep := KeepsFunction(Exact(FunctionEntries(c.functions)));
    assert c.functions[1..] == [g] && c.functions[1..][1..] == [];
    assert Filter(keep, [g]) == if keep(g) then [g] else [];
  }

  // ----- which constraints are omitted

  /** The segments recorded with the keys a list of tables synthesises; a later record replaces an earlier one. */
  function Recorded(matcher: Matcher, tableIndex: ExactMap, shapes: seq<Shape>, tables: seq<TableData>): ExactMap {
    if tables == [] then map[]
    else
      var n := |tables| - 1;
      var tags := TableTags(tableIndex, tables[n].schema, tables[n].name);
      Recorded(matcher, tableIndex, shapes, tables[..n])
      + AllKeyTags(matcher, shapes, ShapeOf(tables[n]), map[], All(tags, "foreignKey"))
  }

  lemma {:induction false} SegmentsOnTop(matcher: Matcher, shapes: seq<Shape>, t: Shape, constraints: ExactMap,
                                         vs: seq<string>)
    ensures AllKeyTags(matcher, shapes, t, constraints, vs) == constraints + AllKeyTags(matcher, shapes, t, map[], vs)
  {
    if vs != [] {
      hide KeyFor, SegmentTags, QualifiedName, KeyName, Strings.Split, After;
      SegmentsOnTop(matcher, shapes, t, constraints, vs[..|vs| - 1]);
    }
  }

  lemma {:induction false} RecordsOnTop(matcher: Matcher, tableIndex: ExactMap, columnIndex: ExactMap,
                                        shapes: seq<Shape>, constraints: ExactMap, tables: seq<TableData>)
    ensures ApplyAll(matcher, tableIndex, columnIndex, shapes, constraints, tables).1
            == constraints + Recorded(matcher, tableIndex, shapes, tables)
  {
    if tables == [] {
      assert constraints + map[] == constraints;
    } else {
      hide AllKeyTags, TableTags, ApplyAll, Recorded, ShapeOf, All;
      var n := |tables| - 1;
      var recorded := Recorded(matcher, tableIndex, shapes, tables[..n]);
      var vs := All(TableTags(tableIndex, tables[n].schema, tables[n].name), "foreignKey");
      RecordsOnTop(matcher, tableIndex, columnIndex, shapes, constraints, tables[..n]);
      LastTableRecords(matcher, tableIndex, columnIndex, shapes, constraints, tables);
      SegmentsOnTop(matcher, shapes, ShapeOf(tables[n]), constraints + recorded, vs);
      MergeAssociative(constraints, recorded, AllKeyTags(matcher, shapes, ShapeOf(tables[n]), map[], vs));
    }
  }

  lemma MergeAssociative(a: ExactMap, b: ExactMap, c: ExactMap)
    ensures a + b + c == a + (b + c)
  {
  }

  lemma LastTableRecords(matcher: Matcher, tableIndex: ExactMap, columnIndex: ExactMap, shapes: seq<Shape>,
                         constraints: ExactMap, tables: seq<TableData>)
    requires tables != []
    ensures var n := |tables| - 1;
            var vs := All(TableTags(tableIndex, tables[n].schema, tables[n].name), "foreignKey");
            && ApplyAll(matcher, tableIndex, columnIndex, shapes, constraints, tables).1
               == AllKeyTags(matcher, shapes, ShapeOf(tables[n]),
                             ApplyAll(matcher, tableIndex, columnIndex, shapes, constraints, tables[..n]).1, vs)
            && Recorded(matcher, tableIndex, shapes, tables)
               == Recorded(matcher, tableIndex, shapes, tables[..n])
                  + AllKeyTags(matcher, shapes, ShapeOf(tables[n]), map[], vs)
  {
    hide AllKeyTags, TableTags, Pruned, Synthesised;
  }

  lemma {:induction false} ApplyAllPrunes(matcher: Matcher, tableIndex: ExactMap, columnIndex: ExactMap,
                                          shapes: seq<Shape>, constraints: ExactMap, tables: seq<TableData>, i: nat)
    requires i < |tables|
    ensures ApplyAll(matcher, tableIndex, columnIndex, shapes, constraints, tables).0[i]
            == Pruned(constraints + Recorded(matcher, tableIndex, shapes, tables[..i + 1]),
                      Synthesised(matcher, columnIndex, shapes, tables[i],
                                  TableTags(tableIndex, tables[i].schema, tables[i].name)))
  {
    hide AllKeyTags, TableTags, Pruned, Synthesised, Recorded;
    var n := |tables| - 1;
    if i < n {
      ApplyAllPrunes(matcher, tableIndex, columnIndex, shapes, constraints, tables[..n], i);
      assert tables[..n][..i + 1] == tables[..i + 1];
    } else {
      RecordsOnTop(matcher, tableIndex, columnIndex, shapes, constraints, tables);
      assert tables[..i + 1] == tables;
    }
  }

  /** The segments recorded by the time the i-th kept table is filtered. */
  function RecordedBy(matcher: Matcher, c: CatalogData, i: nat): ExactMap
    requires i < |KeptTables(c)|
  {
    Recorded(matcher, Exact(TableEntries(c.tables)), Shapes(KeptTables(c)), KeptTables(c)[..i + 1])
  }

  /** What the i-th kept table's constraints are judged by: recorded segments before comments. */
  function ConstraintTags(matcher: Matcher, c: CatalogData, i: nat, name: string): Option<Tags>
    requires i < |KeptTables(c)|
  {
    var key := QualifiedName(KeptTables(c)[i].schema, name);
    if key in RecordedBy(matcher, c, i) then Some(RecordedBy(matcher, c, i)[key])
    else IndexedTags(ConstraintEntries(c.tables), key)
  }

  /** The i-th kept table before its constraints are filtered. */
  function Unpruned(matcher: Matcher, c: CatalogData, i: nat): TableData
    requires i < |KeptTables(c)|
  {
    Synthesised(matcher, Exact(ColumnEntries(c.tables)), Shapes(KeptTables(c)), KeptTables(c)[i],
                TagsIn(c, KeptTables(c)[i]))
  }

  lemma PrunedTable(matcher: Matcher, c: CatalogData, i: nat)
    requires i < |KeptTables(c)|
    ensures i < |Result(matcher, c).tables|
    ensures Result(matcher, c).tables[i]
            == Pruned(Exact(ConstraintEntries(c.tables)) + RecordedBy(matcher, c, i), Unpruned(matcher, c, i))
  {
    hide ApplyAll, Exact, TableEntries, ColumnEntries, ConstraintEntries, KeptTables, Synthesised, Pruned, Recorded;
    KeptCount(matcher, c);
    ApplyAllPrunes(matcher, Exact(TableEntries(c.tables)), Exact(ColumnEntries(c.tables)), Shapes(KeptTables(c)),
                   Exact(ConstraintEntries(c.tables)), KeptTables(c), i);
  }

  /**
   * A constraint goes exactly when the last comment of its qualified name, or the segments of a key
   * synthesised under that name since, carry a bare @omit. Namesakes on other tables count.
   */
  lemma ConstraintKeptIff(matcher: Matcher, c: CatalogData, i: nat)
    requires i < |KeptTables(c)|
    ensures i < |Result(matcher, c).tables|
    ensures forall u :: u in Result(matcher, c).tables[i].uniques <==>
              u in Unpruned(matcher, c, i).uniques && !OmitsEverything(ConstraintTags(matcher, c, i, u.name))
    ensures forall fk :: fk in Result(matcher, c).tables[i].foreignKeys <==>
              fk in Unpruned(matcher, c, i).foreignKeys && !OmitsEverything(ConstraintTags(matcher, c, i, fk.name))
  {
    hide Exact, Result, Unpruned, QualifiedName, RecordedBy, KeptTables, ConstraintEntries, OmitsEverything,
      ConstraintTags, Pruned;
    PrunedTable(matcher, c, i);
    var index := Exact(ConstraintEntries(c.tables)) + RecordedBy(matcher, c, i);
    UnprunedSchema(matcher, c, i);
    PrunedMembers(index, Unpruned(matcher, c, i));
    forall name { JudgedBy(matcher, c, i, name); }
  }

  lemma UnprunedSchema(matcher: Matcher, c: CatalogData, i: nat)
    requires i < |KeptTables(c)|
    ensures Unpruned(matcher, c, i).schema == KeptTables(c)[i].schema
  {
  }

  lemma JudgedBy(matcher: Matcher, c: CatalogData, i: nat, name: string)
    requires i < |KeptTables(c)|
    ensures Get(Exact(ConstraintEntries(c.tables)) + RecordedBy(matcher, c, i),
                QualifiedName(KeptTables(c)[i].schema, name))
            == ConstraintTags(matcher, c, i, name)
  {
    hide Exact, QualifiedName, RecordedBy, KeptTables, ConstraintEntries, Filter;
    ExactMeansLast(ConstraintEntries(c.tables), QualifiedName(KeptTables(c)[i].schema, name));
  }

  lemma PrunedMembers(index: ExactMap, t: TableData)
    ensures forall u :: u in Pruned(index, t).uniques <==>
              u in t.uniques && !OmitsEverything(Get(index, QualifiedName(t.schema, u.name)))
    ensures forall fk :: fk in Pruned(index, t).foreignKeys <==>
              fk in t.foreignKeys && !OmitsEverything(Get(index, QualifiedName(t.schema, fk.name)))
  {
    hide OmitsEverything, QualifiedName, Get;
    assert forall u :: KeepsUnique(index, t.schema)(u) <==>
                       !OmitsEverything(Get(index, QualifiedName(t.schema, u.name)));
    assert forall fk :: KeepsKey(index, t.schema)(fk) <==>
                        !OmitsEverything(Get(index, QualifiedName(t.schema, fk.name)));
  }

  lemma ConstraintListed(c: CatalogData, t: TableData, name: string, comment: string)
    requires t in c.tables
    requires (exists u :: u in t.uniques && u.name == name && u.comment == comment)
             || (exists fk :: fk in t.foreignKeys && fk.name == name && fk.comment == comment)
    ensures Entry(t.schema, name, comment) in ConstraintEntries(c.tables)
  {
    var e, entries := Entry(t.schema, name, comment), ConstraintEntriesOf(t);
    if u :| u in t.uniques && u.name == name && u.comment == comment {
      var k :| 0 <= k < |t.uniques| && t.uniques[k] == u;
      assert entries[|t.foreignKeys| + k] == e;
    } else {
      var fk :| fk in t.foreignKeys && fk.name == name && fk.comment == comment;
      var k :| 0 <= k < |t.foreignKeys| && t.foreignKeys[k] == fk;
      assert entries[k] == e;
    }
    FlatMapMembers(ConstraintEntriesOf, c.tables, e);
  }

  /** Where namesakes ask for the same, an introspected constraint is treated as its own comment asks. */
  lemma UniqueFollowsComment(matcher: Matcher, c: CatalogData, i: nat, u: Constraint)
    requires i < |KeptTables(c)| && u in KeptTables(c)[i].uniques
    requires NamesakesAgree(OmitsEverything, ConstraintEntries(c.tables))
    requires QualifiedName(KeptTables(c)[i].schema, u.name) !in RecordedBy(matcher, c, i)
    ensures i < |Result(matcher, c).tables|
    ensures u in Result(matcher, c).tables[i].uniques <==> !OmitsEverything(TagsOf(u.comment))
  {
    assert KeptTables(c)[i] in c.tables;
    UnprunedHolds(matcher, c, i);
    hide KeptTables, Result, Unpruned, RecordedBy, OmitsEverything, TagsOf, ConstraintEntries, NamesakesAgree,
      ConstraintTags, QualifiedName;
    ConstraintKeptIff(matcher, c, i);
    ConstraintListed(c, KeptTables(c)[i], u.name, u.comment);
    JudgedByComment(matcher, c, i, u.name, u.comment);
  }

  lemma KeyFollowsComment(matcher: Matcher, c: CatalogData, i: nat, fk: ForeignKey)
    requires i < |KeptTables(c)| && fk in KeptTables(c)[i].foreignKeys
    requires NamesakesAgree(OmitsEverything, ConstraintEntries(c.tables))
    requires QualifiedName(KeptTables(c)[i].schema, fk.name) !in RecordedBy(matcher, c, i)
    ensures i < |Result(matcher, c).tables|
    ensures fk in Result(matcher, c).tables[i].foreignKeys <==> !OmitsEverything(TagsOf(fk.comment))
  {
    assert KeptTables(c)[i] in c.tables;
    UnprunedHolds(matcher, c, i);
    hide KeptTables, Result, Unpruned, RecordedBy, OmitsEverything, TagsOf, ConstraintEntries, NamesakesAgree,
      ConstraintTags, QualifiedName;
    ConstraintKeptIff(matcher, c, i);
    ConstraintListed(c, KeptTables(c)[i], fk.name, fk.comment);
    JudgedByComment(matcher, c, i, fk.name, fk.comment);
  }

  lemma JudgedByComment(matcher: Matcher, c: CatalogData, i: nat, name: string, comment: string)
    requires i < |KeptTables(c)| && NamesakesAgree(OmitsEverything, ConstraintEntries(c.tables))
    requires Entry(KeptTables(c)[i].schema, name, comment) in ConstraintEntries(c.tables)
    requires QualifiedName(KeptTables(c)[i].schema, name) !in RecordedBy(matcher, c, i)
    ensures OmitsEverything(ConstraintTags(matcher, c, i, name)) <==> OmitsEverything(TagsOf(comment))
  {
    hide KeptTables, RecordedBy, TagsOf, ConstraintEntries, NamesakesAgree, IndexedTags, QualifiedName;
    RequestOfNamesakes(OmitsEverything, ConstraintEntries(c.tables), Entry(KeptTables(c)[i].schema, name, comment));
  }

  lemma UnprunedHolds(matcher: Matcher, c: CatalogData, i: nat)
    requires i < |KeptTables(c)|
    ensures forall u :: u in KeptTables(c)[i].uniques ==> u in Unpruned(matcher, c, i).uniques
    ensures forall fk :: fk in KeptTables(c)[i].foreignKeys ==> fk in Unpruned(matcher, c, i).foreignKeys
  {
    hide KeptTables, FlatMap, OmittedActions, TagColumns, TaggedPrimaryKey;
  }

  /**
   * Foreign-key names need only be unique per table: keys of one name on two tables of a schema stay
   * or go together, whichever of them carries the comment.
   */
  lemma NamesakesShareFate(matcher: Matcher, c: CatalogData, i: nat, j: nat, fk: ForeignKey, gk: ForeignKey)
    requires i < |KeptTables(c)| && fk in KeptTables(c)[i].foreignKeys
    requires j < |KeptTables(c)| && gk in KeptTables(c)[j].foreignKeys
    requires KeptTables(c)[i].schema == KeptTables(c)[j].schema && fk.name == gk.name
    requires var key := QualifiedName(KeptTables(c)[i].schema, fk.name);
             key !in RecordedBy(matcher, c, i) && key !in RecordedBy(matcher, c, j)
    ensures |Result(matcher, c).tables| == |KeptTables(c)|
    ensures fk in Result(matcher, c).tables[i].foreignKeys <==> gk in Result(matcher, c).tables[j].foreignKeys
  {
    UnprunedHolds(matcher, c, i);
    UnprunedHolds(matcher, c, j);
    KeptCount(matcher, c);
    hide KeptTables, Result, Unpruned, RecordedBy, OmitsEverything, IndexedTags, QualifiedName;
    ConstraintKeptIff(matcher, c, i);
    ConstraintKeptIff(matcher, c, j);
  }

  /** Segments are only ever recorded under the names of synthesised keys. */
  lemma {:induction false} RecordedNames(matcher: Matcher, tableIndex: ExactMap, shapes: seq<Shape>,
                                         tables: seq<TableData>, key: string)
    requires key in Recorded(matcher, tableIndex, shapes, tables)
    ensures exists t, v :: t in tables && v in All(TableTags(tableIndex, t.schema, t.name), "foreignKey")
                           && key == QualifiedName(t.schema, KeyName(v))
  {
    hide AllKeyTags, KeyName, QualifiedName;
    var n := |tables| - 1;
    var t := tables[n];
    if key in Recorded(matcher, tableIndex, shapes, tables[..n]) {
      RecordedNames(matcher, tableIndex, shapes, tables[..n], key);
    } else {
      var vs := All(TableTags(tableIndex, t.schema, t.name), "foreignKey");
      var v := RecordedName(matcher, shapes, ShapeOf(t), vs, key);
      assert t in tables;
    }
  }

  lemma {:induction false} RecordedName(matcher: Matcher, shapes: seq<Shape>, t: Shape, vs: seq<string>, key: string)
    returns (v: string)
    requires key in AllKeyTags(matcher, shapes, t, map[], vs)
    ensures v in vs && key == QualifiedName(t.schema, KeyName(v))
  {
    hide KeyFor, SegmentTags, QualifiedName, KeyName, Strings.Split, After;
    var n := |vs| - 1;
    if key in AllKeyTags(matcher, shapes, t, map[], vs[..n]) {
      v := RecordedName(matcher, shapes, t, vs[..n], key);
    } else {
      v := vs[n];
    }
  }

  /** Every introspected constraint of a kept table is treated as its own comment asks. */
  ghost predicate ConstraintsTreatedAsAsked(matcher: Matcher, c: CatalogData) {
    |Result(matcher, c).tables| == |KeptTables(c)|
    && forall i :: 0 <= i < |KeptTables(c)| ==>
         && (forall u :: u in KeptTables(c)[i].uniques ==>
               (u in Result(matcher, c).tables[i].uniques <==> !OmitsEverything(TagsOf(u.comment))))
         && (forall fk :: fk in KeptTables(c)[i].foreignKeys ==>
               (fk in Result(matcher, c).tables[i].foreignKeys <==> !OmitsEverything(TagsOf(fk.comment))))
  }

  /** Each comment asks for what the tags its constraint is judged by ask for. */
  ghost predicate ConstraintsJudgedAlike(matcher: Matcher, c: CatalogData) {
    forall i :: 0 <= i < |KeptTables(c)| ==>
      && (forall u :: u in KeptTables(c)[i].uniques ==>
            (OmitsEverything(ConstraintTags(matcher, c, i, u.name)) <==> OmitsEverything(TagsOf(u.comment))))
      && (forall fk :: fk in KeptTables(c)[i].foreignKeys ==>
            (OmitsEverything(ConstraintTags(matcher, c, i, fk.name)) <==> OmitsEverything(TagsOf(fk.comment))))
  }

  /** Constraints follow their own comments exactly when the last namesake's comment, or segment, asks the same. */
  lemma ConstraintsFollowCommentsIff(matcher: Matcher, c: CatalogData)
    ensures ConstraintsTreatedAsAsked(matcher, c) <==> ConstraintsJudgedAlike(matcher, c)
  {
    KeptCount(matcher, c);
    hide KeptTables, Result, Unpruned, OmitsEverything, TagsOf, ConstraintTags;
    forall i | 0 <= i < |KeptTables(c)|
      ensures forall u :: u in KeptTables(c)[i].uniques ==>
                (u in Result(matcher, c).tables[i].uniques <==> !OmitsEverything(ConstraintTags(matcher, c, i, u.name)))
      ensures forall fk :: fk in KeptTables(c)[i].foreignKeys ==>
                (fk in Result(matcher, c).tables[i].foreignKeys <==>
                 !OmitsEverything(ConstraintTags(matcher, c, i, fk.name)))
    {
      UnprunedHolds(matcher, c, i);
      ConstraintKeptIff(matcher, c, i);
    }
  }

  /** Two tables of one schema, each with one foreign key, both of one name; only the first is commented @omit. */
  ghost predicate NamesakeKeys(c: CatalogData, t: TableData, u: TableData, fk: ForeignKey, gk: ForeignKey) {
    && c.tables == [t, u] && t.schema == u.schema && QualifiedName(t.schema, t.name) != QualifiedName(u.schema, u.name)
    && t.foreignKeys == [fk] && u.foreignKeys == [gk] && t.uniques == [] && u.uniques == []
    && fk.name == gk.name && fk.comment == "@omit" && gk.comment == "" && u.comment == ""
  }

  /** The second key goes too: the comment of its namesake on another table decides. */
  lemma NamesakeKeyDropped(matcher: Matcher, c: CatalogData, t: TableData, u: TableData, fk: ForeignKey, gk: ForeignKey)
    requires NamesakeKeys(c, t, u, fk, gk) && t.comment == ""
    ensures KeptTables(c) == [t, u]
    ensures |Result(matcher, c).tables| == 2 && gk !in Result(matcher, c).tables[1].foreignKeys
  {
    hide *;
    KeptNamesakes(c, t, u, fk, gk);
    KeptCount(matcher, c);
    assert KeptTables(c) == [t, u];
    NamesakeDecides(matcher, c, t, u, fk, gk, 1);
  }

  /** It goes even when the table of the commented key is itself omitted. */
  lemma OmittedTablesCommentDecides(matcher: Matcher, c: CatalogData, t: TableData, u: TableData,
                                    fk: ForeignKey, gk: ForeignKey)
    requires NamesakeKeys(c, t, u, fk, gk) && t.comment == "@omit"
    ensures KeptTables(c) == [u]
    ensures |Result(matcher, c).tables| == 1 && gk !in Result(matcher, c).tables[0].foreignKeys
  {
    hide *;
    KeptNamesakes(c, t, u, fk, gk);
    KeptCount(matcher, c);
    assert KeptTables(c) == [u];
    NamesakeDecides(matcher, c, t, u, fk, gk, 0);
  }

  lemma KeptNamesakes(c: CatalogData, t: TableData, u: TableData, fk: ForeignKey, gk: ForeignKey)
    requires NamesakeKeys(c, t, u, fk, gk) && (t.comment == "" || t.comment == "@omit")
    ensures KeptTables(c) == if t.comment == "@omit" then [u] else [t, u]
    ensures TagsIn(c, u).None? && (t.comment == "" ==> TagsIn(c, t).None?)
  {
    SampleComments();
    assert !OmitsEverything(None);
    hide KeptTables, TagsOf, OmitsEverything, QualifiedName, TagsIn;
    KeptOfTwo(c, t, u);
  }

  lemma KeptOfTwo(c: CatalogData, t: TableData, u: TableData)
    requires c.tables == [t, u] && QualifiedName(t.schema, t.name) != QualifiedName(u.schema, u.name)
    ensures KeptTables(c) == (if OmitsEverything(TagsOf(t.comment)) then [] else [t])
                             + (if OmitsEverything(TagsOf(u.comment)) then [] else [u])
    ensures TagsIn(c, t) == TagsOf(t.comment) && TagsIn(c, u) == TagsOf(u.comment)
  {
    hide TagsOf, QualifiedName, OmitsEverything, TableEntries, Exact, TableTags;
    OwnTags(c, t);
    OwnTags(c, u);
    FilterOfTwo(KeepsTable(Exact(TableEntries(c.tables))), t, u);
  }

  lemma NamesakeDecides(matcher: Matcher, c: CatalogData, t: TableData, u: TableData, fk: ForeignKey, gk: ForeignKey,
                        i: nat)
    requires NamesakeKeys(c, t, u, fk, gk) && i < |KeptTables(c)| && KeptTables(c)[i] == u
    requires forall r :: r in KeptTables(c) ==> TagsIn(c, r).None?
    ensures i < |Result(matcher, c).tables| && gk !in Result(matcher, c).tables[i].foreignKeys
  {
    SampleComments();
    EntriesOfTwo(c, t, u, fk, gk);
    hide KeptTables, Result, Unpruned, RecordedBy, TagsOf, ConstraintEntries, QualifiedName, OmitsEverything,
      IndexedTags;
    NothingRecorded(matcher, c, i, QualifiedName(u.schema, gk.name));
    LaterDecides(Entry(t.schema, fk.name, fk.comment), Entry(u.schema, gk.name, gk.comment));
    ConstraintKeptIff(matcher, c, i);
  }

  lemma EntriesOfTwo(c: CatalogData, t: TableData, u: TableData, fk: ForeignKey, gk: ForeignKey)
    requires NamesakeKeys(c, t, u, fk, gk)
    ensures ConstraintEntries(c.tables) == [Entry(t.schema, fk.name, fk.comment), Entry(u.schema, gk.name, gk.comment)]
  {
    assert c.tables[1..] == [u] && c.tables[1..][1..] == [];
    assert ConstraintEntriesOf(t) == [Entry(t.schema, fk.name, fk.comment)];
    assert ConstraintEntriesOf(u) == [Entry(u.schema, gk.name, gk.comment)];
    assert FlatMap(ConstraintEntriesOf, [u]) == ConstraintEntriesOf(u) + FlatMap(ConstraintEntriesOf, [u][1..]);
  }

  /** Two tables whose dotted names join alike: the comment of one takes both. */
  lemma UntaggedTableDropped(c: CatalogData, t: TableData, u: TableData)
    requires c.tables == [t, u] && t.comment == "@omit" && u.comment == ""
    requires (t.schema, t.name) == ("a", "b.c") && (u.schema, u.name) == ("a.b", "c")
    ensures KeptTables(c) == []
  {
    SampleComments();
    SameJoinedName();
    hide QualifiedName, TagsOf, OmitsEverything, KeptTables;
    UntaggedNamesakeDropped(c, t, u);
  }

  lemma UntaggedNamesakeDropped(c: CatalogData, t: TableData, u: TableData)
    requires c.tables == [t, u] && QualifiedName(t.schema, t.name) == QualifiedName(u.schema, u.name)
    requires OmitsEverything(TagsOf(t.comment)) && TagsOf(u.comment).None?
    ensures KeptTables(c) == []
  {
    assert t in c.tables && u in c.tables;
    var x, y := Entry(t.schema, t.name, t.comment), Entry(u.schema, u.name, u.comment);
    assert TableEntries(c.tables) == [x, y];
    hide TagsOf, QualifiedName, OmitsEverything, KeptTables, IndexedTags, TableEntries;
    LaterDecides(x, y);
    TableKeptIff(c, t);
    TableKeptIff(c, u);
    KeptAreListed(c);
  }

  lemma KeptAreListed(c: CatalogData)
    ensures forall t :: t in KeptTables(c) ==> t in c.tables
    ensures (forall t :: t in c.tables ==> t !in KeptTables(c)) ==> KeptTables(c) == []
  {
    if KeptTables(c) != [] {
      assert KeptTables(c)[0] in KeptTables(c);
    }
  }

  // ----- which columns become filterable

  lemma ColumnTagsAre(c: CatalogData, schema: string, table: string, col: ColumnData)
    ensures ColumnTags(Exact(ColumnEntries(c.tables)), schema, table, col)
            == IndexedTags(ColumnEntries(c.tables), QualifiedName(schema, table + "." + col.name))
  {
    hide Exact, Filter, ColumnEntries;
    assert QualifiedName(schema, table) + "." + col.name == QualifiedName(schema, table + "." + col.name);
    ExactMeansLast(ColumnEntries(c.tables), QualifiedName(schema, table + "." + col.name));
  }

  lemma ColumnListed(c: CatalogData, t: TableData, col: ColumnData)
    requires t in c.tables && col in t.columns
    ensures ColumnEntry(t, col) in ColumnEntries(c.tables)
  {
    var k :| 0 <= k < |t.columns| && t.columns[k] == col;
    assert ColumnEntriesOf(t)[k] == ColumnEntry(t, col);
    FlatMapMembers(ColumnEntriesOf, c.tables, ColumnEntry(t, col));
  }

  /** A column gets its synthetic index exactly when the last comment of its qualified name asks for one. */
  lemma SyntheticIndexIff(matcher: Matcher, columnIndex: ExactMap, shapes: seq<Shape>, tags: Option<Tags>,
                          t: TableData, u: TableData, col: ColumnData)
    requires Outcome(matcher, columnIndex, shapes, tags, t, u) && col in t.columns
    ensures SyntheticIndex(col.name) in u.indexes <==>
            SyntheticIndex(col.name) in t.indexes || AsksFilter(ColumnTags(columnIndex, t.schema, t.name, col))
    ensures SyntheticIndex(col.name) == Index("@filterable " + col.name, [col.name], false, "btree")
  {
    hide Outcome, OmittedActions, Filter, TagColumns, TaggedPrimaryKey, FlatMap, Get, QualifiedName, KeyList,
      UniqueList;
    var after := Unfold(matcher, columnIndex, shapes, tags, t, u);
    FlatMapMembers(IndexList(columnIndex, t.schema, t.name), t.columns, SyntheticIndex(col.name));
  }

  /** With namesakes agreeing, a kept table's column becomes filterable exactly as its own comment asks. */
  lemma ColumnsFollowComments(matcher: Matcher, c: CatalogData, i: nat, col: ColumnData)
    requires i < |KeptTables(c)| && col in KeptTables(c)[i].columns
    requires NamesakesAgree(AsksFilter, ColumnEntries(c.tables))
    ensures i < |Result(matcher, c).tables|
    ensures SyntheticIndex(col.name) in Result(matcher, c).tables[i].indexes <==>
            SyntheticIndex(col.name) in KeptTables(c)[i].indexes || AsksFilter(TagsOf(col.comment))
    ensures AsksFilter(TagsOf(col.comment)) ==> col.name in LeadingColumns(Result(matcher, c).tables[i])
  {
    var t := KeptTables(c)[i];
    assert t in c.tables;
    assert !AsksFilter(None);
    KeptCount(matcher, c);
    hide KeptTables, Result, Outcome, TagsOf, Exact, ColumnEntries, IndexedTags, QualifiedName, AsksFilter,
      NamesakesAgree, ColumnTags, SyntheticIndex, LeadingColumns;
    TablesInOrder(matcher, c, i);
    var u := Result(matcher, c).tables[i];
    SyntheticIndexIff(matcher, Exact(ColumnEntries(c.tables)), Shapes(KeptTables(c)), TagsIn(c, t), t, u, col);
    ColumnTagsAre(c, t.schema, t.name, col);
    ColumnListed(c, t, col);
    RequestOfNamesakes(AsksFilter, ColumnEntries(c.tables), ColumnEntry(t, col));
    IndexedColumnLeads(u, col.name);
  }

  lemma IndexedColumnLeads(u: TableData, name: string)
    ensures SyntheticIndex(name) in u.indexes ==> name in LeadingColumns(u)
  {
    assert name in Leading(SyntheticIndex(name).columns);
  }

  /** Every kept column becomes filterable by its own comment and not otherwise. */
  ghost predicate ColumnsTreatedAsAsked(matcher: Matcher, c: CatalogData) {
    |Result(matcher, c).tables| == |KeptTables(c)|
    && forall i, col :: 0 <= i < |KeptTables(c)| && col in KeptTables(c)[i].columns ==>
         (SyntheticIndex(col.name) in Result(matcher, c).tables[i].indexes <==>
          SyntheticIndex(col.name) in KeptTables(c)[i].indexes || AsksFilter(TagsOf(col.comment)))
  }

  /** Each comment asks for what the last comment of its column's qualified name asks for, unless the index is there. */
  ghost predicate ColumnsJudgedAlike(c: CatalogData) {
    forall i, col :: 0 <= i < |KeptTables(c)| && col in KeptTables(c)[i].columns ==>
      || SyntheticIndex(col.name) in KeptTables(c)[i].indexes
      || (AsksFilter(IndexedTags(ColumnEntries(c.tables), ColumnEntry(KeptTables(c)[i], col).ExactKey())) <==>
          AsksFilter(TagsOf(col.comment)))
  }

  lemma ColumnsFollowCommentsIff(matcher: Matcher, c: CatalogData)
    ensures ColumnsTreatedAsAsked(matcher, c) <==> ColumnsJudgedAlike(c)
  {
    KeptCount(matcher, c);
    hide KeptTables, Result, TagsOf, IndexedTags, AsksFilter, SyntheticIndex, QualifiedName, ColumnEntries;
    forall i, col | 0 <= i < |KeptTables(c)| && col in KeptTables(c)[i].columns
      ensures SyntheticIndex(col.name) in Result(matcher, c).tables[i].indexes <==>
              SyntheticIndex(col.name) in KeptTables(c)[i].indexes
              || AsksFilter(IndexedTags(ColumnEntries(c.tables), ColumnEntry(KeptTables(c)[i], col).ExactKey()))
    {
      ColumnJudged(matcher, c, i, col);
    }
  }

  lemma ColumnJudged(matcher: Matcher, c: CatalogData, i: nat, col: ColumnData)
    requires i < |KeptTables(c)| && col in KeptTables(c)[i].columns
    ensures i < |Result(matcher, c).tables|
    ensures SyntheticIndex(col.name) in Result(matcher, c).tables[i].indexes <==>
            SyntheticIndex(col.name) in KeptTables(c)[i].indexes
            || AsksFilter(IndexedTags(ColumnEntries(c.tables), ColumnEntry(KeptTables(c)[i], col).ExactKey()))
  {
    KeptCount(matcher, c);
    hide KeptTables, Result, Outcome, Exact, ColumnEntries, IndexedTags, QualifiedName, AsksFilter, ColumnTags,
      SyntheticIndex;
    var t := KeptTables(c)[i];
    TablesInOrder(matcher, c, i);
    SyntheticIndexIff(matcher, Exact(ColumnEntries(c.tables)), Shapes(KeptTables(c)), TagsIn(c, t), t,
                      Result(matcher, c).tables[i], col);
    ColumnTagsAre(c, t.schema, t.name, col);
  }

  // ----- referential closure

  lemma SoundKeyResolves(tables: seq<TableData>, t: TableData, fk: ForeignKey)
    requires SoundKey(tables, t, fk)
    ensures Resolves(tables, fk)
  {
    var r :| r in tables && r.schema == fk.refSchema && r.name == fk.refTable
             && NamesExist(ColumnNames(r.columns), fk.refColumns);
    assert forall k :: 0 <= k < |fk.refColumns| ==> fk.refColumns[k] in fk.refColumns;
  }

  /** Every introspected key that is not omitted refers to a table that is kept. */
  ghost predicate LastingKeysReferToKept(matcher: Matcher, c: CatalogData) {
    forall i, fk :: 0 <= i < |KeptTables(c)| && fk in KeptTables(c)[i].foreignKeys
                    && !OmitsEverything(ConstraintTags(matcher, c, i, fk.name)) ==>
      exists t :: t in KeptTables(c) && Refers(t, fk)
  }

  /**
   * The final catalog is referentially closed exactly when, in the catalog given, every key on a kept
   * table refers to a kept table or is itself omitted.
   */
  lemma ClosedIff(matcher: Matcher, c: CatalogData)
    ensures Closed(Result(matcher, c)) <==> LastingKeysReferToKept(matcher, c)
  {
    ClosedBySurvivors(matcher, c);
    KeptCount(matcher, c);
    hide KeptTables, Result, Refers, ConstraintTags, OmitsEverything, Unpruned, Closed;
    forall i | 0 <= i < |KeptTables(c)|
      ensures forall fk :: fk in KeptTables(c)[i].foreignKeys ==>
                (fk in Result(matcher, c).tables[i].foreignKeys <==>
                 !OmitsEverything(ConstraintTags(matcher, c, i, fk.name)))
    {
      UnprunedHolds(matcher, c, i);
      ConstraintKeptIff(matcher, c, i);
    }
  }

  /** Every introspected key the hook left in place refers to a table it kept. */
  ghost predicate SurvivorsReferToKept(matcher: Matcher, c: CatalogData) {
    |Result(matcher, c).tables| == |KeptTables(c)|
    && forall i, fk :: 0 <= i < |KeptTables(c)| && fk in Result(matcher, c).tables[i].foreignKeys
                       && fk in KeptTables(c)[i].foreignKeys ==>
         exists t :: t in KeptTables(c) && Refers(t, fk)
  }

  lemma ClosedBySurvivors(matcher: Matcher, c: CatalogData)
    ensures Closed(Result(matcher, c)) <==> SurvivorsReferToKept(matcher, c)
  {
    KeptCount(matcher, c);
    hide KeptTables, Result, SoundKey, Refers, Resolves;
    var d := Result(matcher, c);
    forall fk
      ensures Resolves(d.tables, fk) <==> exists t :: t in KeptTables(c) && Refers(t, fk)
    {
      ResolvesIffTargetKept(matcher, c, fk);
    }
    forall i, fk | 0 <= i < |d.tables| && fk in d.tables[i].foreignKeys
      ensures fk in KeptTables(c)[i].foreignKeys || Resolves(d.tables, fk)
    {
      SynthesisedKeysResolve(matcher, c, i, fk);
      if SoundKey(d.tables, d.tables[i], fk) {
        SoundKeyResolves(d.tables, d.tables[i], fk);
      }
    }
    if Closed(d) {
      forall i, fk | 0 <= i < |KeptTables(c)| && fk in d.tables[i].foreignKeys && fk in KeptTables(c)[i].foreignKeys
        ensures exists t :: t in KeptTables(c) && Refers(t, fk)
      {
        assert d.tables[i] in d.tables;
        assert Resolves(d.tables, fk);
      }
    }
    if SurvivorsReferToKept(matcher, c) {
      forall t, fk | t in d.tables && fk in t.foreignKeys
        ensures Resolves(d.tables, fk)
      {
        var i :| 0 <= i < |d.tables| && d.tables[i] == t;
      }
    }
  }

  /** A closed catalog that does not stay so: the only target of a key carries a bare @omit. */
  lemma OmittedTargetDangles(matcher: Matcher, c: CatalogData, t: TableData, u: TableData, fk: ForeignKey)
    requires c.tables == [t, u] && QualifiedName(t.schema, t.name) != QualifiedName(u.schema, u.name)
    requires t.comment == "" && u.comment == "@omit"
    requires t.foreignKeys == [fk] && fk.comment == "" && t.uniques == [] && u.foreignKeys == [] && u.uniques == []
    requires Refers(u, fk)
    ensures Closed(c) && !Closed(Result(matcher, c))
  {
    hide QualifiedName, TagsOf, Refers, Result, OmitsEverything, RecordedBy;
    SampleComments();
    assert u in c.tables && t in c.tables;
    assert Resolves(c.tables, fk) by { ReferringResolves(c.tables, u, fk); }
    OnlyFirstKept(matcher, c, t, u);
    var i :| 0 <= i < |KeptTables(c)| && KeptTables(c)[i] == t;
    assert ConstraintEntries(c.tables) == [Entry(t.schema, fk.name, fk.comment)] by { OnlyEntry(c, t, u, fk); }
    hide KeptTables, ConstraintEntries;
    NothingRecorded(matcher, c, i, QualifiedName(t.schema, fk.name));
    KeyFollowsComment(matcher, c, i, fk);
    ClosedBySurvivors(matcher, c);
    if r :| r in KeptTables(c) && Refers(r, fk) {
      TargetsDiffer(t, u, fk);
    }
  }

  lemma ReferringResolves(tables: seq<TableData>, u: TableData, fk: ForeignKey)
    requires u in tables && Refers(u, fk)
    ensures Resolves(tables, fk)
  {
  }

  lemma TargetsDiffer(t: TableData, u: TableData, fk: ForeignKey)
    requires Refers(t, fk) && Refers(u, fk)
    ensures QualifiedName(t.schema, t.name) == QualifiedName(u.schema, u.name)
  {
  }

  lemma OnlyFirstKept(matcher: Matcher, c: CatalogData, t: TableData, u: TableData)
    requires c.tables == [t, u] && QualifiedName(t.schema, t.name) != QualifiedName(u.schema, u.name)
    requires TagsOf(t.comment).None? && OmitsEverything(TagsOf(u.comment))
    ensures t in KeptTables(c) && (forall r :: r in KeptTables(c) ==> r == t)
    ensures TagsIn(c, t).None?
  {
    OmittedTables(c, t);
    OmittedTables(c, u);
    OwnTags(c, t);
  }

  lemma OnlyEntry(c: CatalogData, t: TableData, u: TableData, fk: ForeignKey)
    requires c.tables == [t, u] && t.foreignKeys == [fk] && t.uniques == [] && u.foreignKeys == [] && u.uniques == []
    ensures ConstraintEntries(c.tables) == [Entry(t.schema, fk.name, fk.comment)]
  {
    assert c.tables[1..] == [u] && c.tables[1..][1..] == [];
    assert ConstraintEntriesOf(t) == [Entry(t.schema, fk.name, fk.comment)] && ConstraintEntriesOf(u) == [];
    assert FlatMap(ConstraintEntriesOf, [u]) == [] + FlatMap(ConstraintEntriesOf, [u][1..]);
  }

  lemma NothingRecorded(matcher: Matcher, c: CatalogData, i: nat, key: string)
    requires i < |KeptTables(c)| && forall r :: r in KeptTables(c) ==> TagsIn(c, r).None?
    ensures key !in RecordedBy(matcher, c, i)
  {
    hide KeptTables, Recorded, Exact, TableEntries, KeyName, QualifiedName, Shapes;
    var tables := KeptTables(c)[..i + 1];
    forall r | r in tables
      ensures All(TableTags(Exact(TableEntries(c.tables)), r.schema, r.name), "foreignKey") == []
    {
      assert r in KeptTables(c) && TagsIn(c, r).None?;
    }
    if key in RecordedBy(matcher, c, i) {
      RecordedNames(matcher, Exact(TableEntries(c.tables)), Shapes(KeptTables(c)), tables, key);
    }
  }

  // ----- the whole catalog

  /** However tags are combined, no kept table gains a privilege, loses its key or its identity. */
  lemma TransformIsMonotone(matcher: Matcher, c: CatalogData, i: nat)
    requires i < |KeptTables(c)|
    ensures |Result(matcher, c).tables| == |KeptTables(c)|
    ensures var t, u := KeptTables(c)[i], Result(matcher, c).tables[i];
            && ShapeOf(u) == ShapeOf(t)
            && u.privileges == Gate(t.privileges, OmittedActions(TagsIn(c, t)))
            && (u.privileges.select <==> t.privileges.select) && (u.privileges.insert ==> t.privileges.insert)
            && (u.privileges.update ==> t.privileges.update) && (u.privileges.delete ==> t.privileges.delete)
            && (t.primaryKey.Some? ==> u.primaryKey == t.primaryKey)
            && (DropsBacked(t, u) ==> LeadingColumns(t) <= LeadingColumns(u))
  {
    hide Transform, KeptTables, Outcome, ShapeOf, LeadingColumns, DropsBacked, OmittedActions;
    var columnIndex, shapes, tags := Exact(ColumnEntries(c.tables)), Shapes(KeptTables(c)), TagsIn(c, KeptTables(c)[i]);
    KeptCount(matcher, c);
    TablesInOrder(matcher, c, i);
    var t, u := KeptTables(c)[i], Result(matcher, c).tables[i];
    PrivilegesOnlyShrink(matcher, columnIndex, shapes, tags, t, u);
    IdentityKept(matcher, columnIndex, shapes, tags, t, u);
    FilterableOnlyGrows(matcher, columnIndex, shapes, tags, t, u);
  }
}
