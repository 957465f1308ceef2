/**
 * Exactly which keys a transformed catalog gains (smartcomments/catalog/hook.go): what each tag value
 * gives, in terms of the catalog's own tables and columns.
 */
module SynthesisedKeys {
  import opened Sequences
  import opened Strings
  import opened CatalogModel
  import opened SmartTags
  import opened TagIndexing
  import opened SmartComments
  import opened HookGuarantees

  predicate HasColumns(t: TableData, names: seq<string>) {
    forall n :: n in names ==> exists c :: c in t.columns && c.name == n
  }

  lemma HasColumnsIff(t: TableData, names: seq<string>)
    ensures NamesExist(ColumnNames(t.columns), names) <==> HasColumns(t, names)
  {
    forall n
      ensures n in ColumnNames(t.columns) <==> exists c :: c in t.columns && c.name == n
    {
      NameListed(t.columns, n);
    }
  }

  lemma NameListed(columns: seq<ColumnData>, n: string)
    ensures n in ColumnNames(columns) <==> exists c :: c in columns && c.name == n
  {
    if c :| c in columns && c.name == n {
      var k :| 0 <= k < |columns| && columns[k] == c;
      assert ColumnNames(columns)[k] == n;
    }
  }

  // ----- foreign keys

  /** The value is this specification, with or without trailing segments. */
  predicate Specifies(v: string, spec: string) {
    '|' !in spec && (v == spec || (|v| > |spec| && v[..|spec|] == spec && v[|spec|] == '|'))
  }

  lemma SpecificationCut(v: string, spec: string)
    ensures Specifies(v, spec) <==> Before(v, '|') == spec
  {
    if Specifies(v, spec) {
      assert v == spec + v[|spec|..];
      CutAt(spec, v[|spec|..], '|');
    } else if Before(v, '|') == spec {
      CutFound(v, '|');
    }
  }

  lemma {:induction false} CutFound(s: string, sep: char)
    ensures sep !in s[..CutIndex(s, sep)]
    ensures CutIndex(s, sep) < |s| ==> s[CutIndex(s, sep)] == sep
  {
    if s != "" && s[0] != sep {
      CutFound(s[1..], sep);
      assert s[..CutIndex(s, sep)] == [s[0]] + s[1..][..CutIndex(s[1..], sep)];
    }
  }

  /** The first table of that schema and name. */
  predicate FirstNamed(tables: seq<TableData>, schema: string, name: string, j: nat) {
    && j < |tables| && tables[j].schema == schema && tables[j].name == name
    && forall k :: 0 <= k < j ==> !(tables[k].schema == schema && tables[k].name == name)
  }

  lemma {:induction false} ShapeFound(tables: seq<TableData>, schema: string, name: string)
    ensures match FindShape(Shapes(tables), schema, name)
            case None => forall j: nat :: !FirstNamed(tables, schema, name, j)
            case Some(shape) => exists j: nat :: FirstNamed(tables, schema, name, j) && shape == ShapeOf(tables[j])
  {
    if tables != [] {
      assert Shapes(tables)[1..] == Shapes(tables[1..]);
      if tables[0].schema == schema && tables[0].name == name {
        assert FirstNamed(tables, schema, name, 0);
      } else {
        ShapeFound(tables[1..], schema, name);
        forall j: nat
          ensures FirstNamed(tables, schema, name, j) <==> j > 0 && FirstNamed(tables[1..], schema, name, j - 1)
        {
          assert forall k :: 0 < k < |tables| ==> tables[1..][k - 1] == tables[k];
        }
        if FindShape(Shapes(tables[1..]), schema, name).Some? {
          var j: nat :| FirstNamed(tables[1..], schema, name, j)
                        && FindShape(Shapes(tables[1..]), schema, name).value == ShapeOf(tables[1..][j]);
          assert FirstNamed(tables, schema, name, j + 1);
        }
      }
    }
  }

  /** The matched schema, or the table's own where none was written. */
  function SchemaOf(t: TableData, g: Groups): string { if |g.schema| > 0 then g.schema else t.schema }

  /** The lists are non-empty, equally long, and over columns of the table and of the table referred to. */
  ghost predicate Describes(tables: seq<TableData>, t: TableData, g: Groups) {
    && |SplitList(g.columns)| > 0 && |SplitList(g.columns)| == |SplitList(g.refColumns)|
    && HasColumns(t, SplitList(g.columns))
    && exists j: nat :: FirstNamed(tables, SchemaOf(t, g), g.table, j) && HasColumns(tables[j], SplitList(g.refColumns))
  }

  /** The key of a specification: its items in order, the matched table, and no comment. */
  function Key(t: TableData, spec: string, g: Groups): ForeignKey {
    ForeignKey("@foreignKey " + spec, SplitList(g.columns), SchemaOf(t, g), g.table, SplitList(g.refColumns), "")
  }

  lemma ReferenceIff(tables: seq<TableData>, schema: string, name: string, refCols: seq<string>)
    ensures (exists j: nat :: FirstNamed(tables, schema, name, j) && HasColumns(tables[j], refCols)) <==>
            FindShape(Shapes(tables), schema, name).Some?
            && NamesExist(FindShape(Shapes(tables), schema, name).value.columns, refCols)
  {
    hide HasColumns, NamesExist, FindShape;
    ShapeFound(tables, schema, name);
    forall j: nat | j < |tables| { HasColumnsIff(tables[j], refCols); }
    if k: nat :| FirstNamed(tables, schema, name, k) {
      forall j: nat | FirstNamed(tables, schema, name, j)
        ensures j == k
      {
        assert !(j < k) && !(k < j);
      }
    }
  }

  lemma KeyForIff(matcher: Matcher, tables: seq<TableData>, t: TableData, v: string, spec: string)
    requires Specifies(v, spec)
    ensures var g := matcher(TrimSpace(spec));
            KeyFor(matcher, Shapes(tables), ShapeOf(t), v)
            == if g.Some? && Describes(tables, t, g.value) then Some(Key(t, spec, g.value)) else None
  {
    SpecificationCut(v, spec);
    hide Before, TrimSpace, SplitList, HasColumns, NamesExist, FindShape, FirstNamed, Specifies;
    var g := matcher(TrimSpace(spec));
    if g.Some? {
      HasColumnsIff(t, SplitList(g.value.columns));
      ReferenceIff(tables, SchemaOf(t, g.value), g.value.table, SplitList(g.value.refColumns));
    }
  }

  /** The keys the i-th kept table gains, before constraints are filtered. */
  function GainedKeys(matcher: Matcher, c: CatalogData, i: nat): seq<ForeignKey>
    requires i < |KeptTables(c)|
  {
    var n := |KeptTables(c)[i].foreignKeys|;
    if n <= |Unpruned(matcher, c, i).foreignKeys| then Unpruned(matcher, c, i).foreignKeys[n..] else []
  }

  lemma GainedAre(matcher: Matcher, c: CatalogData, i: nat)
    requires i < |KeptTables(c)|
    ensures var t := KeptTables(c)[i];
            && Unpruned(matcher, c, i).foreignKeys == t.foreignKeys + GainedKeys(matcher, c, i)
            && GainedKeys(matcher, c, i) == FlatMap(KeyList(matcher, Shapes(KeptTables(c)), ShapeOf(t)),
                                                    All(TagsIn(c, t), "foreignKey"))
  {
    hide KeptTables, FlatMap, KeyList, UniqueList, IndexList, OmittedActions, TagColumns, TaggedPrimaryKey, TagsIn,
      Shapes;
  }

  /**
   * Exactly which keys a table gains: those its @foreignKey values specify, where everything named
   * exists in the tables that are kept. A value that meets this is never dropped.
   */
  lemma GainedKeysIff(matcher: Matcher, c: CatalogData, i: nat, fk: ForeignKey)
    requires i < |KeptTables(c)|
    ensures var t := KeptTables(c)[i];
            fk in GainedKeys(matcher, c, i) <==>
            exists v, spec :: v in All(TagsIn(c, t), "foreignKey") && Gives(matcher, KeptTables(c), t, v, spec, fk)
  {
    hide KeptTables, TagsIn, Shapes, FlatMap, KeyFor, GainedKeys, Unpruned, Gives;
    var t, shapes := KeptTables(c)[i], Shapes(KeptTables(c));
    GainedAre(matcher, c, i);
    FlatMapMembers(KeyList(matcher, shapes, ShapeOf(t)), All(TagsIn(c, t), "foreignKey"), fk);
    forall v, spec
      ensures Gives(matcher, KeptTables(c), t, v, spec, fk) ==> fk in KeyList(matcher, shapes, ShapeOf(t))(v)
    {
      GivesIff(matcher, KeptTables(c), t, v, spec, fk);
    }
    forall v
      ensures fk in KeyList(matcher, shapes, ShapeOf(t))(v) ==> Gives(matcher, KeptTables(c), t, v, Before(v, '|'), fk)
    {
      GivesIff(matcher, KeptTables(c), t, v, Before(v, '|'), fk);
    }
  }

  /** The value specifies this key, and everything it names exists. */
  ghost predicate Gives(matcher: Matcher, tables: seq<TableData>, t: TableData, v: string, spec: string,
                        fk: ForeignKey)
  {
    Specifies(v, spec) && matcher(TrimSpace(spec)).Some?
    && Describes(tables, t, matcher(TrimSpace(spec)).value) && fk == Key(t, spec, matcher(TrimSpace(spec)).value)
  }

  lemma GivesIff(matcher: Matcher, tables: seq<TableData>, t: TableData, v: string, spec: string, fk: ForeignKey)
    ensures Gives(matcher, tables, t, v, spec, fk) <==>
            Specifies(v, spec) && fk in KeyList(matcher, Shapes(tables), ShapeOf(t))(v)
    ensures Specifies(v, spec) <==> Before(v, '|') == spec
  {
    hide Specifies, Describes, Key, KeyFor, Before, TrimSpace;
    SpecificationCut(v, spec);
    if Specifies(v, spec) {
      KeyForIff(matcher, tables, t, v, spec);
    }
  }

  /** For one value whose groups are given: its key is gained if and only if the groups describe one. */
  lemma ValueGainsIff(matcher: Matcher, c: CatalogData, i: nat, v: string, spec: string, g: Groups)
    requires i < |KeptTables(c)| && v in All(TagsIn(c, KeptTables(c)[i]), "foreignKey")
    requires Specifies(v, spec) && matcher(TrimSpace(spec)) == Some(g)
    ensures Key(KeptTables(c)[i], spec, g) in GainedKeys(matcher, c, i) <==>
            Describes(KeptTables(c), KeptTables(c)[i], g)
  {
    var t, fk := KeptTables(c)[i], Key(KeptTables(c)[i], spec, g);
    forall s, h | Key(t, s, h) == fk
      ensures s == spec
    {
      SameSpecification(t, s, h, spec, g);
    }
    hide KeptTables, TagsIn, GainedKeys, Specifies, Describes, TrimSpace, Key;
    GainedKeysIff(matcher, c, i, fk);
    assert Describes(KeptTables(c), t, g) ==> Gives(matcher, KeptTables(c), t, v, spec, fk);
  }

  lemma SameSpecification(t: TableData, s: string, h: Groups, spec: string, g: Groups)
    requires Key(t, s, h).name == Key(t, spec, g).name
    ensures s == spec
  {
    assert ("@foreignKey " + s)[12..] == s && ("@foreignKey " + spec)[12..] == spec;
  }

  // ----- segments

  /** A value that specifies this key, with this text after the first bar. */
  predicate Carries(v: string, spec: string, rest: string) { v == spec + "|" + rest && '|' !in spec && rest != "" }

  lemma CarriesCut(v: string, spec: string, rest: string)
    requires Carries(v, spec, rest)
    ensures Before(v, '|') == spec && After(v, '|') == rest && Specifies(v, spec)
  {
    assert v == spec + ("|" + rest);
    CutAt(spec, "|" + rest, '|');
  }

  /** The segments of the last value that specifies a key and has any are recorded under the key's name. */
  lemma {:induction false} SegmentsKept(matcher: Matcher, tables: seq<TableData>, t: TableData, vs: seq<string>, k: nat,
                                        spec: string, rest: string)
    requires k < |vs| && Carries(vs[k], spec, rest)
    requires matcher(TrimSpace(spec)).Some? && Describes(tables, t, matcher(TrimSpace(spec)).value)
    requires forall l, r :: k < l < |vs| ==> !Carries(vs[l], spec, r)
    ensures var tags, key := AllKeyTags(matcher, Shapes(tables), ShapeOf(t), map[], vs),
                             QualifiedName(t.schema, "@foreignKey " + spec);
            key in tags && tags[key] == SegmentTags(Split(rest, '|'))
  {
    hide KeyFor, SegmentTags, Split, QualifiedName, Describes, Before, After, TrimSpace, Shapes;
    var n := |vs| - 1;
    if k == n {
      CarriesCut(vs[k], spec, rest);
      KeyForIff(matcher, tables, t, vs[k], spec);
    } else {
      SegmentsKept(matcher, tables, t, vs[..n], k, spec, rest);
      OtherSegments(t.schema, vs[n], spec);
    }
  }

  lemma OtherSegments(schema: string, v: string, spec: string)
    requires forall r :: !Carries(v, spec, r)
    ensures After(v, '|') != "" ==> QualifiedName(schema, KeyName(v)) != QualifiedName(schema, "@foreignKey " + spec)
  {
    hide Carries;
    if After(v, '|') != "" && QualifiedName(schema, KeyName(v)) == QualifiedName(schema, "@foreignKey " + spec) {
      NamesTheKey(schema, v, spec);
    }
  }

  lemma NamesTheKey(schema: string, v: string, spec: string)
    requires After(v, '|') != "" && QualifiedName(schema, KeyName(v)) == QualifiedName(schema, "@foreignKey " + spec)
    ensures Carries(v, spec, After(v, '|'))
  {
    var n := |schema| + 13;
    assert QualifiedName(schema, KeyName(v))[n..] == Before(v, '|');
    assert QualifiedName(schema, "@foreignKey " + spec)[n..] == spec;
    CutFound(v, '|');
    assert v == Before(v, '|') + "|" + After(v, '|');
  }

  /** Printed segments of an accepted value become the tags its key is judged by; a bare @omit among them drops it. */
  lemma SegmentsDecide(matcher: Matcher, c: CatalogData, i: nat, k: nat, spec: string, ps: seq<Piece>)
    requires i < |KeptTables(c)| && k < |All(TagsIn(c, KeptTables(c)[i]), "foreignKey")|
    requires ps != [] && forall j :: 0 <= j < |ps| ==> Segment(ps[j])
    requires var vs := All(TagsIn(c, KeptTables(c)[i]), "foreignKey");
             Carries(vs[k], spec, Join("|", Texts(ps))) && forall l, r :: k < l < |vs| ==> !Carries(vs[l], spec, r)
    requires matcher(TrimSpace(spec)).Some?
    requires Describes(KeptTables(c), KeptTables(c)[i], matcher(TrimSpace(spec)).value)
    ensures forall name :: All(ConstraintTags(matcher, c, i, "@foreignKey " + spec), name) == ValuesOf(ps, name)
    ensures i < |Result(matcher, c).tables|
    ensures Key(KeptTables(c)[i], spec, matcher(TrimSpace(spec)).value) in Result(matcher, c).tables[i].foreignKeys <==>
            "" !in ValuesOf(ps, "omit")
  {
    hide *;
    var t, g := KeptTables(c)[i], matcher(TrimSpace(spec)).value;
    var vs, rest := All(TagsIn(c, t), "foreignKey"), Join("|", Texts(ps));
    SegmentsRecorded(matcher, c, i, k, spec, rest);
    forall name
      ensures All(ConstraintTags(matcher, c, i, "@foreignKey " + spec), name) == ValuesOf(ps, name)
    {
      SegmentsPrinted(ps, name);
    }
    CarriesCut(vs[k], spec, rest);
    ValueGainsIff(matcher, c, i, vs[k], spec, g);
    GainedSurvivesIff(matcher, c, i, Key(t, spec, g));
    KeyNamed(t, spec, g);
    BareOmit(ConstraintTags(matcher, c, i, "@foreignKey " + spec));
  }

  lemma KeyNamed(t: TableData, spec: string, g: Groups)
    ensures Key(t, spec, g).name == "@foreignKey " + spec
  {
  }

  lemma BareOmit(tags: Option<Tags>)
    ensures OmitsEverything(tags) <==> "" in All(tags, "omit")
  {
  }

  /** A gained key survives unless its own tags, segments included, carry a bare @omit. */
  lemma GainedSurvivesIff(matcher: Matcher, c: CatalogData, i: nat, fk: ForeignKey)
    requires i < |KeptTables(c)| && fk in GainedKeys(matcher, c, i)
    ensures i < |Result(matcher, c).tables|
    ensures fk in Result(matcher, c).tables[i].foreignKeys <==> !OmitsEverything(ConstraintTags(matcher, c, i, fk.name))
  {
    hide *;
    GainedAre(matcher, c, i);
    ConstraintKeptIff(matcher, c, i);
  }

  lemma SegmentsRecorded(matcher: Matcher, c: CatalogData, i: nat, k: nat, spec: string, rest: string)
    requires i < |KeptTables(c)| && k < |All(TagsIn(c, KeptTables(c)[i]), "foreignKey")|
    requires var vs := All(TagsIn(c, KeptTables(c)[i]), "foreignKey");
             Carries(vs[k], spec, rest) && forall l, r :: k < l < |vs| ==> !Carries(vs[l], spec, r)
    requires matcher(TrimSpace(spec)).Some?
    requires Describes(KeptTables(c), KeptTables(c)[i], matcher(TrimSpace(spec)).value)
    ensures ConstraintTags(matcher, c, i, "@foreignKey " + spec) == Some(SegmentTags(Split(rest, '|')))
  {
    var kept := KeptTables(c);
    hide KeptTables, TrimSpace, Describes, SegmentTags, Split, AllKeyTags, Exact, TableEntries, Shapes, Carries;
    SegmentsKept(matcher, kept, kept[i], All(TagsIn(c, kept[i]), "foreignKey"), k, spec, rest);
    var prefix := kept[..i + 1];
    assert prefix[|prefix| - 1] == kept[i];
  }

  // ----- unique constraints and the primary key

  function GainedUniques(matcher: Matcher, c: CatalogData, i: nat): seq<Constraint>
    requires i < |KeptTables(c)|
  {
    var n := |KeptTables(c)[i].uniques|;
    if n <= |Unpruned(matcher, c, i).uniques| then Unpruned(matcher, c, i).uniques[n..] else []
  }

  /** Exactly which unique constraints a table gains: one for every @unique value that lists existing columns. */
  lemma GainedUniquesIff(matcher: Matcher, c: CatalogData, i: nat, u: Constraint)
    requires i < |KeptTables(c)|
    ensures var t := KeptTables(c)[i];
            && Unpruned(matcher, c, i).uniques == t.uniques + GainedUniques(matcher, c, i)
            && (u in GainedUniques(matcher, c, i) <==>
                exists v :: v in All(TagsIn(c, t), "unique") && |SplitList(v)| > 0 && HasColumns(t, SplitList(v))
                            && u == Constraint("@unique " + v, SplitList(v), ""))
  {
    hide *;
    var t := KeptTables(c)[i];
    GainedUniquesAre(matcher, c, i);
    FlatMapMembers(UniqueList(ColumnNames(t.columns)), All(TagsIn(c, t), "unique"), u);
    forall v { UniqueListIff(t, v, u); }
  }

  lemma UniqueListIff(t: TableData, v: string, u: Constraint)
    ensures u in UniqueList(ColumnNames(t.columns))(v) <==>
            |SplitList(v)| > 0 && HasColumns(t, SplitList(v)) && u == Constraint("@unique " + v, SplitList(v), "")
  {
    hide SplitList, HasColumns, NamesExist;
    HasColumnsIff(t, SplitList(v));
  }

  lemma GainedUniquesAre(matcher: Matcher, c: CatalogData, i: nat)
    requires i < |KeptTables(c)|
    ensures var t := KeptTables(c)[i];
            && Unpruned(matcher, c, i).uniques == t.uniques + GainedUniques(matcher, c, i)
            && GainedUniques(matcher, c, i)
               == FlatMap(UniqueList(ColumnNames(t.columns)), All(TagsIn(c, t), "unique"))
  {
    hide KeptTables, FlatMap, UniqueList, KeyList, IndexList, OmittedActions, TagColumns, TaggedPrimaryKey, TagsIn,
      Shapes;
  }

  /** The first value that is not empty. */
  predicate Leads(vs: seq<string>, v: string) {
    v != "" && exists k :: 0 <= k < |vs| && vs[k] == v && forall l :: 0 <= l < k ==> vs[l] == ""
  }

  lemma {:induction false} LeadsIff(vs: seq<string>, v: string)
    ensures Leads(vs, v) <==> v != "" && FirstNonEmpty(vs) == v
  {
    if vs != [] {
      LeadsIff(vs[1..], v);
      assert forall k :: 0 < k < |vs| ==> vs[1..][k - 1] == vs[k];
      if vs[0] == "" {
        if k :| 0 <= k < |vs[1..]| && vs[1..][k] == v && forall l :: 0 <= l < k ==> vs[1..][l] == "" {
          assert vs[k + 1] == v && forall l :: 0 <= l < k + 1 ==> vs[l] == "";
        }
      }
    }
  }

  /** The primary key is the table's own, or else lists the items of the first @primaryKey value, if all exist. */
  lemma PrimaryKeyIs(matcher: Matcher, c: CatalogData, i: nat, key: Constraint)
    requires i < |KeptTables(c)|
    ensures i < |Result(matcher, c).tables|
    ensures var t, u := KeptTables(c)[i], Result(matcher, c).tables[i];
            u.primaryKey == Some(key) <==>
            t.primaryKey == Some(key)
            || (t.primaryKey.None?
                && exists v :: Leads(All(TagsIn(c, t), "primaryKey"), v) && HasColumns(t, SplitList(v))
                               && key == Constraint("@primaryKey", SplitList(v), ""))
  {
    hide *;
    var t := KeptTables(c)[i];
    PrimaryKeyKept(matcher, c, i);
    TaggedKeyIff(t, TagsIn(c, t), key);
  }

  lemma PrimaryKeyKept(matcher: Matcher, c: CatalogData, i: nat)
    requires i < |KeptTables(c)|
    ensures i < |Result(matcher, c).tables|
    ensures var t := KeptTables(c)[i];
            Result(matcher, c).tables[i].primaryKey
            == TaggedPrimaryKey(ColumnNames(t.columns), t.primaryKey, TagsIn(c, t))
  {
    hide KeptTables, Result, TagsIn, TaggedPrimaryKey, FlatMap, UniqueList, KeyList, IndexList, OmittedActions,
      TagColumns, Shapes, Filter;
    PrunedTable(matcher, c, i);
  }

  lemma TaggedKeyIff(t: TableData, tags: Option<Tags>, key: Constraint)
    ensures TaggedPrimaryKey(ColumnNames(t.columns), t.primaryKey, tags) == Some(key) <==>
            t.primaryKey == Some(key)
            || (t.primaryKey.None?
                && exists v :: Leads(All(tags, "primaryKey"), v) && HasColumns(t, SplitList(v))
                               && key == Constraint("@primaryKey", SplitList(v), ""))
  {
    hide SplitList, HasColumns, NamesExist, FirstNonEmpty, All, Leads;
    forall v { LeadsIff(All(tags, "primaryKey"), v); }
    LeadsIff(All(tags, "primaryKey"), First(tags, "primaryKey"));
    HasColumnsIff(t, SplitList(First(tags, "primaryKey")));
  }
}
