/**
 * Every cause of drift that the report has no line for (cache/cache.go over introspect/diff.go and
 * the sorts of introspect/catalog.go), on all catalogs.
 */
module DriftCauses {
  import opened Sequences
  import opened Ordering
  import opened CatalogModel
  import opened Diff
  import opened NamedSorts
  import opened Cache

  /** A report is empty although the hashes differ exactly when the catalogs differ and look alike by name. */
  lemma UnexplainedIff(codec: Codec, cs: CatalogData, ls: CatalogData)
    requires codec.Injective()
    ensures Compare(codec, cs, ls).Drift? && Compare(codec, cs, ls).lines == [] <==> cs != ls && SameByName(cs, ls)
  {
    hide CatalogDiff, SameByName;
    DiffEmptyIff(cs, ls);
  }

  /** Some sorted forms of the catalogs look alike: for every name there is an entry both may keep. */
  ghost predicate MayBeSameByName(c: CatalogData, l: CatalogData) {
    && c.serverVersion == l.serverVersion
    && Members(c.schemas) == Members(l.schemas)
    && MayLookAlike(TableName, TableSortKey, c.tables, l.tables)
    && MayLookAlike(EnumName, EnumSortKey, c.enums, l.enums)
    && MayLookAlike(CompositeName, CompositeSortKey, c.composites, l.composites)
    && MayLookAlike(FunctionName, FunctionSortKey, c.functions, l.functions)
  }

  /** What a sorted form looks like by name gives its order away. */
  ghost predicate OrderShows(c: CatalogData) {
    && Pinned(TableName, TableSortKey, c.tables)
    && Pinned(EnumName, EnumSortKey, c.enums)
    && Pinned(CompositeName, CompositeSortKey, c.composites)
    && Pinned(FunctionName, FunctionSortKey, c.functions)
  }

  lemma MembersSorted(xs: seq<string>, s: seq<string>)
    requires SortOf(StringKey, xs, s)
    ensures Members(s) == Members(xs)
  {
    assert forall x :: x in xs <==> x in multiset(xs);
    assert forall x :: x in s <==> x in multiset(s);
  }

  lemma SameFormsMayBeSame(c: CatalogData, cs: CatalogData, l: CatalogData, ls: CatalogData)
    requires CanonicalFormOf(c, cs) && CanonicalFormOf(l, ls) && SameByName(cs, ls)
    ensures MayBeSameByName(c, l)
  {
    hide MapBy, Members, SortOf, MayLookAlike;
    MembersSorted(c.schemas, cs.schemas);
    MembersSorted(l.schemas, ls.schemas);
    AlikeShareLasts(TableName, TableSortKey, c.tables, l.tables, cs.tables, ls.tables);
    AlikeShareLasts(EnumName, EnumSortKey, c.enums, l.enums, cs.enums, ls.enums);
    AlikeShareLasts(CompositeName, CompositeSortKey, c.composites, l.composites, cs.composites, ls.composites);
    AlikeShareLasts(FunctionName, FunctionSortKey, c.functions, l.functions, cs.functions, ls.functions);
  }

  lemma SameForms(c: CatalogData, l: CatalogData) returns (cs: CatalogData, ls: CatalogData)
    requires MayBeSameByName(c, l)
    ensures CanonicalFormOf(c, cs) && CanonicalFormOf(l, ls) && SameByName(cs, ls)
  {
    hide MapBy, Members, SortOf, MayLookAlike;
    cs, ls := Canonical(c), Canonical(l);
    MembersSorted(c.schemas, cs.schemas);
    MembersSorted(l.schemas, ls.schemas);
    var t, t' := FormsAlike(TableName, TableSortKey, c.tables, l.tables);
    var e, e' := FormsAlike(EnumName, EnumSortKey, c.enums, l.enums);
    var p, p' := FormsAlike(CompositeName, CompositeSortKey, c.composites, l.composites);
    var f, f' := FormsAlike(FunctionName, FunctionSortKey, c.functions, l.functions);
    cs := cs.(tables := t, enums := e, composites := p, functions := f);
    ls := ls.(tables := t', enums := e', composites := p', functions := f');
  }

  lemma PinnedCatalogs(c: CatalogData, cs: CatalogData, ls: CatalogData)
    requires OrderShows(c) && CanonicalFormOf(c, cs) && CanonicalFormOf(c, ls) && SameByName(cs, ls)
    ensures cs == ls
  {
    hide MapBy, Members, Pinned;
    SortsAgree(StringKey, c.schemas, cs.schemas, ls.schemas);
    PinnedFormsEqual(TableName, TableSortKey, c.tables, cs.tables, ls.tables);
    PinnedFormsEqual(EnumName, EnumSortKey, c.enums, cs.enums, ls.enums);
    PinnedFormsEqual(CompositeName, CompositeSortKey, c.composites, cs.composites, ls.composites);
    PinnedFormsEqual(FunctionName, FunctionSortKey, c.functions, cs.functions, ls.functions);
  }

  lemma UnseenForms(c: CatalogData) returns (cs: CatalogData, ls: CatalogData)
    requires !OrderShows(c)
    ensures CanonicalFormOf(c, cs) && CanonicalFormOf(c, ls) && SameByName(cs, ls) && cs != ls
  {
    hide MapBy, Members, Pinned, SortOf;
    cs, ls := Canonical(c), Canonical(c);
    if !Pinned(TableName, TableSortKey, c.tables) {
      var s, t := UnpinnedForms(TableName, TableSortKey, c.tables);
      cs, ls := cs.(tables := s), ls.(tables := t);
    } else if !Pinned(EnumName, EnumSortKey, c.enums) {
      var s, t := UnpinnedForms(EnumName, EnumSortKey, c.enums);
      cs, ls := cs.(enums := s), ls.(enums := t);
    } else if !Pinned(CompositeName, CompositeSortKey, c.composites) {
      var s, t := UnpinnedForms(CompositeName, CompositeSortKey, c.composites);
      cs, ls := cs.(composites := s), ls.(composites := t);
    } else {
      var s, t := UnpinnedForms(FunctionName, FunctionSortKey, c.functions);
      cs, ls := cs.(functions := s), ls.(functions := t);
    }
  }

  /**
   * On all catalogs: drift always comes with a line exactly when no sorted forms of the two can look
   * alike by name, or one is a reordering of the other and its looks give its order away.
   */
  lemma AlwaysExplainedIff(codec: Codec, c: CatalogData, l: CatalogData)
    requires codec.Injective()
    ensures AlwaysExplained(codec, c, l) <==> !MayBeSameByName(c, l) || (Reordering(c, l) && OrderShows(c))
  {
    hide Compare, CanonicalFormOf, SameByName, Reordering, MayBeSameByName, OrderShows;
    if !MayBeSameByName(c, l) || (Reordering(c, l) && OrderShows(c)) {
      forall cs, ls | CanonicalFormOf(c, cs) && CanonicalFormOf(l, ls)
        ensures !(Compare(codec, cs, ls).Drift? && Compare(codec, cs, ls).lines == [])
      {
        UnexplainedIff(codec, cs, ls);
        FormsExplained(c, cs, l, ls);
      }
    } else {
      var cs, ls := UnexplainedForms(c, l);
      UnexplainedIff(codec, cs, ls);
    }
  }

  lemma FormsExplained(c: CatalogData, cs: CatalogData, l: CatalogData, ls: CatalogData)
    requires !MayBeSameByName(c, l) || (Reordering(c, l) && OrderShows(c))
    requires CanonicalFormOf(c, cs) && CanonicalFormOf(l, ls)
    ensures SameByName(cs, ls) ==> cs == ls
  {
    hide CanonicalFormOf, SameByName, Reordering, MayBeSameByName, OrderShows;
    if SameByName(cs, ls) {
      SameFormsMayBeSame(c, cs, l, ls);
      CanonicalFormOfReordering(c, l, ls);
      PinnedCatalogs(c, cs, ls);
    }
  }

  lemma UnexplainedForms(c: CatalogData, l: CatalogData) returns (cs: CatalogData, ls: CatalogData)
    requires MayBeSameByName(c, l) && !(Reordering(c, l) && OrderShows(c))
    ensures CanonicalFormOf(c, cs) && CanonicalFormOf(l, ls) && SameByName(cs, ls) && cs != ls
  {
    hide CanonicalFormOf, SameByName, MayBeSameByName, OrderShows;
    if Reordering(c, l) {
      cs, ls := UnseenForms(c);
      CanonicalFormOfReordering(l, c, ls);
    } else {
      cs, ls := SameForms(c, l);
      if cs == ls {
        SharedCanonicalForm(c, l, cs);
      }
    }
  }

  // ----- causes besides ties and versions

  /** An argument type of this name, in this schema. */
  function Taking(typeSchema: string): Function {
    Function("s", "f", [FuncArg("a", "mood", typeSchema)], "int4", "pg_catalog", false, "stable", "")
  }

  function Holding(schemas: seq<string>, functions: seq<Function>): CatalogData {
    CatalogData(CATALOG_FORMAT_VERSION, "16.1", schemas, [], [], [], functions)
  }

  lemma SortedTrivially(schemas: seq<string>, functions: seq<Function>)
    requires forall i :: 0 <= i < |schemas| ==> schemas[i] == "s"
    requires forall i :: 0 <= i < |functions| ==> FunctionSortKey(functions[i]) == Key("s", "f")
    ensures CanonicalFormOf(Holding(schemas, functions), Holding(schemas, functions))
  {
  }

  /**
   * Overloads that differ in the schema of an argument type share the name they are compared by: a
   * cached f(a.mood), f(b.mood) against a live f(b.mood) is drift, and the dropped overload has no line.
   */
  lemma DroppedOverloadUnexplained(codec: Codec)
    requires codec.Injective()
    ensures var cs, ls := Holding(["s"], [Taking("a"), Taking("b")]), Holding(["s"], [Taking("b")]);
            && CanonicalFormOf(cs, cs) && CanonicalFormOf(ls, ls) && !WellKeyed(cs)
            && Compare(codec, cs, ls).Drift? && Compare(codec, cs, ls).lines == []
  {
    var cs, ls := Holding(["s"], [Taking("a"), Taking("b")]), Holding(["s"], [Taking("b")]);
    SortedTrivially(cs.schemas, cs.functions);
    SortedTrivially(ls.schemas, ls.functions);
    hide FunctionName, MapBy, Compare, CanonicalFormOf, Members;
    SameTypeNames();
    LastOfTwo(FunctionName, Taking("a"), Taking("b"));
    NotWellKeyed(cs);
    assert |cs.functions| != |ls.functions|;
    hide WellKeyed;
    UnexplainedIff(codec, cs, ls);
  }

  lemma NotWellKeyed(c: CatalogData)
    requires |c.functions| == 2 && FunctionName(c.functions[0]) == FunctionName(c.functions[1])
    ensures !WellKeyed(c)
  {
  }

  lemma SameTypeNames()
    ensures FunctionName(Taking("a")) == FunctionName(Taking("b"))
  {
    var types := seq(1, i requires 0 <= i < 1 => "mood");
    assert seq(|Taking("a").args|, i requires 0 <= i < |Taking("a").args| => Taking("a").args[i].pgType) == types;
    assert seq(|Taking("b").args|, i requires 0 <= i < |Taking("b").args| => Taking("b").args[i].pgType) == types;
  }

  lemma LastOfTwo<T(!new)>(name: T -> string, x: T, y: T)
    requires name(x) == name(y)
    ensures MapBy(name, [x, y]) == MapBy(name, [y])
  {
    assert [x, y][..1] == [x] && [x][..0] == [] && [y][..0] == [];
  }

  /** A schema configured twice is drift against the same schema configured once, and has no line. */
  lemma RepeatedSchemaUnexplained(codec: Codec)
    requires codec.Injective()
    ensures var cs, ls := Holding(["s", "s"], []), Holding(["s"], []);
            && CanonicalFormOf(cs, cs) && CanonicalFormOf(ls, ls)
            && Compare(codec, cs, ls).Drift? && Compare(codec, cs, ls).lines == []
  {
    var cs, ls := Holding(["s", "s"], []), Holding(["s"], []);
    SortedTrivially(cs.schemas, []);
    SortedTrivially(ls.schemas, []);
    assert Members(cs.schemas) == {"s"} == Members(ls.schemas);
    hide MapBy, Compare, CanonicalFormOf, Members;
    UnexplainedIff(codec, cs, ls);
  }
}
