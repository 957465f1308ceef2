/**
 * The index of smart tags (smartcomments/catalog/index.go): one map per kind keyed by
 * schema-qualified name, and one keyed by bare name that goes blank on ambiguous names.
 */
module TagIndexing {
  import opened Sequences
  import opened CatalogModel
  import opened SmartTags

  /** A commented object: where it is, the name it goes by within its schema, and its comment. */
  datatype Entry = Entry(schema: string, byKey: string, comment: string) {
    function ExactKey(): string { QualifiedName(schema, byKey) }
    predicate Tagged() { TagsOf(comment).Some? }
  }

  type ExactMap = map<string, Tags>

  /** An ambiguous name maps to None, the source's nil. */
  type ByMap = map<string, Option<Tags>>

  // ----- the objects of a catalog, in the order they are visited

  function TableEntries(tables: seq<TableData>): seq<Entry> {
    seq(|tables|, i requires 0 <= i < |tables| => Entry(tables[i].schema, tables[i].name, tables[i].comment))
  }

  function ColumnEntry(t: TableData, c: ColumnData): Entry { Entry(t.schema, t.name + "." + c.name, c.comment) }

  function ColumnEntriesOf(t: TableData): seq<Entry> {
    seq(|t.columns|, i requires 0 <= i < |t.columns| => ColumnEntry(t, t.columns[i]))
  }

  function ColumnEntries(tables: seq<TableData>): seq<Entry> { FlatMap(ColumnEntriesOf, tables) }

  /** Foreign keys first, then unique constraints. */
  function ConstraintEntriesOf(t: TableData): seq<Entry> {
    seq(|t.foreignKeys|, i requires 0 <= i < |t.foreignKeys| =>
      Entry(t.schema, t.foreignKeys[i].name, t.foreignKeys[i].comment))
    + seq(|t.uniques|, i requires 0 <= i < |t.uniques| => Entry(t.schema, t.uniques[i].name, t.uniques[i].comment))
  }

  function ConstraintEntries(tables: seq<TableData>): seq<Entry> { FlatMap(ConstraintEntriesOf, tables) }

  function EnumEntries(enums: seq<Enum>): seq<Entry> {
    seq(|enums|, i requires 0 <= i < |enums| => Entry(enums[i].schema, enums[i].name, enums[i].comment))
  }

  function FunctionEntries(fs: seq<Function>): seq<Entry> {
    seq(|fs|, i requires 0 <= i < |fs| => Entry(fs[i].schema, fs[i].name, fs[i].comment))
  }

  // ----- indexing a list of entries

  function AddExact(m: ExactMap, e: Entry): ExactMap {
    if e.Tagged() then m[e.ExactKey() := TagsOf(e.comment).value] else m
  }

  function AddBy(m: ByMap, e: Entry): ByMap {
    if !e.Tagged() then m
    else m[e.byKey := if e.byKey in m then None else TagsOf(e.comment)]
  }

  function Exact(entries: seq<Entry>): ExactMap {
    if entries == [] then map[] else AddExact(Exact(entries[..|entries| - 1]), entries[|entries| - 1])
  }

  function By(entries: seq<Entry>): ByMap {
    if entries == [] then map[] else AddBy(By(entries[..|entries| - 1]), entries[|entries| - 1])
  }

  lemma ExactSnoc(entries: seq<Entry>, e: Entry)
    ensures Exact(entries + [e]) == AddExact(Exact(entries), e)
  {
    assert (entries + [e])[..|entries|] == entries;
  }

  lemma BySnoc(entries: seq<Entry>, e: Entry)
    ensures By(entries + [e]) == AddBy(By(entries), e)
  {
    assert (entries + [e])[..|entries|] == entries;
  }

  /** The shared step of the source's index closure. */
  method IndexEntry(exact: ExactMap, bare: ByMap, e: Entry) returns (exact': ExactMap, bare': ByMap)
    ensures exact' == AddExact(exact, e) && bare' == AddBy(bare, e)
  {
    hide TagsOf, QualifiedName;
    exact', bare' := exact, bare;
    var tags, _ := Parse(e.comment);
    if tags.None? {
      return;
    }
    exact' := exact'[QualifiedName(e.schema, e.byKey) := tags.value];
    if e.byKey in bare' {
      bare' := bare'[e.byKey := None];
    } else {
      bare' := bare'[e.byKey := tags];
    }
  }

  method IndexEntries(exact: ExactMap, bare: ByMap, ghost before: seq<Entry>, entries: seq<Entry>)
    returns (exact': ExactMap, bare': ByMap)
    requires exact == Exact(before) && bare == By(before)
    ensures exact' == Exact(before + entries) && bare' == By(before + entries)
  {
    hide Exact, By, AddExact, AddBy;
    exact', bare' := exact, bare;
    assert before + entries[..0] == before;
    for i := 0 to |entries|
      invariant exact' == Exact(before + entries[..i]) && bare' == By(before + entries[..i])
    {
      exact', bare' := IndexEntry(exact', bare', entries[i]);
      ExactSnoc(before + entries[..i], entries[i]);
      BySnoc(before + entries[..i], entries[i]);
      assert before + entries[..i] + [entries[i]] == before + entries[..i + 1];
    }
    assert entries[..|entries|] == entries;
  }

  /** Constraints have no bare-name map. */
  method IndexConstraints(exact: ExactMap, ghost before: seq<Entry>, entries: seq<Entry>) returns (exact': ExactMap)
    requires exact == Exact(before)
    ensures exact' == Exact(before + entries)
  {
    hide Exact, TagsOf, QualifiedName;
    exact' := exact;
    assert before + entries[..0] == before;
    for i := 0 to |entries|
      invariant exact' == Exact(before + entries[..i])
    {
      var tags, _ := Parse(entries[i].comment);
      if tags.Some? {
        exact' := exact'[entries[i].ExactKey() := tags.value];
      }
      assert exact' == AddExact(Exact(before + entries[..i]), entries[i]);
      ExactSnoc(before + entries[..i], entries[i]);
      assert before + entries[..i] + [entries[i]] == before + entries[..i + 1];
    }
    assert entries[..|entries|] == entries;
  }

  class TagIndex {
    var tables: ExactMap
    var tablesBy: ByMap
    var columns: ExactMap
    var columnsBy: ByMap
    var enums: ExactMap
    var enumsBy: ByMap
    var functions: ExactMap
    var functionsBy: ByMap
    var constraints: ExactMap

    /** Every map but that of the constraints, to which synthesised keys are added later. */
    predicate DescribesObjects(c: CatalogData)
      reads this
    {
      && tables == Exact(TableEntries(c.tables)) && tablesBy == By(TableEntries(c.tables))
      && columns == Exact(ColumnEntries(c.tables)) && columnsBy == By(ColumnEntries(c.tables))
      && enums == Exact(EnumEntries(c.enums)) && enumsBy == By(EnumEntries(c.enums))
      && functions == Exact(FunctionEntries(c.functions)) && functionsBy == By(FunctionEntries(c.functions))
    }

    /** The index of a freshly indexed catalog. */
    predicate Describes(c: CatalogData)
      reads this
    {
      DescribesObjects(c) && constraints == Exact(ConstraintEntries(c.tables))
    }

    constructor (c: CatalogData)
      ensures Describes(c)
    {
      tables, tablesBy, columns, columnsBy, constraints := map[], map[], map[], map[], map[];
      enums, enumsBy, functions, functionsBy := map[], map[], map[], map[];
      new;
      hide *;
      EmptyIndex();
      IndexTables(c.tables);
      IndexEnums(c.enums);
      IndexFunctions(c.functions);
      Described(c);
    }

    /** Each map was filled from its own objects. */
    lemma Described(c: CatalogData)
      requires tables == Exact(TableEntries(c.tables)) && tablesBy == By(TableEntries(c.tables))
      requires columns == Exact(ColumnEntries(c.tables)) && columnsBy == By(ColumnEntries(c.tables))
      requires enums == Exact(EnumEntries(c.enums)) && enumsBy == By(EnumEntries(c.enums))
      requires functions == Exact(FunctionEntries(c.functions)) && functionsBy == By(FunctionEntries(c.functions))
      requires constraints == Exact(ConstraintEntries(c.tables))
      ensures Describes(c)
    {
      hide Exact, By, TableEntries, ColumnEntries, ConstraintEntries, EnumEntries, FunctionEntries;
    }

    method IndexEnums(es: seq<Enum>)
      requires enums == Exact([]) && enumsBy == By([])
      modifies this`enums, this`enumsBy
      ensures enums == Exact(EnumEntries(es)) && enumsBy == By(EnumEntries(es))
    {
      hide Exact, By, EnumEntries;
      enums, enumsBy := IndexEntries(enums, enumsBy, [], EnumEntries(es));
      assert [] + EnumEntries(es) == EnumEntries(es);
    }

    method IndexFunctions(fs: seq<Function>)
      requires functions == Exact([]) && functionsBy == By([])
      modifies this`functions, this`functionsBy
      ensures functions == Exact(FunctionEntries(fs)) && functionsBy == By(FunctionEntries(fs))
    {
      hide Exact, By, FunctionEntries;
      functions, functionsBy := IndexEntries(functions, functionsBy, [], FunctionEntries(fs));
      assert [] + FunctionEntries(fs) == FunctionEntries(fs);
    }

    method IndexTables(ts: seq<TableData>)
      requires tables == Exact([]) && tablesBy == By([]) && columns == Exact([]) && columnsBy == By([])
      requires constraints == Exact([])
      modifies this`tables, this`tablesBy, this`columns, this`columnsBy, this`constraints
      ensures tables == Exact(TableEntries(ts)) && tablesBy == By(TableEntries(ts))
      ensures columns == Exact(ColumnEntries(ts)) && columnsBy == By(ColumnEntries(ts))
      ensures constraints == Exact(ConstraintEntries(ts))
    {
      EmptyIndex();
      hide Exact, By, TableEntries, ColumnEntries, ConstraintEntries;
      for i := 0 to |ts|
        invariant tables == Exact(TableEntries(ts[..i])) && tablesBy == By(TableEntries(ts[..i]))
        invariant columns == Exact(ColumnEntries(ts[..i])) && columnsBy == By(ColumnEntries(ts[..i]))
        invariant constraints == Exact(ConstraintEntries(ts[..i]))
      {
        AddTable(ts[..i], ts[i]);
        assert ts[..i + 1] == ts[..i] + [ts[i]];
      }
      assert ts[..|ts|] == ts;
    }

    method AddTable(ghost before: seq<TableData>, t: TableData)
      requires tables == Exact(TableEntries(before)) && tablesBy == By(TableEntries(before))
      requires columns == Exact(ColumnEntries(before)) && columnsBy == By(ColumnEntries(before))
      requires constraints == Exact(ConstraintEntries(before))
      modifies this`tables, this`tablesBy, this`columns, this`columnsBy, this`constraints
      ensures tables == Exact(TableEntries(before + [t])) && tablesBy == By(TableEntries(before + [t]))
      ensures columns == Exact(ColumnEntries(before + [t])) && columnsBy == By(ColumnEntries(before + [t]))
      ensures constraints == Exact(ConstraintEntries(before + [t]))
    {
      tables, tablesBy := IndexEntry(tables, tablesBy, Entry(t.schema, t.name, t.comment));
      TableEntriesSnoc(before, t);
      columns, columnsBy := IndexEntries(columns, columnsBy, ColumnEntries(before), ColumnEntriesOf(t));
      FlatMapSnoc(ColumnEntriesOf, before, t);
      constraints := IndexConstraints(constraints, ConstraintEntries(before), ConstraintEntriesOf(t));
      FlatMapSnoc(ConstraintEntriesOf, before, t);
    }
  }

  lemma EmptyIndex()
    ensures Exact([]) == map[] && By([]) == map[]
    ensures TableEntries([]) == [] && ColumnEntries([]) == [] && ConstraintEntries([]) == []
  {
  }

  lemma TableEntriesSnoc(before: seq<TableData>, t: TableData)
    ensures var e := Entry(t.schema, t.name, t.comment);
            && Exact(TableEntries(before + [t])) == AddExact(Exact(TableEntries(before)), e)
            && By(TableEntries(before + [t])) == AddBy(By(TableEntries(before)), e)
  {
    var e := Entry(t.schema, t.name, t.comment);
    assert TableEntries(before + [t]) == TableEntries(before) + [e];
    ExactSnoc(TableEntries(before), e);
    BySnoc(TableEntries(before), e);
  }

  /** Schema-qualified when the caller knows the schema, bare otherwise. */
  function Lookup(exact: ExactMap, bare: ByMap, schema: string, name: string): Option<Tags> {
    if schema != "" then
      if QualifiedName(schema, name) in exact then Some(exact[QualifiedName(schema, name)]) else None
    else if name in bare then bare[name] else None
  }

  // ----- what a lookup means

  function TaggedAs(name: string): Entry -> bool { (e: Entry) => e.Tagged() && e.byKey == name }

  function TaggedAt(key: string): Entry -> bool { (e: Entry) => e.Tagged() && e.ExactKey() == key }

  /** The tags of the only entry of a list. */
  function Sole(hits: seq<Entry>): Option<Tags> {
    if |hits| == 1 then TagsOf(hits[0].comment) else None
  }

  /** A second holder of a name blanks it, and a blank stays blank. */
  lemma SoleStep(hits: seq<Entry>, e: Entry)
    ensures Sole(hits + [e]) == if hits == [] then TagsOf(e.comment) else None
  {
  }

  lemma ByStep(entries: seq<Entry>, e: Entry, name: string)
    requires name in By(entries) <==> Filter(TaggedAs(name), entries) != []
    requires name in By(entries) ==> By(entries)[name] == Sole(Filter(TaggedAs(name), entries))
    ensures var hits := Filter(TaggedAs(name), entries + [e]);
            && (name in By(entries + [e]) <==> hits != [])
            && (name in By(entries + [e]) ==> By(entries + [e])[name] == Sole(hits))
  {
    hide TagsOf, Filter, By, Sole;
    FilterSnoc(TaggedAs(name), entries, e);
    BySnoc(entries, e);
    SoleStep(Filter(TaggedAs(name), entries), e);
    assert Filter(TaggedAs(name), entries) + [] == Filter(TaggedAs(name), entries);
  }

  /**
   * A bare name resolves exactly when one tagged object has it, and then to that object's tags:
   * however many duplicates follow the second one, the name never becomes usable again.
   */
  lemma {:induction false} ByMeansSole(entries: seq<Entry>, name: string)
    ensures name in By(entries) <==> Filter(TaggedAs(name), entries) != []
    ensures name in By(entries) ==> By(entries)[name] == Sole(Filter(TaggedAs(name), entries))
  {
    hide *;
    if entries == [] {
      NoHits(name);
    } else {
      var n := |entries| - 1;
      ByMeansSole(entries[..n], name);
      ByStep(entries[..n], entries[n], name);
      assert entries == entries[..n] + [entries[n]];
    }
  }

  lemma NoHits(name: string)
    ensures By([]) == map[] && Filter(TaggedAs(name), []) == []
  {
  }

  /** More objects can only take a bare name away, never give it another meaning. */
  lemma AmbiguityIsFinal(entries: seq<Entry>, more: seq<Entry>, name: string)
    ensures name in By(entries) ==>
              name in By(entries + more)
              && (By(entries + more)[name] == By(entries)[name] || By(entries + more)[name].None?)
  {
    ByMeansSole(entries, name);
    ByMeansSole(entries + more, name);
    FilterConcat(TaggedAs(name), entries, more);
  }

  function LastTags(hits: seq<Entry>): Option<Tags> {
    if hits == [] then None else TagsOf(hits[|hits| - 1].comment)
  }

  /** A qualified name resolves to the last tagged object that has it. */
  lemma {:induction false} ExactMeansLast(entries: seq<Entry>, key: string)
    ensures (if key in Exact(entries) then Some(Exact(entries)[key]) else None)
            == LastTags(Filter(TaggedAt(key), entries))
  {
    hide TagsOf, QualifiedName;
    if entries != [] {
      hide Filter;
      var n := |entries| - 1;
      ExactMeansLast(entries[..n], key);
      assert entries == entries[..n] + [entries[n]];
      FilterSnoc(TaggedAt(key), entries[..n], entries[n]);
    }
  }

  /** The tags of the last tagged object of that qualified name. */
  function IndexedTags(entries: seq<Entry>, key: string): Option<Tags> { LastTags(Filter(TaggedAt(key), entries)) }

  lemma {:induction false} LastHit(entries: seq<Entry>, key: string) returns (j: nat)
    requires Filter(TaggedAt(key), entries) != []
    ensures j < |entries| && TaggedAt(key)(entries[j])
    ensures forall k :: j < k < |entries| ==> !TaggedAt(key)(entries[k])
    ensures IndexedTags(entries, key) == TagsOf(entries[j].comment)
  {
    hide TagsOf, QualifiedName;
    var n := |entries| - 1;
    assert entries == entries[..n] + [entries[n]];
    hide Filter;
    FilterSnoc(TaggedAt(key), entries[..n], entries[n]);
    if TaggedAt(key)(entries[n]) {
      j := n;
    } else {
      j := LastHit(entries[..n], key);
    }
  }

  lemma LaterDecides(x: Entry, y: Entry)
    requires x.ExactKey() == y.ExactKey()
    ensures IndexedTags([x, y], x.ExactKey()) == if y.Tagged() then TagsOf(y.comment) else TagsOf(x.comment)
  {
    hide TagsOf, QualifiedName, Exact;
    assert [x, y] == [x] + [y] && [x] == [] + [x];
    FilterSnoc(TaggedAt(x.ExactKey()), [x], y);
    FilterSnoc(TaggedAt(x.ExactKey()), [], x);
  }

  /** A request, such as @omit, that may be read off an object's tags. */
  type Request = Option<Tags> -> bool

  /** Objects of one qualified name all make the request or none does. */
  ghost predicate NamesakesAgree(asks: Request, entries: seq<Entry>) {
    forall e, f :: e in entries && f in entries && e.ExactKey() == f.ExactKey() ==>
      (asks(TagsOf(e.comment)) <==> asks(TagsOf(f.comment)))
  }

  /** Every object is treated as its own comment asks exactly when namesakes ask for the same. */
  lemma CommentsDecideIff(asks: Request, entries: seq<Entry>)
    requires !asks(None)
    ensures NamesakesAgree(asks, entries) <==>
            forall e :: e in entries ==> (asks(IndexedTags(entries, e.ExactKey())) <==> asks(TagsOf(e.comment)))
  {
    hide TagsOf, QualifiedName, IndexedTags;
    if NamesakesAgree(asks, entries) {
      forall e | e in entries
        ensures asks(IndexedTags(entries, e.ExactKey())) <==> asks(TagsOf(e.comment))
      {
        RequestOfNamesakes(asks, entries, e);
      }
    }
  }

  /** The same for the objects the entries stand for, kept unless the index says otherwise. */
  lemma ObjectsFollowCommentsIff<T>(asks: Request, entries: seq<Entry>, xs: seq<T>,
                                    comment: T -> string, kept: T -> bool)
    requires !asks(None) && |xs| == |entries|
    requires forall i :: 0 <= i < |xs| ==>
               entries[i].comment == comment(xs[i])
               && (kept(xs[i]) <==> !asks(IndexedTags(entries, entries[i].ExactKey())))
    ensures NamesakesAgree(asks, entries) <==>
            forall i :: 0 <= i < |xs| ==> (kept(xs[i]) <==> !asks(TagsOf(comment(xs[i]))))
  {
    hide TagsOf, QualifiedName, IndexedTags, NamesakesAgree;
    CommentsDecideIff(asks, entries);
    assert forall i :: 0 <= i < |xs| ==> entries[i] in entries;
  }

  lemma RequestOfNamesakes(asks: Request, entries: seq<Entry>, e: Entry)
    requires e in entries && NamesakesAgree(asks, entries) && !asks(None)
    ensures asks(IndexedTags(entries, e.ExactKey())) <==> asks(TagsOf(e.comment))
  {
    hide TagsOf, QualifiedName, Filter;
    var key := e.ExactKey();
    if Filter(TaggedAt(key), entries) == [] {
      assert !TaggedAt(key)(e);
    } else {
      var j := LastHit(entries, key);
      assert entries[j] in entries;
    }
  }

  /** An object that shares its qualified name with no other gets its own tags back. */
  lemma SoleOwnerGetsItsTags(entries: seq<Entry>, j: nat)
    requires j < |entries|
    requires forall k :: 0 <= k < |entries| && entries[k].ExactKey() == entries[j].ExactKey() ==>
               entries[k] == entries[j]
    ensures var key := entries[j].ExactKey();
            (if key in Exact(entries) then Some(Exact(entries)[key]) else None) == TagsOf(entries[j].comment)
  {
    hide TagsOf, QualifiedName, Exact, Filter;
    var e, key := entries[j], entries[j].ExactKey();
    ExactMeansLast(entries, key);
    var hits := Filter(TaggedAt(key), entries);
    assert e in entries && (TaggedAt(key)(e) <==> TagsOf(e.comment).Some?);
    if hits != [] {
      var last := hits[|hits| - 1];
      assert last in hits && last in entries;
    }
  }

  /** With a schema the last tagged object of the qualified name answers, and nothing else; without, the only one. */
  lemma LookupIff(entries: seq<Entry>, schema: string, name: string)
    ensures Lookup(Exact(entries), By(entries), schema, name)
            == if schema != "" then IndexedTags(entries, schema + "." + name)
               else Sole(Filter(TaggedAs(name), entries))
  {
    hide TagsOf, Filter, Exact, By;
    ExactMeansLast(entries, QualifiedName(schema, name));
    ByMeansSole(entries, name);
  }

  predicate NoDots(entries: seq<Entry>) { forall e :: e in entries ==> '.' !in e.schema }

  lemma {:induction false} QualifiedInjective(s: string, n: string, t: string, m: string)
    requires '.' !in s && '.' !in t && QualifiedName(s, n) == QualifiedName(t, m)
    ensures s == t && n == m
  {
    if s == "" || t == "" {
      assert QualifiedName(s, n)[0] == QualifiedName(t, m)[0];
      assert QualifiedName(s, n)[1..] == QualifiedName(t, m)[1..];
      assert s == t == "";
      assert QualifiedName("", n)[1..] == n && QualifiedName("", m)[1..] == m;
    } else {
      assert QualifiedName(s, n)[1..] == QualifiedName(s[1..], n);
      assert QualifiedName(t, m)[1..] == QualifiedName(t[1..], m);
      assert QualifiedName(s, n)[0] == s[0] && QualifiedName(t, m)[0] == t[0];
      QualifiedInjective(s[1..], n, t[1..], m);
      assert s == [s[0]] + s[1..] && t == [t[0]] + t[1..];
    }
  }

  /** The last tagged object of e's qualified name carries other tags than e. */
  ghost predicate Overridden(entries: seq<Entry>, e: Entry) {
    exists j :: 0 <= j < |entries| && TaggedAt(e.ExactKey())(entries[j])
                && TagsOf(entries[j].comment) != TagsOf(e.comment)
                && forall k :: j < k < |entries| ==> !TaggedAt(e.ExactKey())(entries[k])
  }

  /** A usable bare name gives the same tags as the qualified one exactly when the latter was not overridden. */
  lemma LookupsAgreeIff(entries: seq<Entry>, e: Entry)
    requires e in entries && e.Tagged() && e.schema != ""
    requires Lookup(Exact(entries), By(entries), "", e.byKey).Some?
    ensures Lookup(Exact(entries), By(entries), "", e.byKey) == TagsOf(e.comment)
    ensures Lookup(Exact(entries), By(entries), "", e.byKey) == Lookup(Exact(entries), By(entries), e.schema, e.byKey)
            <==> !Overridden(entries, e)
  {
    hide TagsOf, Filter, QualifiedName, Exact, By;
    var hits := Filter(TaggedAs(e.byKey), entries);
    ByMeansSole(entries, e.byKey);
    ExactMeansLast(entries, e.ExactKey());
    assert TaggedAs(e.byKey)(e) && TaggedAt(e.ExactKey())(e);
    assert e in hits && e in Filter(TaggedAt(e.ExactKey()), entries);
    var j := LastHit(entries, e.ExactKey());
  }

  /** With dot-free schema names nothing is ever overridden. */
  lemma LookupsAgree(entries: seq<Entry>, e: Entry)
    requires NoDots(entries) && e in entries && e.Tagged() && e.schema != ""
    requires Lookup(Exact(entries), By(entries), "", e.byKey).Some?
    ensures Lookup(Exact(entries), By(entries), "", e.byKey) == TagsOf(e.comment)
    ensures Lookup(Exact(entries), By(entries), e.schema, e.byKey) == TagsOf(e.comment)
  {
    hide TagsOf, Filter, QualifiedName, Exact, By;
    LookupsAgreeIff(entries, e);
    var hits := Filter(TaggedAs(e.byKey), entries);
    ByMeansSole(entries, e.byKey);
    assert TaggedAs(e.byKey)(e);
    assert e in hits;
    forall j | 0 <= j < |entries| && TaggedAt(e.ExactKey())(entries[j])
      ensures TagsOf(entries[j].comment) == TagsOf(e.comment)
    {
      var other := entries[j];
      assert other in entries;
      QualifiedInjective(other.schema, other.byKey, e.schema, e.byKey);
      assert TaggedAs(e.byKey)(other);
      assert other in hits;
    }
  }

  /** Two objects whose dotted names coincide: the qualified lookup gives the later one's tags. */
  lemma DottedSchemasDisagree(c: string, d: string)
    requires TagsOf(c).Some? && TagsOf(d).Some? && TagsOf(c) != TagsOf(d)
    ensures var entries := [Entry("a", "b.c", c), Entry("a.b", "c", d)];
            && Lookup(Exact(entries), By(entries), "", "b.c") == TagsOf(c)
            && Lookup(Exact(entries), By(entries), "a", "b.c") == TagsOf(d)
  {
    var x, y := Entry("a", "b.c", c), Entry("a.b", "c", d);
    SameJoinedName();
    hide TagsOf, QualifiedName, Exact, By;
    assert [x, y] == [x] + [y] && [x] == [] + [x];
    EmptyIndex();
    ExactSnoc([], x);
    BySnoc([], x);
    ExactSnoc([x], y);
    BySnoc([x], y);
  }

  lemma SameJoinedName()
    ensures QualifiedName("a", "b.c") == QualifiedName("a.b", "c") && "b.c" != "c"
  {
    assert |"b.c"| != |"c"|;
  }

  // ----- what is indexed

  /** Every object of a catalog is indexed under its schema and name, columns and constraints included, enums too. */
  lemma EveryObjectIndexed(c: CatalogData)
    ensures forall t :: t in c.tables ==> Entry(t.schema, t.name, t.comment) in TableEntries(c.tables)
    ensures forall e :: e in c.enums ==> Entry(e.schema, e.name, e.comment) in EnumEntries(c.enums)
    ensures forall f :: f in c.functions ==> Entry(f.schema, f.name, f.comment) in FunctionEntries(c.functions)
    ensures |TableEntries(c.tables)| == |c.tables| && |EnumEntries(c.enums)| == |c.enums|
    ensures |FunctionEntries(c.functions)| == |c.functions|
  {
    forall t | t in c.tables
      ensures Entry(t.schema, t.name, t.comment) in TableEntries(c.tables)
    {
      var i :| 0 <= i < |c.tables| && c.tables[i] == t;
      assert TableEntries(c.tables)[i] == Entry(t.schema, t.name, t.comment);
    }
    forall e | e in c.enums
      ensures Entry(e.schema, e.name, e.comment) in EnumEntries(c.enums)
    {
      var i :| 0 <= i < |c.enums| && c.enums[i] == e;
      assert EnumEntries(c.enums)[i] == Entry(e.schema, e.name, e.comment);
    }
    forall f | f in c.functions
      ensures Entry(f.schema, f.name, f.comment) in FunctionEntries(c.functions)
    {
      var i :| 0 <= i < |c.functions| && c.functions[i] == f;
      assert FunctionEntries(c.functions)[i] == Entry(f.schema, f.name, f.comment);
    }
  }
}
