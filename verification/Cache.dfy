/**
 * The catalog cache file (cache/cache.go): a compressed envelope with a format version and a
 * content hash. Compression, JSON text and SHA-256 are parameters with stated laws.
 */
module Cache {
  import opened Sequences
  import opened Ordering
  import opened CatalogModel
  import opened CatalogHeap
  import opened Diff

  type Bytes = seq<bv8>

  datatype Envelope = Envelope(formatVersion: int, hash: string, catalog: Option<CatalogData>)

  datatype Codec = Codec(digest: CatalogData -> string,
                         encode: Envelope -> Bytes, decode: Bytes -> Option<Envelope>,
                         compress: Bytes -> Bytes, decompress: Bytes -> Option<Bytes>)
  {
    ghost predicate Lawful() {
      && (forall e :: decode(encode(e)) == Some(e))
      && (forall b :: decompress(compress(b)) == Some(b))
    }

    ghost predicate Injective() {
      forall c, d :: digest(c) == digest(d) ==> c == d
    }
  }

  datatype Error = CannotCreate | CannotWrite | CannotOpen | NotACache | TooLarge | BadDocument
                 | WrongVersion(found: int) | EmptyCatalog | HashMismatch

  datatype Result<+T> = Ok(value: T) | Err(error: Error)

  /** How writing the file goes wrong, if it does: before it is truncated, or after some bytes. */
  datatype Fault = NoFault | CreateFails | WriteFails(written: Bytes)

  class CacheFile {
    var content: Option<Bytes>

    constructor ()
      ensures content == None
    {
      content := None;
    }
  }

  function FileImage(codec: Codec, c: CatalogData): Bytes {
    codec.compress(codec.encode(Envelope(CATALOG_FORMAT_VERSION, codec.digest(c), Some(c))))
  }

  /** Writes the catalog's canonical form; the catalog itself ends up sorted even when writing fails. */
  method Save(file: CacheFile, cat: Catalog, codec: Codec, fault: Fault) returns (r: Result<()>)
    requires cat.Valid()
    modifies file, cat
    ensures cat.Valid() && CanonicalFormOf(old(cat.Data()), cat.Data())
    ensures match fault
            case NoFault => r == Ok(()) && file.content == Some(FileImage(codec, cat.Data()))
            case CreateFails => r == Err(CannotCreate) && file.content == old(file.content)
            case WriteFails(written) => r == Err(CannotWrite) && file.content == Some(written)
  {
    hide CanonicalFormOf;
    var hash := cat.Hash(codec.digest);
    if fault.CreateFails? {
      return Err(CannotCreate);
    }
    file.content := Some([]);
    if fault.WriteFails? {
      file.content := Some(fault.written);
      return Err(CannotWrite);
    }
    file.content := Some(codec.compress(codec.encode(Envelope(CATALOG_FORMAT_VERSION, hash, Some(cat.Data())))));
    r := Ok(());
  }

  /** What reading accepts before the hash is recomputed: the stored hash and catalog. */
  function OpenEnvelope(content: Option<Bytes>, codec: Codec, limit: nat): Result<(string, CatalogData)> {
    if content.None? then Err(CannotOpen)
    else
      var inflated := codec.decompress(content.value);
      if inflated.None? then Err(NotACache)
      else if |inflated.value| > limit then Err(TooLarge)
      else
        var env := codec.decode(inflated.value);
        if env.None? then Err(BadDocument)
        else if env.value.formatVersion != CATALOG_FORMAT_VERSION then Err(WrongVersion(env.value.formatVersion))
        else if env.value.catalog.None? then Err(EmptyCatalog)
        else Ok((env.value.hash, env.value.catalog.value))
  }

  /** Reading stops one byte past the limit, which is enough to tell that it was exceeded. */
  function LimitRead(raw: Bytes, limit: nat): Bytes {
    if |raw| <= limit then raw else raw[..limit]
  }

  /** The bytes of a file inflate, within the limit, to this envelope. */
  ghost predicate Holds(content: Option<Bytes>, codec: Codec, limit: nat, env: Envelope) {
    && content.Some? && codec.decompress(content.value).Some?
    && |codec.decompress(content.value).value| <= limit
    && codec.decode(codec.decompress(content.value).value) == Some(env)
  }

  /** What a loaded catalog vouches for: an envelope of format 3 that carries it, in some order, and its hash. */
  ghost predicate VouchedFor(content: Option<Bytes>, codec: Codec, limit: nat, loaded: CatalogData) {
    exists env :: Holds(content, codec, limit, env)
                  && env.formatVersion == 3 && env.catalog.Some?
                  && CanonicalFormOf(env.catalog.value, loaded) && env.hash == codec.digest(loaded)
  }

  method Load(file: CacheFile, codec: Codec, limit: nat) returns (r: Result<Catalog>)
    ensures r.Ok? ==> VouchedFor(file.content, codec, limit, r.value.Data())
    ensures r == Err(CannotOpen) <==> file.content.None?
    ensures r == Err(NotACache) <==> file.content.Some? && codec.decompress(file.content.value).None?
    ensures r == Err(BadDocument) <==>
              && file.content.Some? && codec.decompress(file.content.value).Some?
              && var raw := codec.decompress(file.content.value).value; |raw| <= limit && codec.decode(raw).None?
    ensures match OpenEnvelope(file.content, codec, limit)
            case Err(e) => r == Err(e)
            case Ok((hash, stored)) =>
              if r.Ok? then
                fresh(r.value) && r.value.Valid()
                && CanonicalFormOf(stored, r.value.Data()) && codec.digest(r.value.Data()) == hash
              else
                r.error == HashMismatch && exists c :: CanonicalFormOf(stored, c) && codec.digest(c) != hash
  {
    if file.content.None? {
      return Err(CannotOpen);
    }
    var inflated := codec.decompress(file.content.value);
    if inflated.None? {
      return Err(NotACache);
    }
    var raw := LimitRead(inflated.value, limit + 1);
    if |raw| > limit {
      return Err(TooLarge);
    }
    var env := codec.decode(raw);
    if env.None? {
      return Err(BadDocument);
    }
    if env.value.formatVersion != CATALOG_FORMAT_VERSION {
      return Err(WrongVersion(env.value.formatVersion));
    }
    if env.value.catalog.None? {
      return Err(EmptyCatalog);
    }
    var cat := new Catalog(env.value.catalog.value);
    var hash := cat.Hash(codec.digest);
    if hash != env.value.hash {
      return Err(HashMismatch);
    }
    assert Holds(file.content, codec, limit, env.value);
    r := Ok(cat);
  }

  /** Which envelopes are refused when read back from a file, whoever wrote them, and how. */
  method LoadWritten(file: CacheFile, codec: Codec, env: Envelope, limit: nat) returns (r: Result<Catalog>)
    requires codec.Lawful() && file.content == Some(codec.compress(codec.encode(env)))
    ensures r == Err(TooLarge) <==> |codec.encode(env)| > limit
    ensures forall v :: r == Err(WrongVersion(v)) <==>
              |codec.encode(env)| <= limit && env.formatVersion != 3 && v == env.formatVersion
    ensures r == Err(EmptyCatalog) <==> |codec.encode(env)| <= limit && env.formatVersion == 3 && env.catalog.None?
    ensures |codec.encode(env)| <= limit && env.formatVersion == 3 && env.catalog.Some? ==>
              r.Ok? || (r == Err(HashMismatch)
                        && exists c :: CanonicalFormOf(env.catalog.value, c) && codec.digest(c) != env.hash)
  {
    hide CanonicalFormOf;
    r := Load(file, codec, limit);
  }

  /** The source's empty string is NoDrift; a drift text is a header line and the report's lines. */
  datatype Report = NoDrift | Drift(cachedHash: string, liveHash: string, lines: seq<Line>)

  ghost function Compare(codec: Codec, cached: CatalogData, live: CatalogData): Report {
    if codec.digest(cached) == codec.digest(live) then NoDrift
    else Drift(codec.digest(cached), codec.digest(live), CatalogDiff(cached, live))
  }

  /** A report names both hashes, cached first, and every difference; there is none exactly on equal hashes. */
  ghost predicate Tells(codec: Codec, cached: CatalogData, live: CatalogData, report: Report) {
    && (report.NoDrift? <==> codec.digest(cached) == codec.digest(live))
    && (report.Drift? ==>
          && report.cachedHash == codec.digest(cached) && report.liveHash == codec.digest(live)
          && report.lines == CatalogDiff(cached, live))
  }

  method Check(file: CacheFile, live: Catalog, codec: Codec, limit: nat) returns (r: Result<Report>)
    requires live.Valid()
    modifies live
    ensures live.Valid()
    ensures r.Ok? ==>
              exists loaded, c :: VouchedFor(old(file.content), codec, limit, loaded) && CanonicalFormOf(loaded, c)
                                  && Tells(codec, c, live.Data(), r.value)
    ensures match OpenEnvelope(old(file.content), codec, limit)
            case Err(e) => r == Err(e) && unchanged(live)
            case Ok((hash, stored)) =>
              if r.Ok? then
                CanonicalFormOf(old(live.Data()), live.Data())
                && exists c :: CanonicalFormOf(stored, c) && r.value == Compare(codec, c, live.Data())
              else
                r.error == HashMismatch && exists c :: CanonicalFormOf(stored, c) && codec.digest(c) != hash
  {
    hide CanonicalFormOf, VouchedFor, Compare, OpenEnvelope;
    var loaded := Load(file, codec, limit);
    if loaded.Err? {
      return Err(loaded.error);
    }
    ghost var first := loaded.value.Data();
    var report := CompareLoaded(loaded.value, live, codec);
    SortTwice(OpenEnvelope(old(file.content), codec, limit).value.1, first, loaded.value.Data());
    CompareTells(codec, loaded.value.Data(), live.Data());
    r := Ok(report);
  }

  lemma CompareTells(codec: Codec, cached: CatalogData, live: CatalogData)
    ensures Tells(codec, cached, live, Compare(codec, cached, live))
  {
    hide CatalogDiff;
  }

  /** Both catalogs are hashed, hence sorted, before they are compared. */
  method CompareLoaded(cached: Catalog, live: Catalog, codec: Codec) returns (report: Report)
    requires cached.Valid() && live.Valid() && cached != live
    modifies cached, live
    ensures live.Valid() && CanonicalFormOf(old(live.Data()), live.Data())
    ensures CanonicalFormOf(old(cached.Data()), cached.Data())
    ensures report == Compare(codec, cached.Data(), live.Data())
  {
    hide CatalogDiff, CanonicalFormOf;
    var ch := cached.Hash(codec.digest);
    ghost var c := cached.Data();
    var lh := live.Hash(codec.digest);
    assert cached.Data() == c;
    if ch != lh {
      var lines := DiffCatalogs(cached.Data(), live.Data());
      report := Drift(ch, lh, lines);
    } else {
      report := NoDrift;
    }
  }

  lemma SortTwice(c: CatalogData, d: CatalogData, e: CatalogData)
    requires CanonicalFormOf(c, d) && CanonicalFormOf(d, e)
    ensures CanonicalFormOf(c, e)
  {
  }

  // ----- round trips

  /** Saving writes a file that opens to exactly the saved catalog, unless it is over the limit. */
  lemma OpenSaved(codec: Codec, c: CatalogData, limit: nat)
    requires codec.Lawful()
    ensures var size := |codec.encode(Envelope(CATALOG_FORMAT_VERSION, codec.digest(c), Some(c)))|;
            OpenEnvelope(Some(FileImage(codec, c)), codec, limit)
            == if size <= limit then Ok((codec.digest(c), c)) else Err(TooLarge)
  {
  }

  /**
   * The sort's contract promises that a saved catalog passes the hash check on loading exactly when no
   * two different entries tie: loading sorts again, and nothing in the contract rules out that a tie
   * lands the other way round.
   */
  lemma SavedHashHoldsIff(codec: Codec, c: CatalogData, saved: CatalogData)
    requires codec.Injective() && CanonicalFormOf(c, saved)
    ensures SortKeysDetermine(c) <==>
            forall d :: CanonicalFormOf(saved, d) ==> codec.digest(d) == codec.digest(saved)
  {
    SortKeysDetermineSorted(c, saved);
    if SortKeysDetermine(c) {
      forall d | CanonicalFormOf(saved, d)
        ensures d == saved
      {
        CanonicalIdempotent(c, saved, d);
      }
    } else {
      var d, e := TwoCanonicalForms(saved);
      assert d != saved || e != saved;
    }
  }

  lemma SortKeysDetermineSorted(c: CatalogData, d: CatalogData)
    requires CanonicalFormOf(c, d)
    ensures SortKeysDetermine(c) <==> SortKeysDetermine(d)
  {
    DeterminedBothWays(TableSortKey, c.tables, d.tables);
    DeterminedBothWays(EnumSortKey, c.enums, d.enums);
    DeterminedBothWays(CompositeSortKey, c.composites, d.composites);
    DeterminedBothWays(FunctionSortKey, c.functions, d.functions);
  }

  lemma DeterminedBothWays<T>(key: T -> Key, xs: seq<T>, ys: seq<T>)
    requires multiset(xs) == multiset(ys)
    ensures KeyDetermines(key, xs) <==> KeyDetermines(key, ys)
  {
    if KeyDetermines(key, xs) { KeyDeterminesPermuted(key, xs, ys); }
    if KeyDetermines(key, ys) { KeyDeterminesPermuted(key, ys, xs); }
  }

  ghost predicate Fits(codec: Codec, c: CatalogData, limit: nat) {
    |codec.encode(Envelope(CATALOG_FORMAT_VERSION, codec.digest(c), Some(c)))| <= limit
  }

  /** Saving and loading yields the canonical form of what was saved. */
  method SaveThenLoad(file: CacheFile, cat: Catalog, codec: Codec, limit: nat) returns (loaded: Catalog)
    requires cat.Valid() && codec.Lawful() && SortKeysDetermine(cat.Data())
    requires Fits(codec, Canonical(cat.Data()), limit)
    modifies file, cat
    ensures loaded.Valid() && loaded.Data() == Canonical(old(cat.Data()))
  {
    hide CanonicalFormOf, SortKeysDetermine, OpenEnvelope, Canonical;
    ghost var before := cat.Data();
    var saved := Save(file, cat, codec, NoFault);
    CanonicalUnique(before, cat.Data(), Canonical(before));
    OpenSaved(codec, cat.Data(), limit);
    SavedSorts(before, cat.Data());
    var r := Load(file, codec, limit);
    loaded := r.value;
  }

  lemma SavedSorts(c: CatalogData, saved: CatalogData)
    requires SortKeysDetermine(c) && CanonicalFormOf(c, saved)
    ensures forall d :: CanonicalFormOf(saved, d) ==> d == saved
  {
    forall d | CanonicalFormOf(saved, d)
      ensures d == saved
    {
      CanonicalIdempotent(c, saved, d);
    }
  }

  /** Checking a live catalog against a saved one finds no drift exactly when it is a reordering. */
  method SaveThenCheck(file: CacheFile, cat: Catalog, live: Catalog, codec: Codec, limit: nat)
    returns (report: Report)
    requires cat.Valid() && live.Valid() && cat != live && codec.Lawful() && codec.Injective()
    requires SortKeysDetermine(cat.Data()) && Fits(codec, Canonical(cat.Data()), limit)
    modifies file, cat, live
    ensures report == NoDrift <==> Reordering(old(cat.Data()), old(live.Data()))
    ensures report.Drift? ==>
              exists c, d :: CanonicalFormOf(old(cat.Data()), c) && CanonicalFormOf(old(live.Data()), d)
                             && report == Compare(codec, c, d)
  {
    hide CanonicalFormOf, Reordering, SortKeysDetermine, CatalogDiff, OpenEnvelope, Canonical;
    ghost var before, liveBefore := cat.Data(), live.Data();
    var saved := Save(file, cat, codec, NoFault);
    ghost var stored := cat.Data();
    CanonicalUnique(before, stored, Canonical(before));
    OpenSaved(codec, stored, limit);
    SavedSorts(before, stored);
    var r := Check(file, live, codec, limit);
    report := r.value;
    NoDriftIff(codec, before, stored, liveBefore, live.Data());
  }

  lemma NoDriftIff(codec: Codec, c: CatalogData, cs: CatalogData, l: CatalogData, ls: CatalogData)
    requires codec.Injective() && SortKeysDetermine(c)
    requires CanonicalFormOf(c, cs) && CanonicalFormOf(l, ls)
    ensures Compare(codec, cs, ls) == NoDrift <==> Reordering(c, l)
  {
    if Reordering(c, l) {
      CanonicalFormOfReordering(c, l, ls);
      CanonicalUnique(c, cs, ls);
    }
    if cs == ls {
      SharedCanonicalForm(c, l, cs);
    }
  }

  lemma WellKeyedSorted(c: CatalogData, d: CatalogData)
    requires WellKeyed(c) && CanonicalFormOf(c, d)
    ensures WellKeyed(d)
  {
    DistinctPermuted(c.schemas, d.schemas);
    NamesPermuted(TableName, c.tables, d.tables);
    NamesPermuted(EnumName, c.enums, d.enums);
    NamesPermuted(CompositeName, c.composites, d.composites);
    NamesPermuted(FunctionName, c.functions, d.functions);
  }

  lemma NamesPermuted<T>(name: T -> string, xs: seq<T>, ys: seq<T>)
    requires DistinctNames(name, xs) && multiset(xs) == multiset(ys)
    ensures DistinctNames(name, ys)
  {
    assert forall i, j :: 0 <= i < j < |xs| ==> xs[i] != xs[j];
    DistinctPermuted(xs, ys);
    forall i, j | 0 <= i < j < |ys|
      ensures name(ys[i]) != name(ys[j])
    {
      assert ys[i] in multiset(xs) && ys[j] in multiset(xs);
    }
  }

  /** Drift between two sorted catalogs always comes with a line. */
  ghost predicate AlwaysExplained(codec: Codec, c: CatalogData, l: CatalogData) {
    forall cs, ls :: CanonicalFormOf(c, cs) && CanonicalFormOf(l, ls) && Compare(codec, cs, ls).Drift? ==>
      Compare(codec, cs, ls).lines != []
  }

  /**
   * Whatever the sorts do with ties, drift is explained exactly when the catalogs differ by name, or
   * have the same format version and no two different entries that sort alike.
   */
  lemma DriftExplainedIff(codec: Codec, c: CatalogData, l: CatalogData)
    requires codec.Injective() && WellKeyed(c) && WellKeyed(l)
    ensures AlwaysExplained(codec, c, l) <==>
            !SameByName(c, l) || (c.formatVersion == l.formatVersion && SortKeysDetermine(c))
  {
    hide CatalogDiff, CanonicalFormOf, Reordering, WellKeyed, Canonical, SortKeysDetermine, SameByName;
    forall cs, ls | CanonicalFormOf(c, cs) && CanonicalFormOf(l, ls)
      ensures CatalogDiff(cs, ls) == [] <==> SameByName(c, l)
      ensures SameByName(c, l) && c.formatVersion == l.formatVersion && SortKeysDetermine(c) ==> cs == ls
    {
      FormsSameByName(c, cs, l, ls);
      DiffEmptyIff(cs, ls);
      FormsEqual(c, cs, l, ls);
    }
    if SameByName(c, l) && AlwaysExplained(codec, c, l) {
      var cs, ls := Canonical(c), Canonical(l);
      FormVersions(c, cs, l, ls);
      if !SortKeysDetermine(c) {
        var d, e := TwoCanonicalForms(c);
      }
    }
  }

  /** Without overloads and with equal versions the hashes and the report never contradict each other. */
  lemma DriftIsExplained(codec: Codec, c: CatalogData, cs: CatalogData, l: CatalogData, ls: CatalogData)
    requires codec.Injective() && WellKeyed(c) && WellKeyed(l) && c.formatVersion == l.formatVersion
    requires KeyDetermines(FunctionSortKey, c.functions)
    requires CanonicalFormOf(c, cs) && CanonicalFormOf(l, ls)
    ensures Compare(codec, cs, ls).Drift? <==> CatalogDiff(c, l) != []
    ensures Compare(codec, cs, ls).Drift? ==> Compare(codec, cs, ls).lines != []
  {
    hide CatalogDiff, CanonicalFormOf, Reordering, WellKeyed, SortKeysDetermine, SameByName;
    WellKeyedSorts(c);
    DiffEmptyIff(c, l);
    DiffEmptyIff(cs, ls);
    FormsSameByName(c, cs, l, ls);
    FormsEqual(c, cs, l, ls);
    SelfByName(cs);
  }

  lemma SelfByName(c: CatalogData)
    ensures SameByName(c, c)
  {
    hide MapBy, Members;
  }

  lemma FormsEqual(c: CatalogData, cs: CatalogData, l: CatalogData, ls: CatalogData)
    requires WellKeyed(c) && WellKeyed(l) && CanonicalFormOf(c, cs) && CanonicalFormOf(l, ls)
    ensures SameByName(c, l) && c.formatVersion == l.formatVersion && SortKeysDetermine(c) ==> cs == ls
  {
    hide CatalogDiff, CanonicalFormOf, Reordering, WellKeyed, SortKeysDetermine, SameByName;
    if SameByName(c, l) && c.formatVersion == l.formatVersion && SortKeysDetermine(c) {
      DiffEmptyIff(c, l);
      DiffEmptyIffReordering(c, l);
      CanonicalFormOfReordering(c, l, ls);
      CanonicalUnique(c, cs, ls);
    }
  }

  lemma FormVersions(c: CatalogData, cs: CatalogData, l: CatalogData, ls: CatalogData)
    requires CanonicalFormOf(c, cs) && CanonicalFormOf(l, ls)
    ensures cs.formatVersion == c.formatVersion && ls.formatVersion == l.formatVersion
  {
  }

  /** Sorting does not change what a catalog looks like by name. */
  lemma FormsSameByName(c: CatalogData, cs: CatalogData, l: CatalogData, ls: CatalogData)
    requires WellKeyed(c) && WellKeyed(l) && CanonicalFormOf(c, cs) && CanonicalFormOf(l, ls)
    ensures SameByName(cs, ls) <==> SameByName(c, l)
  {
    SortedLooksAlike(c, cs);
    SortedLooksAlike(l, ls);
    hide MapBy, Members, CanonicalFormOf, WellKeyed;
  }

  lemma SortedLooksAlike(c: CatalogData, d: CatalogData)
    requires WellKeyed(c) && CanonicalFormOf(c, d)
    ensures SameByName(c, d)
  {
    WellKeyedSorted(c, d);
    hide MapBy, Members;
    SchemasAgree(c.schemas, d.schemas);
    MapsAgree(TableName, c.tables, d.tables);
    MapsAgree(EnumName, c.enums, d.enums);
    MapsAgree(CompositeName, c.composites, d.composites);
    MapsAgree(FunctionName, c.functions, d.functions);
  }

  /** With two overloads an unchanged catalog can be reported as drift without a line. */
  lemma OverloadDriftIsUnexplained(codec: Codec, c: CatalogData, f: Function, g: Function)
    returns (cs: CatalogData, ls: CatalogData)
    requires codec.Injective() && WellKeyed(c)
    requires f in c.functions && g in c.functions && f.schema == g.schema && f.name == g.name && f.args != g.args
    ensures CanonicalFormOf(c, cs) && CanonicalFormOf(c, ls)
    ensures Compare(codec, cs, ls).Drift? && Compare(codec, cs, ls).lines == []
  {
    assert FunctionSortKey(f) == FunctionSortKey(g);
    hide CatalogDiff, CanonicalFormOf, WellKeyed, SameByName;
    cs, ls := TwoCanonicalForms(c);
    FormsSameByName(c, cs, c, ls);
    DiffEmptyIff(c, c);
    DiffEmptyIffReordering(c, c);
    DiffEmptyIff(cs, ls);
  }

  function Overload(argType: string): Function {
    Function("s", "f", [FuncArg("a", argType, "pg_catalog")], "int4", "pg_catalog", false, "stable", "")
  }

  /** Such a catalog: nothing but f(int4) and f(text). */
  lemma OverloadDriftExample(codec: Codec) returns (c: CatalogData, cs: CatalogData, ls: CatalogData)
    requires codec.Injective()
    ensures c == CatalogData(CATALOG_FORMAT_VERSION, "16.1", ["s"], [], [], [], [Overload("int4"), Overload("text")])
    ensures CanonicalFormOf(c, cs) && CanonicalFormOf(c, ls)
    ensures Compare(codec, cs, ls).Drift? && Compare(codec, cs, ls).lines == []
  {
    c := CatalogData(CATALOG_FORMAT_VERSION, "16.1", ["s"], [], [], [], [Overload("int4"), Overload("text")]);
    OverloadNames();
    assert WellKeyed(c);
    assert c.functions[0] in c.functions && c.functions[1] in c.functions;
    assert Overload("int4").args[0] != Overload("text").args[0] by { assert "int4"[0] != "text"[0]; }
    hide WellKeyed, CanonicalFormOf, Compare;
    cs, ls := OverloadDriftIsUnexplained(codec, c, c.functions[0], c.functions[1]);
  }

  lemma OverloadNames()
    ensures FunctionName(Overload("int4")) != FunctionName(Overload("text"))
  {
    var a, b := FunctionName(Overload("int4")), FunctionName(Overload("text"));
    assert a == "s.f" + "(" + "int4" + ")" && b == "s.f" + "(" + "text" + ")";
    assert a[4] == "int4"[0] && b[4] == "text"[0];
  }

  /** A differing format version is drift the report cannot explain. */
  lemma FormatDriftIsUnexplained(codec: Codec, c: CatalogData, version: int)
    requires codec.Injective() && version != c.formatVersion
    ensures var report := Compare(codec, c, c.(formatVersion := version));
            report.Drift? && report.lines == []
  {
    hide CatalogDiff, MapBy, Members;
    DiffEmptyIff(c, c.(formatVersion := version));
  }
}
