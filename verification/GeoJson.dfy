/**
 * GeoJSON input (postgis/postgis.go): Feature and FeatureCollection wrappers are removed down to a
 * bare geometry, to a bounded depth, and a legacy CRS member is honoured.
 */
module GeoJson {
  import opened Sequences
  import opened Strings

  datatype Json =
    | Null
    | Bool(b: bool)
    | Number(n: int)
    | Str(s: string)
    | Arr(items: seq<Json>)
    | Obj(members: map<string, Json>)

  type Object = map<string, Json>

  datatype Error = TooDeep | NoType | NoCoordinates | NoGeometries | NoGeometry | NoFeatures | FeatureNotObject
                 | UnknownType(name: string)

  datatype Result<+T> = Ok(value: T) | Err(error: Error)

  const MAX_UNWRAP_DEPTH := 8

  const GEOMETRY_TYPES: set<string> :=
    {"Point", "LineString", "Polygon", "MultiPoint", "MultiLineString", "MultiPolygon", "GeometryCollection"}

  /** A missing or non-string member reads as the empty string. */
  function StringMember(m: Object, key: string): string {
    if key in m && m[key].Str? then m[key].s else ""
  }

  function TypeOf(m: Object): string { StringMember(m, "type") }

  predicate HasArray(m: Object, key: string) { key in m && m[key].Arr? }

  predicate HasObject(m: Object, key: string) { key in m && m[key].Obj? }

  /** The member each geometry type must have; members of a collection are not inspected. */
  function ValidateGeometry(m: Object, typ: string): Option<Error> {
    if typ == "GeometryCollection" then if HasArray(m, "geometries") then None else Some(NoGeometries)
    else if HasArray(m, "coordinates") then None else Some(NoCoordinates)
  }

  function Collection(geometries: seq<Json>): Object {
    map["type" := Str("GeometryCollection"), "geometries" := Arr(geometries)]
  }

  function Unwrap(m: Object, depth: nat): Result<Object>
    decreases Obj(m), 1
  {
    var typ := TypeOf(m);
    if depth > MAX_UNWRAP_DEPTH then Err(TooDeep)
    else if typ == "" then Err(NoType)
    else if typ in GEOMETRY_TYPES then
      match ValidateGeometry(m, typ) case Some(e) => Err(e) case None => Ok(m)
    else if typ == "Feature" then
      if HasObject(m, "geometry") then Unwrap(m["geometry"].members, depth + 1) else Err(NoGeometry)
    else if typ == "FeatureCollection" then
      if HasArray(m, "features") && m["features"].items != [] then
        match UnwrapAll(m["features"].items, depth + 1) case Err(e) => Err(e) case Ok(gs) => Ok(Collection(gs))
      else Err(NoFeatures)
    else Err(UnknownType(typ))
  }

  /** The features in order; the first failure ends it. */
  function UnwrapAll(items: seq<Json>, depth: nat): (r: Result<seq<Json>>)
    ensures r.Ok? ==> |r.value| == |items|
    decreases items, 0
  {
    if items == [] then Ok([])
    else
      var n := |items| - 1;
      match UnwrapAll(items[..n], depth)
      case Err(e) => Err(e)
      case Ok(before) =>
        if !items[n].Obj? then Err(FeatureNotObject)
        else match Unwrap(items[n].members, depth) case Err(e) => Err(e) case Ok(g) => Ok(before + [Obj(g)])
  }

  lemma {:induction false} FailureIsFinal(items: seq<Json>, depth: nat, k: nat)
    requires k <= |items| && UnwrapAll(items[..k], depth).Err?
    ensures UnwrapAll(items, depth) == UnwrapAll(items[..k], depth)
  {
    if k == |items| {
      assert items[..k] == items;
    } else {
      hide Unwrap;
      var n := |items| - 1;
      assert items[..n][..k] == items[..k];
      FailureIsFinal(items[..n], depth, k);
    }
  }

  method UnwrapGeoJSON(m: Object, depth: nat) returns (r: Result<Object>)
    ensures r == Unwrap(m, depth)
    decreases if depth > MAX_UNWRAP_DEPTH then 0 else MAX_UNWRAP_DEPTH + 1 - depth, 0
  {
    hide UnwrapAll;
    if depth > MAX_UNWRAP_DEPTH {
      return Err(TooDeep);
    }
    var typ := TypeOf(m);
    if typ == "" {
      return Err(NoType);
    }
    if typ in GEOMETRY_TYPES {
      var invalid := ValidateGeometry(m, typ);
      return if invalid.Some? then Err(invalid.value) else Ok(m);
    }
    if typ == "Feature" {
      if !HasObject(m, "geometry") {
        return Err(NoGeometry);
      }
      r := UnwrapGeoJSON(m["geometry"].members, depth + 1);
      return;
    }
    if typ == "FeatureCollection" {
      if !HasArray(m, "features") || m["features"].items == [] {
        return Err(NoFeatures);
      }
      var geometries := UnwrapFeatures(m["features"].items, depth + 1);
      return if geometries.Err? then Err(geometries.error) else Ok(Collection(geometries.value));
    }
    return Err(UnknownType(typ));
  }

  method UnwrapFeatures(items: seq<Json>, depth: nat) returns (r: Result<seq<Json>>)
    requires depth <= MAX_UNWRAP_DEPTH + 1
    ensures r == UnwrapAll(items, depth)
    decreases if depth > MAX_UNWRAP_DEPTH then 0 else MAX_UNWRAP_DEPTH + 1 - depth, 1
  {
    hide Unwrap;
    var geometries: seq<Json> := [];
    for i := 0 to |items|
      invariant UnwrapAll(items[..i], depth) == Ok(geometries)
    {
      assert items[..i + 1][..i] == items[..i];
      if !items[i].Obj? {
        FailureIsFinal(items, depth, i + 1);
        return Err(FeatureNotObject);
      }
      var g := UnwrapGeoJSON(items[i].members, depth);
      if g.Err? {
        FailureIsFinal(items, depth, i + 1);
        return Err(g.error);
      }
      geometries := geometries + [Obj(g.value)];
    }
    assert items[..|items|] == items;
    r := Ok(geometries);
  }

  // ----- which documents unwrap, and to what

  /** A geometry object PostGIS can be handed as it is. */
  predicate BareGeometry(m: Object) {
    && "type" in m
    && (|| (m["type"] == Str("GeometryCollection") && "geometries" in m && m["geometries"].Arr?)
        || (m["type"] in {Str("Point"), Str("LineString"), Str("Polygon"), Str("MultiPoint"), Str("MultiLineString"),
                          Str("MultiPolygon")}
            && "coordinates" in m && m["coordinates"].Arr?))
  }

  predicate IsFeature(m: Object) {
    "type" in m && m["type"] == Str("Feature") && "geometry" in m && m["geometry"].Obj?
  }

  predicate IsFeatureCollection(m: Object) {
    "type" in m && m["type"] == Str("FeatureCollection")
    && "features" in m && m["features"].Arr? && m["features"].items != []
  }

  /** The program's own tests come to the same. */
  lemma GeometryTests(m: Object)
    ensures BareGeometry(m) <==> TypeOf(m) in GEOMETRY_TYPES && ValidateGeometry(m, TypeOf(m)).None?
    ensures IsFeature(m) <==> TypeOf(m) == "Feature" && HasObject(m, "geometry")
    ensures IsFeatureCollection(m) <==>
            TypeOf(m) == "FeatureCollection" && HasArray(m, "features") && m["features"].items != []
  {
  }

  /** A bare geometry under any number of feature wrappers. */
  predicate WellFormed(j: Json)
    decreases j, 1
  {
    && j.Obj?
    && (BareGeometry(j.members)
        || (IsFeature(j.members) && WellFormed(j.members["geometry"]))
        || (IsFeatureCollection(j.members) && AllWellFormed(j.members["features"].items)))
  }

  predicate AllWellFormed(items: seq<Json>)
    decreases items, 0
  {
    items == [] || (AllWellFormed(items[..|items| - 1]) && WellFormed(items[|items| - 1]))
  }

  function Max(a: nat, b: nat): nat { if a < b then b else a }

  /** The most wrappers on any path from the document down to a geometry. */
  function Wrappers(j: Json): nat
    decreases j, 1
  {
    if !j.Obj? then 0
    else if IsFeature(j.members) then 1 + Wrappers(j.members["geometry"])
    else if IsFeatureCollection(j.members) then 1 + MostWrappers(j.members["features"].items)
    else 0
  }

  function MostWrappers(items: seq<Json>): nat
    decreases items, 0
  {
    if items == [] then 0 else Max(MostWrappers(items[..|items| - 1]), Wrappers(items[|items| - 1]))
  }

  /** What a document means once its wrappers are gone: one collection member per feature, in order. */
  function Bare(j: Json): Json
    decreases j, 1
  {
    if !j.Obj? then j
    else if IsFeature(j.members) then Bare(j.members["geometry"])
    else if IsFeatureCollection(j.members) then Obj(Collection(AllBare(j.members["features"].items)))
    else j
  }

  function AllBare(items: seq<Json>): (r: seq<Json>)
    ensures |r| == |items|
    decreases items, 0
  {
    if items == [] then [] else AllBare(items[..|items| - 1]) + [Bare(items[|items| - 1])]
  }

  lemma WrapperTypes(m: Object)
    ensures IsFeature(m) ==> TypeOf(m) !in GEOMETRY_TYPES && TypeOf(m) != "" && !IsFeatureCollection(m)
    ensures IsFeatureCollection(m) ==> TypeOf(m) !in GEOMETRY_TYPES && TypeOf(m) != "" && !IsFeature(m)
    ensures BareGeometry(m) ==> !IsFeature(m) && !IsFeatureCollection(m) && TypeOf(m) != ""
    ensures BareGeometry(m) <==> TypeOf(m) in GEOMETRY_TYPES && ValidateGeometry(m, TypeOf(m)).None?
    ensures IsFeature(m) <==> TypeOf(m) == "Feature" && HasObject(m, "geometry")
    ensures IsFeatureCollection(m) <==>
            TypeOf(m) == "FeatureCollection" && HasArray(m, "features") && m["features"].items != []
  {
    GeometryTests(m);
    hide BareGeometry, IsFeature, IsFeatureCollection;
    assert "Feature" !in GEOMETRY_TYPES && "FeatureCollection" !in GEOMETRY_TYPES && "" !in GEOMETRY_TYPES;
    assert |"Feature"| != |"FeatureCollection"|;
  }

  predicate Fits(wrappers: nat, depth: nat) { depth + wrappers <= 8 }

  /**
   * Unwrapping succeeds exactly on well-formed documents whose deepest path stays within the bound,
   * and then yields their bare form.
   */
  lemma {:induction false} UnwrapIff(m: Object, depth: nat)
    ensures Unwrap(m, depth).Ok? <==> WellFormed(Obj(m)) && Fits(Wrappers(Obj(m)), depth)
    ensures Unwrap(m, depth).Ok? ==> Obj(Unwrap(m, depth).value) == Bare(Obj(m))
    decreases Obj(m), 1
  {
    WrapperTypes(m);
    hide UnwrapAll, AllWellFormed, MostWrappers, AllBare;
    if IsFeature(m) {
      hide WellFormed, Wrappers, Bare;
      FeatureCase(m, depth);
      UnwrapIff(m["geometry"].members, depth + 1);
    } else if IsFeatureCollection(m) {
      hide WellFormed, Wrappers, Bare;
      CollectionCase(m, depth);
      UnwrapAllIff(m["features"].items, depth + 1);
    }
  }

  lemma FeatureCase(m: Object, depth: nat)
    requires IsFeature(m)
    ensures var g := m["geometry"];
            && WellFormed(Obj(m)) == WellFormed(g) && Wrappers(Obj(m)) == 1 + Wrappers(g) && Bare(Obj(m)) == Bare(g)
            && Unwrap(m, depth) == (if depth > MAX_UNWRAP_DEPTH then Err(TooDeep) else Unwrap(g.members, depth + 1))
  {
    WrapperTypes(m);
  }

  lemma CollectionCase(m: Object, depth: nat)
    requires IsFeatureCollection(m)
    ensures var items := m["features"].items;
            && WellFormed(Obj(m)) == AllWellFormed(items) && Wrappers(Obj(m)) == 1 + MostWrappers(items)
            && Bare(Obj(m)) == Obj(Collection(AllBare(items)))
            && Unwrap(m, depth)
               == (if depth > MAX_UNWRAP_DEPTH then Err(TooDeep)
                   else match UnwrapAll(items, depth + 1) case Err(e) => Err(e) case Ok(gs) => Ok(Collection(gs)))
  {
    WrapperTypes(m);
    hide UnwrapAll, AllWellFormed, MostWrappers, AllBare;
  }

  lemma {:induction false} UnwrapAllIff(items: seq<Json>, depth: nat)
    ensures UnwrapAll(items, depth).Ok? <==> AllWellFormed(items) && (items == [] || Fits(MostWrappers(items), depth))
    ensures UnwrapAll(items, depth).Ok? ==> UnwrapAll(items, depth).value == AllBare(items)
    decreases items, 0
  {
    if items != [] {
      hide Unwrap, Wrappers, Bare;
      var n := |items| - 1;
      UnwrapAllIff(items[..n], depth);
      if items[n].Obj? {
        UnwrapIff(items[n].members, depth);
      }
      if n == 0 {
        assert items[..n] == [];
      }
    }
  }

  lemma {:induction false} BareIsGeometry(j: Json)
    requires WellFormed(j)
    ensures Bare(j).Obj? && BareGeometry(Bare(j).members)
    decreases j
  {
    WrapperTypes(j.members);
    if IsFeature(j.members) {
      BareIsGeometry(j.members["geometry"]);
    } else if IsFeatureCollection(j.members) {
      hide AllBare;
      var c := Collection(AllBare(j.members["features"].items));
      assert TypeOf(c) == "GeometryCollection" && HasArray(c, "geometries");
    }
  }

  /** The result is always a valid bare geometry, and unwrapping it again changes nothing. */
  lemma UnwrappedIsBare(m: Object, depth: nat, again: nat)
    requires Unwrap(m, depth).Ok? && again <= MAX_UNWRAP_DEPTH
    ensures BareGeometry(Unwrap(m, depth).value)
    ensures Unwrap(Unwrap(m, depth).value, again) == Ok(Unwrap(m, depth).value)
  {
    hide Bare, WellFormed, Wrappers;
    UnwrapIff(m, depth);
    BareIsGeometry(Obj(m));
    WrapperTypes(Unwrap(m, depth).value);
  }

  /** Each feature contributes exactly its own bare geometry, at its own place. */
  lemma {:induction false} OneMemberPerFeature(items: seq<Json>, i: nat)
    requires i < |items|
    ensures AllBare(items)[i] == Bare(items[i])
  {
    var n := |items| - 1;
    if i < n {
      hide Bare;
      OneMemberPerFeature(items[..n], i);
    }
  }

  // ----- the coordinate system

  const TWO_63 := 0x8000_0000_0000_0000
  const TWO_64 := 0x1_0000_0000_0000_0000

  /** Signed 64-bit wrap-around. */
  function Wrap64(n: int): int { (n + TWO_63) % TWO_64 - TWO_63 }

  predicate IsDigit(c: char) { '0' <= c <= '9' }

  function Digit(c: char): nat
    requires IsDigit(c)
  {
    (c - '0') as nat
  }

  /** The digits read so far as a machine integer; None once a character is not a digit. */
  function Accumulate(s: string): Option<int> {
    if s == "" then Some(0)
    else
      var before := Accumulate(s[..|s| - 1]);
      if before.None? || !IsDigit(s[|s| - 1]) then None
      else Some(Wrap64(before.value * 10 + Digit(s[|s| - 1])))
  }

  predicate AllDigits(s: string) { forall i :: 0 <= i < |s| ==> IsDigit(s[i]) }

  /** The number a string of digits denotes. */
  function Decimal(s: string): nat
    requires AllDigits(s)
  {
    if s == "" then 0 else Decimal(s[..|s| - 1]) * 10 + Digit(s[|s| - 1])
  }

  lemma WrapStep(n: int, d: int)
    ensures Wrap64(Wrap64(n) * 10 + d) == Wrap64(n * 10 + d)
  {
    var q := (n + TWO_63) / TWO_64;
    assert Wrap64(n) == n - q * TWO_64;
    WrapShift(n * 10 + d, -10 * q);
    assert Wrap64(n) * 10 + d == n * 10 + d + (-10 * q) * TWO_64;
  }

  lemma WrapShift(n: int, k: int)
    ensures Wrap64(n + k * TWO_64) == Wrap64(n)
  {
    var q, r := (n + TWO_63) / TWO_64, (n + TWO_63) % TWO_64;
    assert n + k * TWO_64 + TWO_63 == (q + k) * TWO_64 + r;
    DivUnique(n + k * TWO_64 + TWO_63, q + k, r);
  }

  lemma DivUnique(n: int, q: int, r: int)
    requires n == q * TWO_64 + r && 0 <= r < TWO_64
    ensures n % TWO_64 == r
  {
  }

  lemma {:induction false} AccumulatesDecimal(s: string)
    ensures Accumulate(s).Some? <==> AllDigits(s)
    ensures AllDigits(s) ==> Accumulate(s) == Some(Wrap64(Decimal(s)))
  {
    if s != "" {
      var n := |s| - 1;
      AccumulatesDecimal(s[..n]);
      assert s == s[..n] + [s[n]];
      if AllDigits(s) {
        WrapStep(Decimal(s[..n]), Digit(s[n]));
      }
    }
  }

  const CRS_PREFIXES: seq<string> := ["EPSG:", "urn:ogc:def:crs:EPSG::"]

  function CrsName(m: Object): string {
    if HasObject(m, "crs") && HasObject(m["crs"].members, "properties")
    then StringMember(m["crs"].members["properties"].members, "name")
    else ""
  }

  /** A name with a non-digit ends the search; a number that is not positive does not. */
  function SridFrom(name: string, prefixes: seq<string>): Option<int> {
    if prefixes == [] then None
    else if HasPrefix(name, prefixes[0]) then
      var n := Accumulate(name[|prefixes[0]|..]);
      if n.None? then None else if n.value > 0 then n else SridFrom(name, prefixes[1..])
    else SridFrom(name, prefixes[1..])
  }

  function ExplicitSrid(m: Object): Option<int> { SridFrom(CrsName(m), CRS_PREFIXES) }

  method ReadSrid(name: string) returns (srid: Option<int>)
    ensures srid == SridFrom(name, CRS_PREFIXES)
  {
    hide Accumulate;
    for i := 0 to |CRS_PREFIXES|
      invariant SridFrom(name, CRS_PREFIXES) == SridFrom(name, CRS_PREFIXES[i..])
    {
      assert CRS_PREFIXES[i..][1..] == CRS_PREFIXES[i + 1..];
      if HasPrefix(name, CRS_PREFIXES[i]) {
        var n := ReadDigits(name[|CRS_PREFIXES[i]|..]);
        if n.None? {
          return None;
        }
        if n.value > 0 {
          return n;
        }
      }
    }
    return None;
  }

  method ReadDigits(s: string) returns (r: Option<int>)
    ensures r == Accumulate(s)
  {
    var n := 0;
    for i := 0 to |s|
      invariant Accumulate(s[..i]) == Some(n)
    {
      assert s[..i + 1][..i] == s[..i];
      if !IsDigit(s[i]) {
        AccumulatesDecimal(s);
        return None;
      }
      n := Wrap64(n * 10 + Digit(s[i]));
    }
    assert s[..|s|] == s;
    r := Some(n);
  }

  lemma PrefixesDiffer(digits: string)
    ensures !HasPrefix("EPSG:" + digits, CRS_PREFIXES[1]) && !HasPrefix(CRS_PREFIXES[1] + digits, CRS_PREFIXES[0])
  {
    assert ("EPSG:" + digits)[0] == 'E' && CRS_PREFIXES[1][0] == 'u' && (CRS_PREFIXES[1] + digits)[0] == 'u';
  }

  /** Either prefix followed by digits gives that number exactly when it is positive and fits 64 bits. */
  lemma SridExactIff(prefix: string, digits: string)
    requires prefix in CRS_PREFIXES && AllDigits(digits)
    ensures SridFrom(prefix + digits, CRS_PREFIXES) == Some(Decimal(digits)) <==> 0 < Decimal(digits) < TWO_63
    ensures SridFrom(prefix + digits, CRS_PREFIXES)
         == if Wrap64(Decimal(digits)) > 0 then Some(Wrap64(Decimal(digits))) else None
  {
    hide Accumulate, Decimal;
    var name := prefix + digits;
    AccumulatesDecimal(digits);
    PrefixesDiffer(digits);
    assert name[|prefix|..] == digits && HasPrefix(name, prefix);
    assert CRS_PREFIXES[1..] == [CRS_PREFIXES[1]] && CRS_PREFIXES[1..][1..] == [];
    assert SridFrom(name, []) == None;
    WrapIdentity(Decimal(digits));
  }

  /** A number's decimal digits. */
  function Digits(n: nat): string {
    if n == 0 then "" else Digits(n / 10) + [(n % 10) as char + '0']
  }

  lemma {:induction false} DigitsDecimal(n: nat)
    ensures AllDigits(Digits(n)) && Decimal(Digits(n)) == n
  {
    if n > 0 {
      DigitsDecimal(n / 10);
      assert Digits(n)[..|Digits(n)| - 1] == Digits(n / 10);
    }
  }

  /** A name that denotes another number than it is read as: 2^64 + 3857 reads as 3857. */
  lemma SridWrapsAround()
    ensures AllDigits(Digits(TWO_64 + 3857)) && Decimal(Digits(TWO_64 + 3857)) == TWO_64 + 3857
    ensures SridFrom("EPSG:" + Digits(TWO_64 + 3857), CRS_PREFIXES) == Some(3857)
  {
    hide Digits, Decimal, SridFrom;
    DigitsDecimal(TWO_64 + 3857);
    assert CRS_PREFIXES[0] == "EPSG:";
    SridExactIff("EPSG:", Digits(TWO_64 + 3857));
    assert Wrap64(TWO_64 + 3857) == 3857;
  }

  /** Exactly which names give which SRID: one of the two prefixes, then digits of a number that stays positive. */
  lemma SridIff(name: string, n: int)
    ensures SridFrom(name, CRS_PREFIXES) == Some(n) <==>
            exists prefix, digits :: prefix in {"EPSG:", "urn:ogc:def:crs:EPSG::"} && name == prefix + digits
                                     && AllDigits(digits) && n == Wrap64(Decimal(digits)) && n > 0
  {
    hide Accumulate, Decimal;
    forall prefix, digits | prefix in {"EPSG:", "urn:ogc:def:crs:EPSG::"} && AllDigits(digits)
      ensures SridFrom(prefix + digits, CRS_PREFIXES)
           == if Wrap64(Decimal(digits)) > 0 then Some(Wrap64(Decimal(digits))) else None
    {
      assert CRS_PREFIXES[0] == "EPSG:" && CRS_PREFIXES[1] == "urn:ogc:def:crs:EPSG::";
      SridExactIff(prefix, digits);
    }
    if SridFrom(name, CRS_PREFIXES) == Some(n) {
      var prefix, digits := SridParts(name);
    }
  }

  lemma SridParts(name: string) returns (prefix: string, digits: string)
    requires SridFrom(name, CRS_PREFIXES).Some?
    ensures prefix in {"EPSG:", "urn:ogc:def:crs:EPSG::"} && name == prefix + digits && AllDigits(digits)
  {
    hide Accumulate;
    assert CRS_PREFIXES[1..] == [CRS_PREFIXES[1]] && CRS_PREFIXES[1..][1..] == [];
    assert SridFrom(name, []) == None;
    prefix := if HasPrefix(name, CRS_PREFIXES[0]) && Accumulate(name[|CRS_PREFIXES[0]|..]).Some?
                 && Accumulate(name[|CRS_PREFIXES[0]|..]).value > 0
              then CRS_PREFIXES[0] else CRS_PREFIXES[1];
    digits := name[|prefix|..];
    AccumulatesDecimal(digits);
  }

  /** The name is read off exactly these members. */
  lemma CrsNameIff(m: Object, name: string)
    requires name != ""
    ensures CrsName(m) == name <==>
            && "crs" in m && m["crs"].Obj? && "properties" in m["crs"].members && m["crs"].members["properties"].Obj?
            && "name" in m["crs"].members["properties"].members
            && m["crs"].members["properties"].members["name"] == Str(name)
  {
  }

  lemma WrapIdentity(n: nat)
    ensures Wrap64(n) == n <==> n < TWO_63
  {
  }

  const DEFAULT_SRID := 4326

  /** The SRID a document is given: the one its own CRS names, or that of plain GeoJSON. */
  function DocumentSrid(m: Object): int {
    match ExplicitSrid(m) case Some(n) => n case None => DEFAULT_SRID
  }

  // ----- the coordinate systems inside a document

  /** Every geometry of a document: those under its wrappers, and the members of collections. */
  function GeometriesIn(j: Json): set<Object>
    decreases j, 1
  {
    if !j.Obj? then {}
    else if IsFeature(j.members) then GeometriesIn(j.members["geometry"])
    else if IsFeatureCollection(j.members) then AllGeometriesIn(j.members["features"].items)
    else
      {j.members}
      + (if HasArray(j.members, "geometries") then AllGeometriesIn(j.members["geometries"].items) else {})
  }

  function AllGeometriesIn(items: seq<Json>): set<Object>
    decreases items, 0
  {
    if items == [] then {} else AllGeometriesIn(items[..|items| - 1]) + GeometriesIn(items[|items| - 1])
  }

  /** Every geometry that names a coordinate system names this one. */
  predicate AllNamed(geometries: set<Object>, srid: int) {
    forall g :: g in geometries ==> ExplicitSrid(g).None? || ExplicitSrid(g) == Some(srid)
  }

  /** Unwrapping neither loses nor invents a coordinate system. */
  lemma {:induction false} BareKeepsCrs(j: Json, srid: int)
    requires WellFormed(j)
    ensures AllNamed(GeometriesIn(Bare(j)), srid) <==> AllNamed(GeometriesIn(j), srid)
    decreases j, 1
  {
    WrapperTypes(j.members);
    hide AllNamed, AllGeometriesIn, AllBare, AllWellFormed;
    if IsFeature(j.members) {
      BareKeepsCrs(j.members["geometry"], srid);
    } else if IsFeatureCollection(j.members) {
      var items := j.members["features"].items;
      AllBareKeepsCrs(items, srid);
      CollectionHasNoCrs(AllBare(items), srid);
    }
  }

  lemma CollectionHasNoCrs(items: seq<Json>, srid: int)
    ensures AllNamed(GeometriesIn(Obj(Collection(items))), srid) <==> AllNamed(AllGeometriesIn(items), srid)
  {
    var c := Collection(items);
    assert TypeOf(c) == "GeometryCollection" && HasArray(c, "geometries") && "crs" !in c;
    CollectionIsBare(c);
    assert GeometriesIn(Obj(c)) == {c} + AllGeometriesIn(items);
    assert CrsName(c) == "";
    NoName();
  }

  lemma CollectionIsBare(c: Object)
    requires TypeOf(c) == "GeometryCollection"
    ensures !IsFeature(c) && !IsFeatureCollection(c)
  {
  }

  lemma {:induction false} AllBareKeepsCrs(items: seq<Json>, srid: int)
    requires AllWellFormed(items)
    ensures AllNamed(AllGeometriesIn(AllBare(items)), srid) <==> AllNamed(AllGeometriesIn(items), srid)
    decreases items, 0
  {
    if items != [] {
      hide GeometriesIn, Bare, WellFormed, ExplicitSrid;
      var n := |items| - 1;
      AllBareKeepsCrs(items[..n], srid);
      BareKeepsCrs(items[n], srid);
      assert AllBare(items)[..n] == AllBare(items[..n]);
    }
  }

  /**
   * Every geometry handed on with a coordinate system of its own is given that one exactly when every
   * geometry of the document names, if any, the system of the document itself: 4326 where it names none.
   */
  lemma CrsHonouredIff(m: Object)
    requires Unwrap(m, 0).Ok?
    ensures AllNamed(GeometriesIn(Obj(Unwrap(m, 0).value)), DocumentSrid(m))
            <==> AllNamed(GeometriesIn(Obj(m)), DocumentSrid(m))
  {
    hide Unwrap, WellFormed, Wrappers, Bare, GeometriesIn, AllNamed, DocumentSrid;
    UnwrapIff(m, 0);
    BareKeepsCrs(Obj(m), DocumentSrid(m));
  }

  /** A geometry that is not wrapped and has no members always gets the system it names. */
  lemma BareCrsHonoured(m: Object)
    requires BareGeometry(m) && !HasArray(m, "geometries")
    ensures AllNamed(GeometriesIn(Obj(m)), DocumentSrid(m))
  {
    WrapperTypes(m);
  }

  function NamedCrs(name: string): Json { Obj(map["properties" := Obj(map["name" := Str(name)])]) }

  function NamedPoint(name: string): Object {
    map["type" := Str("Point"), "coordinates" := Arr([Number(1), Number(2)]), "crs" := NamedCrs(name)]
  }

  function FeatureOf(geometry: Object): Object { map["type" := Str("Feature"), "geometry" := Obj(geometry)] }

  /** A feature around a point in EPSG:3857: the point keeps its CRS, and is given 4326. */
  lemma FeatureCrsIgnored()
    ensures var p := NamedPoint("EPSG:3857");
            && Unwrap(FeatureOf(p), 0) == Ok(p)
            && ExplicitSrid(p) == Some(3857) && DocumentSrid(FeatureOf(p)) == 4326
            && !AllNamed(GeometriesIn(Obj(FeatureOf(p))), DocumentSrid(FeatureOf(p)))
  {
    var p := NamedPoint("EPSG:3857");
    var m := FeatureOf(p);
    PointIsBare("EPSG:3857");
    FeatureUnwraps(p);
    Epsg3857();
    assert CrsName(p) == "EPSG:3857" && CrsName(m) == "";
    hide Unwrap, GeometriesIn, NamedPoint, FeatureOf;
    NoName();
    assert p in GeometriesIn(Obj(m));
  }

  lemma NoName()
    ensures SridFrom("", CRS_PREFIXES).None?
  {
    assert CRS_PREFIXES[1..][1..] == [];
    assert !HasPrefix("", CRS_PREFIXES[0]) && !HasPrefix("", CRS_PREFIXES[1]);
  }

  lemma PointIsBare(name: string)
    ensures var p := NamedPoint(name);
            BareGeometry(p) && CrsName(p) == name && !IsFeature(p) && !IsFeatureCollection(p)
  {
    var p := NamedPoint(name);
    assert TypeOf(p) == "Point" && HasArray(p, "coordinates");
  }

  lemma FeatureUnwraps(p: Object)
    requires BareGeometry(p) && !IsFeature(p) && !IsFeatureCollection(p)
    ensures Unwrap(FeatureOf(p), 0) == Ok(p) && p in GeometriesIn(Obj(FeatureOf(p))) && CrsName(FeatureOf(p)) == ""
  {
    var m := FeatureOf(p);
    assert TypeOf(m) == "Feature" && HasObject(m, "geometry") && m["geometry"] == Obj(p);
    FeatureCase(m, 0);
    WrapperTypes(p);
    assert GeometriesIn(Obj(m)) == GeometriesIn(Obj(p));
  }

  lemma Epsg3857()
    ensures SridFrom("EPSG:3857", CRS_PREFIXES) == Some(3857)
  {
    assert "3857"[..3] == "385" && "385"[..2] == "38" && "38"[..1] == "3" && "3"[..0] == "";
    assert Decimal("3") == 3 && Decimal("38") == 38 && Decimal("385") == 385 && Decimal("3857") == 3857;
    assert CRS_PREFIXES[0] + "3857" == "EPSG:3857";
    hide Decimal, SridFrom;
    SridExactIff(CRS_PREFIXES[0], "3857");
  }
}
