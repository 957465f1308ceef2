/**
 * Spatial input (postgis/postgis.go): a GeoJSON document or a WKT string becomes one SQL parameter
 * and an expression around its placeholder.
 */
module SpatialValues {
  import opened Sequences
  import opened Strings
  import opened GeoJson

  datatype Flavour = NotSpatial | Geometry | Geography

  /** What a caller passes in; anything but a string or an object is refused. */
  datatype Input = TextInput(text: string) | DocumentInput(members: Object) | OtherInput

  /** The parameter: the geometry, re-encoded as text, or the trimmed string. */
  datatype Param = GeoJsonText(geometry: Object) | WktText(text: string)

  /** An SRID of zero is not applied. */
  datatype Value = Value(param: Param, ctor: string, flavour: Flavour, srid: int)

  datatype InputError = NotASpatialType | NotAnInput | EmptyText | NotWkt | BadDocument(error: GeoJson.Error)

  datatype Parsed = Accepted(value: Value) | Refused(error: InputError)

  // ----- strings

  const SRID_PREFIX := "srid="

  function FindChar(s: string, c: char): (n: nat)
    ensures n <= |s| && c !in s[..n]
    ensures n < |s| ==> s[n] == c
  {
    if s == "" || s[0] == c then 0 else 1 + FindChar(s[1..], c)
  }

  /** "SRID=", digits and a semicolon in front of the text proper. */
  function CutEwktPrefix(s: string): Option<string> {
    if |s| < 5 || ToLower(s[..5]) != SRID_PREFIX then None
    else
      var semi := FindChar(s, ';');
      if semi == |s| || semi <= 5 || !AllDigits(s[5..semi]) then None
      else Some(TrimSpace(s[semi + 1..]))
  }

  method ReadEwktPrefix(s: string) returns (rest: Option<string>)
    ensures rest == CutEwktPrefix(s)
  {
    hide TrimSpace;
    if |s| < 5 || ToLower(s[..5]) != SRID_PREFIX {
      return None;
    }
    var semi := FindChar(s, ';');
    if semi == |s| || semi <= 5 {
      return None;
    }
    var digits := s[5..semi];
    for i := 0 to |digits|
      invariant forall k :: 0 <= k < i ==> IsDigit(digits[k])
    {
      if !IsDigit(digits[i]) {
        return None;
      }
    }
    return Some(TrimSpace(s[semi + 1..]));
  }

  const WKT_TYPES: seq<string> :=
    ["POINT", "LINESTRING", "POLYGON", "MULTIPOINT", "MULTILINESTRING", "MULTIPOLYGON", "GEOMETRYCOLLECTION",
     "CIRCULARSTRING", "COMPOUNDCURVE", "CURVEPOLYGON", "MULTICURVE", "MULTISURFACE", "POLYHEDRALSURFACE",
     "TRIANGLE", "TIN"]

  function CutPrefix(s: string, prefix: string): string { if HasPrefix(s, prefix) then s[|prefix|..] else s }

  /** The three dimension marks are cut one after the other. */
  function AfterMarks(rest: string): string { CutPrefix(CutPrefix(CutPrefix(rest, "ZM"), "Z"), "M") }

  predicate Opens(rest: string) { HasPrefix(rest, "(") || HasPrefix(rest, "EMPTY") }

  predicate BodyAfter(upper: string, keyword: string) {
    HasPrefix(upper, keyword) && Opens(TrimSpace(AfterMarks(TrimSpace(upper[|keyword|..]))))
  }

  predicate LooksLikeWkt(s: string) {
    exists i :: 0 <= i < |WKT_TYPES| && BodyAfter(ToUpper(TrimSpace(s)), WKT_TYPES[i])
  }

  method ScanKeywords(s: string) returns (found: bool)
    ensures found <==> LooksLikeWkt(s)
  {
    hide BodyAfter, TrimSpace;
    var upper := ToUpper(TrimSpace(s));
    for i := 0 to |WKT_TYPES|
      invariant forall k :: 0 <= k < i ==> !BodyAfter(upper, WKT_TYPES[k])
    {
      if BodyAfter(upper, WKT_TYPES[i]) {
        return true;
      }
    }
    return false;
  }

  /** What may stand between the keyword and the body: more than the four marks that exist. */
  const MARKS: seq<string> := ["", "Z", "M", "ZM", "ZMZ", "ZMM", "ZMZM"]

  lemma MarksIff(rest: string, tail: string)
    requires tail != "" && tail[0] != 'Z' && tail[0] != 'M'
    ensures AfterMarks(rest) == tail <==> exists i :: 0 <= i < |MARKS| && rest == MARKS[i] + tail
  {
    if AfterMarks(rest) == tail {
      MarksFound(rest);
    }
    if i :| 0 <= i < |MARKS| && rest == MARKS[i] + tail {
      MarksCut(i, tail);
    }
  }

  lemma CutPrefixSplits(s: string, prefix: string)
    ensures s == (if HasPrefix(s, prefix) then prefix else "") + CutPrefix(s, prefix)
  {
  }

  lemma MarksFound(rest: string)
    ensures exists i :: 0 <= i < |MARKS| && rest == MARKS[i] + AfterMarks(rest)
  {
    hide MARKS, CutPrefix, HasPrefix;
    var a := CutPrefix(rest, "ZM");
    var b := CutPrefix(a, "Z");
    CutPrefixSplits(rest, "ZM");
    CutPrefixSplits(a, "Z");
    CutPrefixSplits(b, "M");
    MarksListed(!HasPrefix(rest, "ZM"), !HasPrefix(a, "Z"), !HasPrefix(b, "M"), rest, AfterMarks(rest));
  }

  lemma MarksListed(none1: bool, none2: bool, none3: bool, rest: string, tail: string)
    requires rest == (if none1 then "" else "ZM") + ((if none2 then "" else "Z") + ((if none3 then "" else "M") + tail))
    ensures exists i :: 0 <= i < |MARKS| && rest == MARKS[i] + tail
  {
    if none1 && none2 && none3 {
      assert rest == MARKS[0] + tail;
    } else if none1 && !none2 && none3 {
      assert rest == MARKS[1] + tail;
    } else if none1 && none2 {
      assert rest == MARKS[2] + tail;
    } else if none1 {
      assert rest == MARKS[3] + tail;
    } else if none2 && none3 {
      assert rest == MARKS[3] + tail;
    } else if none3 {
      assert rest == MARKS[4] + tail;
    } else if none2 {
      assert rest == MARKS[5] + tail;
    } else {
      assert rest == MARKS[6] + tail;
    }
  }

  lemma MarksCut(i: nat, tail: string)
    requires i < |MARKS| && tail != "" && tail[0] != 'Z' && tail[0] != 'M'
    ensures AfterMarks(MARKS[i] + tail) == tail
  {
    var rest := MARKS[i] + tail;
    var marks := MARKS[i];
    assert forall k :: 0 <= k < |marks| ==> rest[k] == marks[k];
    assert rest[|marks|..] == tail;
  }

  lemma OpeningTail(tail: string)
    requires Opens(TrimSpace(tail))
    ensures tail != "" && tail[0] != 'Z' && tail[0] != 'M'
  {
    if tail != "" && !IsSpace(tail[0]) {
      TrimRightEnds(tail);
    }
  }

  /** The keyword, then marks, then a parenthesis or EMPTY. */
  ghost predicate KeywordMarksBody(upper: string, keyword: string) {
    HasPrefix(upper, keyword)
    && exists i, tail :: 0 <= i < |MARKS| && TrimSpace(upper[|keyword|..]) == MARKS[i] + tail && Opens(TrimSpace(tail))
  }

  lemma BodyAfterIff(upper: string, keyword: string)
    ensures BodyAfter(upper, keyword) <==> KeywordMarksBody(upper, keyword)
  {
    hide TrimSpace, AfterMarks, Opens;
    if HasPrefix(upper, keyword) {
      var rest := TrimSpace(upper[|keyword|..]);
      if Opens(TrimSpace(AfterMarks(rest))) {
        OpeningTail(AfterMarks(rest));
        MarksIff(rest, AfterMarks(rest));
      }
      if i, tail :| 0 <= i < |MARKS| && rest == MARKS[i] + tail && Opens(TrimSpace(tail)) {
        OpeningTail(tail);
        MarksIff(rest, tail);
      }
    }
  }

  /** The geometry keywords. */
  predicate Keyword(k: string) {
    k in {"POINT", "LINESTRING", "POLYGON", "MULTIPOINT", "MULTILINESTRING", "MULTIPOLYGON", "GEOMETRYCOLLECTION",
          "CIRCULARSTRING", "COMPOUNDCURVE", "CURVEPOLYGON", "MULTICURVE", "MULTISURFACE", "POLYHEDRALSURFACE",
          "TRIANGLE", "TIN"}
  }

  lemma KeywordListed(k: string)
    ensures Keyword(k) <==> k in WKT_TYPES
  {
  }

  /** What passes for WKT, whatever its case and outer spaces. */
  lemma LooksLikeWktIff(s: string)
    ensures LooksLikeWkt(s) <==> exists k :: Keyword(k) && KeywordMarksBody(ToUpper(TrimSpace(s)), k)
  {
    hide BodyAfter, KeywordMarksBody, TrimSpace, ToUpper, Keyword;
    forall k
      ensures Keyword(k) <==> k in WKT_TYPES
    {
      KeywordListed(k);
    }
    forall k | 0 <= k < |WKT_TYPES|
      ensures BodyAfter(ToUpper(TrimSpace(s)), WKT_TYPES[k]) <==> KeywordMarksBody(ToUpper(TrimSpace(s)), WKT_TYPES[k])
    {
      BodyAfterIff(ToUpper(TrimSpace(s)), WKT_TYPES[k]);
    }
  }

  // ----- parsing

  function ParseText(s: string, f: Flavour): Parsed {
    var trimmed := TrimSpace(s);
    if trimmed == "" then Refused(EmptyText)
    else
      var cut := CutEwktPrefix(trimmed);
      if !LooksLikeWkt(if cut.Some? then cut.value else trimmed) then Refused(NotWkt)
      else Accepted(Value(WktText(trimmed), "ST_GeomFromEWKT", f,
                          if cut.None? && f == Geography then DEFAULT_SRID else 0))
  }

  function ParseDocument(m: Object, f: Flavour): Parsed {
    match Unwrap(m, 0)
    case Err(e) => Refused(BadDocument(e))
    case Ok(g) => Accepted(Value(GeoJsonText(g), "ST_GeomFromGeoJSON", f, DocumentSrid(m)))
  }

  function ParseInput(v: Input, f: Flavour): Parsed {
    if f == NotSpatial then Refused(NotASpatialType)
    else
      match v
      case TextInput(s) => ParseText(s, f)
      case DocumentInput(m) => ParseDocument(m, f)
      case OtherInput => Refused(NotAnInput)
  }

  method ParseWkt(s: string, f: Flavour) returns (r: Parsed)
    ensures r == ParseText(s, f)
  {
    hide TrimSpace, CutEwktPrefix, LooksLikeWkt;
    var trimmed := TrimSpace(s);
    if trimmed == "" {
      return Refused(EmptyText);
    }
    var body, hasSrid := trimmed, false;
    var rest := ReadEwktPrefix(trimmed);
    if rest.Some? {
      body, hasSrid := rest.value, true;
    }
    var valid := ScanKeywords(body);
    if !valid {
      return Refused(NotWkt);
    }
    var value := Value(WktText(trimmed), "ST_GeomFromEWKT", f, 0);
    if !hasSrid && f == Geography {
      value := value.(srid := DEFAULT_SRID);
    }
    return Accepted(value);
  }

  /** The CRS is read from the document as given, the geometry from inside its wrappers. */
  method ParseGeoJSON(m: Object, f: Flavour) returns (r: Parsed)
    ensures r == ParseDocument(m, f)
  {
    hide Unwrap, SridFrom;
    var geometry := UnwrapGeoJSON(m, 0);
    if geometry.Err? {
      return Refused(BadDocument(geometry.error));
    }
    var value := Value(GeoJsonText(geometry.value), "ST_GeomFromGeoJSON", f, DEFAULT_SRID);
    var srid := ReadSrid(CrsName(m));
    if srid.Some? {
      value := value.(srid := srid.value);
    }
    return Accepted(value);
  }

  // ----- the SQL text

  function Decimals(n: int): string { if n < 0 then "-" + Digits(-n) else Digits(n) }

  function SqlText(v: Value, placeholder: string): string {
    var call := v.ctor + "(" + placeholder + ")";
    var placed := if v.srid != 0 then "ST_SetSRID(" + call + ", " + Decimals(v.srid) + ")" else call;
    if v.flavour == Geography then "(" + placed + ")::geography" else placed
  }

  lemma DigitsInjective(n: nat, m: nat)
    ensures Digits(n) == Digits(m) <==> n == m
  {
    DigitsDecimal(n);
    DigitsDecimal(m);
  }

  /** Only positive numbers are ever read from a CRS. */
  lemma {:induction false} SridPositive(name: string, prefixes: seq<string>)
    ensures SridFrom(name, prefixes).Some? ==> SridFrom(name, prefixes).value > 0
  {
    if prefixes != [] {
      hide Accumulate;
      SridPositive(name, prefixes[1..]);
    }
  }

  lemma DocumentSridPositive(m: Object)
    ensures DocumentSrid(m) > 0
  {
    hide SridFrom;
    SridPositive(CrsName(m), CRS_PREFIXES);
  }

  lemma Between(a: string, x: string, y: string, b: string)
    ensures a + x + b == a + y + b <==> x == y
  {
    if a + x + b == a + y + b {
      assert |x| == |y|;
      assert x == (a + x + b)[|a|..|a| + |x|] && y == (a + y + b)[|a|..|a| + |y|];
    }
  }

  /** Two values of one constructor, type and placeholder give one text exactly when their SRIDs are the same. */
  lemma SqlTextIff(v: Value, w: Value, placeholder: string)
    requires v.ctor == w.ctor && v.flavour == w.flavour && v.srid >= 0 && w.srid >= 0
    ensures SqlText(v, placeholder) == SqlText(w, placeholder) <==> v.srid == w.srid
  {
    hide Digits;
    var call := v.ctor + "(" + placeholder + ")";
    var x := if v.srid != 0 then "ST_SetSRID(" + call + ", " + Digits(v.srid) + ")" else call;
    var y := if w.srid != 0 then "ST_SetSRID(" + call + ", " + Digits(w.srid) + ")" else call;
    Between("(", x, y, ")::geography");
    Between("ST_SetSRID(" + call + ", ", Digits(v.srid), Digits(w.srid), ")");
    DigitsInjective(v.srid, w.srid);
    assert v.srid != 0 ==> |"ST_SetSRID(" + call + ", " + Digits(v.srid) + ")"| > |call|;
    assert w.srid != 0 ==> |"ST_SetSRID(" + call + ", " + Digits(w.srid) + ")"| > |call|;
  }

  /**
   * For documents the text is fixed by the column's type exactly among documents of one SRID: a value
   * changes it exactly when its explicit SRID is another one than that of plain GeoJSON.
   */
  lemma DocumentTextIff(m: Object, plain: Object, f: Flavour, placeholder: string)
    requires ParseDocument(m, f).Accepted? && ParseDocument(plain, f).Accepted? && ExplicitSrid(plain).None?
    ensures SqlText(ParseDocument(m, f).value, placeholder) == SqlText(ParseDocument(plain, f).value, placeholder)
            <==> ExplicitSrid(m).None? || ExplicitSrid(m) == Some(DEFAULT_SRID)
  {
    hide Unwrap, ExplicitSrid, SqlText;
    DocumentSridPositive(m);
    DocumentSridPositive(plain);
    SqlTextIff(ParseDocument(m, f).value, ParseDocument(plain, f).value, placeholder);
  }

  /** For strings: a geography column's text shows whether the value carries an SRID; a geometry column's does not. */
  lemma WktTextIff(s: string, t: string, f: Flavour, placeholder: string)
    requires ParseText(s, f).Accepted? && ParseText(t, f).Accepted?
    ensures SqlText(ParseText(s, f).value, placeholder) == SqlText(ParseText(t, f).value, placeholder)
            <==> f != Geography || (CutEwktPrefix(TrimSpace(s)).None? <==> CutEwktPrefix(TrimSpace(t)).None?)
  {
    hide TrimSpace, CutEwktPrefix, LooksLikeWkt, SqlText;
    SqlTextIff(ParseText(s, f).value, ParseText(t, f).value, placeholder);
  }

  /** A point in EPSG:3857 and one without CRS: two values of one column, two texts. */
  lemma ExplicitSridShows(placeholder: string)
    ensures var m, plain := NamedPoint("EPSG:3857"), NamedPoint("");
            && ParseDocument(m, Geometry).Accepted? && ParseDocument(plain, Geometry).Accepted?
            && SqlText(ParseDocument(m, Geometry).value, placeholder)
               != SqlText(ParseDocument(plain, Geometry).value, placeholder)
  {
    PointIsBare("EPSG:3857");
    PointIsBare("");
    Epsg3857();
    NoName();
    WrapperTypes(NamedPoint("EPSG:3857"));
    WrapperTypes(NamedPoint(""));
    assert Unwrap(NamedPoint("EPSG:3857"), 0).Ok? && Unwrap(NamedPoint(""), 0).Ok?;
    hide Unwrap, SqlText, SridFrom, NamedPoint;
    DocumentTextIff(NamedPoint("EPSG:3857"), NamedPoint(""), Geometry, placeholder);
  }

  lemma TrimmedKeyword(upper: string, tail: string)
    requires upper == "POINT" + tail && Trimmed(upper) && ToUpper(upper) == upper
    requires Opens(TrimSpace(AfterMarks(TrimSpace(tail))))
    ensures LooksLikeWkt(upper)
  {
    TrimSpaceOfTrimmed(upper);
    assert upper[5..] == tail && WKT_TYPES[0] == "POINT" && HasPrefix(upper, "POINT");
    hide TrimSpace, AfterMarks, Opens, ToUpper;
    assert BodyAfter(upper, WKT_TYPES[0]);
  }

  lemma PlainPoint()
    ensures LooksLikeWkt("POINT(1 2)") && TrimSpace("POINT(1 2)") == "POINT(1 2)"
    ensures CutEwktPrefix("POINT(1 2)").None?
  {
    assert Trimmed("POINT(1 2)") && Trimmed("(1 2)");
    assert ToUpper("POINT(1 2)") == "POINT(1 2)" && "POINT(1 2)" == "POINT" + "(1 2)";
    assert ToLower("POINT(1 2)"[..5])[0] == 'p' && SRID_PREFIX[0] == 's';
    hide TrimSpace, ToUpper, ToLower;
    TrimSpaceOfTrimmed("POINT(1 2)");
    TrimSpaceOfTrimmed("(1 2)");
    assert AfterMarks("(1 2)") == "(1 2)" && Opens("(1 2)");
    TrimmedKeyword("POINT(1 2)", "(1 2)");
  }

  lemma PrefixedPoint()
    ensures var s := "SRID=0;POINT(1 2)";
            TrimSpace(s) == s && CutEwktPrefix(s) == Some("POINT(1 2)")
  {
    var s := "SRID=0;POINT(1 2)";
    PrefixFound();
    hide TrimSpace, FindChar, ToLower, CutEwktPrefix;
    TrimSpaceOfTrimmed(s);
    PlainPoint();
    PrefixCut(s, 6);
  }

  lemma PrefixFound()
    ensures var s := "SRID=0;POINT(1 2)";
            && Trimmed(s) && ToLower(s[..5]) == SRID_PREFIX && s[6] == ';' && ';' !in s[..6]
            && AllDigits(s[5..6]) && s[7..] == "POINT(1 2)"
  {
  }

  lemma PrefixCut(s: string, semi: nat)
    requires 5 < semi < |s| && ToLower(s[..5]) == SRID_PREFIX && s[semi] == ';' && ';' !in s[..semi]
    requires AllDigits(s[5..semi])
    ensures CutEwktPrefix(s) == Some(TrimSpace(s[semi + 1..]))
  {
    hide TrimSpace, ToLower;
    var n := FindChar(s, ';');
    assert !(semi < n) && !(n < semi);
  }

  /** A point with an SRID prefix and one without: two values of one geography column, two texts. */
  lemma SridPrefixShows(placeholder: string)
    ensures var s, t := "SRID=0;POINT(1 2)", "POINT(1 2)";
            && ParseText(s, Geography).Accepted? && ParseText(t, Geography).Accepted?
            && SqlText(ParseText(s, Geography).value, placeholder)
               != SqlText(ParseText(t, Geography).value, placeholder)
  {
    hide TrimSpace, CutEwktPrefix, LooksLikeWkt, SqlText;
    PlainPoint();
    PrefixedPoint();
    WktTextIff("SRID=0;POINT(1 2)", "POINT(1 2)", Geography, placeholder);
  }

  /** Marks that exist in no dialect of WKT. */
  lemma RepeatedMarksPass()
    ensures LooksLikeWkt("POINTZMZM(1 2)")
  {
    var tail := "ZMZM(1 2)";
    assert Trimmed("POINTZMZM(1 2)") && Trimmed(tail) && Trimmed("(1 2)");
    assert ToUpper("POINTZMZM(1 2)") == "POINTZMZM(1 2)" && "POINTZMZM(1 2)" == "POINT" + tail;
    assert tail == MARKS[6] + "(1 2)" && Opens("(1 2)");
    hide TrimSpace, ToUpper, AfterMarks, Opens;
    MarksCut(6, "(1 2)");
    TrimSpaceOfTrimmed(tail);
    TrimSpaceOfTrimmed("(1 2)");
    TrimmedKeyword("POINTZMZM(1 2)", tail);
  }

  // ----- the texts themselves

  /** The four expressions, placeholder and all. */
  lemma SqlTexts(param: Param)
    ensures SqlText(Value(param, "ST_GeomFromGeoJSON", Geometry, 4326), "$1")
            == "ST_SetSRID(ST_GeomFromGeoJSON($1), 4326)"
    ensures SqlText(Value(param, "ST_GeomFromGeoJSON", Geography, 4326), "$1")
            == "(" + "ST_SetSRID(ST_GeomFromGeoJSON($1), 4326)" + ")::geography"
    ensures SqlText(Value(param, "ST_GeomFromEWKT", Geometry, 0), "$2") == "ST_GeomFromEWKT($2)"
    ensures SqlText(Value(param, "ST_GeomFromEWKT", Geography, 0), "$2") == "(ST_GeomFromEWKT($2))::geography"
  {
    Digits4326();
    hide Digits;
    var call := "ST_GeomFromGeoJSON" + "(" + "$1" + ")";
    assert call == "ST_GeomFromGeoJSON($1)";
    var placed := "ST_SetSRID(" + call + ", " + "4326" + ")";
    assert placed == "ST_SetSRID(ST_GeomFromGeoJSON($1), 4326)";
  }

  lemma Digits4326()
    ensures Digits(4326) == "4326"
  {
    assert Digits(4) == "4" && Digits(43) == "43" && Digits(432) == "432";
  }

  /** Exactly what counts as an SRID prefix, and what is left of it. */
  lemma EwktPrefixIff(s: string, body: string)
    ensures CutEwktPrefix(s) == Some(body) <==>
            exists p, digits, rest :: s == p + digits + ";" + rest && ToLower(p) == "srid=" && digits != ""
                                      && AllDigits(digits) && body == TrimSpace(rest)
  {
    hide TrimSpace, ToLower;
    if CutEwktPrefix(s) == Some(body) {
      var semi := FindChar(s, ';');
      var p, digits, rest := s[..5], s[5..semi], s[semi + 1..];
      assert s == p + digits + ";" + rest;
    }
    if p, digits, rest :| s == p + digits + ";" + rest && ToLower(p) == "srid=" && digits != ""
                          && AllDigits(digits) && body == TrimSpace(rest) {
      PrefixParts(s, p, digits, rest);
      PrefixCut(s, |p| + |digits|);
    }
  }

  lemma PrefixParts(s: string, p: string, digits: string, rest: string)
    requires s == p + digits + ";" + rest && ToLower(p) == "srid=" && digits != "" && AllDigits(digits)
    ensures |p| == 5 && s[..5] == p && s[5..5 + |digits|] == digits && s[5 + |digits|] == ';'
    ensures ';' !in s[..5 + |digits|] && s[5 + |digits| + 1..] == rest
  {
    assert |p| == |ToLower(p)| == 5;
    forall i | 0 <= i < 5
      ensures p[i] != ';'
    {
      assert ToLower(p)[i] == LowerChar(p[i]) && ToLower(p)[i] in "srid=";
    }
    forall i | 0 <= i < 5 + |digits|
      ensures s[i] != ';'
    {
      assert s[i] == if i < 5 then p[i] else digits[i - 5];
    }
  }

  // ----- what is accepted, and as what

  /** Strings: a spatial column, a body that passes behind any SRID prefix, and 4326 on a geography without one. */
  lemma TextAcceptedIff(s: string, f: Flavour, v: Value)
    ensures ParseInput(TextInput(s), f) == Accepted(v) <==>
            var trimmed := TrimSpace(s);
            var cut := CutEwktPrefix(trimmed);
            && (f == Geometry || f == Geography)
            && LooksLikeWkt(if cut.Some? then cut.value else trimmed)
            && v == Value(WktText(trimmed), "ST_GeomFromEWKT", f, if f == Geography && cut.None? then 4326 else 0)
  {
    NothingIsWkt();
    hide TrimSpace, CutEwktPrefix, LooksLikeWkt;
    ShortHasNoPrefix("");
  }

  lemma NothingIsWkt()
    ensures !LooksLikeWkt("")
  {
    assert ToUpper(TrimSpace("")) == "";
    assert forall i :: 0 <= i < |WKT_TYPES| ==> WKT_TYPES[i] != "";
  }

  lemma ShortHasNoPrefix(s: string)
    requires |s| < 5
    ensures CutEwktPrefix(s).None?
  {
  }

  /** Documents: a spatial column, a well-formed document of at most 8 wrappers, its bare form, its SRID or 4326. */
  lemma DocumentAcceptedIff(m: Object, f: Flavour, v: Value)
    ensures ParseInput(DocumentInput(m), f) == Accepted(v) <==>
            && (f == Geometry || f == Geography)
            && WellFormed(Obj(m)) && Wrappers(Obj(m)) <= 8
            && v.param.GeoJsonText? && Obj(v.param.geometry) == Bare(Obj(m)) && v.ctor == "ST_GeomFromGeoJSON"
            && v.flavour == f && v.srid == match ExplicitSrid(m) case Some(n) => n case None => 4326
  {
    hide Unwrap, WellFormed, Wrappers, Bare, ExplicitSrid;
    UnwrapIff(m, 0);
  }
}
