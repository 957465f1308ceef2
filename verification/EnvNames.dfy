/**
 * Configuration from environment variables (confx/load.go): how a variable name becomes a
 * configuration path, which paths hold lists, and how their values are split.
 */
module EnvNames {
  import opened Sequences
  import opened Strings

  const NUL: char := '\0'

  function TrimPrefix(s: string, prefix: string): string { if HasPrefix(s, prefix) then s[|prefix|..] else s }

  function ReplaceChar(s: string, old': char, new': char): string {
    seq(|s|, i requires 0 <= i < |s| => if s[i] == old' then new' else s[i])
  }

  /** Leftmost non-overlapping replacement of "__". */
  function ReplaceDouble(s: string): string {
    if |s| >= 2 && s[0] == '_' && s[1] == '_' then [NUL] + ReplaceDouble(s[2..])
    else if s == "" then ""
    else [s[0]] + ReplaceDouble(s[1..])
  }

  /** Strips the prefix; "__" stands for '_' and a single '_' for '.'. */
  function MapKey(prefix: string, name: string): string {
    ReplaceChar(ReplaceChar(ReplaceDouble(ToLower(TrimPrefix(name, prefix))), '_', '.'), NUL, '_')
  }

  /** The variable name meant for a path. */
  function Encode(path: string): string {
    if path == "" then ""
    else (if path[0] == '.' then "_" else if path[0] == '_' then "__" else [path[0]]) + Encode(path[1..])
  }

  function EnvName(prefix: string, path: string): string { prefix + ToUpper(Encode(path)) }

  // ----- when names round trip

  /** The three replacements as one left-to-right pass. */
  function Decode(s: string): string {
    if |s| >= 2 && s[0] == '_' && s[1] == '_' then "_" + Decode(s[2..])
    else if s == "" then ""
    else [if s[0] == '_' then '.' else if s[0] == NUL then '_' else s[0]] + Decode(s[1..])
  }

  function Mark(s: string): string { ReplaceChar(ReplaceChar(s, '_', '.'), NUL, '_') }

  lemma MarkCons(c: char, s: string)
    ensures Mark([c] + s) == [if c == '_' then '.' else if c == NUL then '_' else c] + Mark(s)
  {
  }

  lemma {:induction false} DecodeIsMark(s: string)
    ensures Mark(ReplaceDouble(s)) == Decode(s)
  {
    hide Mark;
    if |s| >= 2 && s[0] == '_' && s[1] == '_' {
      DecodeIsMark(s[2..]);
      MarkCons(NUL, ReplaceDouble(s[2..]));
    } else if s == "" {
      EmptyMark();
    } else {
      DecodeIsMark(s[1..]);
      MarkCons(s[0], ReplaceDouble(s[1..]));
    }
  }

  lemma EmptyMark()
    ensures Mark("") == ""
  {
  }

  predicate NoUpper(s: string) { forall i :: 0 <= i < |s| ==> !('A' <= s[i] <= 'Z') }

  predicate NoNul(s: string) { forall i :: 0 <= i < |s| ==> s[i] != NUL }

  /** No level separator is followed by another one or by an underscore. */
  predicate Separated(path: string) {
    forall i :: 0 <= i < |path| - 1 && path[i] == '.' ==> path[i + 1] != '.' && path[i + 1] != '_'
  }

  lemma SeparatedCons(path: string)
    requires path != ""
    ensures Separated(path) <==>
            Separated(path[1..]) && !(path[0] == '.' && |path| > 1 && (path[1] == '.' || path[1] == '_'))
  {
    if Separated(path[1..]) && !(path[0] == '.' && |path| > 1 && (path[1] == '.' || path[1] == '_')) {
      forall i | 0 <= i < |path| - 1 && path[i] == '.'
        ensures path[i + 1] != '.' && path[i + 1] != '_'
      {
        if i > 0 {
          assert path[1..][i - 1] == '.' && path[1..][i] == path[i + 1];
        }
      }
    }
    if Separated(path) {
      assert forall i :: 0 <= i < |path[1..]| ==> path[1..][i] == path[i + 1];
    }
  }

  lemma {:induction false} DecodeEncodeIff(path: string)
    requires NoNul(path)
    ensures Decode(Encode(path)) == path <==> Separated(path)
  {
    if path != "" {
      var rest := path[1..];
      DecodeEncodeIff(rest);
      SeparatedCons(path);
      assert path == [path[0]] + rest;
      if path[0] == '_' {
        assert Encode(path)[2..] == Encode(rest);
        assert Decode(Encode(path)) == "_" + Decode(Encode(rest));
      } else {
        assert Encode(path)[1..] == Encode(rest);
        if path[0] == '.' && rest != "" && (rest[0] == '.' || rest[0] == '_') {
          assert Encode(rest)[0] == '_';
          assert Decode(Encode(path))[0] == '_';
        } else if path[0] == '.' {
          assert rest != "" ==> Encode(rest)[0] == rest[0];
          assert Decode(Encode(path)) == "." + Decode(Encode(rest));
        } else {
          assert Decode(Encode(path)) == [path[0]] + Decode(Encode(rest));
        }
      }
    }
  }

  lemma {:induction false} EncodeKeepsCase(path: string)
    ensures NoUpper(path) ==> NoUpper(Encode(path))
  {
    if path != "" {
      EncodeKeepsCase(path[1..]);
    }
  }

  lemma {:induction false} DecodeIsClean(s: string)
    ensures NoNul(Decode(s))
    ensures NoUpper(s) ==> NoUpper(Decode(s))
  {
    if |s| >= 2 && s[0] == '_' && s[1] == '_' {
      DecodeIsClean(s[2..]);
    } else if s != "" {
      DecodeIsClean(s[1..]);
    }
  }

  lemma LowerHasNoUpper(s: string)
    ensures NoUpper(ToLower(s))
  {
  }

  /**
   * A path survives encoding and mapping exactly when it has no upper-case letter, no NUL, and no
   * separator directly before another separator or an underscore.
   */
  lemma RoundTripIff(prefix: string, path: string)
    ensures MapKey(prefix, EnvName(prefix, path)) == path <==> NoUpper(path) && NoNul(path) && Separated(path)
  {
    hide Encode, Decode, ReplaceDouble, ReplaceChar, ToLower, ToUpper, NoUpper, NoNul, Separated;
    var encoded := Encode(path);
    assert EnvName(prefix, path)[|prefix|..] == ToUpper(encoded);
    var lowered := ToLower(ToUpper(encoded));
    DecodeIsMark(lowered);
    LowerHasNoUpper(ToUpper(encoded));
    DecodeIsClean(lowered);
    if NoUpper(path) && NoNul(path) {
      EncodeKeepsCase(path);
      UpperLower(encoded);
      DecodeEncodeIff(path);
    }
  }

  lemma UpperLower(s: string)
    requires NoUpper(s)
    ensures ToLower(ToUpper(s)) == s
  {
    LowerOfUpper(s);
  }

  /** A key of one level: lower-case, without separators, not starting with an underscore. */
  predicate PlainKey(key: string) {
    key != "" && key[0] != '_' && NoUpper(key) && NoNul(key) && forall i :: 0 <= i < |key| ==> key[i] != '.'
  }

  /** Paths made of plain keys round trip. */
  lemma {:induction false} PlainPathsRoundTrip(prefix: string, keys: seq<string>)
    requires forall i :: 0 <= i < |keys| ==> PlainKey(keys[i])
    ensures MapKey(prefix, EnvName(prefix, Join(".", keys))) == Join(".", keys)
  {
    PlainPaths(keys);
    RoundTripIff(prefix, Join(".", keys));
  }

  lemma {:induction false} PlainPaths(keys: seq<string>)
    requires forall i :: 0 <= i < |keys| ==> PlainKey(keys[i])
    ensures NoUpper(Join(".", keys)) && NoNul(Join(".", keys)) && Separated(Join(".", keys))
    ensures keys != [] ==> PlainKey(keys[0]) && Join(".", keys) != "" && Join(".", keys)[0] == keys[0][0]
  {
    if |keys| > 1 {
      PlainPaths(keys[1..]);
      var path, rest := Join(".", keys), Join(".", keys[1..]);
      assert path == keys[0] + "." + rest;
      forall i | 0 <= i < |path| - 1 && path[i] == '.'
        ensures path[i + 1] != '.' && path[i + 1] != '_'
      {
        assert i >= |keys[0]|;
        if i > |keys[0]| {
          assert path[i] == rest[i - |keys[0]| - 1] && path[i + 1] == rest[i - |keys[0]|];
        }
      }
    }
  }

  predicate NoDot(s: string) { forall i :: 0 <= i < |s| ==> s[i] != '.' }

  /** Mapping a name without dots never puts a separator before another one or an underscore. */
  lemma {:induction false} DecodeIsSeparated(s: string)
    requires NoDot(s) && NoNul(s)
    ensures Separated(Decode(s))
    ensures s != "" && s[0] != '_' ==> Decode(s) != "" && Decode(s)[0] == s[0]
  {
    if |s| >= 2 && s[0] == '_' && s[1] == '_' {
      DecodeIsSeparated(s[2..]);
      SeparatedCons(Decode(s));
      assert Decode(s)[1..] == Decode(s[2..]);
    } else if s != "" {
      DecodeIsSeparated(s[1..]);
      SeparatedCons(Decode(s));
      assert Decode(s)[1..] == Decode(s[1..]);
    }
  }

  lemma {:induction false} EncodeHasNoDot(path: string)
    ensures NoDot(Encode(path))
    ensures NoNul(path) ==> NoNul(Encode(path))
  {
    if path != "" {
      EncodeHasNoDot(path[1..]);
    }
  }

  lemma MapsByDecode(prefix: string, name: string)
    ensures MapKey(prefix, prefix + name) == Decode(ToLower(name))
  {
    hide ReplaceChar, ReplaceDouble, Decode;
    assert (prefix + name)[|prefix|..] == name;
    DecodeIsMark(ToLower(name));
  }

  lemma CaseKeepsMarks(s: string)
    ensures NoDot(s) ==> NoDot(ToLower(s)) && NoDot(ToUpper(s))
    ensures NoNul(s) ==> NoNul(ToLower(s)) && NoNul(ToUpper(s))
  {
  }

  /** Some variable name without dots, after the prefix, maps to the path. */
  ghost predicate Reachable(prefix: string, path: string) {
    exists name :: NoDot(name) && NoNul(name) && MapKey(prefix, prefix + name) == path
  }

  /** The paths that dot-free names reach at all are exactly those that round trip. */
  lemma ReachableIff(prefix: string, path: string)
    ensures Reachable(prefix, path) <==> NoUpper(path) && NoNul(path) && Separated(path)
  {
    hide Encode, Decode, MapKey, ToLower, ToUpper, NoDot, NoUpper, NoNul, Separated;
    if name :| NoDot(name) && NoNul(name) && MapKey(prefix, prefix + name) == path {
      MapsByDecode(prefix, name);
      CaseKeepsMarks(name);
      LowerHasNoUpper(name);
      DecodeIsClean(ToLower(name));
      DecodeIsSeparated(ToLower(name));
    }
    if NoUpper(path) && NoNul(path) && Separated(path) {
      RoundTripIff(prefix, path);
      EncodeHasNoDot(path);
      CaseKeepsMarks(Encode(path));
    }
  }

  /** The same path, written with a dot for every separator. */
  function Dotted(path: string): string {
    if path == "" then "" else (if path[0] == '_' then "__" else [path[0]]) + Dotted(path[1..])
  }

  lemma {:induction false} DottedDecodes(path: string)
    requires NoUpper(path) && NoNul(path)
    ensures Decode(Dotted(path)) == path && NoUpper(Dotted(path))
  {
    if path != "" {
      DottedDecodes(path[1..]);
      assert path == [path[0]] + path[1..];
      if path[0] == '_' {
        assert Dotted(path)[2..] == Dotted(path[1..]);
      } else {
        assert Dotted(path)[1..] == Dotted(path[1..]);
      }
    }
  }

  /** With dots in the variable name every path without upper-case letters and NUL is reached. */
  lemma ReachableByAnyNameIff(prefix: string, path: string)
    ensures (exists name :: MapKey(prefix, prefix + name) == path) <==> NoUpper(path) && NoNul(path)
  {
    hide Decode, Dotted, MapKey, ToLower, NoUpper, NoNul;
    if name :| MapKey(prefix, prefix + name) == path {
      MapsByDecode(prefix, name);
      LowerHasNoUpper(name);
      DecodeIsClean(ToLower(name));
    }
    if NoUpper(path) && NoNul(path) {
      DottedDecodes(path);
      MapsByDecode(prefix, Dotted(path));
      LowerOfLower(Dotted(path));
    }
  }

  lemma LowerOfLower(s: string)
    requires NoUpper(s)
    ensures ToLower(s) == s
  {
  }

  /** A nested key that starts with an underscore: no dot-free name reaches it, a name with a dot does. */
  lemma LeadingUnderscoreLost(prefix: string)
    ensures MapKey(prefix, EnvName(prefix, "a._b")) != "a._b"
    ensures !Reachable(prefix, "a._b")
    ensures MapKey(prefix, prefix + "A.__B") == "a._b"
  {
    var path := "a._b";
    assert path[1] == '.' && path[2] == '_';
    assert !Separated(path);
    DottedUnderscore();
    hide Separated, Reachable, MapKey, EnvName, Decode;
    RoundTripIff(prefix, path);
    ReachableIff(prefix, path);
    MapsByDecode(prefix, "A.__B");
  }

  lemma DottedUnderscore()
    ensures Decode(ToLower("A.__B")) == "a._b"
  {
    assert ToLower("A.__B") == "a.__b";
    assert "a.__b"[1..] == ".__b" && ".__b"[1..] == "__b" && "__b"[2..] == "b" && "b"[1..] == "";
    assert Decode("b") == "b" && Decode("__b") == "_b" && Decode(".__b") == "._b";
  }

  /** A top-level key that starts with an underscore is reached. */
  lemma TopLevelUnderscore(prefix: string)
    ensures Reachable(prefix, "_b")
  {
    hide Reachable;
    assert Separated("_b") && NoUpper("_b") && NoNul("_b");
    ReachableIff(prefix, "_b");
  }

  // ----- which paths hold lists

  datatype ConfigType = StructType(fields: seq<Field>) | SliceType | OtherType

  /** key is the koanf tag. */
  datatype Field = Field(embedded: bool, key: string, typ: ConfigType)

  predicate Squashed(f: Field) { f.embedded && f.typ.StructType? && (f.key == "" || HasPrefix(f.key, ",")) }

  predicate Skipped(f: Field) { f.key == "" || f.key == "-" }

  function Under(prefix: string, key: string): string { if prefix != "" then prefix + "." + key else key }

  function PathsOf(t: ConfigType, prefix: string): set<string>
    decreases t, 1
  {
    if t.StructType? then FieldPaths(t.fields, prefix) else {}
  }

  function FieldPaths(fields: seq<Field>, prefix: string): set<string>
    decreases fields, 0
  {
    if fields == [] then {}
    else FieldPaths(fields[..|fields| - 1], prefix) + PathsOfField(fields[|fields| - 1], prefix)
  }

  function PathsOfField(f: Field, prefix: string): set<string>
    decreases f, 0
  {
    if Squashed(f) then PathsOf(f.typ, prefix)
    else if Skipped(f) then {}
    else
      match f.typ
      case StructType(_) => PathsOf(f.typ, Under(prefix, f.key))
      case SliceType => {Under(prefix, f.key)}
      case OtherType => {}
  }

  method CollectSlicePaths(t: ConfigType, prefix: string, paths: set<string>) returns (out: set<string>)
    requires t.StructType?
    ensures out == paths + PathsOf(t, prefix)
    decreases t
  {
    out := paths;
    for i := 0 to |t.fields|
      invariant out == paths + FieldPaths(t.fields[..i], prefix)
    {
      assert t.fields[..i + 1][..i] == t.fields[..i];
      var f := t.fields[i];
      assert f in t.fields;
      if Squashed(f) {
        out := CollectSlicePaths(f.typ, prefix, out);
      } else if !Skipped(f) {
        var path := Under(prefix, f.key);
        match f.typ {
          case StructType(_) => out := CollectSlicePaths(f.typ, path, out);
          case SliceType => out := out + {path};
          case OtherType =>
        }
      }
    }
    assert t.fields[..|t.fields|] == t.fields;
  }

  /** Following these keys from t, through squashed structs, ends at a slice. */
  ghost predicate LeadsToSlice(t: ConfigType, keys: seq<string>)
    decreases t
  {
    t.StructType? && exists i :: 0 <= i < |t.fields| && FieldLeads(t.fields[i], keys)
  }

  ghost predicate FieldLeads(f: Field, keys: seq<string>)
    decreases f
  {
    if f.embedded && f.typ.StructType? && (f.key == "" || f.key[0] == ',') then LeadsToSlice(f.typ, keys)
    else f.key != "" && f.key != "-" && keys != [] && keys[0] == f.key
         && ((f.typ.SliceType? && |keys| == 1) || LeadsToSlice(f.typ, keys[1..]))
  }

  function PathAt(prefix: string, keys: seq<string>): string
    decreases |keys|
  {
    if keys == [] then prefix else PathAt(Under(prefix, keys[0]), keys[1..])
  }

  /** The collected paths are exactly those that lead to a slice. */
  lemma {:induction false} PathsIff(t: ConfigType, prefix: string, path: string)
    ensures path in PathsOf(t, prefix) <==> exists keys :: LeadsToSlice(t, keys) && PathAt(prefix, keys) == path
    decreases t, 1
  {
    if t.StructType? {
      FieldsIff(t.fields, prefix, path);
      if path in PathsOf(t, prefix) {
        var i, keys :| 0 <= i < |t.fields| && FieldLeads(t.fields[i], keys) && PathAt(prefix, keys) == path;
        assert LeadsToSlice(t, keys);
      }
      if keys :| LeadsToSlice(t, keys) && PathAt(prefix, keys) == path {
        var i :| 0 <= i < |t.fields| && FieldLeads(t.fields[i], keys);
      }
    }
  }

  lemma {:induction false} FieldsIff(fields: seq<Field>, prefix: string, path: string)
    ensures path in FieldPaths(fields, prefix) <==>
            exists i, keys :: 0 <= i < |fields| && FieldLeads(fields[i], keys) && PathAt(prefix, keys) == path
    decreases fields, 0
  {
    if fields != [] {
      var n := |fields| - 1;
      FieldsIff(fields[..n], prefix, path);
      FieldIff(fields[n], prefix, path);
      hide FieldLeads, PathAt, PathsOfField;
      if path in FieldPaths(fields[..n], prefix) {
        var i, keys :| 0 <= i < n && FieldLeads(fields[..n][i], keys) && PathAt(prefix, keys) == path;
        assert FieldLeads(fields[i], keys);
      }
      if i, keys :| 0 <= i < |fields| && FieldLeads(fields[i], keys) && PathAt(prefix, keys) == path {
        if i < n {
          assert FieldLeads(fields[..n][i], keys);
        }
      }
    }
  }

  lemma {:induction false} FieldIff(f: Field, prefix: string, path: string)
    ensures path in PathsOfField(f, prefix) <==> exists keys :: FieldLeads(f, keys) && PathAt(prefix, keys) == path
    decreases f, 0
  {
    if Squashed(f) {
      PathsIff(f.typ, prefix, path);
      assert forall keys :: FieldLeads(f, keys) <==> LeadsToSlice(f.typ, keys);
    } else if !Skipped(f) {
      forall keys { StepInto(f, prefix, keys); }
      match f.typ
      case SliceType =>
        LeafField(f, prefix, path);
      case StructType(_) =>
        PathsIff(f.typ, Under(prefix, f.key), path);
        InnerField(f, prefix, path);
      case OtherType =>
    }
  }

  /** One key leads into a plain field; what is left must lead on from there. */
  lemma StepInto(f: Field, prefix: string, keys: seq<string>)
    requires !Squashed(f) && !Skipped(f)
    ensures FieldLeads(f, keys) <==>
            keys != [] && keys[0] == f.key && (if f.typ.SliceType? then |keys| == 1 else LeadsToSlice(f.typ, keys[1..]))
    ensures FieldLeads(f, keys) ==> PathAt(prefix, keys) == PathAt(Under(prefix, f.key), keys[1..])
  {
  }

  lemma LeafField(f: Field, prefix: string, path: string)
    requires !Squashed(f) && !Skipped(f) && f.typ.SliceType?
    ensures path == Under(prefix, f.key) <==> exists keys :: FieldLeads(f, keys) && PathAt(prefix, keys) == path
  {
    StepInto(f, prefix, [f.key]);
    assert PathAt(prefix, [f.key]) == Under(prefix, f.key);
    if keys :| FieldLeads(f, keys) && PathAt(prefix, keys) == path {
      StepInto(f, prefix, keys);
      assert keys == [f.key];
    }
  }

  lemma InnerField(f: Field, prefix: string, path: string)
    requires !Squashed(f) && !Skipped(f) && f.typ.StructType?
    ensures (exists keys :: LeadsToSlice(f.typ, keys) && PathAt(Under(prefix, f.key), keys) == path) <==>
            exists keys :: FieldLeads(f, keys) && PathAt(prefix, keys) == path
  {
    hide LeadsToSlice, FieldLeads, PathAt;
    if keys :| LeadsToSlice(f.typ, keys) && PathAt(Under(prefix, f.key), keys) == path {
      var all := [f.key] + keys;
      assert all[1..] == keys;
      StepInto(f, prefix, all);
      assert FieldLeads(f, all) && PathAt(prefix, all) == path;
    }
    if keys :| FieldLeads(f, keys) && PathAt(prefix, keys) == path {
      StepInto(f, prefix, keys);
      var rest := keys[1..];
      assert LeadsToSlice(f.typ, rest) && PathAt(Under(prefix, f.key), rest) == path;
    }
  }

  // ----- values

  datatype Value = Scalar(text: string) | List(items: seq<string>)

  function NonBlank(parts: seq<string>): seq<string> {
    if parts == [] then []
    else
      var n := |parts| - 1;
      NonBlank(parts[..n]) + (if TrimSpace(parts[n]) == "" then [] else [TrimSpace(parts[n])])
  }

  function ListItems(value: string): seq<string> { NonBlank(Split(value, ',')) }

  function MapValue(prefix: string, lists: set<string>, name: string, value: string): (string, Value) {
    var key := MapKey(prefix, name);
    (key, if key in lists then List(ListItems(value)) else Scalar(value))
  }

  method EnvValueMapper(prefix: string, lists: set<string>, name: string, value: string) returns (key: string, v: Value)
    ensures (key, v) == MapValue(prefix, lists, name, value)
  {
    key := MapKey(prefix, name);
    if key !in lists {
      return key, Scalar(value);
    }
    var parts := Split(value, ',');
    var out: seq<string> := [];
    for i := 0 to |parts|
      invariant out == NonBlank(parts[..i])
    {
      assert parts[..i + 1][..i] == parts[..i];
      var p := TrimSpace(parts[i]);
      if p != "" {
        out := out + [p];
      }
    }
    assert parts[..|parts|] == parts;
    v := List(out);
  }

  predicate ListItem(item: string) { item != "" && Trimmed(item) && ',' !in item }

  lemma {:induction false} NonBlankKeeps(items: seq<string>)
    requires forall i :: 0 <= i < |items| ==> ListItem(items[i])
    ensures NonBlank(items) == items
  {
    if items != [] {
      var n := |items| - 1;
      NonBlankKeeps(items[..n]);
      TrimSpaceOfTrimmed(items[n]);
      assert items == items[..n] + [items[n]];
    }
  }

  /**
   * Every list in the configuration whose path round trips can be set from the environment: its
   * variable reaches it, and a comma-separated value arrives as the list that was written.
   */
  lemma ListsAreReachable(prefix: string, t: ConfigType, keys: seq<string>, items: seq<string>)
    requires LeadsToSlice(t, keys)
    requires var path := PathAt("", keys); NoUpper(path) && NoNul(path) && Separated(path)
    requires forall i :: 0 <= i < |items| ==> ListItem(items[i])
    ensures MapValue(prefix, PathsOf(t, ""), EnvName(prefix, PathAt("", keys)), Join(",", items))
            == (PathAt("", keys), List(items))
  {
    hide MapKey, EnvName;
    var path := PathAt("", keys);
    RoundTripIff(prefix, path);
    PathsIff(t, "", path);
    if items == [] {
      EmptyValue();
    } else {
      SplitJoin(items, ',');
      NonBlankKeeps(items);
    }
  }

  lemma EmptyValue()
    ensures ListItems("") == []
  {
    assert Split("", ',') == [""];
    assert NonBlank([""]) == NonBlank([]) + [];
  }

  // ----- paths and values in plain terms

  lemma {:induction false} PathAtJoin(prefix: string, keys: seq<string>)
    requires keys != [] && forall i :: 0 <= i < |keys| ==> keys[i] != ""
    ensures PathAt(prefix, keys) == (if prefix != "" then prefix + "." else "") + Join(".", keys)
    decreases |keys|
  {
    var inner := Under(prefix, keys[0]);
    if |keys| > 1 {
      PathAtJoin(inner, keys[1..]);
    } else {
      assert PathAt(inner, keys[1..]) == inner;
    }
  }

  lemma {:induction false} KeysNamed(t: ConfigType, keys: seq<string>)
    requires LeadsToSlice(t, keys)
    ensures keys != [] && forall i :: 0 <= i < |keys| ==> keys[i] != ""
    decreases t, 1
  {
    var i :| 0 <= i < |t.fields| && FieldLeads(t.fields[i], keys);
    assert t.fields[i] in t.fields;
    FieldKeysNamed(t.fields[i], keys);
  }

  lemma {:induction false} FieldKeysNamed(f: Field, keys: seq<string>)
    requires FieldLeads(f, keys)
    ensures keys != [] && forall i :: 0 <= i < |keys| ==> keys[i] != ""
    decreases f, 0
  {
    if f.embedded && f.typ.StructType? && (f.key == "" || f.key[0] == ',') {
      KeysNamed(f.typ, keys);
    } else if LeadsToSlice(f.typ, keys[1..]) {
      KeysNamed(f.typ, keys[1..]);
      assert forall i :: 0 < i < |keys| ==> keys[i] == keys[1..][i - 1];
    }
  }

  /** The list paths of a configuration are the keys that lead to a slice, joined by dots. */
  lemma SlicePathsIff(t: ConfigType, path: string)
    ensures path in PathsOf(t, "") <==> exists keys :: LeadsToSlice(t, keys) && Join(".", keys) == path
  {
    hide PathsOf, LeadsToSlice, PathAt, Join;
    PathsIff(t, "", path);
    forall keys | LeadsToSlice(t, keys)
      ensures PathAt("", keys) == Join(".", keys)
    {
      KeysNamed(t, keys);
      PathAtJoin("", keys);
    }
  }

  /** A value for any other path that round trips arrives as it was written. */
  lemma ScalarsArrive(prefix: string, t: ConfigType, path: string, value: string)
    requires path !in PathsOf(t, "") && NoUpper(path) && NoNul(path) && Separated(path)
    ensures MapValue(prefix, PathsOf(t, ""), EnvName(prefix, path), value) == (path, Scalar(value))
  {
    hide MapKey, EnvName, PathsOf;
    RoundTripIff(prefix, path);
  }

  /** One piece of a list value: an item between spaces, or spaces only. */
  datatype Part = Part(before: string, item: string, after: string)

  predicate Padded(p: Part) { AllSpace(p.before) && AllSpace(p.after) && Trimmed(p.item) && ',' !in p.item }

  function PartText(p: Part): string { p.before + p.item + p.after }

  function PartTexts(ps: seq<Part>): (r: seq<string>)
    ensures |r| == |ps| && forall i :: 0 <= i < |ps| ==> r[i] == PartText(ps[i])
  {
    seq(|ps|, i requires 0 <= i < |ps| => PartText(ps[i]))
  }

  /** The items, without the empty ones. */
  function PartItems(ps: seq<Part>): seq<string> {
    if ps == [] then []
    else PartItems(ps[..|ps| - 1]) + (if ps[|ps| - 1].item == "" then [] else [ps[|ps| - 1].item])
  }

  lemma {:induction false} NonBlankParts(ps: seq<Part>)
    requires forall i :: 0 <= i < |ps| ==> Padded(ps[i])
    ensures NonBlank(PartTexts(ps)) == PartItems(ps)
  {
    if ps != [] {
      hide TrimSpace;
      var n := |ps| - 1;
      NonBlankParts(ps[..n]);
      assert PartTexts(ps)[..n] == PartTexts(ps[..n]);
      TrimPaddedPart(ps[n]);
    }
  }

  lemma TrimPaddedPart(p: Part)
    requires Padded(p)
    ensures TrimSpace(PartText(p)) == p.item && ',' !in PartText(p)
  {
    TrimBetween(p.before, p.item, p.after);
    assert forall i :: 0 <= i < |p.before| ==> p.before[i] != ',';
    assert forall i :: 0 <= i < |p.after| ==> p.after[i] != ',';
  }

  /** Spaces around items and empty pieces mean nothing. */
  lemma ListItemsPadded(ps: seq<Part>)
    requires ps != [] && forall i :: 0 <= i < |ps| ==> Padded(ps[i])
    ensures ListItems(Join(",", PartTexts(ps))) == PartItems(ps)
  {
    hide Padded, NonBlank;
    forall i | 0 <= i < |ps|
      ensures ',' !in PartTexts(ps)[i]
    {
      TrimPaddedPart(ps[i]);
    }
    SplitJoin(PartTexts(ps), ',');
    NonBlankParts(ps);
  }
}
