/** Smart comments (smarttags/smarttags.go): leading '@' lines are tags, the rest is prose. */
module SmartTags {
  import opened Sequences
  import opened Strings

  /** Values per tag, one per occurrence. The source's nil is None in Option<Tags>. */
  type Tags = map<string, seq<string>>

  function Has(tags: Option<Tags>, name: string): bool { tags.Some? && name in tags.value }

  function All(tags: Option<Tags>, name: string): seq<string> {
    if Has(tags, name) then tags.value[name] else []
  }

  function FirstNonEmpty(values: seq<string>): string {
    if values == [] then "" else if values[0] != "" then values[0] else FirstNonEmpty(values[1..])
  }

  /** The first non-empty value of the tag. */
  function First(tags: Option<Tags>, name: string): string { FirstNonEmpty(All(tags, name)) }

  // ----- parsing

  predicate IsTagLine(line: string) { line != "" && line[0] == '@' }

  /** Where the name of a tag line ends. */
  function NameEnd(s: string): (n: nat)
    ensures n <= |s|
  {
    if s == "" || s[0] == ' ' || s[0] == '\t' then 0 else 1 + NameEnd(s[1..])
  }

  function TagName(line: string): string
    requires IsTagLine(line)
  {
    line[1..][..NameEnd(line[1..])]
  }

  function TagValue(line: string): string
    requires IsTagLine(line)
  {
    var cut := NameEnd(line[1..]);
    if cut < |line| - 1 then TrimSpace(line[1..][cut + 1..]) else ""
  }

  function AddValue(tags: Tags, name: string, value: string): Tags {
    tags[name := (if name in tags then tags[name] else []) + [value]]
  }

  function AddLine(tags: Tags, line: string): Tags
    requires IsTagLine(line)
  {
    if TagName(line) == "" then tags else AddValue(tags, TagName(line), TagValue(line))
  }

  /** The tags of the leading block, and the lines from the first prose line on. */
  function ParseLines(lines: seq<string>, tags: Tags): (Tags, seq<string>) {
    if lines == [] then (tags, [])
    else
      var line := TrimSpace(lines[0]);
      if line == "" then ParseLines(lines[1..], tags)
      else if !IsTagLine(line) then (tags, lines)
      else ParseLines(lines[1..], AddLine(tags, line))
  }

  function ParseComment(comment: string): (Option<Tags>, string) {
    if !IsTagLine(TrimSpace(comment)) then (None, comment)
    else
      var (tags, rest) := ParseLines(Split(comment, '\n'), map[]);
      (Some(tags), TrimSpace(Join("\n", rest)))
  }

  function TagsOf(comment: string): Option<Tags> { ParseComment(comment).0 }

  function Strip(comment: string): string { ParseComment(comment).1 }

  method Parse(comment: string) returns (found: Option<Tags>, description: string)
    ensures (found, description) == ParseComment(comment)
    ensures found == TagsOf(comment) && description == Strip(comment)
  {
    if !IsTagLine(TrimSpace(comment)) {
      return None, comment;
    }
    var lines := Split(comment, '\n');
    var tags: Tags := map[];
    var i := 0;
    while i < |lines|
      invariant 0 <= i <= |lines|
      invariant ParseLines(lines, map[]) == ParseLines(lines[i..], tags)
    {
      var line := TrimSpace(lines[i]);
      assert lines[i..][1..] == lines[i + 1..];
      if line != "" {
        if !IsTagLine(line) {
          break;
        }
        var cut := NameEnd(line[1..]);
        var name := line[1..][..cut];
        var value := if cut < |line| - 1 then TrimSpace(line[1..][cut + 1..]) else "";
        if name != "" {
          tags := tags[name := (if name in tags then tags[name] else []) + [value]];
        }
      }
      i := i + 1;
    }
    found, description := Some(tags), TrimSpace(Join("\n", lines[i..]));
  }

  // ----- printing and parsing back

  /** A line of a tag block: a tag, or a blank line between tags. */
  datatype Piece = Blank(space: string) | Tag(name: string, value: string)

  predicate WellFormed(p: Piece) {
    match p
    case Blank(space) => AllSpace(space) && '\n' !in space
    case Tag(name, value) => name != "" && NoSpace(name) && Trimmed(value) && '\n' !in value
  }

  /** A bare tag has no value part. */
  function PieceText(p: Piece): string {
    match p
    case Blank(space) => space
    case Tag(name, value) => "@" + name + (if value == "" then "" else " " + value)
  }

  function Texts(ps: seq<Piece>): (r: seq<string>)
    ensures |r| == |ps| && forall i :: 0 <= i < |ps| ==> r[i] == PieceText(ps[i])
  {
    seq(|ps|, i requires 0 <= i < |ps| => PieceText(ps[i]))
  }

  function Print(ps: seq<Piece>, description: string): string {
    Join("\n", Texts(ps) + (if description == "" then [] else Split(description, '\n')))
  }

  /** The values a block gives one name, in order. */
  function ValuesOf(ps: seq<Piece>, name: string): seq<string> {
    if ps == [] then []
    else (if ps[0].Tag? && ps[0].name == name then [ps[0].value] else []) + ValuesOf(ps[1..], name)
  }

  predicate BlockWellFormed(ps: seq<Piece>) {
    (exists i :: 0 <= i < |ps| && ps[i].Tag?) && forall i :: 0 <= i < |ps| ==> WellFormed(ps[i])
  }

  lemma {:induction false} NameEndAt(name: string, rest: string)
    requires NoSpace(name)
    requires rest == "" || rest[0] == ' ' || rest[0] == '\t'
    ensures NameEnd(name + rest) == |name|
  {
    if name == "" {
      assert name + rest == rest;
    } else {
      assert (name + rest)[1..] == name[1..] + rest;
      NameEndAt(name[1..], rest);
    }
  }

  lemma TagLineParses(name: string, value: string)
    requires WellFormed(Tag(name, value))
    ensures var line := PieceText(Tag(name, value));
            && TrimSpace(line) == line && IsTagLine(line) && '\n' !in line
            && TagName(line) == name && TagValue(line) == value
  {
    var line := PieceText(Tag(name, value));
    var rest := if value == "" then "" else " " + value;
    assert line[1..] == name + rest;
    NameEndAt(name, rest);
    assert Trimmed(line);
    TrimSpaceOfTrimmed(line);
    if value != "" {
      assert line[1..][|name| + 1..] == value;
      TrimSpaceOfTrimmed(value);
    }
  }

  function AddPieces(tags: Tags, ps: seq<Piece>): Tags
    decreases |ps|
  {
    if ps == [] then tags
    else AddPieces(if ps[0].Tag? then AddValue(tags, ps[0].name, ps[0].value) else tags, ps[1..])
  }

  lemma {:induction false} AddPiecesValues(tags: Tags, ps: seq<Piece>, name: string)
    ensures name in AddPieces(tags, ps) <==> name in tags || ValuesOf(ps, name) != []
    ensures name in AddPieces(tags, ps) ==>
              AddPieces(tags, ps)[name] == (if name in tags then tags[name] else []) + ValuesOf(ps, name)
    decreases |ps|
  {
    if ps != [] {
      AddPiecesValues(if ps[0].Tag? then AddValue(tags, ps[0].name, ps[0].value) else tags, ps[1..], name);
    }
  }

  lemma {:induction false} BlockParses(ps: seq<Piece>, rest: seq<string>, tags: Tags)
    requires forall i :: 0 <= i < |ps| ==> WellFormed(ps[i])
    ensures ParseLines(Texts(ps) + rest, tags) == ParseLines(rest, AddPieces(tags, ps))
  {
    if ps == [] {
      assert Texts(ps) + rest == rest;
    } else {
      var lines := Texts(ps) + rest;
      assert lines[1..] == Texts(ps[1..]) + rest;
      match ps[0] {
        case Blank(space) =>
          TrimSpaceTrims(space);
          BlockParses(ps[1..], rest, tags);
        case Tag(name, value) =>
          TagLineParses(name, value);
          BlockParses(ps[1..], rest, AddValue(tags, name, value));
      }
    }
  }

  lemma TagLeads(p: Piece, tail: string)
    requires p.Tag?
    ensures IsTagLine(TrimSpace(PieceText(p) + tail))
  {
    var text := PieceText(p) + tail;
    assert text[0] == '@';
    TrimRightEnds(text);
  }

  lemma JoinHead(lines: seq<string>) returns (tail: string)
    requires lines != []
    ensures Join("\n", lines) == lines[0] + tail
    ensures |lines| > 1 ==> tail == "\n" + Join("\n", lines[1..])
  {
    tail := if |lines| == 1 then "" else "\n" + Join("\n", lines[1..]);
  }

  lemma BlankLeads(blank: string, text: string)
    requires AllSpace(blank)
    ensures TrimSpace(blank + text) == TrimSpace(text)
  {
    TrimLeftPrefix(blank, text);
  }

  lemma {:induction false} BlockLeads(ps: seq<Piece>, rest: seq<string>, k: nat)
    requires k < |ps| && ps[k].Tag? && forall i :: 0 <= i < |ps| ==> WellFormed(ps[i])
    ensures IsTagLine(TrimSpace(Join("\n", Texts(ps) + rest)))
  {
    hide Join, TrimSpace, IsTagLine;
    var lines := Texts(ps) + rest;
    var tail := JoinHead(lines);
    if ps[0].Tag? {
      TagLeads(ps[0], tail);
    } else {
      BlockLeads(ps[1..], rest, k - 1);
      assert lines[1..] == Texts(ps[1..]) + rest;
      assert Join("\n", lines) == ps[0].space + "\n" + Join("\n", lines[1..]);
      BlankLeads(ps[0].space + "\n", Join("\n", lines[1..]));
    }
  }

  /** Printing a block of tags and a description and parsing it back loses and invents nothing. */
  lemma ParsePrinted(ps: seq<Piece>, description: string)
    requires BlockWellFormed(ps)
    requires Trimmed(description) && !IsTagLine(description)
    ensures var (tags, text) := ParseComment(Print(ps, description));
            && text == description
            && tags.Some?
            && forall name :: All(tags, name) == ValuesOf(ps, name) && (Has(tags, name) <==> ValuesOf(ps, name) != [])
  {
    var rest := if description == "" then [] else Split(description, '\n');
    var lines := Texts(ps) + rest;
    forall i | 0 <= i < |ps|
      ensures '\n' !in lines[i]
    {
      if ps[i].Tag? {
        TagLineParses(ps[i].name, ps[i].value);
      }
    }
    SplitJoin(lines, '\n');
    var k :| 0 <= k < |ps| && ps[k].Tag?;
    BlockLeads(ps, rest, k);
    BlockParses(ps, rest, map[]);
    var tags := AddPieces(map[], ps);
    forall name
      ensures All(Some(tags), name) == ValuesOf(ps, name) && (name in tags <==> ValuesOf(ps, name) != [])
    {
      AddPiecesValues(map[], ps, name);
    }
    if description != "" {
      ProseStops(description, tags);
      JoinSplit(description, '\n');
      TrimSpaceOfTrimmed(description);
    }
  }

  /** Three comments: a bare @omit, another tag, and none. */
  lemma SampleComments()
    ensures OmitsEverything(TagsOf("@omit"))
    ensures TagsOf("@name total").Some? && !OmitsEverything(TagsOf("@name total"))
    ensures TagsOf("").None?
  {
    NoComment();
    OmitPiece();
    NamePiece();
    hide TagsOf, WellFormed, PieceText;
    SampleComment("omit", "", "@omit");
    SampleComment("name", "total", "@name total");
  }

  lemma NoComment()
    ensures TagsOf("").None?
  {
  }

  lemma OmitPiece()
    ensures WellFormed(Tag("omit", "")) && PieceText(Tag("omit", "")) == "@omit"
  {
  }

  lemma NamePiece()
    ensures WellFormed(Tag("name", "total")) && PieceText(Tag("name", "total")) == "@name total"
  {
  }

  lemma SampleComment(name: string, value: string, comment: string)
    requires WellFormed(Tag(name, value)) && comment == PieceText(Tag(name, value))
    ensures TagsOf(comment).Some? && All(TagsOf(comment), name) == [value]
    ensures forall other :: other != name ==> All(TagsOf(comment), other) == []
  {
    hide WellFormed, PieceText, ParseComment, TrimSpace, Trimmed;
    var ps := [Tag(name, value)];
    assert ps[0].Tag?;
    SamplePrint(ps[0]);
    ParsePrinted(ps, "");
    forall other
      ensures ValuesOf(ps, other) == if other == name then [value] else []
    {
      assert ValuesOf(ps[1..], other) == [];
    }
  }

  lemma SamplePrint(p: Piece)
    ensures Print([p], "") == PieceText(p) && Trimmed("")
  {
    hide PieceText;
    assert Texts([p]) + [] == [PieceText(p)];
  }

  lemma ProseStops(description: string, tags: Tags)
    requires description != "" && Trimmed(description) && !IsTagLine(description)
    ensures ParseLines(Split(description, '\n'), tags) == (tags, Split(description, '\n'))
  {
    var lines := Split(description, '\n');
    assert lines[0] != "" && lines[0][0] == description[0];
    TrimRightEnds(lines[0]);
  }

  lemma {:induction false} RestStartsWithProse(lines: seq<string>, tags: Tags)
    ensures var rest := ParseLines(lines, tags).1;
            rest == [] || (TrimSpace(rest[0]) != "" && !IsTagLine(TrimSpace(rest[0])))
  {
    if lines != [] {
      var line := TrimSpace(lines[0]);
      if line == "" {
        RestStartsWithProse(lines[1..], tags);
      } else if IsTagLine(line) {
        RestStartsWithProse(lines[1..], AddLine(tags, line));
      }
    }
  }

  /** Stripping tags leaves nothing further to strip, on every string. */
  lemma StripIdempotent(comment: string)
    ensures Strip(Strip(comment)) == Strip(comment)
  {
    if IsTagLine(TrimSpace(comment)) {
      var rest := ParseLines(Split(comment, '\n'), map[]).1;
      RestStartsWithProse(Split(comment, '\n'), map[]);
      var text := Join("\n", rest);
      var d := TrimSpace(text);
      TrimSpaceTrims(text);
      TrimSpaceOfTrimmed(d);
      if rest != [] {
        ProseHead(rest);
      }
      assert !IsTagLine(d);
    }
  }

  lemma ProseHead(rest: seq<string>)
    requires rest != [] && TrimSpace(rest[0]) != "" && !IsTagLine(TrimSpace(rest[0]))
    ensures !IsTagLine(TrimSpace(Join("\n", rest)))
  {
    var text := Join("\n", rest);
    var tail := text[|rest[0]|..];
    assert text == rest[0] + tail;
    TrimLeftKeeps(rest[0], tail);
    TrimRightEnds(TrimLeft(rest[0]));
    TrimRightEnds(TrimLeft(text));
    TrimLeftHead(rest[0]);
  }

  lemma {:induction false} TrimLeftKeeps(s: string, tail: string)
    requires TrimLeft(s) != ""
    ensures TrimLeft(s + tail) == TrimLeft(s) + tail
  {
    if s != "" && IsSpace(s[0]) {
      assert (s + tail)[1..] == s[1..] + tail;
      TrimLeftKeeps(s[1..], tail);
    }
  }

  // ----- lists and omitted actions

  predicate IsSeparator(c: char) { c == ',' || c == ' ' || c == '\t' }

  /** The first maximal run of characters that are not separators. */
  function FieldEnd(s: string): (n: nat)
    ensures n <= |s|
    ensures forall i :: 0 <= i < n ==> !IsSeparator(s[i])
    ensures n < |s| ==> IsSeparator(s[n])
  {
    if s == "" || IsSeparator(s[0]) then 0 else 1 + FieldEnd(s[1..])
  }

  function SplitList(v: string): (r: seq<string>)
    ensures forall i :: 0 <= i < |r| ==> r[i] != "" && forall c :: c in r[i] ==> !IsSeparator(c)
    decreases |v|
  {
    if v == "" then []
    else if IsSeparator(v[0]) then SplitList(v[1..])
    else [v[..FieldEnd(v)]] + SplitList(v[FieldEnd(v)..])
  }

  lemma {:induction false} FieldEndAt(s: string, rest: string)
    requires forall c :: c in s ==> !IsSeparator(c)
    requires rest == "" || IsSeparator(rest[0])
    ensures FieldEnd(s + rest) == |s|
  {
    if s == "" {
      assert s + rest == rest;
    } else {
      assert (s + rest)[1..] == s[1..] + rest;
      assert forall c :: c in s[1..] ==> c in s;
      FieldEndAt(s[1..], rest);
    }
  }

  lemma {:induction false} SkipSeparators(sep: string, v: string)
    requires forall c :: c in sep ==> IsSeparator(c)
    ensures SplitList(sep + v) == SplitList(v)
  {
    if sep == "" {
      assert sep + v == v;
    } else {
      assert (sep + v)[1..] == sep[1..] + v;
      assert forall c :: c in sep[1..] ==> c in sep;
      SkipSeparators(sep[1..], v);
    }
  }

  /** The items with a gap before each and one after the last. */
  function Weave(gaps: seq<string>, items: seq<string>): string
    requires |gaps| == |items| + 1
  {
    if items == [] then gaps[0] else gaps[0] + items[0] + Weave(gaps[1..], items[1..])
  }

  predicate Separators(s: string) { forall c :: c in s ==> IsSeparator(c) }

  /** Gaps hold nothing but separators, and only the outer two may be empty. */
  predicate Gaps(gaps: seq<string>) {
    && (forall i :: 0 <= i < |gaps| ==> Separators(gaps[i]))
    && (forall i :: 0 < i < |gaps| - 1 ==> gaps[i] != "")
  }

  predicate Items(items: seq<string>) {
    forall i :: 0 <= i < |items| ==> items[i] != "" && forall c :: c in items[i] ==> !IsSeparator(c)
  }

  lemma {:induction false} WovenSplits(gaps: seq<string>, items: seq<string>)
    requires |gaps| == |items| + 1 && Gaps(gaps) && Items(items)
    ensures SplitList(Weave(gaps, items)) == items
  {
    if items == [] {
      assert gaps[0] + "" == gaps[0];
      SkipSeparators(gaps[0], "");
    } else {
      var rest := Weave(gaps[1..], items[1..]);
      WovenSplits(gaps[1..], items[1..]);
      GapLeads(gaps[1..], items[1..]);
      assert Weave(gaps, items) == gaps[0] + (items[0] + rest);
      SkipSeparators(gaps[0], items[0] + rest);
      FieldEndAt(items[0], rest);
      assert (items[0] + rest)[..|items[0]|] == items[0] && (items[0] + rest)[|items[0]|..] == rest;
    }
  }

  lemma GapLeads(gaps: seq<string>, items: seq<string>)
    requires |gaps| == |items| + 1 && Separators(gaps[0]) && (items != [] ==> gaps[0] != "")
    ensures Weave(gaps, items) == "" || IsSeparator(Weave(gaps, items)[0])
  {
  }

  lemma {:induction false} SplitWeaves(v: string) returns (gaps: seq<string>)
    ensures |gaps| == |SplitList(v)| + 1 && Gaps(gaps) && Weave(gaps, SplitList(v)) == v
    decreases |v|
  {
    if v == "" {
      gaps := [""];
    } else if IsSeparator(v[0]) {
      var rest := SplitWeaves(v[1..]);
      gaps := [[v[0]] + rest[0]] + rest[1..];
      assert gaps[1..] == rest[1..];
    } else {
      var e := FieldEnd(v);
      var rest := SplitWeaves(v[e..]);
      gaps := [""] + rest;
      assert gaps[1..] == rest;
      assert SplitList(v)[1..] == SplitList(v[e..]);
      if |rest| > 1 {
        assert v[e..][0] == v[e];
      }
    }
  }

  /** Splitting yields exactly the items that the value strings together with separators, in order. */
  lemma SplitListIff(v: string, items: seq<string>)
    ensures SplitList(v) == items <==>
            Items(items) && exists gaps :: |gaps| == |items| + 1 && Gaps(gaps) && Weave(gaps, items) == v
  {
    if SplitList(v) == items {
      var gaps := SplitWeaves(v);
    }
    if gaps :| |gaps| == |items| + 1 && Items(items) && Gaps(gaps) && Weave(gaps, items) == v {
      WovenSplits(gaps, items);
    }
  }

  /** A list joined by any mix of separators splits back into the same list. */
  lemma {:induction false} SplitListJoined(sep: string, items: seq<string>)
    requires sep != "" && forall c :: c in sep ==> IsSeparator(c)
    requires forall i :: 0 <= i < |items| ==> items[i] != "" && forall c :: c in items[i] ==> !IsSeparator(c)
    ensures SplitList(Join(sep, items)) == items
  {
    if items == [] {
    } else {
      var rest := if |items| == 1 then "" else sep + Join(sep, items[1..]);
      var v := Join(sep, items);
      assert v == items[0] + rest;
      FieldEndAt(items[0], rest);
      assert v[..|items[0]|] == items[0] && v[|items[0]|..] == rest;
      if |items| > 1 {
        SkipSeparators(sep, Join(sep, items[1..]));
        SplitListJoined(sep, items[1..]);
      }
    }
  }

  const BEHAVIOR_OMITS: map<string, string> :=
    map["-insert" := "create", "-update" := "update", "-delete" := "delete",
        "-select" := "read", "-filter" := "filter", "-order" := "order"]

  /** The actions one @omit value names. */
  function OmitsOf(v: string): set<string> { set a | a in SplitList(v) :: ToLower(a) }

  /** The actions one @behavior value takes away; other tokens are ignored. */
  function BehaviorOf(v: string): set<string> {
    set a | a in SplitList(v) && ToLower(a) in BEHAVIOR_OMITS :: BEHAVIOR_OMITS[ToLower(a)]
  }

  function OmitActions(values: seq<string>): set<string> { set v, a | v in values && a in OmitsOf(v) :: a }

  function BehaviorActions(values: seq<string>): set<string> { set v, a | v in values && a in BehaviorOf(v) :: a }

  lemma ActionsSnoc(values: seq<string>, v: string)
    ensures OmitActions(values + [v]) == OmitActions(values) + OmitsOf(v)
    ensures BehaviorActions(values + [v]) == BehaviorActions(values) + BehaviorOf(v)
  {
    hide OmitsOf, BehaviorOf;
    assert v in values + [v];
  }

  lemma EmptyOmitsNothing()
    ensures OmitsOf("") == {}
  {
  }

  function OmittedActions(tags: Option<Tags>): set<string> {
    OmitActions(All(tags, "omit")) + BehaviorActions(All(tags, "behavior"))
  }

  /** A bare @omit removes the whole object. */
  predicate OmitsEverything(tags: Option<Tags>) { "" in All(tags, "omit") }

  method Omits(tags: Option<Tags>) returns (actions: set<string>, everything: bool)
    ensures actions == OmittedActions(tags) && everything == OmitsEverything(tags)
  {
    EmptyOmitsNothing();
    hide SplitList, ToLower, OmitsOf, BehaviorOf;
    actions, everything := {}, false;
    var omit := All(tags, "omit");
    for i := 0 to |omit|
      invariant actions == OmitActions(omit[..i])
      invariant everything <==> "" in omit[..i]
    {
      ActionsSnoc(omit[..i], omit[i]);
      assert omit[..i + 1] == omit[..i] + [omit[i]];
      if omit[i] == "" {
        everything := true;
      } else {
        actions := actions + OmitsOf(omit[i]);
      }
    }
    assert omit[..|omit|] == omit;
    var behavior := All(tags, "behavior");
    ghost var before := actions;
    for i := 0 to |behavior|
      invariant actions == before + BehaviorActions(behavior[..i])
    {
      ActionsSnoc(behavior[..i], behavior[i]);
      assert behavior[..i + 1] == behavior[..i] + [behavior[i]];
      actions := actions + BehaviorOf(behavior[i]);
    }
    assert behavior[..|behavior|] == behavior;
  }

  // ----- comments in general

  lemma {:induction false} FirstNonSpace(s: string) returns (i: nat)
    requires !AllSpace(s)
    ensures i < |s| && AllSpace(s[..i]) && !IsSpace(s[i]) && TrimSpace(s) != "" && TrimSpace(s)[0] == s[i]
  {
    if IsSpace(s[0]) {
      assert s == [s[0]] + s[1..];
      i := FirstNonSpace(s[1..]);
      assert s[..i + 1] == [s[0]] + s[1..][..i];
      i := i + 1;
    } else {
      i := 0;
      TrimRightEnds(s);
    }
  }

  /** A comment has tags exactly when its first character other than a space is '@'; if not, it is all description. */
  lemma TaggedIff(comment: string)
    ensures TagsOf(comment).Some? <==> exists i :: 0 <= i < |comment| && AllSpace(comment[..i]) && comment[i] == '@'
    ensures TagsOf(comment).None? ==> Strip(comment) == comment
    ensures TagsOf(comment).Some? ==> Trimmed(Strip(comment))
  {
    hide ParseLines, TrimSpace, Join, Split;
    TrimSpaceTrims(Join("\n", ParseLines(Split(comment, '\n'), map[]).1));
    TrimSpaceTrims(comment);
    if !AllSpace(comment) {
      var k := FirstNonSpace(comment);
      forall i | 0 <= i < |comment| && AllSpace(comment[..i]) && comment[i] == '@'
        ensures i == k
      {
        assert !(i > k) && !(k > i);
      }
    }
  }

  lemma BareTagReads(tags: Tags, before: string, name: string, pad: string)
    requires AllSpace(before) && AllSpace(pad) && NoSpace(name)
    ensures var line := TrimSpace(before + ("@" + name) + pad);
            IsTagLine(line) && AddLine(tags, line) == if name == "" then tags else AddValue(tags, name, "")
  {
    TrimBetween(before, "@" + name, pad);
    hide TrimSpace;
    assert ("@" + name)[1..] == name + "";
    NameEndAt(name, "");
  }

  lemma ValuedTagReads(tags: Tags, name: string, sep: char, gap: string, value: string)
    requires AllSpace(gap) && (sep == ' ' || sep == '\t') && NoSpace(name) && Trimmed(value)
    ensures var line := "@" + name + [sep] + gap + value;
            IsTagLine(line) && AddLine(tags, line) == if name == "" then tags else AddValue(tags, name, value)
  {
    var line := "@" + name + [sep] + gap + value;
    assert line[1..] == name + ([sep] + gap + value);
    NameEndAt(name, [sep] + gap + value);
    TrimBetween(gap, value, "");
    hide TrimSpace;
    assert line[1..][|name| + 1..] == gap + value + "";
  }

  /** Spaces around a tag line, and a blank or tab with more spaces after the name, mean nothing. */
  lemma TagLineReads(tags: Tags, before: string, name: string, sep: char, gap: string, value: string, after: string)
    requires AllSpace(before) && AllSpace(gap) && AllSpace(after) && (sep == ' ' || sep == '\t')
    requires NoSpace(name) && Trimmed(value)
    ensures var line := TrimSpace(before + ("@" + name + [sep] + gap + value) + after);
            IsTagLine(line) && AddLine(tags, line) == if name == "" then tags else AddValue(tags, name, value)
  {
    hide TrimSpace, IsTagLine, AddLine;
    var whole := "@" + name + [sep] + gap + value;
    if value == "" {
      assert before + whole + after == before + ("@" + name) + ([sep] + gap + after);
      BareTagReads(tags, before, name, [sep] + gap + after);
    } else {
      TrimBetween(before, whole, after);
      ValuedTagReads(tags, name, sep, gap, value);
    }
  }

  /** The action a behavior token takes away. */
  predicate TakesAway(token: string, action: string) {
    (token, action) in {("-insert", "create"), ("-update", "update"), ("-delete", "delete"),
                        ("-select", "read"), ("-filter", "filter"), ("-order", "order")}
  }

  lemma BehaviorTable(token: string, action: string)
    ensures token in BEHAVIOR_OMITS && BEHAVIOR_OMITS[token] == action <==> TakesAway(token, action)
  {
  }

  lemma BehaviorOfIff(v: string, action: string)
    ensures action in BehaviorOf(v) <==> exists token :: token in SplitList(v) && TakesAway(ToLower(token), action)
  {
    hide SplitList, TakesAway;
    forall token
      ensures ToLower(token) in BEHAVIOR_OMITS && BEHAVIOR_OMITS[ToLower(token)] == action <==>
              TakesAway(ToLower(token), action)
    {
      BehaviorTable(ToLower(token), action);
    }
  }

  /** Exactly the actions that an @omit item names or a negative @behavior token takes away. */
  lemma OmittedIff(tags: Option<Tags>, action: string)
    ensures action in OmittedActions(tags) <==>
            || (exists v, item :: v in All(tags, "omit") && item in SplitList(v) && ToLower(item) == action)
            || (exists v, token :: v in All(tags, "behavior") && token in SplitList(v)
                                   && TakesAway(ToLower(token), action))
  {
    hide SplitList, All, TakesAway, BehaviorOf;
    forall v
      ensures action in BehaviorOf(v) <==> exists token :: token in SplitList(v) && TakesAway(ToLower(token), action)
    {
      BehaviorOfIff(v, action);
    }
    forall v
      ensures action in OmitsOf(v) <==> exists item :: item in SplitList(v) && ToLower(item) == action
    {
    }
    hide OmitsOf;
  }
}
