/** Singular and plural forms of table names (inflect/inflect.go). */
module Inflection {
  import opened Strings

  type Forms = map<string, string>

  const IRREGULAR_PLURALS: Forms := map["person" := "people", "child" := "children"]
  const IRREGULAR_SINGULARS: Forms := map["people" := "person", "children" := "child"]

  /** The word is the whole name or its last part after an underscore. */
  predicate LastWord(s: string, word: string) { s == word || HasSuffix(s, "_" + word) }

  function DropLast(s: string, word: string): string { if |word| <= |s| then s[..|s| - |word|] else "" }

  /** Tries the forms in the order the map happens to be iterated; "" when none applies. */
  function Irregular(s: string, order: seq<string>, forms: Forms): string
    requires forall w :: w in order ==> w in forms
  {
    if order == [] then ""
    else if LastWord(s, order[0]) then DropLast(s, order[0]) + forms[order[0]]
    else Irregular(s, order[1..], forms)
  }

  ghost predicate OrderOf(order: seq<string>, forms: Forms) { forall w :: w in order <==> w in forms }

  /** No name ends in two different forms of the table. */
  ghost predicate Unambiguous(forms: Forms) {
    forall s, v, w :: v in forms && w in forms && LastWord(s, v) && LastWord(s, w) ==> v == w
  }

  lemma {:induction false} IrregularMeaning(s: string, order: seq<string>, forms: Forms, w: string)
    requires (forall v :: v in order ==> v in forms) && Unambiguous(forms)
    ensures w in order && LastWord(s, w) ==> Irregular(s, order, forms) == Irregular(s, [w], forms)
    ensures (forall v :: v in order ==> !LastWord(s, v)) ==> Irregular(s, order, forms) == ""
  {
    if order != [] {
      hide LastWord;
      IrregularMeaning(s, order[1..], forms, w);
    }
  }

  /** The lookup does not depend on the iteration order. */
  lemma OrderIrrelevant(s: string, xs: seq<string>, ys: seq<string>, forms: Forms)
    requires OrderOf(xs, forms) && OrderOf(ys, forms) && Unambiguous(forms)
    ensures Irregular(s, xs, forms) == Irregular(s, ys, forms)
  {
    hide LastWord, Irregular, Unambiguous;
    if w :| w in forms && LastWord(s, w) {
      IrregularMeaning(s, xs, forms, w);
      IrregularMeaning(s, ys, forms, w);
    } else {
      IrregularMeaning(s, xs, forms, "");
      IrregularMeaning(s, ys, forms, "");
    }
  }

  lemma Suffix1(s: string, a: char)
    ensures HasSuffix(s, [a]) <==> |s| >= 1 && s[|s| - 1] == a
  {
    if |s| >= 1 { assert s[|s| - 1..] == [s[|s| - 1]]; }
  }

  lemma Suffix2(s: string, a: char, b: char)
    ensures HasSuffix(s, [a, b]) <==> |s| >= 2 && s[|s| - 2] == a && s[|s| - 1] == b
  {
    if |s| >= 2 { assert s[|s| - 2..] == [s[|s| - 2], s[|s| - 1]]; }
  }

  lemma Suffix3(s: string, a: char, b: char, c: char)
    ensures HasSuffix(s, [a, b, c]) <==> |s| >= 3 && s[|s| - 3] == a && s[|s| - 2] == b && s[|s| - 1] == c
  {
    if |s| >= 3 { assert s[|s| - 3..] == [s[|s| - 3], s[|s| - 2], s[|s| - 1]]; }
  }

  lemma Suffix4(s: string, a: char, b: char, c: char, d: char)
    ensures HasSuffix(s, [a, b, c, d]) <==>
            |s| >= 4 && s[|s| - 4] == a && s[|s| - 3] == b && s[|s| - 2] == c && s[|s| - 1] == d
  {
    if |s| >= 4 { assert s[|s| - 4..] == [s[|s| - 4], s[|s| - 3], s[|s| - 2], s[|s| - 1]]; }
  }

  /** A last word of two letters or more fixes the last two letters of the name. */
  lemma LastWordEnds(s: string, w: string)
    requires |w| >= 2 && LastWord(s, w)
    ensures |w| <= |s| && s[|s| - 2] == w[|w| - 2] && s[|s| - 1] == w[|w| - 1]
  {
    if s != w {
      var t := s[|s| - |w| - 1..];
      assert t == "_" + w;
      assert s[|s| - 1] == t[|w|] && s[|s| - 2] == t[|w| - 1];
    }
  }

  /** The four irregular words end in on, ld, le and en. */
  lemma IrregularEndings(s: string)
    ensures LastWord(s, "person") ==> |s| >= 6 && s[|s| - 2] == 'o' && s[|s| - 1] == 'n'
    ensures LastWord(s, "child") ==> |s| >= 5 && s[|s| - 2] == 'l' && s[|s| - 1] == 'd'
    ensures LastWord(s, "people") ==> |s| >= 6 && s[|s| - 2] == 'l' && s[|s| - 1] == 'e'
    ensures LastWord(s, "children") ==> |s| >= 8 && s[|s| - 2] == 'e' && s[|s| - 1] == 'n'
  {
    if LastWord(s, "person") { LastWordEnds(s, "person"); }
    if LastWord(s, "child") { LastWordEnds(s, "child"); }
    if LastWord(s, "people") { LastWordEnds(s, "people"); }
    if LastWord(s, "children") { LastWordEnds(s, "children"); }
  }

  lemma TablesUnambiguous()
    ensures Unambiguous(IRREGULAR_PLURALS) && Unambiguous(IRREGULAR_SINGULARS)
  {
    hide LastWord;
    forall s, v, w | v in IRREGULAR_PLURALS && w in IRREGULAR_PLURALS && LastWord(s, v) && LastWord(s, w)
      ensures v == w
    {
      IrregularEndings(s);
    }
    forall s, v, w | v in IRREGULAR_SINGULARS && w in IRREGULAR_SINGULARS && LastWord(s, v) && LastWord(s, w)
      ensures v == w
    {
      IrregularEndings(s);
    }
  }

  function PluralForm(s: string): string { Irregular(s, ["person", "child"], IRREGULAR_PLURALS) }

  function SingularForm(s: string): string { Irregular(s, ["people", "children"], IRREGULAR_SINGULARS) }

  predicate IsVowel(c: char) { c == 'a' || c == 'e' || c == 'i' || c == 'o' || c == 'u' }

  function Singularize(s: string): string {
    if SingularForm(s) != "" then SingularForm(s)
    else if PluralForm(s) != "" then s
    else if HasSuffix(s, "ies") && |s| > 3 then s[..|s| - 3] + "y"
    else if |s| >= 2 && (HasSuffix(s, "ses") || HasSuffix(s, "xes") || HasSuffix(s, "zes")
                         || HasSuffix(s, "ches") || HasSuffix(s, "shes"))
    then s[..|s| - 2]
    else if |s| >= 1 && HasSuffix(s, "s") && !HasSuffix(s, "ss") then s[..|s| - 1]
    else s
  }

  /** The endings that take "es". */
  predicate Sibilant(s: string) {
    HasSuffix(s, "s") || HasSuffix(s, "x") || HasSuffix(s, "z") || HasSuffix(s, "ch") || HasSuffix(s, "sh")
  }

  function Pluralize(s: string): string {
    if PluralForm(s) != "" then PluralForm(s)
    else if SingularForm(s) != "" then s
    else if |s| > 1 && HasSuffix(s, "y") && !IsVowel(s[|s| - 2]) then s[..|s| - 1] + "ies"
    else if Sibilant(s) then s + "es"
    else s + "s"
  }

  // ----- when the singular of the plural is the word again

  /** Already an irregular plural. */
  predicate IrregularPlural(s: string) { LastWord(s, "people") || LastWord(s, "children") }

  /** Endings whose regular plural looks like the plural of a shorter word. */
  predicate Misread(s: string) {
    HasSuffix(s, "se") || HasSuffix(s, "xe") || HasSuffix(s, "ze") || HasSuffix(s, "che") || HasSuffix(s, "she")
    || (|s| >= 3 && HasSuffix(s, "ie"))
  }

  lemma IrregularOfTwo(s: string, v: string, w: string, forms: Forms)
    requires v in forms && w in forms
    ensures Irregular(s, [v, w], forms) ==
            if LastWord(s, v) then DropLast(s, v) + forms[v]
            else if LastWord(s, w) then DropLast(s, w) + forms[w]
            else ""
  {
    hide LastWord, DropLast;
    assert [v, w][1..] == [w] && [w][1..] == [];
    assert Irregular(s, [], forms) == "";
    assert Irregular(s, [w], forms) == if LastWord(s, w) then DropLast(s, w) + forms[w] else "";
  }

  lemma PluralFormIff(s: string)
    ensures PluralForm(s) == (if LastWord(s, "person") then DropLast(s, "person") + "people"
                              else if LastWord(s, "child") then DropLast(s, "child") + "children" else "")
  {
    hide LastWord, DropLast;
    IrregularOfTwo(s, "person", "child", IRREGULAR_PLURALS);
  }

  lemma SingularFormIff(s: string)
    ensures SingularForm(s) == (if LastWord(s, "people") then DropLast(s, "people") + "person"
                                else if LastWord(s, "children") then DropLast(s, "children") + "child" else "")
  {
    hide LastWord, DropLast;
    IrregularOfTwo(s, "people", "children", IRREGULAR_SINGULARS);
  }

  lemma SwapLastWord(s: string, w: string, v: string)
    requires |w| >= 2 && LastWord(s, w)
    ensures LastWord(DropLast(s, w) + v, v)
    ensures DropLast(DropLast(s, w) + v, v) + w == s
  {
    LastWordEnds(s, w);
    var t := DropLast(s, w) + v;
    if s == w {
      assert t == v;
    } else {
      var tail := s[|s| - |w| - 1..];
      assert tail == "_" + w;
      assert s[|s| - |w| - 1] == tail[0] == '_';
      assert t[|t| - |v| - 1..] == "_" + v;
      assert s[|s| - |w|..] == tail[1..] == w;
    }
  }

  lemma IrregularReturns(s: string)
    requires LastWord(s, "person") || LastWord(s, "child")
    ensures Singularize(Pluralize(s)) == s
  {
    if LastWord(s, "person") {
      SwapLastWord(s, "person", "people");
    } else {
      SwapLastWord(s, "child", "children");
    }
    hide LastWord, DropLast, PluralForm, SingularForm;
    PluralFormIff(s);
    SingularFormIff(Pluralize(s));
    IrregularEndings(Pluralize(s));
  }

  lemma NoIrregularEndsInS(s: string)
    requires s != "" && s[|s| - 1] == 's'
    ensures SingularForm(s) == "" && PluralForm(s) == ""
  {
    hide LastWord, DropLast, SingularForm, PluralForm;
    PluralFormIff(s);
    SingularFormIff(s);
    IrregularEndings(s);
  }

  /** Singularize on a word that ends in s and so is not irregular. */
  lemma RegularSingular(s: string)
    requires s != "" && s[|s| - 1] == 's'
    ensures var n := |s|;
            Singularize(s) ==
              if n > 3 && s[n - 3] == 'i' && s[n - 2] == 'e' then s[..n - 3] + "y"
              else if n >= 3 && s[n - 2] == 'e' && (s[n - 3] == 's' || s[n - 3] == 'x' || s[n - 3] == 'z'
                     || (n >= 4 && s[n - 3] == 'h' && (s[n - 4] == 'c' || s[n - 4] == 's'))) then s[..n - 2]
              else if n == 1 || s[n - 2] != 's' then s[..n - 1]
              else s
  {
    hide HasSuffix, SingularForm, PluralForm;
    NoIrregularEndsInS(s);
    Suffix3(s, 'i', 'e', 's');
    Suffix3(s, 's', 'e', 's');
    Suffix3(s, 'x', 'e', 's');
    Suffix3(s, 'z', 'e', 's');
    Suffix4(s, 'c', 'h', 'e', 's');
    Suffix4(s, 's', 'h', 'e', 's');
    Suffix1(s, 's');
    Suffix2(s, 's', 's');
  }

  lemma SibilantChars(s: string)
    ensures Sibilant(s) <==>
            |s| >= 1 && (s[|s| - 1] == 's' || s[|s| - 1] == 'x' || s[|s| - 1] == 'z'
                         || (|s| >= 2 && s[|s| - 1] == 'h' && (s[|s| - 2] == 'c' || s[|s| - 2] == 's')))
  {
    hide HasSuffix;
    Suffix1(s, 's');
    Suffix1(s, 'x');
    Suffix1(s, 'z');
    Suffix2(s, 'c', 'h');
    Suffix2(s, 's', 'h');
  }

  lemma MisreadChars(s: string)
    ensures Misread(s) <==>
            |s| >= 2 && s[|s| - 1] == 'e'
            && (s[|s| - 2] == 's' || s[|s| - 2] == 'x' || s[|s| - 2] == 'z'
                || (|s| >= 3 && s[|s| - 2] == 'h' && (s[|s| - 3] == 'c' || s[|s| - 3] == 's'))
                || (|s| >= 3 && s[|s| - 2] == 'i'))
  {
    hide HasSuffix;
    Suffix2(s, 's', 'e');
    Suffix2(s, 'x', 'e');
    Suffix2(s, 'z', 'e');
    Suffix3(s, 'c', 'h', 'e');
    Suffix3(s, 's', 'h', 'e');
    Suffix2(s, 'i', 'e');
  }

  /** Regular words round trip exactly when their plural is not misread. */
  lemma RegularRoundTrip(s: string)
    requires PluralForm(s) == "" && SingularForm(s) == ""
    ensures Singularize(Pluralize(s)) == s <==> !Misread(s)
  {
    hide HasSuffix, Singularize, SingularForm, PluralForm, Sibilant, Misread;
    Suffix1(s, 'y');
    SibilantChars(s);
    MisreadChars(s);
    RegularSingular(Pluralize(s));
    if |s| > 1 && s[|s| - 1] == 'y' && !IsVowel(s[|s| - 2]) {
      var t := s[..|s| - 1] + "ies";
      assert t[..|t| - 3] + "y" == s;
    } else if Sibilant(s) {
      var t := s + "es";
      assert t[..|t| - 2] == s;
    } else {
      var t := s + "s";
      assert t[..|t| - 1] == s;
    }
  }

  lemma AlreadyPlural(s: string)
    requires IrregularPlural(s)
    ensures Singularize(Pluralize(s)) != s
  {
    hide LastWord, DropLast, SingularForm, PluralForm;
    PluralFormIff(s);
    SingularFormIff(s);
    IrregularEndings(s);
    assert Pluralize(s) == s;
  }

  /**
   * Singularize undoes Pluralize exactly on words that are not already irregular plurals and do not
   * end in se, xe, ze, che, she or, from three letters on, ie.
   */
  lemma SingularOfPluralIff(s: string)
    ensures Singularize(Pluralize(s)) == s <==> !IrregularPlural(s) && !Misread(s)
  {
    hide Singularize, Pluralize, LastWord, SingularForm, PluralForm, Misread;
    PluralFormIff(s);
    SingularFormIff(s);
    if IrregularPlural(s) {
      AlreadyPlural(s);
    } else if LastWord(s, "person") || LastWord(s, "child") {
      IrregularReturns(s);
      IrregularEndings(s);
      MisreadChars(s);
    } else {
      RegularRoundTrip(s);
    }
  }

  // ----- the rules, letter by letter

  /** The irregular words, whole or after an underscore. */
  lemma IrregularForms(s: string)
    ensures s == "person" || HasSuffix(s, "_person") ==> Pluralize(s) == s[..|s| - 6] + "people"
    ensures s == "child" || HasSuffix(s, "_child") ==> Pluralize(s) == s[..|s| - 5] + "children"
    ensures s == "people" || HasSuffix(s, "_people") ==> Singularize(s) == s[..|s| - 6] + "person" && Pluralize(s) == s
    ensures s == "children" || HasSuffix(s, "_children") ==>
              Singularize(s) == s[..|s| - 8] + "child" && Pluralize(s) == s
    ensures s == "person" || HasSuffix(s, "_person") || s == "child" || HasSuffix(s, "_child") ==> Singularize(s) == s
  {
    hide LastWord, DropLast, SingularForm, PluralForm;
    IrregularWord(s, "person", "_person");
    IrregularWord(s, "child", "_child");
    IrregularWord(s, "people", "_people");
    IrregularWord(s, "children", "_children");
    PluralFormIff(s);
    SingularFormIff(s);
    IrregularEndings(s);
  }

  lemma IrregularWord(s: string, w: string, u: string)
    requires u == "_" + w
    ensures LastWord(s, w) <==> s == w || HasSuffix(s, u)
    ensures LastWord(s, w) ==> |w| <= |s| && DropLast(s, w) == s[..|s| - |w|]
  {
  }

  /** Neither an irregular word nor an irregular plural. */
  predicate RegularWord(s: string) {
    !LastWord(s, "person") && !LastWord(s, "child") && !LastWord(s, "people") && !LastWord(s, "children")
  }

  /** A consonant and y become ies; s, x, z, ch and sh take es; everything else takes s. */
  lemma PluralLetters(s: string)
    requires RegularWord(s)
    ensures var n := |s|;
            Pluralize(s) ==
              if n >= 2 && s[n - 1] == 'y' && s[n - 2] !in {'a', 'e', 'i', 'o', 'u'} then s[..n - 1] + "ies"
              else if n >= 1 && (s[n - 1] in {'s', 'x', 'z'} || (n >= 2 && s[n - 1] == 'h' && s[n - 2] in {'c', 's'}))
              then s + "es"
              else s + "s"
  {
    hide HasSuffix, SingularForm, PluralForm, Sibilant, LastWord;
    PluralFormIff(s);
    SingularFormIff(s);
    Suffix1(s, 'y');
    SibilantChars(s);
  }

  /** A word without a final s is its own singular. */
  lemma SingularWithoutS(s: string)
    requires RegularWord(s) && (s == "" || s[|s| - 1] != 's')
    ensures Singularize(s) == s
  {
    hide HasSuffix, SingularForm, PluralForm, LastWord;
    PluralFormIff(s);
    SingularFormIff(s);
    Suffix3(s, 'i', 'e', 's');
    Suffix3(s, 's', 'e', 's');
    Suffix3(s, 'x', 'e', 's');
    Suffix3(s, 'z', 'e', 's');
    Suffix4(s, 'c', 'h', 'e', 's');
    Suffix4(s, 's', 'h', 'e', 's');
    Suffix1(s, 's');
  }
}
