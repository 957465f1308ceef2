/**
 * Lists are sorted by one key and compared by another, the name under which a map keeps the last
 * entry. The module settles when sorted forms of two lists can look alike by name, and when looking
 * alike makes them equal.
 */
module NamedSorts {
  import opened Sequences
  import opened Ordering
  import opened Diff

  /** Nothing of its name sorts after it, so some sorted form has it last of its name. */
  ghost predicate MayBeLast<T(!new)>(name: T -> string, key: T -> Key, xs: seq<T>, x: T) {
    x in xs && forall y :: y in xs && name(y) == name(x) ==> KeyLe(key(y), key(x))
  }

  ghost predicate SharedLast<T(!new)>(name: T -> string, key: T -> Key, xs: seq<T>, ys: seq<T>, n: string) {
    exists x :: name(x) == n && MayBeLast(name, key, xs, x) && MayBeLast(name, key, ys, x)
  }

  /** For every name there is one entry that may be the last of it in both lists. */
  ghost predicate MayLookAlike<T(!new)>(name: T -> string, key: T -> Key, xs: seq<T>, ys: seq<T>) {
    && (forall z :: z in xs ==> SharedLast(name, key, xs, ys, name(z)))
    && (forall z :: z in ys ==> SharedLast(name, key, xs, ys, name(z)))
  }

  function TiedWith<T>(key: T -> Key, k: Key): T -> bool { x => key(x) == k }

  /** Different entries tie only in pairs of one name, the last of it to sort: which is kept gives their order away. */
  ghost predicate Pinned<T(!new)>(name: T -> string, key: T -> Key, xs: seq<T>) {
    forall x, y :: x in xs && y in xs && x != y && key(x) == key(y) ==>
      name(x) == name(y) && MayBeLast(name, key, xs, x) && |Filter(TiedWith(key, key(x)), xs)| == 2
  }

  // ----- what a map keeps

  lemma {:induction false} LastIsKept<T(!new)>(name: T -> string, xs: seq<T>, j: nat)
    requires j < |xs| && forall k :: j < k < |xs| ==> name(xs[k]) != name(xs[j])
    ensures name(xs[j]) in MapBy(name, xs) && MapBy(name, xs)[name(xs[j])] == xs[j]
  {
    var n := |xs| - 1;
    if j < n {
      LastIsKept(name, xs[..n], j);
    }
  }

  lemma {:induction false} KeptIsLast<T(!new)>(name: T -> string, xs: seq<T>, n: string) returns (j: nat)
    requires n in MapBy(name, xs)
    ensures j < |xs| && name(xs[j]) == n && xs[j] == MapBy(name, xs)[n]
    ensures forall k :: j < k < |xs| ==> name(xs[k]) != n
  {
    var last := |xs| - 1;
    if name(xs[last]) == n {
      j := last;
    } else {
      j := KeptIsLast(name, xs[..last], n);
    }
  }

  lemma NameKept<T(!new)>(name: T -> string, xs: seq<T>, x: T)
    requires x in xs
    ensures name(x) in MapBy(name, xs)
  {
  }

  /** An entry put in changes what the map keeps of no other name. */
  lemma InsertedKeepsOthers<T(!new)>(name: T -> string, a: seq<T>, x: T, b: seq<T>, n: string)
    requires n != name(x) && n in MapBy(name, a + b)
    ensures n in MapBy(name, a + [x] + b) && MapBy(name, a + [x] + b)[n] == MapBy(name, a + b)[n]
  {
    var j := KeptIsLast(name, a + b, n);
    var i := if j < |a| then j else j + 1;
    var all := a + [x] + b;
    assert all[i] == (a + b)[j];
    forall k | i < k < |all|
      ensures name(all[k]) != n
    {
      assert k == |a| || all[k] == (a + b)[if k < |a| then k else k - 1];
    }
    LastIsKept(name, all, i);
  }

  // ----- looking alike

  lemma LastMayBeLast<T(!new)>(name: T -> string, key: T -> Key, xs: seq<T>, s: seq<T>, n: string)
    requires SortOf(key, xs, s) && n in MapBy(name, s)
    ensures name(MapBy(name, s)[n]) == n && MayBeLast(name, key, xs, MapBy(name, s)[n])
  {
    var j := KeptIsLast(name, s, n);
    assert s[j] in multiset(xs);
    forall y | y in xs && name(y) == n
      ensures KeyLe(key(y), key(s[j]))
    {
      assert y in multiset(s);
      var k :| 0 <= k < |s| && s[k] == y;
      KeyTotal(key(y), key(y));
    }
  }

  /** Sorted forms that look alike need a shared last entry for every name. */
  lemma AlikeShareLasts<T(!new)>(name: T -> string, key: T -> Key, xs: seq<T>, ys: seq<T>, s: seq<T>, t: seq<T>)
    requires SortOf(key, xs, s) && SortOf(key, ys, t) && MapBy(name, s) == MapBy(name, t)
    ensures MayLookAlike(name, key, xs, ys)
  {
    forall z | z in xs || z in ys
      ensures SharedLast(name, key, xs, ys, name(z))
    {
      assert z in multiset(s) || z in multiset(t);
      if z in s {
        NameKept(name, s, z);
      } else {
        NameKept(name, t, z);
      }
      LastMayBeLast(name, key, xs, s, name(z));
      LastMayBeLast(name, key, ys, t, name(z));
    }
  }

  /** Splits a sorted list after everything that does not sort after the key. */
  lemma {:induction false} SplitAfter<T>(key: T -> Key, s: seq<T>, k: Key) returns (a: seq<T>, b: seq<T>)
    requires SortedBy(key, s)
    ensures s == a + b
    ensures (forall x :: x in a ==> KeyLe(key(x), k)) && forall x :: x in b ==> !KeyLe(key(x), k)
  {
    if s == [] || KeyLe(key(s[|s| - 1]), k) {
      a, b := s, [];
      forall x | x in s
        ensures KeyLe(key(x), k)
      {
        var i :| 0 <= i < |s| && s[i] == x;
        if i < |s| - 1 {
          KeyTransitive(key(x), key(s[|s| - 1]), k);
        }
      }
    } else {
      var n := |s| - 1;
      a, b := SplitAfter(key, s[..n], k);
      b := b + [s[n]];
      assert s == s[..n] + [s[n]];
    }
  }

  lemma SortedParts<T>(key: T -> Key, a: seq<T>, middle: seq<T>, b: seq<T>)
    requires SortedBy(key, a + b) && SortedBy(key, middle)
    requires forall x, m :: x in a && m in middle ==> KeyLe(key(x), key(m))
    requires forall x, m :: x in b && m in middle ==> KeyLe(key(m), key(x))
    ensures SortedBy(key, a + middle + b)
  {
    var all := a + middle + b;
    forall i, j | 0 <= i < j < |all|
      ensures KeyLe(key(all[i]), key(all[j]))
    {
      var na, nm := |a|, |middle|;
      if i < na && na <= j < na + nm {
        assert all[i] in a && all[j] in middle;
      } else if na <= i < na + nm && na + nm <= j {
        assert all[i] in middle && all[j] in b;
      } else if na <= i && j < na + nm {
        assert all[i] == middle[i - na] && all[j] == middle[j - na];
      } else {
        var i', j' := if i < na then i else i - nm, if j < na then j else j - nm;
        assert all[i] == (a + b)[i'] && all[j] == (a + b)[j'];
      }
    }
  }

  /** A sorted form in which the chosen entry is the last of each of the given names. */
  lemma {:induction false} Arrange<T(!new)>(name: T -> string, key: T -> Key, xs: seq<T>, names: set<string>,
                                            p: map<string, T>)
    returns (s: seq<T>)
    requires forall n :: n in names ==> n in p && name(p[n]) == n && MayBeLast(name, key, xs, p[n])
    ensures SortOf(key, xs, s)
    ensures forall n :: n in names ==> n in MapBy(name, s) && MapBy(name, s)[n] == p[n]
    decreases |names|
  {
    hide MapBy, KeyLe;
    if names == {} {
      s := Sort(key, xs);
    } else {
      var n :| n in names;
      var x := p[n];
      var i :| 0 <= i < |xs| && xs[i] == x;
      var rest := xs[..i] + xs[i + 1..];
      MultisetRemove(xs, i);
      forall m | m in names - {n}
        ensures MayBeLast(name, key, rest, p[m])
      {
        assert p[m] != x;
      }
      var before := Arrange(name, key, rest, names - {n}, p);
      var a, b := SplitAfter(key, before, key(x));
      s := a + [x] + b;
      PlacedLast(name, key, xs, rest, x, a, b);
      forall m | m in names - {n} {
        InsertedKeepsOthers(name, a, x, b, m);
      }
    }
  }

  lemma PlacedLast<T(!new)>(name: T -> string, key: T -> Key, xs: seq<T>, rest: seq<T>, x: T, a: seq<T>, b: seq<T>)
    requires MayBeLast(name, key, xs, x) && multiset(xs) == multiset(rest) + multiset{x}
    requires SortOf(key, rest, a + b)
    requires (forall y :: y in a ==> KeyLe(key(y), key(x))) && forall y :: y in b ==> !KeyLe(key(y), key(x))
    ensures SortOf(key, xs, a + [x] + b)
    ensures name(x) in MapBy(name, a + [x] + b) && MapBy(name, a + [x] + b)[name(x)] == x
  {
    forall y | y in b
      ensures KeyLe(key(x), key(y)) && name(y) != name(x)
    {
      KeyTotal(key(x), key(y));
      assert y in multiset(a + b);
      assert y in multiset(xs);
    }
    SortedParts(key, a, [x], b);
    var all := a + [x] + b;
    assert all[|a|] == x;
    forall k | |a| < k < |all|
      ensures name(all[k]) != name(x)
    {
      assert all[k] in b;
    }
    LastIsKept(name, all, |a|);
  }

  ghost function NamesOf<T(!new)>(name: T -> string, xs: seq<T>): set<string> { MapBy(name, xs).Keys }

  /** Where every name has a shared last entry, some sorted forms do look alike. */
  lemma FormsAlike<T(!new)>(name: T -> string, key: T -> Key, xs: seq<T>, ys: seq<T>) returns (s: seq<T>, t: seq<T>)
    requires MayLookAlike(name, key, xs, ys)
    ensures SortOf(key, xs, s) && SortOf(key, ys, t) && MapBy(name, s) == MapBy(name, t)
  {
    hide MayLookAlike, MayBeLast, SharedLast, SortOf, MapBy;
    var names := NamesOf(name, xs);
    forall n
      ensures n in names <==> n in NamesOf(name, ys)
      ensures n in names ==> SharedLast(name, key, xs, ys, n)
    {
      NamesShared(name, key, xs, ys, n);
    }
    var p := map n | n in names :: PickLast(name, key, xs, ys, n);
    s := Arrange(name, key, xs, names, p);
    t := Arrange(name, key, ys, names, p);
    SortKeepsNames(name, key, xs, s);
    SortKeepsNames(name, key, ys, t);
    assert MapBy(name, s).Keys == MapBy(name, t).Keys;
  }

  ghost function PickLast<T(!new)>(name: T -> string, key: T -> Key, xs: seq<T>, ys: seq<T>, n: string): (x: T)
    requires SharedLast(name, key, xs, ys, n)
    ensures name(x) == n && MayBeLast(name, key, xs, x) && MayBeLast(name, key, ys, x)
  {
    var x :| name(x) == n && MayBeLast(name, key, xs, x) && MayBeLast(name, key, ys, x);
    x
  }

  lemma NamesShared<T(!new)>(name: T -> string, key: T -> Key, xs: seq<T>, ys: seq<T>, n: string)
    requires MayLookAlike(name, key, xs, ys)
    ensures n in NamesOf(name, xs) <==> n in NamesOf(name, ys)
    ensures n in NamesOf(name, xs) ==> SharedLast(name, key, xs, ys, n)
  {
    if SharedLast(name, key, xs, ys, n) {
      var x := PickLast(name, key, xs, ys, n);
      NameKept(name, xs, x);
      NameKept(name, ys, x);
    }
  }

  lemma SortKeepsNames<T(!new)>(name: T -> string, key: T -> Key, xs: seq<T>, s: seq<T>)
    requires SortOf(key, xs, s)
    ensures NamesOf(name, s) == NamesOf(name, xs)
  {
    assert forall x :: x in xs <==> x in multiset(xs);
    assert forall x :: x in s <==> x in multiset(s);
  }

  // ----- looking alike and being equal

  lemma {:induction false} FilterAtLeast<T>(keep: T -> bool, xs: seq<T>, at: set<nat>)
    requires forall i :: i in at ==> i < |xs| && keep(xs[i])
    ensures |Filter(keep, xs)| >= |at|
  {
    hide Filter;
    if xs == [] {
      assert at == {};
    } else {
      var n := |xs| - 1;
      FilterAtLeast(keep, xs[..n], at - {n});
      FilterSnoc(keep, xs[..n], xs[n]);
      assert xs == xs[..n] + [xs[n]];
      assert at <= (at - {n}) + {n};
      if n in at {
        assert |at| == |at - {n}| + 1;
      } else {
        assert at - {n} == at;
      }
    }
  }

  lemma {:induction false} FirstDifference<T>(xs: seq<T>, ys: seq<T>) returns (i: nat)
    requires |xs| == |ys| && xs != ys
    ensures i < |xs| && xs[..i] == ys[..i] && xs[i] != ys[i]
  {
    if xs[0] != ys[0] {
      i := 0;
    } else {
      assert xs == [xs[0]] + xs[1..] && ys == [ys[0]] + ys[1..];
      var k := FirstDifference(xs[1..], ys[1..]);
      i := k + 1;
      assert xs[..i] == [xs[0]] + xs[1..][..k] && ys[..i] == [ys[0]] + ys[1..][..k];
    }
  }

  lemma TailsPermuted<T>(s: seq<T>, t: seq<T>, i: nat)
    requires multiset(s) == multiset(t) && i < |s| == |t| && s[..i] == t[..i]
    ensures multiset(s[i..]) == multiset(t[i..])
  {
    assert s == s[..i] + s[i..] && t == t[..i] + t[i..];
    assert multiset(s[i..]) == multiset(s) - multiset(s[..i]);
    assert multiset(t[i..]) == multiset(t) - multiset(t[..i]);
  }

  lemma FoundLater<T>(s: seq<T>, t: seq<T>, i: nat) returns (j: nat)
    requires multiset(s) == multiset(t) && i < |s| == |t| && s[..i] == t[..i] && s[i] != t[i]
    ensures i < j < |s| && s[j] == t[i]
  {
    TailsPermuted(s, t, i);
    assert t[i] == t[i..][0] && t[i..][0] in multiset(s[i..]);
    var k :| 0 <= k < |s[i..]| && s[i..][k] == t[i];
    j := i + k;
  }

  /** From where two sorted forms part, each has the other's entry later, tied. */
  lemma PartingTies<T>(key: T -> Key, s: seq<T>, t: seq<T>, i: nat) returns (j: nat)
    requires multiset(s) == multiset(t) && SortedBy(key, s) && SortedBy(key, t)
    requires i < |s| == |t| && s[..i] == t[..i] && s[i] != t[i]
    ensures i < j < |s| && s[j] == t[i] && key(s[i]) == key(t[i])
  {
    hide KeyLe;
    j := FoundLater(s, t, i);
    var l := FoundLater(t, s, i);
    assert KeyLe(key(s[i]), key(s[j])) && KeyLe(key(t[i]), key(t[l]));
    KeyAntisymmetric(key(s[i]), key(t[i]));
  }

  lemma ThreeTied<T>(key: T -> Key, s: seq<T>, i: nat, j: nat, k: nat)
    requires i < j < k < |s| && key(s[i]) == key(s[j]) == key(s[k])
    ensures |Filter(TiedWith(key, key(s[i])), s)| >= 3
  {
    FilterAtLeast(TiedWith(key, key(s[i])), s, {i, j, k});
    assert |{i, j, k}| == 3;
  }

  /** The last entry of a tied pair's name is the one that comes second. */
  lemma SecondIsKept<T(!new)>(name: T -> string, key: T -> Key, xs: seq<T>, s: seq<T>, i: nat, j: nat)
    requires Pinned(name, key, xs) && SortOf(key, xs, s)
    requires i < j < |s| && s[i] != s[j] && key(s[i]) == key(s[j])
    requires |Filter(TiedWith(key, key(s[i])), s)| == |Filter(TiedWith(key, key(s[i])), xs)|
    ensures name(s[i]) == name(s[j]) && name(s[i]) in MapBy(name, s) && MapBy(name, s)[name(s[i])] == s[j]
  {
    hide Filter, MapBy, KeyLe, TiedWith;
    assert s[i] in multiset(xs) && s[j] in multiset(xs);
    forall k | j < k < |s|
      ensures name(s[k]) != name(s[j])
    {
      assert s[k] in multiset(xs);
      if name(s[k]) == name(s[j]) {
        assert KeyLe(key(s[k]), key(s[i])) && KeyLe(key(s[i]), key(s[k]));
        KeyAntisymmetric(key(s[k]), key(s[i]));
        ThreeTied(key, s, i, j, k);
      }
    }
    LastIsKept(name, s, j);
  }

  lemma FilterSplit<T>(keep: T -> bool, a: seq<T>, x: T, b: seq<T>)
    ensures |Filter(keep, a + [x] + b)| == |Filter(keep, a + b)| + (if keep(x) then 1 else 0)
  {
    assert a + [x] + b == a + ([x] + b) && ([x] + b)[1..] == b;
    FilterConcat(keep, a, b);
    FilterConcat(keep, a, [x] + b);
  }

  lemma {:induction false} FilterPermutes<T>(keep: T -> bool, xs: seq<T>, ys: seq<T>)
    requires multiset(xs) == multiset(ys)
    ensures |Filter(keep, xs)| == |Filter(keep, ys)|
  {
    hide Filter;
    if xs == [] {
      assert |multiset(ys)| == 0;
    } else {
      assert xs[0] in multiset(ys);
      var j :| 0 <= j < |ys| && ys[j] == xs[0];
      var rest, less := xs[..0] + xs[1..], ys[..j] + ys[j + 1..];
      RemoveBoth(xs, 0, ys, j);
      FilterPermutes(keep, rest, less);
      assert xs == xs[..0] + [xs[0]] + xs[1..] && ys == ys[..j] + [ys[j]] + ys[j + 1..];
      FilterSplit(keep, xs[..0], xs[0], xs[1..]);
      FilterSplit(keep, ys[..j], ys[j], ys[j + 1..]);
    }
  }

  /** Pinned lists have one sorted form of each appearance. */
  lemma PinnedFormsEqual<T(!new)>(name: T -> string, key: T -> Key, xs: seq<T>, s: seq<T>, t: seq<T>)
    requires Pinned(name, key, xs) && SortOf(key, xs, s) && SortOf(key, xs, t)
    requires MapBy(name, s) == MapBy(name, t)
    ensures s == t
  {
    assert |s| == |multiset(s)| == |multiset(t)| == |t|;
    if s != t {
      var i := FirstDifference(s, t);
      var j := PartingTies(key, s, t, i);
      var k := PartingTies(key, t, s, i);
      FilterPermutes(TiedWith(key, key(s[i])), s, xs);
      FilterPermutes(TiedWith(key, key(t[i])), t, xs);
      SecondIsKept(name, key, xs, s, i, j);
      SecondIsKept(name, key, xs, t, i, k);
    }
  }

  // ----- looking alike without being equal

  /** Exchanging neighbours is invisible when their names differ or something of their name follows. */
  lemma ExchangeUnseen<T(!new)>(name: T -> string, a: seq<T>, x: T, y: T, b: seq<T>)
    requires name(x) != name(y) || name(x) in MapBy(name, b)
    ensures MapBy(name, a + [x, y] + b) == MapBy(name, a + [y, x] + b)
  {
    var s, t := a + [x, y] + b, a + [y, x] + b;
    forall n
      ensures n in MapBy(name, s) <==> n in MapBy(name, t)
      ensures n in MapBy(name, s) ==> MapBy(name, s)[n] == MapBy(name, t)[n]
    {
      if n in MapBy(name, s) {
        ExchangeKeeps(name, a, x, y, b, n);
      } else if n in MapBy(name, t) {
        ExchangeKeeps(name, a, y, x, b, n);
      }
    }
    assert MapBy(name, s).Keys == MapBy(name, t).Keys;
  }

  lemma ExchangeKeeps<T(!new)>(name: T -> string, a: seq<T>, x: T, y: T, b: seq<T>, n: string)
    requires name(x) != name(y) || name(x) in MapBy(name, b)
    requires n in MapBy(name, a + [x, y] + b)
    ensures n in MapBy(name, a + [y, x] + b) && MapBy(name, a + [y, x] + b)[n] == MapBy(name, a + [x, y] + b)[n]
  {
    hide MapBy;
    var s, t := a + [x, y] + b, a + [y, x] + b;
    var j := KeptIsLast(name, s, n);
    if name(x) == name(y) == n {
      var l := KeptIsLast(name, b, n);
      assert s[|a| + 2 + l] == b[l];
    }
    var i := if j == |a| then |a| + 1 else if j == |a| + 1 then |a| else j;
    assert t[i] == s[j];
    forall k | i < k < |t|
      ensures name(t[k]) != n
    {
      assert t[k] == s[if k == |a| then |a| + 1 else if k == |a| + 1 then |a| else k];
    }
    LastIsKept(name, t, i);
  }

  lemma {:induction false} SplitBefore<T>(key: T -> Key, s: seq<T>, k: Key) returns (a: seq<T>, b: seq<T>)
    requires SortedBy(key, s)
    ensures s == a + b
    ensures (forall x :: x in a ==> !KeyLe(k, key(x))) && forall x :: x in b ==> KeyLe(k, key(x))
  {
    if s == [] || KeyLe(k, key(s[0])) {
      a, b := [], s;
      forall x | x in s
        ensures KeyLe(k, key(x))
      {
        var i :| 0 <= i < |s| && s[i] == x;
        if i > 0 {
          KeyTransitive(k, key(s[0]), key(x));
        }
      }
    } else {
      a, b := SplitBefore(key, s[1..], k);
      a := [s[0]] + a;
      assert s == [s[0]] + s[1..];
    }
  }

  lemma PairPlaced<T>(key: T -> Key, xs: seq<T>, a: seq<T>, x: T, y: T, b: seq<T>)
    requires key(x) == key(y) && multiset(xs) == multiset(a + b) + multiset{x, y} && SortedBy(key, a + b)
    requires (forall z :: z in a ==> !KeyLe(key(x), key(z))) && forall z :: z in b ==> KeyLe(key(x), key(z))
    ensures SortOf(key, xs, a + [x, y] + b)
  {
    hide KeyLe;
    forall z | z in a
      ensures KeyLe(key(z), key(x))
    {
      KeyTotal(key(z), key(x));
    }
    KeyTotal(key(x), key(x));
    SortedParts(key, a, [x, y], b);
    assert multiset(a + [x, y] + b) == multiset(a) + multiset{x, y} + multiset(b);
  }

  /** Two sorted forms that place a tied pair one way and the other. */
  lemma TwoPlacements<T(!new)>(key: T -> Key, xs: seq<T>, rest: seq<T>, x: T, y: T) returns (a: seq<T>, b: seq<T>)
    requires key(x) == key(y) && multiset(xs) == multiset(rest) + multiset{x, y}
    ensures SortOf(key, xs, a + [x, y] + b) && SortOf(key, xs, a + [y, x] + b)
    ensures forall z :: z in rest && KeyLe(key(x), key(z)) ==> z in b
  {
    hide KeyLe;
    var s := Sort(key, rest);
    a, b := SplitBefore(key, s, key(x));
    assert multiset(xs) == multiset(a + b) + multiset{y, x};
    PairPlaced(key, xs, a, x, y, b);
    PairPlaced(key, xs, a, y, x, b);
    forall z | z in rest && KeyLe(key(x), key(z))
      ensures z in b
    {
      assert z in multiset(a + b);
    }
  }

  lemma WithoutPair<T>(xs: seq<T>, x: T, y: T) returns (rest: seq<T>)
    requires x in xs && y in xs && x != y
    ensures multiset(xs) == multiset(rest) + multiset{x, y}
  {
    var i :| 0 <= i < |xs| && xs[i] == x;
    var less := xs[..i] + xs[i + 1..];
    MultisetRemove(xs, i);
    assert y in multiset(less);
    var j :| 0 <= j < |less| && less[j] == y;
    MultisetRemove(less, j);
    rest := less[..j] + less[j + 1..];
  }

  /** A list that is not pinned has two sorted forms that look alike. */
  lemma UnpinnedForms<T(!new)>(name: T -> string, key: T -> Key, xs: seq<T>) returns (s: seq<T>, t: seq<T>)
    requires !Pinned(name, key, xs)
    ensures SortOf(key, xs, s) && SortOf(key, xs, t) && MapBy(name, s) == MapBy(name, t) && s != t
  {
    var x, y :| x in xs && y in xs && x != y && key(x) == key(y)
                && !(name(x) == name(y) && MayBeLast(name, key, xs, x) && |Filter(TiedWith(key, key(x)), xs)| == 2);
    var rest := WithoutPair(xs, x, y);
    if name(x) != name(y) {
      s, t := UnseenPlacements(name, key, xs, rest, x, y);
    } else if !MayBeLast(name, key, xs, x) {
      var w :| w in xs && name(w) == name(x) && !KeyLe(key(w), key(x));
      KeyTotal(key(w), key(x));
      KeyTotal(key(x), key(x));
      assert w in multiset(xs) && w in multiset(rest);
      s, t := UnseenPlacements(name, key, xs, rest, x, y);
    } else {
      var z := ThirdTied(key, xs, rest, x, y);
      KeyTotal(key(x), key(x));
      if name(z) == name(x) {
        s, t := UnseenPlacements(name, key, xs, rest, x, y);
      } else {
        assert z in multiset(xs);
        rest := WithoutPair(xs, x, z);
        s, t := UnseenPlacements(name, key, xs, rest, x, z);
      }
    }
  }

  lemma ThirdTied<T>(key: T -> Key, xs: seq<T>, rest: seq<T>, x: T, y: T) returns (z: T)
    requires multiset(xs) == multiset(rest) + multiset{x, y} && key(x) == key(y)
    requires |Filter(TiedWith(key, key(x)), xs)| != 2
    ensures z in rest && key(z) == key(x)
  {
    var tied := TiedWith(key, key(x));
    FilterPermutes(tied, xs, rest + [x, y]);
    FilterConcat(tied, rest, [x, y]);
    assert [x, y][1..] == [y] && Filter(tied, [y]) == [y] && Filter(tied, [x, y]) == [x, y];
    z := Filter(tied, rest)[0];
    assert z in Filter(tied, rest);
  }

  lemma UnseenPlacements<T(!new)>(name: T -> string, key: T -> Key, xs: seq<T>, rest: seq<T>, x: T, y: T)
    returns (s: seq<T>, t: seq<T>)
    requires key(x) == key(y) && x != y && multiset(xs) == multiset(rest) + multiset{x, y}
    requires name(x) != name(y) || exists z :: z in rest && name(z) == name(x) && KeyLe(key(x), key(z))
    ensures SortOf(key, xs, s) && SortOf(key, xs, t) && MapBy(name, s) == MapBy(name, t) && s != t
  {
    var a, b := TwoPlacements(key, xs, rest, x, y);
    if z :| z in rest && name(z) == name(x) && KeyLe(key(x), key(z)) {
      NameKept(name, b, z);
    }
    ExchangeUnseen(name, a, x, y, b);
    s, t := a + [x, y] + b, a + [y, x] + b;
    assert s[|a|] == x && t[|a|] == y;
  }
}
