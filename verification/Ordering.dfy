/**
 * The order in which catalog lists are sorted: byte-wise string order, applied to a
 * (schema, name) key. sort.Slice is not stable, so a sort is known only by its contract: the
 * result is a sorted permutation. The module settles when that contract fixes the result.
 */
module Ordering {
  import opened Sequences

  datatype Key = Key(schema: string, name: string)

  predicate StringLe(a: string, b: string) {
    if a == [] then true
    else if b == [] then false
    else if a[0] != b[0] then a[0] < b[0]
    else StringLe(a[1..], b[1..])
  }

  lemma {:induction false} StringTotal(a: string, b: string)
    ensures StringLe(a, b) || StringLe(b, a)
  {
    if a != [] && b != [] && a[0] == b[0] {
      StringTotal(a[1..], b[1..]);
    }
  }

  lemma {:induction false} StringAntisymmetric(a: string, b: string)
    requires StringLe(a, b) && StringLe(b, a)
    ensures a == b
  {
    if a != [] && b != [] {
      StringAntisymmetric(a[1..], b[1..]);
      assert a == [a[0]] + a[1..] && b == [b[0]] + b[1..];
    }
  }

  lemma {:induction false} StringTransitive(a: string, b: string, c: string)
    requires StringLe(a, b) && StringLe(b, c)
    ensures StringLe(a, c)
  {
    if a != [] && b != [] && c != [] && a[0] == b[0] == c[0] {
      StringTransitive(a[1..], b[1..], c[1..]);
    }
  }

  predicate KeyLe(a: Key, b: Key) {
    if a.schema != b.schema then StringLe(a.schema, b.schema) else StringLe(a.name, b.name)
  }

  lemma KeyTotal(a: Key, b: Key)
    ensures KeyLe(a, b) || KeyLe(b, a)
  {
    StringTotal(a.schema, b.schema);
    StringTotal(a.name, b.name);
  }

  lemma KeyAntisymmetric(a: Key, b: Key)
    requires KeyLe(a, b) && KeyLe(b, a)
    ensures a == b
  {
    if a.schema != b.schema {
      StringAntisymmetric(a.schema, b.schema);
    } else {
      StringAntisymmetric(a.name, b.name);
    }
  }

  lemma KeyTransitive(a: Key, b: Key, c: Key)
    requires KeyLe(a, b) && KeyLe(b, c)
    ensures KeyLe(a, c)
  {
    if a.schema == b.schema == c.schema {
      StringTransitive(a.name, b.name, c.name);
    } else if a.schema != b.schema && b.schema != c.schema {
      StringTransitive(a.schema, b.schema, c.schema);
      if a.schema == c.schema {
        StringAntisymmetric(a.schema, b.schema);
      }
    }
  }

  predicate SortedBy<T>(key: T -> Key, xs: seq<T>) {
    forall i, j :: 0 <= i < j < |xs| ==> KeyLe(key(xs[i]), key(xs[j]))
  }

  /** Elements that sort alike are equal, so their order cannot be seen. */
  predicate KeyDetermines<T(==)>(key: T -> Key, xs: seq<T>) {
    forall i, j :: 0 <= i < |xs| && 0 <= j < |xs| && key(xs[i]) == key(xs[j]) ==> xs[i] == xs[j]
  }

  predicate SortOf<T(==)>(key: T -> Key, xs: seq<T>, ys: seq<T>) {
    multiset(ys) == multiset(xs) && SortedBy(key, ys)
  }

  lemma KeyDeterminesPermuted<T>(key: T -> Key, xs: seq<T>, ys: seq<T>)
    requires multiset(xs) == multiset(ys) && KeyDetermines(key, xs)
    ensures KeyDetermines(key, ys)
  {
    forall i, j | 0 <= i < |ys| && 0 <= j < |ys| && key(ys[i]) == key(ys[j])
      ensures ys[i] == ys[j]
    {
      assert ys[i] in multiset(xs) && ys[j] in multiset(xs);
    }
  }

  /** Sorting has one possible result when equal keys mean equal elements. */
  lemma {:induction false} SortUnique<T>(key: T -> Key, xs: seq<T>, ys: seq<T>)
    requires multiset(xs) == multiset(ys)
    requires SortedBy(key, xs) && SortedBy(key, ys)
    requires KeyDetermines(key, xs)
    ensures xs == ys
  {
    assert |xs| == |multiset(xs)| == |multiset(ys)| == |ys|;
    if xs != [] {
      HeadsAgree(key, xs, ys);
      DropHeads(xs, ys);
      KeyDeterminesTail(key, xs);
      SortUnique(key, xs[1..], ys[1..]);
      assert xs == [xs[0]] + xs[1..] && ys == [ys[0]] + ys[1..];
    }
  }

  lemma KeyDeterminesTail<T>(key: T -> Key, xs: seq<T>)
    requires xs != [] && SortedBy(key, xs) && KeyDetermines(key, xs)
    ensures SortedBy(key, xs[1..]) && KeyDetermines(key, xs[1..])
  {
  }

  lemma HeadsAgree<T>(key: T -> Key, xs: seq<T>, ys: seq<T>)
    requires multiset(xs) == multiset(ys) && xs != [] && ys != []
    requires SortedBy(key, xs) && SortedBy(key, ys)
    requires KeyDetermines(key, xs)
    ensures xs[0] == ys[0]
  {
    assert xs[0] in multiset(ys) && ys[0] in multiset(xs);
    var j :| 0 <= j < |ys| && ys[j] == xs[0];
    var i :| 0 <= i < |xs| && xs[i] == ys[0];
    if i != 0 && j != 0 {
      KeyAntisymmetric(key(xs[0]), key(ys[0]));
    }
  }

  /** Inserts before the first element that does not precede x. */
  function Insert<T(==)>(key: T -> Key, x: T, xs: seq<T>): (r: seq<T>)
    requires SortedBy(key, xs)
    ensures multiset(r) == multiset(xs) + multiset{x}
    ensures SortedBy(key, r)
  {
    if xs == [] then [x]
    else if KeyLe(key(x), key(xs[0])) then
      InsertHead(key, x, xs);
      assert multiset([x] + xs) == multiset{x} + multiset(xs);
      [x] + xs
    else
      var tail := Insert(key, x, xs[1..]);
      InsertTail(key, x, xs, tail);
      [xs[0]] + tail
  }

  lemma InsertHead<T>(key: T -> Key, x: T, xs: seq<T>)
    requires SortedBy(key, xs) && xs != [] && KeyLe(key(x), key(xs[0]))
    ensures SortedBy(key, [x] + xs)
  {
    forall j | 0 < j < |xs| + 1
      ensures KeyLe(key(x), key(([x] + xs)[j]))
    {
      if j > 1 {
        KeyTransitive(key(x), key(xs[0]), key(xs[j - 1]));
      }
    }
  }

  lemma InsertTail<T>(key: T -> Key, x: T, xs: seq<T>, tail: seq<T>)
    requires SortedBy(key, xs) && xs != [] && !KeyLe(key(x), key(xs[0]))
    requires SortedBy(key, tail) && multiset(tail) == multiset(xs[1..]) + multiset{x}
    ensures SortedBy(key, [xs[0]] + tail)
    ensures multiset([xs[0]] + tail) == multiset(xs) + multiset{x}
  {
    assert xs == [xs[0]] + xs[1..];
    KeyTotal(key(x), key(xs[0]));
    forall j | 0 <= j < |tail|
      ensures KeyLe(key(xs[0]), key(tail[j]))
    {
      assert tail[j] in multiset(tail);
    }
  }

  /** A representative sort; SortUnique says when every sort agrees with it. */
  function Sort<T(==)>(key: T -> Key, xs: seq<T>): (r: seq<T>)
    ensures SortOf(key, xs, r)
  {
    if xs == [] then []
    else
      assert xs == [xs[0]] + xs[1..];
      Insert(key, xs[0], Sort(key, xs[1..]))
  }

  /** The library sort: nothing is promised about elements that compare alike. */
  method SortSlice<T(==)>(key: T -> Key, xs: seq<T>) returns (ys: seq<T>)
    ensures SortOf(key, xs, ys)
  {
    ys := [];
    for i := 0 to |xs|
      invariant SortOf(key, xs[..i], ys)
    {
      ys := Insert(key, xs[i], ys);
      assert xs[..i + 1] == xs[..i] + [xs[i]];
    }
    assert xs[..|xs|] == xs;
  }

  function Swap<T>(xs: seq<T>, i: nat, j: nat): (r: seq<T>)
    requires i < j < |xs|
    ensures |r| == |xs| && r[i] == xs[j] && r[j] == xs[i]
    ensures forall k :: 0 <= k < |xs| && k != i && k != j ==> r[k] == xs[k]
  {
    xs[i := xs[j]][j := xs[i]]
  }

  lemma SwapPermutes<T>(xs: seq<T>, i: nat, j: nat)
    requires i < j < |xs|
    ensures multiset(Swap(xs, i, j)) == multiset(xs)
  {
    var ys := xs[i := xs[j]];
    assert multiset(ys) == multiset(xs) - multiset{xs[i]} + multiset{xs[j]};
    assert multiset(ys[j := xs[i]]) == multiset(ys) - multiset{ys[j]} + multiset{xs[i]};
  }

  /** Two different elements with one key can change places in a sorted list. */
  lemma OtherSort<T>(key: T -> Key, ys: seq<T>, i: nat, j: nat) returns (zs: seq<T>)
    requires SortedBy(key, ys)
    requires i < j < |ys| && key(ys[i]) == key(ys[j]) && ys[i] != ys[j]
    ensures SortOf(key, ys, zs) && zs != ys
  {
    zs := Swap(ys, i, j);
    SwapPermutes(ys, i, j);
    assert forall k :: 0 <= k < |ys| ==> key(zs[k]) == key(ys[k]);
  }

  /**
   * Exactly when the sorted form does not depend on the sorting algorithm or on the order the
   * elements arrived in: equal keys must mean equal elements.
   */
  lemma SortDeterminedIff<T(!new)>(key: T -> Key, xs: seq<T>)
    ensures KeyDetermines(key, xs) <==>
            forall ys, zs :: SortOf(key, xs, ys) && SortOf(key, xs, zs) ==> ys == zs
  {
    if KeyDetermines(key, xs) {
      forall ys, zs | SortOf(key, xs, ys) && SortOf(key, xs, zs)
        ensures ys == zs
      {
        KeyDeterminesPermuted(key, xs, ys);
        SortUnique(key, ys, zs);
      }
    } else {
      var ys, zs := TwoSorts(key, xs);
    }
  }

  lemma TwoSorts<T>(key: T -> Key, xs: seq<T>) returns (ys: seq<T>, zs: seq<T>)
    requires !KeyDetermines(key, xs)
    ensures SortOf(key, xs, ys) && SortOf(key, xs, zs) && ys != zs
  {
    var a, b :| 0 <= a < |xs| && 0 <= b < |xs| && key(xs[a]) == key(xs[b]) && xs[a] != xs[b];
    ys := Sort(key, xs);
    assert xs[a] in multiset(ys) && xs[b] in multiset(ys);
    var i :| 0 <= i < |ys| && ys[i] == xs[a];
    var j :| 0 <= j < |ys| && ys[j] == xs[b];
    if i < j {
      zs := OtherSort(key, ys, i, j);
    } else {
      zs := OtherSort(key, ys, j, i);
    }
  }

  function StringKey(s: string): Key { Key(s, "") }

  /** Two listings of the same duplicate-free strings sort alike. */
  lemma StringSortsAgree(xs: seq<string>, ys: seq<string>)
    requires forall i, j :: 0 <= i < j < |xs| ==> xs[i] != xs[j]
    requires forall i, j :: 0 <= i < j < |ys| ==> ys[i] != ys[j]
    requires forall s :: s in xs <==> s in ys
    requires SortedBy(StringKey, xs) && SortedBy(StringKey, ys)
    ensures xs == ys
  {
    SameElements(xs, ys);
    SortUnique(StringKey, xs, ys);
  }

  /** Duplicate-free lists with the same members are permutations of each other. */
  lemma {:induction false} SameElements<T>(xs: seq<T>, ys: seq<T>)
    requires forall i, j :: 0 <= i < j < |xs| ==> xs[i] != xs[j]
    requires forall i, j :: 0 <= i < j < |ys| ==> ys[i] != ys[j]
    requires forall s :: s in xs <==> s in ys
    ensures multiset(xs) == multiset(ys)
  {
    if xs == [] {
      assert forall s :: s in multiset(ys) ==> s in ys;
    } else {
      assert xs[0] in ys;
      var j :| 0 <= j < |ys| && ys[j] == xs[0];
      var rest := ys[..j] + ys[j + 1..];
      forall s
        ensures s in xs[1..] <==> s in rest
      {
        if s in xs[1..] {
          assert s in ys && s != ys[j];
        }
        if s in rest {
          assert s in ys && s != ys[j];
          assert s in xs;
        }
      }
      SameElements(xs[1..], rest);
      MultisetRemove(ys, j);
      assert xs == [xs[0]] + xs[1..];
    }
  }

  /** A string comes no later than another exactly when it is a prefix or has the smaller first different one. */
  lemma {:induction false} StringLeIff(a: string, b: string)
    ensures StringLe(a, b) <==>
            a <= b || exists i :: 0 <= i < |a| && i < |b| && a[..i] == b[..i] && a[i] < b[i]
  {
    if a != [] && b != [] && a[0] == b[0] {
      var r, s := a[1..], b[1..];
      StringLeIff(r, s);
      assert a == [a[0]] + r && b == [b[0]] + s;
      if i :| 0 <= i < |r| && i < |s| && r[..i] == s[..i] && r[i] < s[i] {
        assert a[..i + 1] == [a[0]] + r[..i] && b[..i + 1] == [b[0]] + s[..i] && a[i + 1] < b[i + 1];
      }
      if i :| 0 <= i < |a| && i < |b| && a[..i] == b[..i] && a[i] < b[i] {
        assert i > 0 && r[..i - 1] == a[1..i] && a[1..i] == a[..i][1..] && s[..i - 1] == b[..i][1..];
        assert r[i - 1] < s[i - 1];
      }
    } else if a != [] && b != [] {
      if a[0] < b[0] {
        assert a[..0] == b[..0];
      }
      if i :| 0 <= i < |a| && i < |b| && a[..i] == b[..i] && a[i] < b[i] {
        assert i == 0;
      }
    }
  }
}
