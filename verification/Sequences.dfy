/** Sequence helpers shared by every component: filtering, mapping and concatenating lists. */
module Sequences {

  datatype Option<+T> = None | Some(value: T)

  /** The elements of xs that satisfy keep, in their original order. */
  function Filter<T>(keep: T -> bool, xs: seq<T>): (r: seq<T>)
    ensures |r| <= |xs|
    ensures forall x :: x in r ==> x in xs && keep(x)
    ensures forall x :: x in xs ==> keep(x) ==> x in r
  {
    if xs == [] then []
    else (if keep(xs[0]) then [xs[0]] else []) + Filter(keep, xs[1..])
  }

  lemma {:induction false} FilterSnoc<T>(keep: T -> bool, xs: seq<T>, x: T)
    ensures Filter(keep, xs + [x]) == Filter(keep, xs) + (if keep(x) then [x] else [])
  {
    if xs == [] {
    } else {
      assert (xs + [x])[1..] == xs[1..] + [x];
      FilterSnoc(keep, xs[1..], x);
    }
  }

  lemma {:induction false} FilterConcat<T>(keep: T -> bool, xs: seq<T>, ys: seq<T>)
    ensures Filter(keep, xs + ys) == Filter(keep, xs) + Filter(keep, ys)
  {
    if xs == [] {
      assert xs + ys == ys;
    } else {
      assert (xs + ys)[1..] == xs[1..] + ys;
      FilterConcat(keep, xs[1..], ys);
    }
  }

  lemma FilterOfTwo<T>(keep: T -> bool, x: T, y: T)
    ensures Filter(keep, [x, y]) == (if keep(x) then [x] else []) + (if keep(y) then [y] else [])
  {
    assert [x, y][1..] == [y] && [y][1..] == [];
  }

  function Not<T>(keep: T -> bool): T -> bool { x => !keep(x) }

  /** Nothing is lost: the kept and the rejected elements together are the original ones. */
  lemma {:induction false} FilterPartition<T>(keep: T -> bool, xs: seq<T>)
    ensures multiset(Filter(keep, xs)) + multiset(Filter(Not(keep), xs)) == multiset(xs)
  {
    if xs == [] {
    } else {
      FilterPartition(keep, xs[1..]);
      var x, kept, rest := xs[0], Filter(keep, xs[1..]), Filter(Not(keep), xs[1..]);
      assert multiset(xs) == multiset{x} + multiset(xs[1..]) by { assert xs == [x] + xs[1..]; }
      if keep(x) {
        assert Filter(keep, xs) == [x] + kept && Filter(Not(keep), xs) == rest;
      } else {
        assert Filter(keep, xs) == kept && Filter(Not(keep), xs) == [x] + rest;
      }
    }
  }

  /**
   * A filter that writes its survivors over the buffer it is still reading (kept := x[:0], then
   * append): after i reads, the survivors so far lead the buffer and nothing unread has changed.
   */
  predicate Compacting<T(==)>(keep: T -> bool, xs: seq<T>, buffer: seq<T>, i: nat, kept: nat) {
    && kept <= i <= |xs| == |buffer|
    && buffer[..kept] == Filter(keep, xs[..i])
    && buffer[i..] == xs[i..]
  }

  lemma CompactStart<T>(keep: T -> bool, xs: seq<T>)
    ensures Compacting(keep, xs, xs, 0, 0)
  {
  }

  /** Overwriting slot kept never touches an element still to be read. */
  lemma CompactStep<T>(keep: T -> bool, xs: seq<T>, buffer: seq<T>, i: nat, kept: nat)
    requires Compacting(keep, xs, buffer, i, kept) && i < |xs|
    ensures kept < |buffer| && i < |buffer| && buffer[i] == xs[i]
    ensures if keep(xs[i]) then Compacting(keep, xs, buffer[kept := xs[i]], i + 1, kept + 1)
            else Compacting(keep, xs, buffer, i + 1, kept)
  {
    assert buffer[i] == buffer[i..][0] == xs[i..][0];
    assert xs[..i + 1] == xs[..i] + [xs[i]];
    FilterSnoc(keep, xs[..i], xs[i]);
    assert buffer[i + 1..] == buffer[i..][1..] == xs[i..][1..] == xs[i + 1..];
    if keep(xs[i]) {
      var written := buffer[kept := xs[i]];
      assert written[..kept + 1] == buffer[..kept] + [xs[i]];
      assert written[i + 1..] == buffer[i + 1..];
    }
  }

  lemma CompactDone<T>(keep: T -> bool, xs: seq<T>, buffer: seq<T>, kept: nat)
    requires Compacting(keep, xs, buffer, |xs|, kept)
    ensures kept <= |buffer| && buffer[..kept] == Filter(keep, xs)
  {
    assert xs[..|xs|] == xs;
  }

  /** Concatenates the lists f yields for each element, in order. */
  function FlatMap<T, U>(f: T -> seq<U>, xs: seq<T>): seq<U> {
    if xs == [] then [] else f(xs[0]) + FlatMap(f, xs[1..])
  }

  lemma {:induction false} FlatMapSnoc<T, U>(f: T -> seq<U>, xs: seq<T>, x: T)
    ensures FlatMap(f, xs + [x]) == FlatMap(f, xs) + f(x)
  {
    if xs == [] {
      assert xs + [x] == [x];
      assert f(x) + [] == f(x);
    } else {
      assert (xs + [x])[1..] == xs[1..] + [x];
      FlatMapSnoc(f, xs[1..], x);
      assert f(xs[0]) + (FlatMap(f, xs[1..]) + f(x)) == f(xs[0]) + FlatMap(f, xs[1..]) + f(x);
    }
  }

  lemma {:induction false} FlatMapMembers<T, U>(f: T -> seq<U>, xs: seq<T>, u: U)
    ensures u in FlatMap(f, xs) <==> exists x :: x in xs && u in f(x)
  {
    if xs == [] {
    } else {
      FlatMapMembers(f, xs[1..], u);
      assert forall x :: x in xs <==> x == xs[0] || x in xs[1..];
    }
  }

  lemma FlatMapEmpty<T, U>(f: T -> seq<U>, xs: seq<T>)
    ensures FlatMap(f, xs) == [] <==> forall x :: x in xs ==> f(x) == []
  {
    if xs == [] {
    } else {
      FlatMapEmpty(f, xs[1..]);
      assert forall x :: x in xs <==> x == xs[0] || x in xs[1..];
    }
  }

  /** The elements of a set in some order, each once. */
  ghost function Listing<T(!new)>(elements: set<T>): (xs: seq<T>)
    ensures forall x :: x in xs <==> x in elements
    ensures forall i, j :: 0 <= i < j < |xs| ==> xs[i] != xs[j]
  {
    if elements == {} then [] else var x :| x in elements; [x] + Listing(elements - {x})
  }

  /** Looks every element up in a table. */
  function Image<T, U>(m: map<T, U>, xs: seq<T>): (r: seq<U>)
    requires forall x :: x in xs ==> x in m
    ensures |r| == |xs| && forall i :: 0 <= i < |xs| ==> r[i] == m[xs[i]]
  {
    seq(|xs|, i requires 0 <= i < |xs| => m[xs[i]])
  }

  lemma MultisetRemove<T>(xs: seq<T>, j: nat)
    requires j < |xs|
    ensures multiset(xs) == multiset(xs[..j] + xs[j + 1..]) + multiset{xs[j]}
  {
    assert xs == xs[..j] + [xs[j]] + xs[j + 1..];
  }

  /** Dropping one occurrence of the same element keeps permutations permutations. */
  lemma RemoveBoth<T>(xs: seq<T>, i: nat, ys: seq<T>, j: nat)
    requires multiset(xs) == multiset(ys)
    requires i < |xs| && j < |ys| && xs[i] == ys[j]
    ensures multiset(xs[..i] + xs[i + 1..]) == multiset(ys[..j] + ys[j + 1..])
  {
    MultisetRemove(xs, i);
    MultisetRemove(ys, j);
    assert multiset(xs[..i] + xs[i + 1..]) == multiset(xs) - multiset{xs[i]};
    assert multiset(ys[..j] + ys[j + 1..]) == multiset(ys) - multiset{ys[j]};
  }

  lemma DropHeads<T>(xs: seq<T>, ys: seq<T>)
    requires multiset(xs) == multiset(ys)
    requires xs != [] && ys != [] && xs[0] == ys[0]
    ensures multiset(xs[1..]) == multiset(ys[1..])
  {
    RemoveBoth(xs, 0, ys, 0);
    assert xs[..0] + xs[1..] == xs[1..] && ys[..0] + ys[1..] == ys[1..];
  }

  lemma ImageRemove<T, U>(m: map<T, U>, xs: seq<T>, j: nat)
    requires j < |xs|
    requires forall x :: x in xs ==> x in m
    ensures multiset(Image(m, xs)) == multiset(Image(m, xs[..j] + xs[j + 1..])) + multiset{m[xs[j]]}
  {
    MultisetRemove(Image(m, xs), j);
    assert Image(m, xs)[..j] + Image(m, xs)[j + 1..] == Image(m, xs[..j] + xs[j + 1..]);
  }

  /** Reordering a list reorders its image and nothing else. */
  lemma {:induction false} ImagePermutes<T, U>(m: map<T, U>, xs: seq<T>, ys: seq<T>)
    requires multiset(xs) == multiset(ys)
    requires forall x :: x in xs ==> x in m
    requires forall y :: y in ys ==> y in m
    ensures multiset(Image(m, xs)) == multiset(Image(m, ys))
  {
    if xs == [] {
      assert |multiset(ys)| == 0;
    } else {
      assert xs[0] in multiset(ys);
      var j :| 0 <= j < |ys| && ys[j] == xs[0];
      ghost var less, rest := xs[..0] + xs[1..], ys[..j] + ys[j + 1..];
      RemoveBoth(xs, 0, ys, j);
      ImagePermutes(m, less, rest);
      ImageRemove(m, xs, 0);
      ImageRemove(m, ys, j);
    }
  }

  lemma DistinctPermuted<T>(xs: seq<T>, ys: seq<T>)
    requires multiset(xs) == multiset(ys)
    requires forall i, j :: 0 <= i < j < |xs| ==> xs[i] != xs[j]
    ensures forall i, j :: 0 <= i < j < |ys| ==> ys[i] != ys[j]
  {
    forall i, j | 0 <= i < j < |ys|
      ensures ys[i] != ys[j]
    {
      if ys[i] == ys[j] {
        MultisetRemove(ys, j);
        assert (ys[..j] + ys[j + 1..])[i] == ys[j];
        assert multiset(ys)[ys[j]] >= 2;
        OccursOnce(xs, ys[j]);
      }
    }
  }

  lemma {:induction false} OccursOnce<T>(xs: seq<T>, x: T)
    requires forall i, j :: 0 <= i < j < |xs| ==> xs[i] != xs[j]
    ensures multiset(xs)[x] <= 1
  {
    if xs != [] {
      assert xs == [xs[0]] + xs[1..];
      OccursOnce(xs[1..], x);
      if xs[0] == x {
        assert x !in xs[1..];
      }
    }
  }
}
