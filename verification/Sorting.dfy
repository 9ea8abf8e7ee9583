/** A stable sort by any order, as the library sorts give it: what it returns, when it does nothing, and when the
    order of its input cannot matter. */
module Sorting {
  function Insert<T>(before: (T, T) -> bool, x: T, xs: seq<T>): (r: seq<T>)
    ensures |r| == |xs| + 1
  {
    if xs == [] || !before(xs[0], x) then [x] + xs else [xs[0]] + Insert(before, x, xs[1..])
  }

  function Sort<T>(before: (T, T) -> bool, xs: seq<T>): (r: seq<T>)
    ensures |r| == |xs|
  {
    if xs == [] then [] else Insert(before, xs[0], Sort(before, xs[1..]))
  }

  /** A strict weak order. */
  ghost predicate Order<T(!new)>(before: (T, T) -> bool) {
    && (forall a, b :: before(a, b) ==> !before(b, a))
    && (forall a, b, c :: !before(a, b) && !before(b, c) ==> !before(a, c))
  }

  ghost predicate Sorted<T>(before: (T, T) -> bool, xs: seq<T>) {
    forall i, j :: 0 <= i < j < |xs| ==> !before(xs[j], xs[i])
  }

  /** No two positions hold elements the order does not tell apart. */
  ghost predicate Apart<T>(before: (T, T) -> bool, xs: seq<T>) {
    forall i, j :: 0 <= i < j < |xs| ==> before(xs[i], xs[j]) || before(xs[j], xs[i])
  }

  lemma {:induction false} InsertMembers<T>(before: (T, T) -> bool, x: T, xs: seq<T>)
    ensures multiset(Insert(before, x, xs)) == multiset(xs) + multiset{x}
  {
    if xs != [] && before(xs[0], x) {
      InsertMembers(before, x, xs[1..]);
      assert xs == [xs[0]] + xs[1..];
    }
  }

  lemma {:induction false} InsertSorted<T(!new)>(before: (T, T) -> bool, x: T, xs: seq<T>)
    requires Order(before) && Sorted(before, xs)
    ensures Sorted(before, Insert(before, x, xs))
  {
    if xs != [] && before(xs[0], x) {
      var t := Insert(before, x, xs[1..]);
      InsertSorted(before, x, xs[1..]);
      InsertMembers(before, x, xs[1..]);
      forall j | 0 <= j < |t|
        ensures !before(t[j], xs[0])
      {
        assert t[j] in multiset(t);
        assert t[j] == x || t[j] in xs[1..];
      }
    }
  }

  lemma {:induction false} SortMembers<T>(before: (T, T) -> bool, xs: seq<T>)
    ensures multiset(Sort(before, xs)) == multiset(xs)
  {
    if xs != [] {
      SortMembers(before, xs[1..]);
      InsertMembers(before, xs[0], Sort(before, xs[1..]));
      assert xs == [xs[0]] + xs[1..];
    }
  }

  lemma SortMember<T>(before: (T, T) -> bool, xs: seq<T>, x: T)
    ensures x in Sort(before, xs) <==> x in xs
  {
    SortMembers(before, xs);
    assert x in Sort(before, xs) <==> x in multiset(Sort(before, xs));
    assert x in xs <==> x in multiset(xs);
  }

  lemma {:induction false} SortSorted<T(!new)>(before: (T, T) -> bool, xs: seq<T>)
    requires Order(before)
    ensures Sorted(before, Sort(before, xs))
  {
    if xs != [] {
      SortSorted(before, xs[1..]);
      InsertSorted(before, xs[0], Sort(before, xs[1..]));
    }
  }

  lemma SortedTail<T>(before: (T, T) -> bool, xs: seq<T>)
    requires xs != [] && Sorted(before, xs)
    ensures Sorted(before, xs[1..])
  {
  }

  lemma {:induction false} SortOfSorted<T>(before: (T, T) -> bool, xs: seq<T>)
    requires Sorted(before, xs)
    ensures Sort(before, xs) == xs
  {
    if xs != [] {
      SortedTail(before, xs);
      SortOfSorted(before, xs[1..]);
      assert |xs| > 1 ==> xs[1..][0] == xs[1];
      assert [xs[0]] + xs[1..] == xs;
    }
  }

  lemma {:induction false} InsertCommutes<T(!new)>(before: (T, T) -> bool, x: T, y: T, xs: seq<T>)
    requires Order(before) && (before(x, y) || before(y, x))
    ensures Insert(before, x, Insert(before, y, xs)) == Insert(before, y, Insert(before, x, xs))
  {
    if xs != [] {
      var a, tail := xs[0], xs[1..];
      InsertCommutes(before, x, y, tail);
      assert ([a] + Insert(before, y, tail))[1..] == Insert(before, y, tail);
      assert ([a] + Insert(before, x, tail))[1..] == Insert(before, x, tail);
      assert ([x] + xs)[1..] == xs && ([y] + xs)[1..] == xs;
    }
  }

  function InsertAll<T>(before: (T, T) -> bool, front: seq<T>, xs: seq<T>): seq<T> {
    if front == [] then xs else Insert(before, front[0], InsertAll(before, front[1..], xs))
  }

  lemma {:induction false} SortInsertsAll<T>(before: (T, T) -> bool, front: seq<T>, back: seq<T>)
    ensures Sort(before, front + back) == InsertAll(before, front, Sort(before, back))
  {
    if front == [] {
      assert front + back == back;
    } else {
      SortInsertsAll(before, front[1..], back);
      assert (front + back)[1..] == front[1..] + back;
    }
  }

  lemma {:induction false} InsertPastAll<T(!new)>(before: (T, T) -> bool, front: seq<T>, x: T, xs: seq<T>)
    requires Order(before) && forall f :: f in front ==> before(f, x) || before(x, f)
    ensures InsertAll(before, front, Insert(before, x, xs)) == Insert(before, x, InsertAll(before, front, xs))
  {
    if front != [] {
      InsertPastAll(before, front[1..], x, xs);
      InsertCommutes(before, front[0], x, InsertAll(before, front[1..], xs));
    }
  }

  /** Where an element stands does not matter to the sorted order when the order tells it from those before it. */
  lemma {:induction false} SortFromAnyPlace<T(!new)>(before: (T, T) -> bool, front: seq<T>, x: T, back: seq<T>)
    requires Order(before) && forall f :: f in front ==> before(f, x) || before(x, f)
    ensures Sort(before, front + ([x] + back)) == Insert(before, x, Sort(before, front + back))
  {
    SortInsertsAll(before, front, [x] + back);
    SortInsertsAll(before, front, back);
    assert ([x] + back)[1..] == back;
    InsertPastAll(before, front, x, Sort(before, back));
  }

  lemma ApartWithout<T>(before: (T, T) -> bool, ys: seq<T>, j: nat)
    requires j < |ys| && Apart(before, ys)
    ensures Apart(before, ys[..j] + ys[j + 1..])
    ensures forall f :: f in ys[..j] ==> before(f, ys[j]) || before(ys[j], f)
    ensures forall y :: y in ys && y != ys[j] ==> y in ys[..j] + ys[j + 1..]
  {
    var rest := ys[..j] + ys[j + 1..];
    assert forall a :: 0 <= a < |rest| ==> rest[a] == if a < j then ys[a] else ys[a + 1];
    forall y | y in ys && y != ys[j]
      ensures y in rest
    {
      var k :| 0 <= k < |ys| && ys[k] == y;
      assert y == if k < j then rest[k] else rest[k - 1];
    }
  }

  lemma ApartTail<T>(before: (T, T) -> bool, xs: seq<T>)
    requires xs != [] && Apart(before, xs)
    ensures Apart(before, xs[1..])
    ensures forall x :: x in xs[1..] ==> before(xs[0], x) || before(x, xs[0])
  {
  }

  /** Any two arrangements of the same elements sort alike when the order tells every two of them apart: nothing
      depends on how the library sort treats the order it is given. */
  lemma {:induction false} SortUnique<T(!new)>(before: (T, T) -> bool, xs: seq<T>, ys: seq<T>)
    requires Order(before) && |xs| == |ys| && Apart(before, xs) && Apart(before, ys)
    requires forall x :: x in xs ==> x in ys
    ensures Sort(before, xs) == Sort(before, ys)
  {
    if xs != [] {
      assert xs[0] in ys;
      var j :| 0 <= j < |ys| && ys[j] == xs[0];
      ApartWithout(before, ys, j);
      ApartTail(before, xs);
      forall x | x in xs[1..]
        ensures x in ys[..j] + ys[j + 1..]
      {
        assert x in xs;
      }
      SortUnique(before, xs[1..], ys[..j] + ys[j + 1..]);
      assert ys[..j] + ([ys[j]] + ys[j + 1..]) == ys;
      SortFromAnyPlace(before, ys[..j], ys[j], ys[j + 1..]);
    }
  }

  function MapSeq<T, U>(f: T -> U, xs: seq<T>): (r: seq<U>)
    ensures |r| == |xs|
  {
    if xs == [] then [] else [f(xs[0])] + MapSeq(f, xs[1..])
  }

  lemma {:induction false} InsertMaps<T(!new), U>(f: T -> U, before: (T, T) -> bool, after: (U, U) -> bool, x: T,
                                                  xs: seq<T>)
    requires forall a, b :: before(a, b) == after(f(a), f(b))
    ensures Insert(after, f(x), MapSeq(f, xs)) == MapSeq(f, Insert(before, x, xs))
  {
    if xs == [] || !before(xs[0], x) {
      assert ([x] + xs)[1..] == xs;
    } else {
      InsertMaps(f, before, after, x, xs[1..]);
      assert ([xs[0]] + Insert(before, x, xs[1..]))[1..] == Insert(before, x, xs[1..]);
      assert MapSeq(f, xs)[1..] == MapSeq(f, xs[1..]);
    }
  }

  /** Sorting images by the image order is taking images of the sorted. */
  lemma {:induction false} SortMaps<T(!new), U>(f: T -> U, before: (T, T) -> bool, after: (U, U) -> bool, xs: seq<T>)
    requires forall a, b :: before(a, b) == after(f(a), f(b))
    ensures Sort(after, MapSeq(f, xs)) == MapSeq(f, Sort(before, xs))
  {
    if xs != [] {
      SortMaps(f, before, after, xs[1..]);
      InsertMaps(f, before, after, xs[0], Sort(before, xs[1..]));
      assert MapSeq(f, xs)[1..] == MapSeq(f, xs[1..]);
    }
  }
}
