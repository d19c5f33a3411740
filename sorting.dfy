/** A stable sort by a comparison, as `Array.prototype.sort` has been
    required to be since ECMAScript 2019: `le(a, b)` holds when the
    comparator puts `a` no later than `b` (it returns a value <= 0). */
module Sorting {

  ghost predicate Total<T(!new)>(le: (T, T) -> bool) {
    forall a, b :: le(a, b) || le(b, a)
  }

  ghost predicate Transitive<T(!new)>(le: (T, T) -> bool) {
    forall a, b, c :: le(a, b) && le(b, c) ==> le(a, c)
  }

  /** What a consistent comparator gives: every two elements compare, and
      the order chains. */
  ghost predicate TotalPreorder<T(!new)>(le: (T, T) -> bool) {
    Total(le) && Transitive(le)
  }

  predicate Sorted<T>(s: seq<T>, le: (T, T) -> bool) {
    forall i, j :: 0 <= i < j < |s| ==> le(s[i], s[j])
  }

  /** `a` and `b` tie: the comparator returns 0 for them. */
  predicate Tie<T>(le: (T, T) -> bool, a: T, b: T) {
    le(a, b) && le(b, a)
  }

  /** The elements of `s` that tie with `m`, in their order in `s`. */
  function TiesWith<T>(s: seq<T>, le: (T, T) -> bool, m: T): seq<T> {
    if s == [] then []
    else (if Tie(le, s[0], m) then [s[0]] else []) + TiesWith(s[1..], le, m)
  }

  /** Puts `x`, which came before every element of `s`, in front of the
      first element it may precede. */
  function Insert<T>(x: T, s: seq<T>, le: (T, T) -> bool): (r: seq<T>)
    ensures multiset(r) == multiset(s) + multiset{x}
  {
    if s == [] then [x]
    else if le(x, s[0]) then [x] + s
    else
      assert s == [s[0]] + s[1..];
      [s[0]] + Insert(x, s[1..], le)
  }

  /** Stable insertion sort. */
  function InsertionSort<T>(s: seq<T>, le: (T, T) -> bool): (r: seq<T>)
    ensures multiset(r) == multiset(s)
    ensures |r| == |s|
  {
    if s == [] then []
    else
      assert s == [s[0]] + s[1..];
      Insert(s[0], InsertionSort(s[1..], le), le)
  }

  lemma {:induction false} InsertSorted<T(!new)>(x: T, s: seq<T>, le: (T, T) -> bool)
    requires TotalPreorder(le)
    requires Sorted(s, le)
    ensures Sorted(Insert(x, s, le), le)
  {
    if s != [] && !le(x, s[0]) {
      var rest := Insert(x, s[1..], le);
      InsertSorted(x, s[1..], le);
      forall j | 0 <= j < |rest| ensures le(s[0], rest[j]) {
        assert rest[j] in multiset(rest);
        assert rest[j] == x || rest[j] in multiset(s[1..]);
      }
    }
  }

  /** The result is ordered. */
  lemma {:induction false} SortSorted<T(!new)>(s: seq<T>, le: (T, T) -> bool)
    requires TotalPreorder(le)
    ensures Sorted(InsertionSort(s, le), le)
  {
    if s != [] {
      SortSorted(s[1..], le);
      InsertSorted(s[0], InsertionSort(s[1..], le), le);
    }
  }

  lemma TiesPrecede<T(!new)>(le: (T, T) -> bool, x: T, y: T, m: T)
    requires Transitive(le)
    ensures Tie(le, x, m) && Tie(le, y, m) ==> le(x, y)
  {
  }

  lemma TiesCons<T>(a: T, rest: seq<T>, le: (T, T) -> bool, m: T)
    ensures TiesWith([a] + rest, le, m) == (if Tie(le, a, m) then [a] else []) + TiesWith(rest, le, m)
  {
    assert ([a] + rest)[1..] == rest;
  }

  lemma {:induction false} InsertTies<T(!new)>(x: T, s: seq<T>, le: (T, T) -> bool, m: T)
    requires Transitive(le)
    ensures TiesWith(Insert(x, s, le), le, m)
            == (if Tie(le, x, m) then [x] else []) + TiesWith(s, le, m)
  {
    if s == [] {
    } else if le(x, s[0]) {
      assert Insert(x, s, le) == [x] + s;
      TiesCons(x, s, le, m);
    } else {
      InsertTies(x, s[1..], le, m);
      // x precedes every tie of m, so s[0], which x does not precede, is none
      TiesPrecede(le, x, s[0], m);
      InsertTiesPast(x, s, le, m);
    }
  }

  /** The step of InsertTies where `x` goes past the first element. */
  lemma InsertTiesPast<T>(x: T, s: seq<T>, le: (T, T) -> bool, m: T)
    requires s != [] && !le(x, s[0])
    requires !(Tie(le, x, m) && Tie(le, s[0], m))
    requires TiesWith(Insert(x, s[1..], le), le, m)
             == (if Tie(le, x, m) then [x] else []) + TiesWith(s[1..], le, m)
    ensures TiesWith(Insert(x, s, le), le, m)
            == (if Tie(le, x, m) then [x] else []) + TiesWith(s, le, m)
  {
    var inner := Insert(x, s[1..], le);
    var moved := if Tie(le, x, m) then [x] else [];
    var passed := if Tie(le, s[0], m) then [s[0]] else [];
    var tail := TiesWith(s[1..], le, m);
    assert Insert(x, s, le) == [s[0]] + inner;
    TiesCons(s[0], inner, le, m);
    assert TiesWith(Insert(x, s, le), le, m) == passed + (moved + tail);
    TiesCons(s[0], s[1..], le, m);
    assert [s[0]] + s[1..] == s;
    assert TiesWith(s, le, m) == passed + tail;
    SwapEmpty(passed, moved, tail);
  }

  lemma SwapEmpty<T>(a: seq<T>, b: seq<T>, t: seq<T>)
    requires a == [] || b == []
    ensures a + (b + t) == b + (a + t)
  {
    if a == [] {
      assert a + (b + t) == b + t;
      assert a + t == t;
    } else {
      assert b + t == t;
      assert b + (a + t) == a + t;
    }
  }

  /** Stability: the elements that tie with any `m` keep their relative
      order. */
  lemma {:induction false} SortStable<T(!new)>(s: seq<T>, le: (T, T) -> bool, m: T)
    requires Transitive(le)
    ensures TiesWith(InsertionSort(s, le), le, m) == TiesWith(s, le, m)
  {
    if s != [] {
      SortStable(s[1..], le, m);
      InsertTies(s[0], InsertionSort(s[1..], le), le, m);
    }
  }

  /** An ordered sequence is left as it is. */
  lemma {:induction false} SortOfSorted<T>(s: seq<T>, le: (T, T) -> bool)
    requires Sorted(s, le)
    ensures InsertionSort(s, le) == s
  {
    if s != [] {
      assert Sorted(s[1..], le);
      SortOfSorted(s[1..], le);
      if |s| > 1 {
        assert le(s[0], s[1]);
      }
      assert s == [s[0]] + s[1..];
    }
  }

  /** Sorting twice with the same comparison is sorting once. */
  lemma SortIdempotent<T(!new)>(s: seq<T>, le: (T, T) -> bool)
    requires TotalPreorder(le)
    ensures InsertionSort(InsertionSort(s, le), le) == InsertionSort(s, le)
  {
    SortSorted(s, le);
    SortOfSorted(InsertionSort(s, le), le);
  }
}
