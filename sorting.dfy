/** `Array.prototype.sort` with a comparator: a stable sort, written as an
    insertion sort on sequences. A comparator returns a negative number when
    its first argument goes first, a positive one when its second does, and
    zero for a tie. */
module Sorting {
  import opened Text

  /** What the program's comparators satisfy: the sign flips when the
      arguments are swapped, and "goes no later than" is transitive. */
  ghost predicate IsTotalPreorder<T(!new)>(cmp: (T, T) -> real) {
    && (forall a, b :: cmp(a, b) < 0.0 <==> cmp(b, a) > 0.0)
    && (forall a, b, c :: cmp(a, b) <= 0.0 && cmp(b, c) <= 0.0 ==> cmp(a, c) <= 0.0)
  }

  /** No element goes strictly before one that precedes it. */
  ghost predicate SortedBy<T>(s: seq<T>, cmp: (T, T) -> real) {
    forall i, j :: 0 <= i < j < |s| ==> cmp(s[i], s[j]) <= 0.0
  }

  /** Places `x` before the first element that does not go strictly before it. */
  function Insert<T>(x: T, s: seq<T>, cmp: (T, T) -> real): seq<T> {
    if s == [] then [x]
    else if cmp(s[0], x) < 0.0 then [s[0]] + Insert(x, s[1..], cmp)
    else [x] + s
  }

  /** The stable sort of `s`. */
  function SortBy<T>(s: seq<T>, cmp: (T, T) -> real): seq<T> {
    if s == [] then [] else Insert(s[0], SortBy(s[1..], cmp), cmp)
  }

  lemma {:induction false} InsertPerm<T>(x: T, s: seq<T>, cmp: (T, T) -> real)
    ensures multiset(Insert(x, s, cmp)) == multiset(s) + multiset{x}
  {
    if s != [] && cmp(s[0], x) < 0.0 {
      InsertPerm(x, s[1..], cmp);
      assert s == [s[0]] + s[1..];
    }
  }

  /** The sort is a permutation of its input. */
  lemma {:induction false} SortByPerm<T>(s: seq<T>, cmp: (T, T) -> real)
    ensures multiset(SortBy(s, cmp)) == multiset(s)
  {
    if s != [] {
      SortByPerm(s[1..], cmp);
      InsertPerm(s[0], SortBy(s[1..], cmp), cmp);
      assert s == [s[0]] + s[1..];
    }
  }

  /** Putting in front an element that goes no later than any other keeps
      a sequence sorted. */
  lemma ConsSorted<T>(y: T, t: seq<T>, cmp: (T, T) -> real)
    requires SortedBy(t, cmp)
    requires forall k :: 0 <= k < |t| ==> cmp(y, t[k]) <= 0.0
    ensures SortedBy([y] + t, cmp)
  {
    var r := [y] + t;
    forall i, j | 0 <= i < j < |r| ensures cmp(r[i], r[j]) <= 0.0 {
      assert r[j] == t[j - 1];
      if i > 0 {
        assert r[i] == t[i - 1];
      }
    }
  }

  lemma {:induction false} InsertSorted<T(!new)>(x: T, s: seq<T>, cmp: (T, T) -> real)
    requires IsTotalPreorder(cmp)
    requires SortedBy(s, cmp)
    ensures SortedBy(Insert(x, s, cmp), cmp)
  {
    if s != [] {
      var rest := s[1..];
      assert SortedBy(rest, cmp) by {
        forall i, j | 0 <= i < j < |rest| ensures cmp(rest[i], rest[j]) <= 0.0 {
          assert rest[i] == s[i + 1] && rest[j] == s[j + 1];
        }
      }
      if cmp(s[0], x) < 0.0 {
        var tail := Insert(x, rest, cmp);
        InsertSorted(x, rest, cmp);
        InsertPerm(x, rest, cmp);
        forall k | 0 <= k < |tail| ensures cmp(s[0], tail[k]) <= 0.0 {
          assert tail[k] in multiset(rest) + multiset{x} by {
            assert tail[k] in multiset(tail);
          }
          if tail[k] != x {
            var j :| 0 <= j < |rest| && rest[j] == tail[k];
            assert s[j + 1] == tail[k];
          }
        }
        ConsSorted(s[0], tail, cmp);
      } else {
        assert cmp(x, s[0]) <= 0.0;
        forall k | 0 <= k < |s| ensures cmp(x, s[k]) <= 0.0 {
          if k > 0 {
            assert cmp(s[0], s[k]) <= 0.0;
          }
        }
        ConsSorted(x, s, cmp);
      }
    }
  }

  /** The sort's result is in comparator order. */
  lemma {:induction false} SortBySorted<T(!new)>(s: seq<T>, cmp: (T, T) -> real)
    requires IsTotalPreorder(cmp)
    ensures SortedBy(SortBy(s, cmp), cmp)
  {
    if s != [] {
      SortBySorted(s[1..], cmp);
      InsertSorted(s[0], SortBy(s[1..], cmp), cmp);
    }
  }

  /** The elements tied with `p`. */
  function TiedWith<T>(cmp: (T, T) -> real, p: T): T -> bool {
    y => cmp(y, p) == 0.0
  }

  /** An element that goes strictly before `x` is not tied with what `x` is tied with. */
  lemma NotTied<T(!new)>(cmp: (T, T) -> real, y: T, x: T, p: T)
    requires IsTotalPreorder(cmp)
    requires cmp(y, x) < 0.0 && cmp(x, p) == 0.0
    ensures cmp(y, p) != 0.0
  {
  }

  lemma {:induction false} InsertTies<T(!new)>(x: T, s: seq<T>, cmp: (T, T) -> real, p: T)
    requires IsTotalPreorder(cmp)
    ensures Filter(Insert(x, s, cmp), TiedWith(cmp, p))
         == (if cmp(x, p) == 0.0 then [x] else []) + Filter(s, TiedWith(cmp, p))
  {
    var keep := TiedWith(cmp, p);
    if s == [] {
      FilterCons(x, [], keep);
      assert [x] + [] == [x];
    } else if cmp(s[0], x) < 0.0 {
      var tail := Insert(x, s[1..], cmp);
      assert Insert(x, s, cmp) == [s[0]] + tail;
      InsertTies(x, s[1..], cmp, p);
      FilterCons(s[0], tail, keep);
      FilterCons(s[0], s[1..], keep);
      assert s == [s[0]] + s[1..];
      if cmp(x, p) == 0.0 {
        NotTied(cmp, s[0], x, p);
        assert !keep(s[0]);
      }
    } else {
      assert Insert(x, s, cmp) == [x] + s;
      FilterCons(x, s, keep);
    }
  }

  /** Stability: the elements tied with any `p` keep their input order. */
  lemma {:induction false} SortByStable<T(!new)>(s: seq<T>, cmp: (T, T) -> real, p: T)
    requires IsTotalPreorder(cmp)
    ensures Filter(SortBy(s, cmp), TiedWith(cmp, p)) == Filter(s, TiedWith(cmp, p))
  {
    if s != [] {
      SortByStable(s[1..], cmp, p);
      InsertTies(s[0], SortBy(s[1..], cmp), cmp, p);
    }
  }
}
