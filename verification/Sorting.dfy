/** Stable sorting by a comparison, and lists that a strict order ranks. */
module Sorting {
  ghost predicate StrictOrder<T(!new)>(before: (T, T) -> bool) {
    && (forall a :: !before(a, a))
    && (forall a, b, c :: before(a, b) && before(b, c) ==> before(a, c))
  }

  ghost predicate Comparable<T>(before: (T, T) -> bool, s: seq<T>) {
    forall i, j | 0 <= i < j < |s| :: before(s[i], s[j]) || before(s[j], s[i])
  }

  ghost predicate Ranked<T>(before: (T, T) -> bool, s: seq<T>) {
    forall i, j | 0 <= i < j < |s| :: before(s[i], s[j])
  }

  /** Puts x behind everything it does not come before. */
  function Insert<T(!new)>(before: (T, T) -> bool, x: T, s: seq<T>): (r: seq<T>)
    ensures |r| == |s| + 1
    ensures forall y :: y in r <==> y == x || y in s
  {
    if s == [] || before(x, s[0]) then [x] + s
    else
      assert s == [s[0]] + s[1..];
      [s[0]] + Insert(before, x, s[1..])
  }

  function Sort<T(!new)>(before: (T, T) -> bool, s: seq<T>): (r: seq<T>)
    ensures |r| == |s|
    ensures forall y :: y in r <==> y in s
  {
    if s == [] then []
    else
      assert s == s[..|s| - 1] + [s[|s| - 1]];
      Insert(before, s[|s| - 1], Sort(before, s[..|s| - 1]))
  }

  lemma {:induction false} InsertRanks<T(!new)>(before: (T, T) -> bool, strict: (T, T) -> bool, x: T, s: seq<T>)
    requires StrictOrder(strict) && Ranked(strict, s)
    requires forall y | before(x, y) :: strict(x, y)
    requires forall y | y in s :: before(x, y) || strict(y, x)
    ensures Ranked(strict, Insert(before, x, s))
  {
    if s == [] {
    } else if before(x, s[0]) {
      forall j | 0 <= j < |s|
        ensures strict(x, s[j])
      {
        assert j == 0 || strict(s[0], s[j]);
      }
    } else {
      InsertRanks(before, strict, x, s[1..]);
      var rest := Insert(before, x, s[1..]);
      forall j | 0 <= j < |rest|
        ensures strict(s[0], rest[j])
      {
        assert rest[j] in rest;
        assert s[0] in s;
        if rest[j] != x {
          var k :| 0 <= k < |s[1..]| && s[1..][k] == rest[j];
          assert strict(s[0], s[k + 1]);
        }
      }
    }
  }

  /**
   * Sorting is stable: it ranks a list by any strict order that refines the
   * comparison and agrees with the list where the comparison says nothing.
   */
  lemma {:induction false} StableSortRanks<T(!new)>(before: (T, T) -> bool, strict: (T, T) -> bool, s: seq<T>)
    requires StrictOrder(strict) && forall x, y | before(x, y) :: strict(x, y)
    requires forall i, j | 0 <= i < j < |s| :: strict(s[i], s[j]) || before(s[j], s[i])
    ensures Ranked(strict, Sort(before, s))
  {
    if s != [] {
      var rest, last := s[..|s| - 1], s[|s| - 1];
      StableSortRanks(before, strict, rest);
      forall y | y in Sort(before, rest)
        ensures before(last, y) || strict(y, last)
      {
        var k :| 0 <= k < |rest| && rest[k] == y;
        assert s[k] == y;
      }
      InsertRanks(before, strict, last, Sort(before, rest));
    }
  }

  lemma SortRanks<T(!new)>(before: (T, T) -> bool, s: seq<T>)
    requires StrictOrder(before) && Comparable(before, s)
    ensures Ranked(before, Sort(before, s))
  {
    StableSortRanks(before, before, s);
  }

  lemma HeadIsFirst<T(!new)>(before: (T, T) -> bool, s: seq<T>, y: T)
    requires StrictOrder(before) && Ranked(before, s) && s != [] && y in s
    ensures y == s[0] || before(s[0], y)
    ensures y in s[1..] <==> y != s[0]
  {
    var k :| 0 <= k < |s| && s[k] == y;
    if k > 0 {
      assert before(s[0], s[k]);
      assert s[1..][k - 1] == y;
    }
  }

  lemma EmptyTogether<T(!new)>(s: seq<T>, t: seq<T>)
    requires forall y :: y in s <==> y in t
    ensures s == [] <==> t == []
  {
    if s != [] {
      assert s[0] in t;
    }
    if t != [] {
      assert t[0] in s;
    }
  }

  /** A strict order ranks a collection in one way only. */
  lemma {:induction false} RankedIsUnique<T(!new)>(before: (T, T) -> bool, s: seq<T>, t: seq<T>)
    requires StrictOrder(before) && Ranked(before, s) && Ranked(before, t)
    requires forall y :: y in s <==> y in t
    ensures s == t
  {
    EmptyTogether(s, t);
    if s != [] {
      HeadIsFirst(before, t, s[0]);
      HeadIsFirst(before, s, t[0]);
      assert s[0] == t[0];
      forall y
        ensures y in s[1..] <==> y in t[1..]
      {
        if y in s {
          HeadIsFirst(before, s, y);
          HeadIsFirst(before, t, y);
        } else {
          assert y !in s[1..] && y !in t[1..];
        }
      }
      RankedIsUnique(before, s[1..], t[1..]);
      assert s == [s[0]] + s[1..] && t == [t[0]] + t[1..];
    }
  }

  function Take<T>(s: seq<T>, n: nat): (r: seq<T>)
    ensures |r| == (if n < |s| then n else |s|)
  {
    if n < |s| then s[..n] else s
  }
}
