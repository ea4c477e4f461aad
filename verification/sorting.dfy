/** A stable insertion sort over an arbitrary total preorder, standing for
    Python's `list.sort` (stable by definition) and for SQL `ORDER BY` on a
    unique key, plus the lexicographic order on strings that SQLite's BINARY
    collation and Python's `str` comparison both use. */
module Sorting {

  ghost predicate TotalPreorder<T(!new)>(le: (T, T) -> bool) {
    && (forall a, b :: le(a, b) || le(b, a))
    && (forall a, b, c :: le(a, b) && le(b, c) ==> le(a, c))
  }

  predicate Sorted<T>(s: seq<T>, le: (T, T) -> bool) {
    forall i, j :: 0 <= i < j < |s| ==> le(s[i], s[j])
  }

  /** Inserts `x` after every element that is not above it, so that `x`
      follows the elements it ties with. */
  function Insert<T>(x: T, s: seq<T>, le: (T, T) -> bool): (r: seq<T>)
    ensures multiset(r) == multiset(s) + multiset{x}
    ensures |r| == |s| + 1
  {
    if |s| == 0 then [x]
    else if le(s[0], x) then
      assert s == [s[0]] + s[1..];
      [s[0]] + Insert(x, s[1..], le)
    else [x] + s
  }

  /** Sorts left to right, each element inserted behind the ones before it. */
  function Sort<T>(s: seq<T>, le: (T, T) -> bool): (r: seq<T>)
    ensures multiset(r) == multiset(s)
    ensures |r| == |s|
  {
    if |s| == 0 then []
    else
      assert s == s[..|s| - 1] + [s[|s| - 1]];
      Insert(s[|s| - 1], Sort(s[..|s| - 1], le), le)
  }

  lemma {:induction false} InsertSorted<T(!new)>(x: T, s: seq<T>, le: (T, T) -> bool)
    requires TotalPreorder(le) && Sorted(s, le)
    ensures Sorted(Insert(x, s, le), le)
    decreases |s|
  {
    if |s| > 0 {
      if le(s[0], x) {
        InsertSorted(x, s[1..], le);
        var rest := Insert(x, s[1..], le);
        forall k | 0 <= k < |rest| ensures le(s[0], rest[k]) {
          assert rest[k] in multiset(rest);
          assert rest[k] in multiset(s[1..]) + multiset{x};
          if rest[k] != x {
            assert rest[k] in s[1..];
          }
        }
      } else {
        assert le(x, s[0]);
      }
    }
  }

  lemma {:induction false} SortSorted<T(!new)>(s: seq<T>, le: (T, T) -> bool)
    requires TotalPreorder(le)
    ensures Sorted(Sort(s, le), le)
    decreases |s|
  {
    if |s| > 0 {
      SortSorted(s[..|s| - 1], le);
      InsertSorted(s[|s| - 1], Sort(s[..|s| - 1], le), le);
    }
  }

  // ---------------------------------------------------------------------
  // Stability

  /** The elements of `s` tied with `x`, in order. */
  function Ties<T(==)>(s: seq<T>, x: T, le: (T, T) -> bool): seq<T> {
    if |s| == 0 then []
    else (if le(s[0], x) && le(x, s[0]) then [s[0]] else []) + Ties(s[1..], x, le)
  }

  lemma {:induction false} TiesConcat<T>(a: seq<T>, b: seq<T>, x: T, le: (T, T) -> bool)
    ensures Ties(a + b, x, le) == Ties(a, x, le) + Ties(b, x, le)
    decreases |a|
  {
    if |a| == 0 {
      assert a + b == b;
    } else {
      assert (a + b)[1..] == a[1..] + b;
      TiesConcat(a[1..], b, x, le);
    }
  }

  lemma {:induction false} TiesNone<T>(s: seq<T>, x: T, le: (T, T) -> bool)
    requires forall k :: 0 <= k < |s| ==> !(le(s[k], x) && le(x, s[k]))
    ensures Ties(s, x, le) == []
    decreases |s|
  {
    if |s| > 0 {
      TiesNone(s[1..], x, le);
    }
  }

  lemma {:induction false} InsertTies<T(!new)>(e: T, s: seq<T>, x: T, le: (T, T) -> bool)
    requires TotalPreorder(le) && Sorted(s, le)
    ensures Ties(Insert(e, s, le), x, le)
         == Ties(s, x, le) + (if le(e, x) && le(x, e) then [e] else [])
    decreases |s|
  {
    if |s| == 0 {
    } else if le(s[0], e) {
      SortedTail(s, le);
      InsertTies(e, s[1..], x, le);
      TiesCons(s[0], Insert(e, s[1..], le), x, le);
      TiesCons(s[0], s[1..], x, le);
      assert s == [s[0]] + s[1..];
    } else {
      TiesCons(e, s, x, le);
      if le(e, x) && le(x, e) {
        AllAbove(e, s, x, le);
        TiesNone(s, x, le);
      }
    }
  }

  /** When the first element of a sorted list is strictly above `e`, no
      element ties with anything `e` ties with. */
  lemma AllAbove<T(!new)>(e: T, s: seq<T>, x: T, le: (T, T) -> bool)
    requires TotalPreorder(le) && Sorted(s, le) && |s| > 0 && !le(s[0], e)
    requires le(e, x) && le(x, e)
    ensures forall k :: 0 <= k < |s| ==> !(le(s[k], x) && le(x, s[k]))
  {
    forall k | 0 <= k < |s| ensures !(le(s[k], x) && le(x, s[k])) {
      assert le(s[0], s[k]) || k == 0;
    }
  }

  lemma TiesCons<T>(y: T, s: seq<T>, x: T, le: (T, T) -> bool)
    ensures Ties([y] + s, x, le) == (if le(y, x) && le(x, y) then [y] else []) + Ties(s, x, le)
  {
    assert ([y] + s)[1..] == s;
  }

  lemma SortedTail<T>(s: seq<T>, le: (T, T) -> bool)
    requires |s| > 0 && Sorted(s, le)
    ensures Sorted(s[1..], le)
  {
    forall i, j | 0 <= i < j < |s| - 1 ensures le(s[1..][i], s[1..][j]) {
      assert s[1..][i] == s[i + 1] && s[1..][j] == s[j + 1];
    }
  }

  lemma InsertIntoSortTies<T(!new)>(e: T, s: seq<T>, x: T, le: (T, T) -> bool)
    requires TotalPreorder(le)
    ensures Ties(Insert(e, Sort(s, le), le), x, le)
         == Ties(Sort(s, le), x, le) + (if le(e, x) && le(x, e) then [e] else [])
  {
    SortSorted(s, le);
    InsertTies(e, Sort(s, le), x, le);
  }

  /** Stability: sorting keeps every class of tied elements in input order. */
  lemma {:induction false} SortStable<T(!new)>(s: seq<T>, x: T, le: (T, T) -> bool)
    requires TotalPreorder(le)
    ensures Ties(Sort(s, le), x, le) == Ties(s, x, le)
    decreases |s|
  {
    if |s| > 0 {
      var init, last := s[..|s| - 1], s[|s| - 1];
      var tie := if le(last, x) && le(x, last) then [last] else [];
      calc {
        Ties(Sort(s, le), x, le);
        Ties(Insert(last, Sort(init, le), le), x, le);
        { InsertIntoSortTies(last, init, x, le); }
        Ties(Sort(init, le), x, le) + tie;
        { SortStable(init, x, le); }
        Ties(init, x, le) + tie;
        { assert Ties([last], x, le) == tie + Ties([], x, le); }
        Ties(init, x, le) + Ties([last], x, le);
        { TiesConcat(init, [last], x, le); }
        Ties(init + [last], x, le);
        { assert s == init + [last]; }
        Ties(s, x, le);
      }
    }
  }

  // ---------------------------------------------------------------------
  // Lexicographic order on strings

  /** `a <= b` for Python strings and for SQLite's BINARY collation on UTF-8
      text (byte order of UTF-8 is code point order). */
  predicate LexLe(a: string, b: string)
    decreases |a|
  {
    if |a| == 0 then true
    else if |b| == 0 then false
    else if a[0] != b[0] then a[0] < b[0]
    else LexLe(a[1..], b[1..])
  }

  lemma {:induction false} LexLeTotal(a: string, b: string)
    ensures LexLe(a, b) || LexLe(b, a)
    decreases |a|
  {
    if |a| > 0 && |b| > 0 && a[0] == b[0] {
      LexLeTotal(a[1..], b[1..]);
    }
  }

  lemma {:induction false} LexLeTrans(a: string, b: string, c: string)
    requires LexLe(a, b) && LexLe(b, c)
    ensures LexLe(a, c)
    decreases |a|
  {
    if |a| > 0 && |b| > 0 && |c| > 0 && a[0] == b[0] && b[0] == c[0] {
      LexLeTrans(a[1..], b[1..], c[1..]);
    }
  }

  lemma {:induction false} LexLeAntisym(a: string, b: string)
    requires LexLe(a, b) && LexLe(b, a)
    ensures a == b
    decreases |a|
  {
    if |a| > 0 {
      LexLeAntisym(a[1..], b[1..]);
      assert a == [a[0]] + a[1..] && b == [b[0]] + b[1..];
    }
  }
}
