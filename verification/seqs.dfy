/** Sequence helpers shared by the model: an order-preserving filter, the
    Python prefix slice `s[:k]`, and duplicate-freedom. */
module Seqs {
  import opened Wrappers


  /** The elements of `s` that `keep(c, _)` accepts, in their original order
      (a list comprehension `[x for x in s if keep(c, x)]`). */
  function Filter<C, T(==)>(s: seq<T>, c: C, keep: (C, T) -> bool): (r: seq<T>)
    ensures |r| <= |s|
    ensures forall i :: 0 <= i < |r| ==> r[i] in s && keep(c, r[i])
    ensures forall i :: 0 <= i < |s| && keep(c, s[i]) ==> s[i] in r
  {
    if |s| == 0 then []
    else (if keep(c, s[0]) then [s[0]] else []) + Filter(s[1..], c, keep)
  }

  /** Membership in the filtered sequence. */
  lemma FilterMembers<C, T(!new)>(s: seq<T>, c: C, keep: (C, T) -> bool)
    ensures forall x :: x in Filter(s, c, keep) <==> x in s && keep(c, x)
  {
    var r := Filter(s, c, keep);
    forall x | x in r ensures x in s && keep(c, x) {
      var k :| 0 <= k < |r| && r[k] == x;
    }
    forall x | x in s && keep(c, x) ensures x in r {
      var k :| 0 <= k < |s| && s[k] == x;
    }
  }

  /** Filters that agree on every element of `s` select the same elements. */
  lemma {:induction false} FilterSame<C, D, T>(s: seq<T>, c: C, keep: (C, T) -> bool, d: D, keep2: (D, T) -> bool)
    requires forall k :: 0 <= k < |s| ==> (keep(c, s[k]) <==> keep2(d, s[k]))
    ensures Filter(s, c, keep) == Filter(s, d, keep2)
    decreases |s|
  {
    if |s| > 0 {
      FilterSame(s[1..], c, keep, d, keep2);
    }
  }

  lemma FilterSingle<C, T>(x: T, c: C, keep: (C, T) -> bool)
    ensures Filter([x], c, keep) == if keep(c, x) then [x] else []
  {
    assert [x][1..] == [];
  }

  lemma {:induction false} FilterConcat<C, T>(a: seq<T>, b: seq<T>, c: C, keep: (C, T) -> bool)
    ensures Filter(a + b, c, keep) == Filter(a, c, keep) + Filter(b, c, keep)
    decreases |a|
  {
    if |a| == 0 {
      assert a + b == b;
    } else {
      assert (a + b)[1..] == a[1..] + b;
      FilterConcat(a[1..], b, c, keep);
    }
  }

  lemma {:induction false} FilterNone<C, T>(s: seq<T>, c: C, keep: (C, T) -> bool)
    requires forall k :: 0 <= k < |s| ==> !keep(c, s[k])
    ensures Filter(s, c, keep) == []
    decreases |s|
  {
    if |s| > 0 {
      FilterNone(s[1..], c, keep);
    }
  }

  /** The first kept element is the first element of `s` that `keep`
      accepts. */
  lemma {:induction false} FilterFirst<C, T>(s: seq<T>, c: C, keep: (C, T) -> bool) returns (k: nat)
    requires |Filter(s, c, keep)| > 0
    ensures k < |s| && Filter(s, c, keep)[0] == s[k] && keep(c, s[k])
    ensures forall j :: 0 <= j < k ==> !keep(c, s[j])
    decreases |s|
  {
    if keep(c, s[0]) {
      k := 0;
    } else {
      var k' := FilterFirst(s[1..], c, keep);
      k := k' + 1;
      forall j | 0 < j < k ensures !keep(c, s[j]) {
        assert s[j] == s[1..][j - 1];
      }
    }
  }

  /** Filtering one more element at the end. */
  lemma FilterSnoc<C, T>(s: seq<T>, x: T, c: C, keep: (C, T) -> bool)
    ensures Filter(s + [x], c, keep) == Filter(s, c, keep) + (if keep(c, x) then [x] else [])
  {
    FilterConcat(s, [x], c, keep);
  }

  /** A kept element lands right after the kept elements that precede it. */
  lemma FilterIndex<C, T>(s: seq<T>, c: C, keep: (C, T) -> bool, i: int)
    requires 0 <= i < |s| && keep(c, s[i])
    ensures |Filter(s[..i], c, keep)| < |Filter(s, c, keep)|
    ensures Filter(s, c, keep)[|Filter(s[..i], c, keep)|] == s[i]
  {
    assert s == s[..i] + s[i..];
    FilterConcat(s[..i], s[i..], c, keep);
    assert s[i..][1..] == s[i + 1..];
  }

  /** Kept elements before position `i` stay before the kept elements from
      position `i` on. */
  lemma FilterPrefixMonotone<C, T>(s: seq<T>, c: C, keep: (C, T) -> bool, i: int, j: int)
    requires 0 <= i <= j <= |s|
    ensures |Filter(s[..i], c, keep)| <= |Filter(s[..j], c, keep)|
  {
    assert s[..j] == s[..i] + s[i..j];
    FilterConcat(s[..i], s[i..j], c, keep);
  }

  /** Keeping `s[i]` adds exactly one element to the filtered prefix. */
  lemma FilterCountStep<C, T>(s: seq<T>, c: C, keep: (C, T) -> bool, i: nat)
    requires i < |s| && keep(c, s[i])
    ensures |Filter(s[..i + 1], c, keep)| == |Filter(s[..i], c, keep)| + 1
  {
    assert s[..i + 1] == s[..i] + [s[i]];
    FilterSnoc(s[..i], s[i], c, keep);
  }

  /** Elements kept at positions `i < i + 1 < k` come out in that order. */
  lemma FilterKeepsOrder<C, T>(s: seq<T>, c: C, keep: (C, T) -> bool, i: nat, k: nat)
    requires i + 1 < k < |s|
    requires keep(c, s[i]) && keep(c, s[i + 1]) && keep(c, s[k])
    ensures var r := Filter(s, c, keep);
      exists a, b, d :: 0 <= a < b < d < |r| && r[a] == s[i] && r[b] == s[i + 1] && r[d] == s[k]
  {
    FilterIndex(s, c, keep, i);
    FilterIndex(s, c, keep, i + 1);
    FilterIndex(s, c, keep, k);
    FilterCountStep(s, c, keep, i);
    FilterCountStep(s, c, keep, i + 1);
    FilterPrefixMonotone(s, c, keep, i + 2, k);
  }

  predicate NoDup<T(==)>(s: seq<T>) {
    forall i, j :: 0 <= i < j < |s| ==> s[i] != s[j]
  }

  lemma {:induction false} FilterNoDup<C, T>(s: seq<T>, c: C, keep: (C, T) -> bool)
    requires NoDup(s)
    ensures NoDup(Filter(s, c, keep))
    decreases |s|
  {
    if |s| > 0 {
      assert NoDup(s[1..]) by {
        forall i, j | 0 <= i < j < |s| - 1 ensures s[1..][i] != s[1..][j] {
          assert s[1..][i] == s[i + 1] && s[1..][j] == s[j + 1];
        }
      }
      FilterNoDup(s[1..], c, keep);
      var rest := Filter(s[1..], c, keep);
      assert s[0] !in s[1..] by {
        forall k | 0 <= k < |s| - 1 ensures s[1..][k] != s[0] {
          assert s[1..][k] == s[k + 1];
        }
      }
      assert s[0] !in rest;
    }
  }

  /** Python's `s[:k]` for any integer `k`: a negative `k` drops `-k`
      elements from the end. */
  function PyPrefix<T>(s: seq<T>, k: int): (r: seq<T>)
    ensures |r| <= |s| && r == s[..|r|]
    ensures 0 <= k ==> |r| == (if k < |s| then k else |s|)
    ensures k < 0 ==> |r| == (if |s| + k < 0 then 0 else |s| + k)
  {
    if 0 <= k then (if k < |s| then s[..k] else s)
    else (if |s| + k < 0 then [] else s[..|s| + k])
  }

  /** `set(s)` */
  function SetOf<T(!new)>(s: seq<T>): (r: set<T>)
    ensures forall x :: x in r <==> x in s
  {
    set x | x in s
  }

  lemma {:induction false} SetOfSize<T(!new)>(s: seq<T>)
    ensures |SetOf(s)| <= |s|
    ensures NoDup(s) ==> |SetOf(s)| == |s|
    decreases |s|
  {
    if |s| > 0 {
      SetOfSize(s[1..]);
      assert SetOf(s) == {s[0]} + SetOf(s[1..]);
      if NoDup(s) {
        assert NoDup(s[1..]) by {
          forall i, j | 0 <= i < j < |s| - 1 ensures s[1..][i] != s[1..][j] {
            assert s[1..][i] == s[i + 1] && s[1..][j] == s[j + 1];
          }
        }
        assert s[0] !in SetOf(s[1..]) by {
          forall k | 0 <= k < |s| - 1 ensures s[1..][k] != s[0] {
            assert s[1..][k] == s[k + 1];
          }
        }
      }
    }
  }

  lemma {:induction false} SubsetSize<T>(a: set<T>, b: set<T>)
    requires a <= b
    ensures |a| <= |b|
    decreases a
  {
    if a != {} {
      var x :| x in a;
      SubsetSize(a - {x}, b - {x});
    }
  }

  /** The distinct elements of `s` in order of first occurrence. */
  function Dedup<T(==,!new)>(s: seq<T>): (r: seq<T>)
    ensures NoDup(r)
    ensures forall x :: x in r <==> x in s
  {
    if |s| == 0 then []
    else
      var d := Dedup(s[..|s| - 1]);
      assert s == s[..|s| - 1] + [s[|s| - 1]];
      if s[|s| - 1] in d then d else d + [s[|s| - 1]]
  }

  // ---------------------------------------------------------------------
  // Dicts as lists of entries in insertion order

  /** The first components of a list of pairs (a dict's `keys()`). */
  function Keys<K, V>(entries: seq<(K, V)>): (r: seq<K>)
    ensures |r| == |entries|
    ensures forall k :: 0 <= k < |entries| ==> r[k] == entries[k].0
  {
    seq(|entries|, k requires 0 <= k < |entries| => entries[k].0)
  }

  /** A dict lookup over its items in insertion order: the value of the
      first entry with the key. */
  function Find<K(==), V>(entries: seq<(K, V)>, key: K): (r: Option<V>)
    ensures r.Some? <==> exists k :: 0 <= k < |entries| && entries[k].0 == key
  {
    if |entries| == 0 then None
    else if entries[0].0 == key then Some(entries[0].1)
    else
      var r := Find(entries[1..], key);
      assert forall k :: 0 < k < |entries| ==> entries[k] == entries[1..][k - 1];
      r
  }

  lemma {:induction false} FindFirst<K, V>(entries: seq<(K, V)>, key: K, k: nat)
    requires k < |entries| && entries[k].0 == key
    requires forall j :: 0 <= j < k ==> entries[j].0 != key
    ensures Find(entries, key) == Some(entries[k].1)
    decreases k
  {
    if k > 0 {
      FindFirst(entries[1..], key, k - 1);
    }
  }

  /** Looking a key up in two lists of entries, one after the other. */
  lemma KeysCons<K, V>(e: (K, V), s: seq<(K, V)>)
    ensures Keys([e] + s) == [e.0] + Keys(s)
  {
  }

  /** Distinct keys stay distinct in the tail, which lacks the head's key. */
  lemma NoDupKeysTail<K, V>(s: seq<(K, V)>)
    requires |s| > 0 && NoDup(Keys(s))
    ensures NoDup(Keys(s[1..])) && s[0].0 !in Keys(s[1..])
  {
    forall a, b | 0 <= a < b < |s| - 1 ensures Keys(s[1..])[a] != Keys(s[1..])[b] {
      assert Keys(s)[a + 1] != Keys(s)[b + 1];
    }
    forall k | 0 <= k < |s| - 1 ensures Keys(s[1..])[k] != s[0].0 {
      assert Keys(s)[0] != Keys(s)[k + 1];
    }
  }

  lemma {:induction false} FindConcat<K, V>(a: seq<(K, V)>, b: seq<(K, V)>, key: K)
    ensures Find(a + b, key) == if Find(a, key).Some? then Find(a, key) else Find(b, key)
    decreases |a|
  {
    if |a| == 0 {
      assert a + b == b;
    } else {
      assert (a + b)[1..] == a[1..] + b;
      FindConcat(a[1..], b, key);
    }
  }

  /** Permuting a duplicate-free sequence keeps it duplicate-free. */
  lemma PermutationNoDup<T>(s: seq<T>, r: seq<T>)
    requires NoDup(s) && multiset(r) == multiset(s)
    ensures NoDup(r)
  {
    forall i, j | 0 <= i < j < |r| ensures r[i] != r[j] {
      if r[i] == r[j] {
        TwiceCounted(r, i, j);
        NoDupCount(s, r[i]);
        assert false;
      }
    }
  }

  lemma {:induction false} NoDupCount<T>(s: seq<T>, x: T)
    requires NoDup(s)
    ensures multiset(s)[x] <= 1
    decreases |s|
  {
    if |s| > 0 {
      assert s == [s[0]] + s[1..];
      assert NoDup(s[1..]) by {
        forall i, j | 0 <= i < j < |s| - 1 ensures s[1..][i] != s[1..][j] {
          assert s[1..][i] == s[i + 1] && s[1..][j] == s[j + 1];
        }
      }
      NoDupCount(s[1..], x);
      if x == s[0] {
        assert x !in s[1..] by {
          forall k | 0 <= k < |s| - 1 ensures s[1..][k] != s[0] {
            assert s[1..][k] == s[k + 1];
          }
        }
      }
    }
  }

  lemma TwiceCounted<T>(s: seq<T>, i: nat, j: nat)
    requires i < j < |s| && s[i] == s[j]
    ensures multiset(s)[s[i]] >= 2
  {
    assert s == s[..j] + s[j..];
    assert s[i] in s[..j];
    assert s[j] in s[j..];
  }
}
