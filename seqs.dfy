/** Sequence vocabulary shared by the stores: distinctness, the element set,
    `Array.prototype.filter`, and the `slice` forms the source uses. */
module Seqs {

  /** No element occurs twice. */
  ghost predicate Distinct<T>(s: seq<T>) {
    forall i, j :: 0 <= i < j < |s| ==> s[i] != s[j]
  }

  function Elems<T>(s: seq<T>): set<T> {
    set x | x in s
  }

  /** A duplicate-free sequence has as many elements as its element set. */
  lemma {:induction false} DistinctCard<T>(s: seq<T>)
    requires Distinct(s)
    ensures |Elems(s)| == |s|
  {
    if s != [] {
      assert Elems(s) == {s[0]} + Elems(s[1..]);
      assert s[0] !in Elems(s[1..]) by {
        forall j | 0 <= j < |s[1..]| ensures s[1..][j] != s[0] {
          assert s[1..][j] == s[j + 1];
        }
      }
      DistinctCard(s[1..]);
    }
  }

  /** `s.filter(p)`: the elements satisfying p, in their original order. */
  function Filter<T(!new)>(s: seq<T>, p: T -> bool): (r: seq<T>)
    ensures |r| <= |s|
    ensures forall x :: x in r <==> x in s && p(x)
  {
    if s == [] then [] else (if p(s[0]) then [s[0]] else []) + Filter(s[1..], p)
  }

  /** Filtering distributes over concatenation; with the singleton case this pins down
      that `Filter` keeps the original relative order. */
  lemma {:induction false} FilterAppend<T(!new)>(s: seq<T>, t: seq<T>, p: T -> bool)
    ensures Filter(s + t, p) == Filter(s, p) + Filter(t, p)
  {
    if s == [] {
      assert s + t == t;
    } else {
      assert (s + t)[0] == s[0];
      assert (s + t)[1..] == s[1..] + t;
      FilterAppend(s[1..], t, p);
    }
  }

  lemma FilterSingle<T(!new)>(x: T, p: T -> bool)
    ensures Filter([x], p) == if p(x) then [x] else []
  {
    assert [x][1..] == [];
  }

  /** Filtering a duplicate-free sequence leaves it duplicate-free. */
  lemma {:induction false} FilterDistinct<T(!new)>(s: seq<T>, p: T -> bool)
    requires Distinct(s)
    ensures Distinct(Filter(s, p))
  {
    if s != [] {
      FilterDistinct(s[1..], p);
      assert s[0] !in s[1..] by {
        forall j | 0 <= j < |s[1..]| ensures s[1..][j] != s[0] {
          assert s[1..][j] == s[j + 1];
        }
      }
    }
  }

  /** `s.slice(0, n)`: the first n elements; a negative n drops that many from the end. */
  function Take<T>(s: seq<T>, n: int): (r: seq<T>)
    ensures r <= s
    ensures |r| == if n >= |s| then |s| else if n >= 0 then n else if |s| + n > 0 then |s| + n else 0
  {
    if n >= |s| then s else if n >= 0 then s[..n] else if |s| + n > 0 then s[..|s| + n] else []
  }

  /** `s.slice(-n)` for n > 0: the last n elements, or all of them. */
  function Last<T>(s: seq<T>, n: nat): (r: seq<T>)
    ensures |r| == if |s| < n then |s| else n
    ensures forall i :: 0 <= i < |r| ==> r[i] == s[|s| - |r| + i]
  {
    if |s| <= n then s else s[|s| - n..]
  }

  /** Dropping the last element of a + b, for a non-empty b, drops the last element of b. */
  lemma AppendInit<T>(a: seq<T>, b: seq<T>)
    requires b != []
    ensures (a + b)[..|a + b| - 1] == a + b[..|b| - 1]
    ensures (a + b)[|a + b| - 1] == b[|b| - 1]
  {}

  /** The last n elements are elements of the sequence. */
  lemma LastMembers<T>(s: seq<T>, n: nat)
    ensures forall x :: x in Last(s, n) ==> x in s
  {
    if |s| > n {
      var k := |s| - n;
      assert Last(s, n) == s[k..];
      forall i | 0 <= i < n ensures s[k..][i] in s {
        assert s[k..][i] == s[k + i];
      }
    }
  }

  /** Elements in front do not reach the last n once there are n behind them. */
  lemma LastOfAppend<T>(p: seq<T>, s: seq<T>, n: nat)
    requires |s| >= n
    ensures Last(p + s, n) == Last(s, n)
  {
    assert (p + s)[|p + s| - n..] == s[|s| - n..];
  }

  /** `s.slice().reverse()`. */
  function Reverse<T>(s: seq<T>): (r: seq<T>)
    ensures |r| == |s|
    ensures forall i :: 0 <= i < |s| ==> r[i] == s[|s| - 1 - i]
  {
    if s == [] then [] else Reverse(s[1..]) + [s[0]]
  }

  /** Ascending by key; with `key` negated this is the descending order of a
      `(a, b) => key(b) - key(a)` comparator. */
  ghost predicate SortedBy<T>(s: seq<T>, key: T -> int) {
    forall i, j :: 0 <= i < j < |s| ==> key(s[i]) <= key(s[j])
  }

  /** Inserts x in front of the first element whose key is not smaller, so that x stays
      ahead of the equal keys that came after it in the input. */
  function InsertBy<T>(x: T, s: seq<T>, key: T -> int): (r: seq<T>)
    ensures multiset(r) == multiset(s) + multiset{x}
    ensures |r| == |s| + 1
  {
    if s == [] || key(x) <= key(s[0]) then [x] + s
    else
      assert s == [s[0]] + s[1..];
      [s[0]] + InsertBy(x, s[1..], key)
  }

  /** A lower bound on the keys of x and of s bounds the keys after insertion. */
  lemma {:induction false} InsertByBound<T>(x: T, s: seq<T>, key: T -> int, b: int)
    requires key(x) >= b
    requires forall i :: 0 <= i < |s| ==> key(s[i]) >= b
    ensures forall i :: 0 <= i < |s| + 1 ==> key(InsertBy(x, s, key)[i]) >= b
  {
    if s != [] && key(x) > key(s[0]) {
      InsertByBound(x, s[1..], key, b);
    }
  }

  /** Insertion keeps a sorted sequence sorted. */
  lemma {:induction false} InsertBySorted<T>(x: T, s: seq<T>, key: T -> int)
    requires SortedBy(s, key)
    ensures SortedBy(InsertBy(x, s, key), key)
  {
    if s != [] && key(x) > key(s[0]) {
      InsertBySorted(x, s[1..], key);
      InsertByBound(x, s[1..], key, key(s[0]));
      var t := InsertBy(x, s[1..], key);
      assert InsertBy(x, s, key) == [s[0]] + t;
    }
  }

  /** `[...s].sort((a, b) => key(a) - key(b))`: a stable insertion sort, so the result is a
      sorted permutation of s. */
  function SortBy<T>(s: seq<T>, key: T -> int): (r: seq<T>)
    ensures multiset(r) == multiset(s)
    ensures |r| == |s|
    ensures SortedBy(r, key)
  {
    if s == [] then []
    else
      assert s == [s[0]] + s[1..];
      InsertBySorted(s[0], SortBy(s[1..], key), key);
      InsertBy(s[0], SortBy(s[1..], key), key)
  }

  /** Sorting keeps exactly the same elements. */
  lemma SortByMembers<T>(s: seq<T>, key: T -> int)
    ensures forall x :: x in SortBy(s, key) <==> x in s
  {
    var r := SortBy(s, key);
    forall x ensures x in r <==> x in s {
      assert x in r <==> x in multiset(r);
      assert x in s <==> x in multiset(s);
    }
  }

  /** The elements whose key is k, in their order. */
  function OnKey<T>(s: seq<T>, key: T -> int, k: int): seq<T> {
    if s == [] then [] else (if key(s[0]) == k then [s[0]] else []) + OnKey(s[1..], key, k)
  }

  lemma OnKeyCons<T>(x: T, s: seq<T>, key: T -> int, k: int)
    ensures OnKey([x] + s, key, k) == (if key(x) == k then [x] else []) + OnKey(s, key, k)
  {
    assert ([x] + s)[1..] == s;
  }

  /** Inserting x ahead of the first key not smaller than its own puts it ahead of every
      element with the same key. */
  lemma {:induction false} InsertByStable<T>(x: T, s: seq<T>, key: T -> int, k: int)
    ensures OnKey(InsertBy(x, s, key), key, k) == OnKey([x] + s, key, k)
  {
    if s != [] && key(x) > key(s[0]) {
      InsertByStable(x, s[1..], key, k);
      assert InsertBy(x, s, key) == [s[0]] + InsertBy(x, s[1..], key);
      assert s == [s[0]] + s[1..];
      PassLower(x, s[0], s[1..], InsertBy(x, s[1..], key), key, k);
    }
  }

  /** x passes an element with a smaller key without changing the order of either key. */
  lemma PassLower<T>(x: T, y: T, rest: seq<T>, ins: seq<T>, key: T -> int, k: int)
    requires key(x) > key(y)
    requires OnKey(ins, key, k) == OnKey([x] + rest, key, k)
    ensures OnKey([y] + ins, key, k) == OnKey([x] + ([y] + rest), key, k)
  {
    OnKeyCons(y, ins, key, k);
    OnKeyCons(x, rest, key, k);
    OnKeyCons(x, [y] + rest, key, k);
    OnKeyCons(y, rest, key, k);
  }

  /** `Array.prototype.sort` is stable: the elements with any one key keep the order they
      had in the input. */
  lemma {:induction false} SortByStable<T>(s: seq<T>, key: T -> int, k: int)
    ensures OnKey(SortBy(s, key), key, k) == OnKey(s, key, k)
  {
    if s != [] {
      var sorted := SortBy(s[1..], key);
      SortByStable(s[1..], key, k);
      assert SortBy(s, key) == InsertBy(s[0], sorted, key);
      InsertByStable(s[0], sorted, key, k);
      OnKeyCons(s[0], sorted, key, k);
    }
  }

  /** In a sorted sequence, an element outside a prefix has a key no smaller than any
      element of the prefix. */
  lemma SortedPrefixBelow<T>(s: seq<T>, key: T -> int, p: seq<T>, x: T)
    requires SortedBy(s, key) && p <= s && x in s && x !in p
    ensures forall i :: 0 <= i < |p| ==> key(p[i]) <= key(x)
  {
    var m :| 0 <= m < |s| && s[m] == x;
    forall i | 0 <= i < |p| ensures key(p[i]) <= key(x) {
      assert p[i] == s[i];
    }
  }

  lemma PrefixDistinct<T>(s: seq<T>, p: seq<T>)
    requires Distinct(s) && p <= s
    ensures Distinct(p)
  {
    forall i, j | 0 <= i < j < |p| ensures p[i] != p[j] {
      assert p[i] == s[i] && p[j] == s[j];
    }
  }

  /** The sum of f over s. */
  function SumOf<T>(s: seq<T>, f: T -> nat): nat {
    if s == [] then 0 else f(s[0]) + SumOf(s[1..], f)
  }

  lemma {:induction false} SumOfAppend<T>(s: seq<T>, t: seq<T>, f: T -> nat)
    ensures SumOf(s + t, f) == SumOf(s, f) + SumOf(t, f)
  {
    if s == [] {
      assert s + t == t;
    } else {
      assert (s + t)[0] == s[0] && (s + t)[1..] == s[1..] + t;
      SumOfAppend(s[1..], t, f);
    }
  }

  lemma SumOfSnoc<T>(s: seq<T>, x: T, f: T -> nat)
    ensures SumOf(s + [x], f) == SumOf(s, f) + f(x)
  {
    SumOfAppend(s, [x], f);
    assert [x][1..] == [];
  }

  /** Replacing one element changes the sum by the difference. */
  lemma {:induction false} SumOfUpdate<T>(s: seq<T>, k: nat, v: T, f: T -> nat)
    requires k < |s|
    ensures SumOf(s[k := v], f) + f(s[k]) == SumOf(s, f) + f(v)
  {
    if k == 0 {
      assert s[k := v][1..] == s[1..];
    } else {
      assert s[k := v][1..] == s[1..][k - 1 := v];
      SumOfUpdate(s[1..], k - 1, v, f);
    }
  }

  lemma {:induction false} SumOfInsert<T>(x: T, s: seq<T>, key: T -> int, f: T -> nat)
    ensures SumOf(InsertBy(x, s, key), f) == f(x) + SumOf(s, f)
  {
    if s != [] && key(x) > key(s[0]) {
      SumOfInsert(x, s[1..], key, f);
    }
  }

  /** Sorting does not change a sum. */
  lemma {:induction false} SumOfSort<T>(s: seq<T>, key: T -> int, f: T -> nat)
    ensures SumOf(SortBy(s, key), f) == SumOf(s, f)
  {
    if s != [] {
      SumOfSort(s[1..], key, f);
      SumOfInsert(s[0], SortBy(s[1..], key), key, f);
    }
  }

  /** In a duplicate-free sequence every value occurs at most once. */
  lemma {:induction false} DistinctMultiplicity<T>(s: seq<T>, x: T)
    requires Distinct(s)
    ensures multiset(s)[x] <= 1
  {
    if s != [] {
      assert s == [s[0]] + s[1..];
      DistinctMultiplicity(s[1..], x);
      if s[0] == x {
        assert x !in s[1..] by {
          forall j | 0 <= j < |s[1..]| ensures s[1..][j] != x {
            assert s[1..][j] == s[j + 1];
          }
        }
      }
    }
  }

  /** A permutation of a duplicate-free sequence is duplicate-free. */
  lemma PermutationDistinct<T>(a: seq<T>, b: seq<T>)
    requires multiset(a) == multiset(b) && Distinct(a)
    ensures Distinct(b)
  {
    forall i, j | 0 <= i < j < |b| ensures b[i] != b[j] {
      if b[i] == b[j] {
        var x := b[i];
        assert b == b[..j] + [b[j]] + b[j + 1..];
        assert x in b[..j];
        assert multiset(b)[x] >= 2;
        DistinctMultiplicity(a, x);
      }
    }
  }
}
