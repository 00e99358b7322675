/** The enumeration orders of Python's `itertools.combinations` and
    `itertools.permutations`, the list comprehension that takes a complement of
    index positions, and the stable sort behind `list.sort(key=...)`. */
module Combinatorics {

  function Factorial(n: nat): (r: nat)
    ensures r >= 1
  {
    if n == 0 then 1 else n * Factorial(n - 1)
  }

  /** Pascal's rule. */
  function Binomial(n: nat, k: nat): nat {
    if k == 0 then 1 else if n == 0 then 0 else Binomial(n - 1, k - 1) + Binomial(n - 1, k)
  }

  predicate Increasing(c: seq<nat>) {
    forall i, j :: 0 <= i < j < |c| ==> c[i] < c[j]
  }

  function Prepend<T>(x: T, ss: seq<seq<T>>): (r: seq<seq<T>>)
    ensures |r| == |ss|
    ensures forall i :: 0 <= i < |ss| ==> r[i] == [x] + ss[i]
  {
    seq(|ss|, i requires 0 <= i < |ss| => [x] + ss[i])
  }

  lemma PrependMember<T>(x: T, ss: seq<seq<T>>, c: seq<T>)
    requires c in Prepend(x, ss)
    ensures |c| > 0 && c[0] == x && c[1..] in ss
  {
    var i :| 0 <= i < |ss| && Prepend(x, ss)[i] == c;
    assert c[1..] == ss[i];
  }

  /** `range(n)` */
  function Range(n: nat): (r: seq<nat>)
    ensures |r| == n && forall i :: 0 <= i < n ==> r[i] == i
  {
    seq(n, i => i)
  }

  lemma RangeIncreasing(n: nat)
    ensures Increasing(Range(n))
    ensures forall x: nat :: x in Range(n) <==> x < n
  {
    forall x: nat | x < n ensures x in Range(n) { assert Range(n)[x] == x; }
  }

  /** `itertools.combinations(pool, k)`: the k-element selections of pool in
      the order of their positions, listed lexicographically by position
      (first those that take pool[0], then those that skip it). */
  function Combinations<T>(pool: seq<T>, k: nat): (r: seq<seq<T>>)
    decreases |pool|, k
  {
    if k == 0 then [[]]
    else if |pool| == 0 then []
    else Prepend(pool[0], Combinations(pool[1..], k - 1)) + Combinations(pool[1..], k)
  }

  /** There are C(|pool|, k) selections. */
  lemma {:induction false} CombinationsCount<T>(pool: seq<T>, k: nat)
    ensures |Combinations(pool, k)| == Binomial(|pool|, k)
    decreases |pool|, k
  {
    if k != 0 && |pool| > 0 {
      CombinationsCount(pool[1..], k - 1);
      CombinationsCount(pool[1..], k);
    }
  }

  // Pascal's triangle up to row 9, one row per lemma so that each step only
  // unfolds Binomial once.
  lemma PascalRow1()
    ensures Binomial(1, 1) == 1 && Binomial(1, 2) == 0 && Binomial(1, 3) == 0 && Binomial(1, 4) == 0 && Binomial(1, 5) == 0
  { }

  lemma PascalRow2()
    ensures Binomial(2, 1) == 2 && Binomial(2, 2) == 1 && Binomial(2, 3) == 0 && Binomial(2, 4) == 0 && Binomial(2, 5) == 0
  { PascalRow1(); }

  lemma PascalRow3()
    ensures Binomial(3, 1) == 3 && Binomial(3, 2) == 3 && Binomial(3, 3) == 1 && Binomial(3, 4) == 0 && Binomial(3, 5) == 0
  { PascalRow2(); }

  lemma PascalRow4()
    ensures Binomial(4, 1) == 4 && Binomial(4, 2) == 6 && Binomial(4, 3) == 4 && Binomial(4, 4) == 1 && Binomial(4, 5) == 0
  { PascalRow3(); }

  lemma PascalRow5()
    ensures Binomial(5, 1) == 5 && Binomial(5, 2) == 10 && Binomial(5, 3) == 10 && Binomial(5, 4) == 5 && Binomial(5, 5) == 1
  { PascalRow4(); }

  lemma PascalRow6()
    ensures Binomial(6, 1) == 6 && Binomial(6, 2) == 15 && Binomial(6, 3) == 20 && Binomial(6, 4) == 15 && Binomial(6, 5) == 6
  { PascalRow5(); }

  lemma PascalRow7()
    ensures Binomial(7, 1) == 7 && Binomial(7, 2) == 21 && Binomial(7, 3) == 35 && Binomial(7, 4) == 35 && Binomial(7, 5) == 21
  { PascalRow6(); }

  lemma PascalRow8()
    ensures Binomial(8, 1) == 8 && Binomial(8, 2) == 28 && Binomial(8, 3) == 56 && Binomial(8, 4) == 70 && Binomial(8, 5) == 56
  { PascalRow7(); }

  lemma PascalRow9()
    ensures Binomial(9, 1) == 9 && Binomial(9, 2) == 36 && Binomial(9, 3) == 84 && Binomial(9, 4) == 126 && Binomial(9, 5) == 126
  { PascalRow8(); }

  lemma TailIncreasing(pool: seq<nat>)
    requires Increasing(pool) && |pool| > 0
    ensures Increasing(pool[1..])
    ensures forall x :: x in pool[1..] ==> pool[0] < x
  {
  }

  /** Each selection has k elements taken from the pool, in the pool's order. */
  lemma {:induction false} CombinationShape(pool: seq<nat>, k: nat, c: seq<nat>)
    requires c in Combinations(pool, k)
    ensures |c| == k
    ensures forall x :: x in c ==> x in pool
    ensures Increasing(pool) ==> Increasing(c)
    decreases |pool|, k
  {
    if k == 0 {
      assert c == [];
    } else {
      var tail := pool[1..];
      var first := Combinations(tail, k - 1);
      if c in Prepend(pool[0], first) {
        PrependMember(pool[0], first, c);
        var c' := c[1..];
        CombinationShape(tail, k - 1, c');
        assert c == [pool[0]] + c';
        if Increasing(pool) {
          TailIncreasing(pool);
          IncreasingCons(pool[0], c');
        }
      } else {
        CombinationShape(tail, k, c);
        if Increasing(pool) {
          TailIncreasing(pool);
        }
      }
    }
  }

  lemma IncreasingCons(x: nat, c: seq<nat>)
    requires Increasing(c) && forall y :: y in c ==> x < y
    ensures Increasing([x] + c)
  {
    var d := [x] + c;
    forall a, b | 0 <= a < b < |d| ensures d[a] < d[b] {
      assert d[b] == c[b - 1] && c[b - 1] in c;
      if a > 0 { assert d[a] == c[a - 1]; }
    }
  }

  /** There are 252 ways to choose the first team's five indices out of ten. */
  lemma TenChooseFive()
    ensures |Combinations(Range(10), 5)| == 252
  {
    CombinationsCount(Range(10), 5);
    PascalRow9();
  }

  /** `[i for i in range(lo, n) if i not in c]` */
  function Complement(c: seq<nat>, lo: nat, n: nat): (r: seq<nat>)
    ensures forall i :: 0 <= i < |r| ==> lo <= r[i] < n
    decreases n - lo
  {
    if lo >= n then []
    else (if lo in c then [] else [lo]) + Complement(c, lo + 1, n)
  }

  /** The complement holds exactly the positions lo .. n-1 not in c. */
  lemma {:induction false} ComplementMembers(c: seq<nat>, lo: nat, n: nat)
    ensures forall x :: x in Complement(c, lo, n) <==> lo <= x < n && x !in c
    decreases n - lo
  {
    if lo < n {
      ComplementMembers(c, lo + 1, n);
    }
  }

  lemma {:induction false} ComplementAgrees(c: seq<nat>, d: seq<nat>, lo: nat, n: nat)
    requires forall x :: lo <= x < n ==> (x in c <==> x in d)
    ensures Complement(c, lo, n) == Complement(d, lo, n)
    decreases n - lo
  {
    if lo < n {
      ComplementAgrees(c, d, lo + 1, n);
    }
  }
  /** The complement of an increasing tuple drawn from lo .. n-1 holds the
      other n - lo - |c| positions. */
  lemma {:induction false} ComplementCount(c: seq<nat>, lo: nat, n: nat)
    requires Increasing(c) && lo <= n
    requires forall i :: 0 <= i < |c| ==> lo <= c[i] < n
    ensures |c| <= n - lo
    ensures |Complement(c, lo, n)| == n - lo - |c|
    decreases n - lo, 1
  {
    if |c| == 0 {
      ComplementOfNothing(c, lo, n);
    } else if c[0] == lo {
      ComplementCountTaken(c, lo, n);
    } else {
      ComplementCountSkipped(c, lo, n);
    }
  }

  lemma {:induction false} ComplementCountTaken(c: seq<nat>, lo: nat, n: nat)
    requires Increasing(c) && lo < n && |c| > 0 && c[0] == lo
    requires forall i :: 0 <= i < |c| ==> lo <= c[i] < n
    ensures |c| <= n - lo
    ensures |Complement(c, lo, n)| == n - lo - |c|
    decreases n - lo, 0
  {
    var d := c[1..];
    DropFirstAgrees(c, lo, n);
    ComplementCount(d, lo + 1, n);
    assert |d| == |c| - 1;
  }

  lemma {:induction false} ComplementCountSkipped(c: seq<nat>, lo: nat, n: nat)
    requires Increasing(c) && lo < n && |c| > 0 && c[0] != lo
    requires forall i :: 0 <= i < |c| ==> lo <= c[i] < n
    ensures |c| <= n - lo
    ensures |Complement(c, lo, n)| == n - lo - |c|
    decreases n - lo, 0
  {
    SkipMissing(c, lo, n);
    ComplementCount(c, lo + 1, n);
  }

  lemma {:induction false} ComplementOfNothing(c: seq<nat>, lo: nat, n: nat)
    requires |c| == 0 && lo <= n
    ensures |Complement(c, lo, n)| == n - lo
    decreases n - lo
  {
    if lo < n {
      ComplementOfNothing(c, lo + 1, n);
    }
  }

  lemma DropFirstAgrees(c: seq<nat>, lo: nat, n: nat)
    requires Increasing(c) && lo < n && |c| > 0 && c[0] == lo
    requires forall i :: 0 <= i < |c| ==> lo <= c[i] < n
    ensures Increasing(c[1..]) && forall i :: 0 <= i < |c[1..]| ==> lo + 1 <= c[1..][i] < n
    ensures |Complement(c, lo, n)| == |Complement(c[1..], lo + 1, n)|
  {
    var d := c[1..];
    assert c == [lo] + d;
    ComplementAgrees(c, d, lo + 1, n);
    assert Complement(c, lo, n) == [] + Complement(c, lo + 1, n);
    forall i | 0 <= i < |d| ensures lo + 1 <= d[i] < n {
      assert d[i] == c[i + 1] && c[0] < c[i + 1];
    }
    forall i, j | 0 <= i < j < |d| ensures d[i] < d[j] {
      assert d[i] == c[i + 1] && d[j] == c[j + 1];
    }
  }

  lemma SkipMissing(c: seq<nat>, lo: nat, n: nat)
    requires Increasing(c) && lo < n && |c| > 0 && c[0] != lo
    requires forall i :: 0 <= i < |c| ==> lo <= c[i] < n
    ensures forall i :: 0 <= i < |c| ==> lo + 1 <= c[i] < n
    ensures |Complement(c, lo, n)| == 1 + |Complement(c, lo + 1, n)|
  {
    forall i | 0 <= i < |c| ensures lo + 1 <= c[i] < n {
      assert c[0] <= c[i];
    }
  }

  /** A k-index selection out of range(n) and its complement cut 0 .. n-1
      into two disjoint parts of sizes k and n - k whose union is every index. */
  lemma TeamSplit(c: seq<nat>, n: nat, k: nat)
    requires c in Combinations(Range(n), k)
    ensures |c| == k <= n && |Complement(c, 0, n)| == n - k
    ensures forall i :: 0 <= i < |c| ==> c[i] < n
    ensures forall x :: x in c ==> x !in Complement(c, 0, n)
    ensures forall x: nat :: x < n <==> (x in c || x in Complement(c, 0, n))
  {
    CombinationShape(Range(n), k, c);
    RangeIncreasing(n);
    assert forall i :: 0 <= i < |c| ==> c[i] in c;
    ComplementCount(c, 0, n);
    ComplementMembers(c, 0, n);
  }

  /** `itertools.combinations(range(n), 5)`: the index sets of the first
      team. Both builders reach it only with n = 10; the size is a
      parameter so that the verifier does not expand the 252 combinations
      of a constant. */
  function Splits(n: nat): seq<seq<nat>> {
    Combinations(Range(n), 5)
  }

  /** Each split names five players and leaves the other n - 5. */
  lemma {:induction false} SplitShapes(n: nat)
    ensures forall ci :: 0 <= ci < |Splits(n)| ==>
      && |Splits(n)[ci]| == 5 <= n
      && (forall j :: 0 <= j < 5 ==> Splits(n)[ci][j] < n)
      && |Complement(Splits(n)[ci], 0, n)| == n - 5
  {
    forall ci | 0 <= ci < |Splits(n)|
      ensures && |Splits(n)[ci]| == 5 <= n
              && (forall j :: 0 <= j < 5 ==> Splits(n)[ci][j] < n)
              && |Complement(Splits(n)[ci], 0, n)| == n - 5
    {
      TeamSplit(Splits(n)[ci], n, 5);
    }
  }

  /** Every index of `c` is below `n`. */
  predicate Below(c: seq<nat>, n: nat) {
    forall i :: 0 <= i < |c| ==> c[i] < n
  }

  /** `[players[i] for i in idx]` */
  function Pick<T>(s: seq<T>, idx: seq<nat>): (r: seq<T>)
    requires forall i :: 0 <= i < |idx| ==> idx[i] < |s|
    ensures |r| == |idx|
    ensures forall i :: 0 <= i < |idx| ==> r[i] == s[idx[i]]
  {
    seq(|idx|, i requires 0 <= i < |idx| => s[idx[i]])
  }

  function RemoveAt<T>(s: seq<T>, i: nat): (r: seq<T>)
    requires i < |s|
    ensures |r| == |s| - 1
  {
    s[..i] + s[i + 1..]
  }

  /** A prefix one longer is the prefix with the next element appended. */
  lemma PrefixSnoc<T>(s: seq<T>, i: nat)
    requires i < |s|
    ensures s[..i + 1] == s[..i] + [s[i]]
  {
  }

  /** Removing position i takes one s[i] out of the multiset. */
  lemma RemoveAtMultiset<T>(s: seq<T>, i: nat)
    requires i < |s|
    ensures multiset(RemoveAt(s, i)) + multiset{s[i]} == multiset(s)
  {
    assert s == s[..i] + [s[i]] + s[i + 1..];
  }

  /** `itertools.permutations(s)`: all orderings of the positions of s, in
      lexicographic order of positions (the first element is chosen by
      increasing position and the rest are permuted recursively). */
  function Permutations<T>(s: seq<T>): seq<seq<T>>
    decreases |s|, 1
  {
    if |s| == 0 then [[]] else PermutationsFrom(s, 0)
  }
  /** The orderings whose first element is s[j] for some j >= i, by
      increasing j. */
  function PermutationsFrom<T>(s: seq<T>, i: nat): seq<seq<T>>
    requires i <= |s|
    decreases |s|, 0, |s| - i
  {
    if i == |s| then []
    else Prepend(s[i], Permutations(RemoveAt(s, i))) + PermutationsFrom(s, i + 1)
  }
  predicate IsPermutationOf<T(==)>(p: seq<T>, s: seq<T>) {
    |p| == |s| && multiset(p) == multiset(s)
  }
  /** Every tuple `itertools.permutations(s)` yields reorders s. */
  lemma {:induction false} PermutationsArePermutations<T>(s: seq<T>, p: seq<T>)
    requires p in Permutations(s)
    ensures IsPermutationOf(p, s)
    decreases |s|, 1
  {
    if |s| == 0 {
      assert p == [];
    } else {
      PermutationsFromArePermutations(s, 0, p);
    }
  }
  lemma {:induction false} PermutationsFromArePermutations<T>(s: seq<T>, i: nat, p: seq<T>)
    requires i <= |s| && p in PermutationsFrom(s, i)
    ensures IsPermutationOf(p, s)
    decreases |s|, 0, |s| - i
  {
    var rest := RemoveAt(s, i);
    var block := Prepend(s[i], Permutations(rest));
    if p in block {
      var j :| 0 <= j < |block| && block[j] == p;
      var q := Permutations(rest)[j];
      assert p == [s[i]] + q;
      PermutationsArePermutations(rest, q);
      RemoveAtMultiset(s, i);
      calc {
        multiset(p);
        multiset([s[i]]) + multiset(q);
        multiset(rest) + multiset{s[i]};
        multiset(s);
      }
    } else {
      PermutationsFromArePermutations(s, i + 1, p);
    }
  }
  /** There are |s|! orderings. */
  lemma {:induction false} PermutationsCount<T>(s: seq<T>)
    ensures |Permutations(s)| == Factorial(|s|)
    decreases |s|, 1
  {
    if |s| > 0 {
      PermutationsFromCount(s, 0);
    }
  }
  lemma {:induction false} PermutationsFromCount<T>(s: seq<T>, i: nat)
    requires 0 < |s| && i <= |s|
    ensures |PermutationsFrom(s, i)| == (|s| - i) * Factorial(|s| - 1)
    decreases |s|, 0, |s| - i
  {
    if i < |s| {
      var m := Factorial(|s| - 1);
      var rest := RemoveAt(s, i);
      PermutationsCount(rest);
      PermutationsFromCount(s, i + 1);
      assert |PermutationsFrom(s, i)| == m + (|s| - (i + 1)) * m;
      MulSucc(|s| - (i + 1), m);
    }
  }
  lemma MulSucc(a: nat, m: nat)
    ensures m + a * m == (a + 1) * m
  { }

  /** Five roles have 120 orderings. */
  lemma FivePermutations<T>(s: seq<T>)
    requires |s| == 5
    ensures |Permutations(s)| == 120
  {
    PermutationsCount(s);
    assert Factorial(5) == 120;
  }

  /** Inserts x after every element whose key is not larger than x's, so that
      equal keys keep their arrival order. */
  function InsertByKey<T>(x: T, s: seq<T>, key: T -> int): (r: seq<T>)
    ensures |r| == |s| + 1
    ensures multiset(r) == multiset(s) + multiset{x}
  {
    if |s| == 0 then [x]
    else if key(x) < key(s[|s| - 1]) then
      assert s == s[..|s| - 1] + [s[|s| - 1]];
      InsertByKey(x, s[..|s| - 1], key) + [s[|s| - 1]]
    else s + [x]
  }

  /** `list.sort(key=key)`: Python's sort is stable, and stable insertion sort
      produces the same list. */
  function SortByKey<T>(s: seq<T>, key: T -> int): (r: seq<T>)
    ensures |r| == |s|
    ensures multiset(r) == multiset(s)
  {
    if |s| == 0 then []
    else
      assert s == s[..|s| - 1] + [s[|s| - 1]];
      InsertByKey(s[|s| - 1], SortByKey(s[..|s| - 1], key), key)
  }

  predicate SortedByKey<T>(s: seq<T>, key: T -> int) {
    forall i, j :: 0 <= i < j < |s| ==> key(s[i]) <= key(s[j])
  }

  /** The elements of s whose key is g, in their order in s. */
  function WithKey<T>(s: seq<T>, key: T -> int, g: int): seq<T> {
    if |s| == 0 then []
    else WithKey(s[..|s| - 1], key, g) + (if key(s[|s| - 1]) == g then [s[|s| - 1]] else [])
  }

  lemma WithKeySnoc<T>(s: seq<T>, y: T, key: T -> int, g: int)
    ensures WithKey(s + [y], key, g) == WithKey(s, key, g) + (if key(y) == g then [y] else [])
  {
    assert (s + [y])[..|s|] == s;
  }

  lemma {:induction false} InsertElements<T>(x: T, s: seq<T>, key: T -> int)
    ensures forall y :: y in InsertByKey(x, s, key) ==> y == x || y in s
  {
    var r := InsertByKey(x, s, key);
    assert multiset(r) == multiset(s) + multiset{x};
    forall y | y in r ensures y == x || y in s {
      assert y in multiset(r);
    }
  }

  lemma {:induction false} InsertSorted<T>(x: T, s: seq<T>, key: T -> int)
    requires SortedByKey(s, key)
    ensures SortedByKey(InsertByKey(x, s, key), key)
  {
    if |s| > 0 && key(x) < key(s[|s| - 1]) {
      var init, last := s[..|s| - 1], s[|s| - 1];
      InsertSorted(x, init, key);
      var r0 := InsertByKey(x, init, key);
      InsertElements(x, init, key);
      var r := r0 + [last];
      assert InsertByKey(x, s, key) == r;
      forall y | y in r0 ensures key(y) <= key(last) {
        if y != x {
          var k :| 0 <= k < |init| && init[k] == y;
          assert s[k] == y;
        }
      }
      forall i, j | 0 <= i < j < |r| ensures key(r[i]) <= key(r[j]) {
        if j == |r| - 1 {
          assert r[i] in r0;
        } else {
          assert r[i] == r0[i] && r[j] == r0[j];
        }
      }
    }
  }

  lemma {:induction false} InsertWithKey<T>(x: T, s: seq<T>, key: T -> int, g: int)
    ensures WithKey(InsertByKey(x, s, key), key, g) == WithKey(s, key, g) + (if key(x) == g then [x] else [])
  {
    if |s| == 0 {
      WithKeySnoc([], x, key, g);
      assert [] + [x] == [x];
    } else if key(x) < key(s[|s| - 1]) {
      var init, last := s[..|s| - 1], s[|s| - 1];
      InsertWithKey(x, init, key, g);
      WithKeySnoc(InsertByKey(x, init, key), last, key, g);
      assert s == init + [last];
      WithKeySnoc(init, last, key, g);
    } else {
      WithKeySnoc(s, x, key, g);
    }
  }

  /** The elements with key g of a prefix of s come first among those of s. */
  lemma {:induction false} WithKeyPrefix<T>(s: seq<T>, k: nat, key: T -> int, g: int)
    requires k <= |s|
    ensures WithKey(s[..k], key, g) <= WithKey(s, key, g)
    decreases |s| - k
  {
    if k < |s| {
      var init := s[..|s| - 1];
      assert init[..k] == s[..k];
      WithKeyPrefix(init, k, key, g);
    } else {
      assert s[..k] == s;
    }
  }

  /** Sorting orders by key and keeps elements with equal keys in their
      original order (stability). */
  lemma {:induction false} SortByKeyStable<T>(s: seq<T>, key: T -> int)
    ensures SortedByKey(SortByKey(s, key), key)
    ensures forall g :: WithKey(SortByKey(s, key), key, g) == WithKey(s, key, g)
  {
    if |s| > 0 {
      var init, last := s[..|s| - 1], s[|s| - 1];
      SortByKeyStable(init, key);
      InsertSorted(last, SortByKey(init, key), key);
      forall g ensures WithKey(SortByKey(s, key), key, g) == WithKey(s, key, g) {
        InsertWithKey(last, SortByKey(init, key), key, g);
      }
    }
  }

  /** The first k elements of a sorted copy of s: drawn from s, and no
      element of s left out has a smaller key than one kept. */
  lemma {:induction false} SortedPrefix<T>(s: seq<T>, key: T -> int, k: nat)
    requires k <= |s|
    ensures multiset(SortByKey(s, key)[..k]) <= multiset(s)
    ensures forall t, m :: t in SortByKey(s, key)[..k] && m in multiset(s) - multiset(SortByKey(s, key)[..k]) ==>
      key(t) <= key(m)
  {
    SortByKeyStable(s, key);
    SortedSplit(s, SortByKey(s, key), key, k);
  }

  /** Cutting any sorted reordering of s after k elements. */
  lemma SortedSplit<T>(s: seq<T>, sorted: seq<T>, key: T -> int, k: nat)
    requires k <= |sorted| && multiset(sorted) == multiset(s) && SortedByKey(sorted, key)
    ensures multiset(sorted[..k]) <= multiset(s)
    ensures forall t, m :: t in sorted[..k] && m in multiset(s) - multiset(sorted[..k]) ==> key(t) <= key(m)
  {
    var top, rest := sorted[..k], sorted[k..];
    assert sorted == top + rest;
    assert multiset(s) - multiset(top) == multiset(rest);
    forall t, m | t in top && m in multiset(s) - multiset(top) ensures key(t) <= key(m) {
      assert m in rest;
      CutOrdered(sorted, key, k, t, m);
    }
  }

  /** In a sorted sequence nothing after the cut has a smaller key than
      something before it. */
  lemma CutOrdered<T>(sorted: seq<T>, key: T -> int, k: nat, t: T, m: T)
    requires SortedByKey(sorted, key) && k <= |sorted| && t in sorted[..k] && m in sorted[k..]
    ensures key(t) <= key(m)
  {
    var top, rest := sorted[..k], sorted[k..];
    var i :| 0 <= i < k && top[i] == t;
    var j :| 0 <= j < |rest| && rest[j] == m;
    assert sorted[i] == t && sorted[k + j] == m;
  }

  /** The blocks of ss one after another, as a nested generator yields them. */
  function Flatten<T>(ss: seq<seq<T>>): seq<T> {
    if |ss| == 0 then [] else ss[0] + Flatten(ss[1..])
  }

  /** When every block has m elements, the blocks fill |ss| * m positions. */
  lemma {:induction false} FlattenLength<T>(ss: seq<seq<T>>, m: nat)
    requires forall i :: 0 <= i < |ss| ==> |ss[i]| == m
    ensures |Flatten(ss)| == |ss| * m
  {
    if |ss| > 0 {
      FlattenLength(ss[1..], m);
      assert |ss| * m == m + (|ss| - 1) * m;
    }
  }

  /** When every block has m elements, element j of block i sits at
      position i * m + j. */
  lemma {:induction false} FlattenAt<T>(ss: seq<seq<T>>, m: nat, i: nat, j: nat)
    requires forall b :: 0 <= b < |ss| ==> |ss[b]| == m
    requires i < |ss| && j < m
    ensures i * m + j < |Flatten(ss)|
    ensures Flatten(ss)[i * m + j] == ss[i][j]
  {
    assert Flatten(ss) == ss[0] + Flatten(ss[1..]);
    if i > 0 {
      FlattenAt(ss[1..], m, i - 1, j);
      MulSucc(i - 1, m);
    }
  }

  /** FlattenAt for a position k given by name. */
  lemma FlattenAtIndex<T>(ss: seq<seq<T>>, m: nat, i: nat, j: nat, k: nat)
    requires forall b :: 0 <= b < |ss| ==> |ss[b]| == m
    requires i < |ss| && j < m && k == i * m + j
    ensures k < |Flatten(ss)| && Flatten(ss)[k] == ss[i][j]
  {
    FlattenAt(ss, m, i, j);
  }

  /** The key of every element, in order. */
  function Keys<T>(s: seq<T>, key: T -> int): (r: seq<int>)
    ensures |r| == |s|
    ensures forall i :: 0 <= i < |s| ==> r[i] == key(s[i])
  {
    seq(|s|, i requires 0 <= i < |s| => key(s[i]))
  }

  lemma KeysConcat<T>(a: seq<T>, b: seq<T>, key: T -> int)
    ensures Keys(a + b, key) == Keys(a, key) + Keys(b, key)
  {
  }

  lemma KeysRemoveAt<T>(t: seq<T>, j: nat, key: T -> int)
    requires j < |t|
    ensures multiset(Keys(t, key)) == multiset(Keys(RemoveAt(t, j), key)) + multiset{key(t[j])}
  {
    var a, b := t[..j], t[j + 1..];
    assert t == a + [t[j]] + b;
    assert RemoveAt(t, j) == a + b;
    KeysConcat(a + [t[j]], b, key);
    KeysConcat(a, [t[j]], key);
    KeysConcat(a, b, key);
    assert Keys([t[j]], key) == [key(t[j])];
  }

  /** Reordering a sequence reorders its keys the same way. */
  lemma {:induction false} KeysPermuted<T>(s: seq<T>, t: seq<T>, key: T -> int)
    requires multiset(s) == multiset(t)
    ensures multiset(Keys(s, key)) == multiset(Keys(t, key))
    decreases |s|
  {
    if |s| == 0 {
      assert |t| == |multiset(t)| == 0;
    } else {
      var x := s[0];
      assert x in multiset(s);
      var j :| 0 <= j < |t| && t[j] == x;
      PermutedTail(s, t, j);
      KeysPermuted(s[1..], RemoveAt(t, j), key);
      KeysRemoveAt(t, j, key);
      KeysUncons(s, key);
    }
  }

  /** Taking the first element off s and a matching one off t leaves two
      reorderings of each other. */
  lemma PermutedTail<T>(s: seq<T>, t: seq<T>, j: nat)
    requires multiset(s) == multiset(t) && |s| > 0 && j < |t| && t[j] == s[0]
    ensures multiset(s[1..]) == multiset(RemoveAt(t, j))
  {
    var x := s[0];
    RemoveAtMultiset(t, j);
    assert s == [x] + s[1..];
    assert multiset(s) == multiset{x} + multiset(s[1..]);
    assert multiset(s[1..]) == multiset(s) - multiset{x};
    assert multiset(RemoveAt(t, j)) == multiset(t) - multiset{x};
  }

  lemma KeysUncons<T>(s: seq<T>, key: T -> int)
    requires |s| > 0
    ensures multiset(Keys(s, key)) == multiset(Keys(s[1..], key)) + multiset{key(s[0])}
  {
    assert s == [s[0]] + s[1..];
    KeysConcat([s[0]], s[1..], key);
    assert Keys([s[0]], key) == [key(s[0])];
  }

  /** Python's `min` of two integers and `abs`. */
  function Min(a: int, b: int): int { if a <= b then a else b }

  function Abs(x: int): nat { if x < 0 then -x else x }

  /** Python's `sum` of a sequence of integers. */
  function Sum(s: seq<int>): int {
    if |s| == 0 then 0 else s[0] + Sum(s[1..])
  }

  lemma {:induction false} SumConcat(a: seq<int>, b: seq<int>)
    ensures Sum(a + b) == Sum(a) + Sum(b)
  {
    if |a| > 0 {
      assert (a + b)[1..] == a[1..] + b;
      SumConcat(a[1..], b);
    } else {
      assert a + b == b;
    }
  }

  lemma {:induction false} SumRemoveAt(t: seq<int>, j: nat)
    requires j < |t|
    ensures Sum(t) == Sum(RemoveAt(t, j)) + t[j]
  {
    var r := RemoveAt(t, j);
    if j == 0 {
      assert r == t[1..];
    } else {
      SumRemoveAt(t[1..], j - 1);
      assert r[0] == t[0];
      assert r[1..] == RemoveAt(t[1..], j - 1);
    }
  }

  /** Reordering does not change a sum. */
  lemma {:induction false} SumPermuted(s: seq<int>, t: seq<int>)
    requires multiset(s) == multiset(t)
    ensures Sum(s) == Sum(t)
    decreases |s|
  {
    if |s| == 0 {
      assert |t| == |multiset(t)| == 0;
    } else {
      var x := s[0];
      assert x in multiset(t);
      var j :| 0 <= j < |t| && t[j] == x;
      var t' := RemoveAt(t, j);
      RemoveAtMultiset(t, j);
      assert s == [x] + s[1..];
      assert multiset(s) == multiset{x} + multiset(s[1..]);
      assert multiset(t') + multiset{x} == multiset(t);
      assert multiset(s[1..]) == multiset(s) - multiset{x};
      assert multiset(t') == multiset(t) - multiset{x};
      SumPermuted(s[1..], t');
      SumRemoveAt(t, j);
    }
  }

  /** The integers 0, 1, ..., n - 1. */
  function Iota(n: nat): (r: seq<int>)
    ensures |r| == n
    ensures forall i :: 0 <= i < n ==> r[i] == i
  {
    seq(n, i => i)
  }

  /** A non-decreasing reordering of 0 .. n - 1 is 0 .. n - 1 itself. */
  lemma {:induction false} SortedIota(s: seq<int>, n: nat)
    requires forall i, j :: 0 <= i < j < |s| ==> s[i] <= s[j]
    requires multiset(s) == multiset(Iota(n))
    ensures s == Iota(n)
  {
    assert |s| == |multiset(s)| == |multiset(Iota(n))| == n;
    if n > 0 {
      SortedIotaLast(s, n);
      SortedIota(s[..n - 1], n - 1);
      assert s == s[..n - 1] + [n - 1];
      assert Iota(n) == Iota(n - 1) + [n - 1];
    }
  }

  /** The last of such a reordering is n - 1, and the rest reorders
      0 .. n - 2. */
  lemma SortedIotaLast(s: seq<int>, n: nat)
    requires n > 0 && |s| == n
    requires forall i, j :: 0 <= i < j < |s| ==> s[i] <= s[j]
    requires multiset(s) == multiset(Iota(n))
    ensures s[n - 1] == n - 1
    ensures multiset(s[..n - 1]) == multiset(Iota(n - 1))
  {
    var t := Iota(n);
    assert t[n - 1] == n - 1;
    assert n - 1 in multiset(s);
    var k :| 0 <= k < n && s[k] == n - 1;
    assert s[n - 1] in multiset(t);
    var j :| 0 <= j < n && t[j] == s[n - 1];
    DropLastMultiset(s, t);
    assert t[..n - 1] == Iota(n - 1);
  }

  /** Equal multisets with equal last elements stay equal without them. */
  lemma DropLastMultiset<T>(s: seq<T>, t: seq<T>)
    requires |s| > 0 && |t| > 0 && s[|s| - 1] == t[|t| - 1]
    requires multiset(s) == multiset(t)
    ensures multiset(s[..|s| - 1]) == multiset(t[..|t| - 1])
  {
    var x := s[|s| - 1];
    assert s == s[..|s| - 1] + [x];
    assert t == t[..|t| - 1] + [x];
    assert multiset(s) == multiset(s[..|s| - 1]) + multiset{x};
    assert multiset(t) == multiset(t[..|t| - 1]) + multiset{x};
    assert multiset(s[..|s| - 1]) == multiset(s) - multiset{x};
    assert multiset(t[..|t| - 1]) == multiset(t) - multiset{x};
  }
}
