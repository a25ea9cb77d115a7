/** Sequence helpers: distinctness, first-occurrence deduplication (the key order of a Python
    dict), order-preserving filtering (`Array.prototype.filter`), and the two sorts the source
    uses: a stable sort by an integer key (`[...xs].sort((a, b) => a.id - b.id)`) and Python's
    `sorted` on strings. */
module Collections {
  import opened Strings

  predicate NoDup<T(==)>(s: seq<T>) {
    forall i, j :: 0 <= i < j < |s| ==> s[i] != s[j]
  }

  /** The last element of a concatenation, and what precedes it, come from its second part. */
  lemma InitOfConcat<T>(a: seq<T>, b: seq<T>)
    requires |b| > 0
    ensures (a + b)[..|a + b| - 1] == a + b[..|b| - 1]
    ensures (a + b)[|a + b| - 1] == b[|b| - 1]
  {
  }

  lemma ConcatAssoc<T>(a: seq<T>, b: seq<T>, c: seq<T>)
    ensures (a + b) + c == a + (b + c)
  {
  }

  /** Moving the head of the rest of a sequence onto the end of its first part. */
  lemma ShiftHead<T>(done: seq<T>, x: T, r: seq<T>, rest: seq<T>, whole: seq<T>)
    requires done + r == whole && r == [x] + rest
    ensures (done + [x]) + rest == whole
  {
  }

  /* ---------- First-occurrence deduplication ---------- */

  /** The distinct elements of `s`, each where it first occurs. */
  function Dedup<T(==,!new)>(s: seq<T>): (r: seq<T>)
    ensures NoDup(r)
    ensures forall x :: x in r <==> x in s
  {
    if |s| == 0 then []
    else
      var d := Dedup(s[..|s| - 1]);
      if s[|s| - 1] in d then d else d + [s[|s| - 1]]
  }

  /** Appending an element adds it to the end of `Dedup` unless it is already there. */
  lemma DedupSnoc<T(!new)>(s: seq<T>, x: T)
    ensures Dedup(s + [x]) == if x in s then Dedup(s) else Dedup(s) + [x]
  {
    assert (s + [x])[..|s|] == s;
  }

  /** The index of the first occurrence of `x` in `s`. */
  function FirstIndex<T(==)>(s: seq<T>, x: T): (i: nat)
    requires x in s
    ensures i < |s| && s[i] == x && x !in s[..i]
  {
    if s[0] == x then 0
    else
      var k := FirstIndex(s[1..], x);
      assert s[..k + 1] == [s[0]] + s[1..][..k];
      k + 1
  }

  /** An index holding `x` with no `x` before it is the first index of `x`. */
  lemma FirstIndexIs<T>(s: seq<T>, x: T, i: nat)
    requires i < |s| && s[i] == x && forall k :: 0 <= k < i ==> s[k] != x
    ensures FirstIndex(s, x) == i
  {
    var j := FirstIndex(s, x);
    forall k | 0 <= k < j ensures s[k] != x {
      assert s[..j][k] == s[k];
    }
  }

  /** Extending a sequence does not move the first occurrence of what its prefix holds. */
  lemma FirstIndexPrefix<T>(s: seq<T>, n: nat, x: T)
    requires n <= |s| && x in s[..n]
    ensures x in s && FirstIndex(s, x) == FirstIndex(s[..n], x)
  {
    var p := s[..n];
    var i := FirstIndex(p, x);
    forall k | 0 <= k < i ensures s[k] != x {
      assert p[..i][k] == s[k];
    }
    FirstIndexIs(s, x, i);
  }

  /** `Dedup` lists the distinct elements in the order of their first occurrences. */
  lemma {:induction false} DedupOrder<T(!new)>(s: seq<T>, a: nat, b: nat)
    requires a < b < |Dedup(s)|
    ensures FirstIndex(s, Dedup(s)[a]) < FirstIndex(s, Dedup(s)[b])
  {
    var n := |s| - 1;
    var p := s[..n];
    var d := Dedup(p);
    if b < |d| {
      assert Dedup(s)[a] == d[a] && Dedup(s)[b] == d[b];
      DedupOrder(p, a, b);
      FirstIndexPrefix(s, n, d[a]);
      FirstIndexPrefix(s, n, d[b]);
    } else {
      var x := s[n];
      assert x !in d && Dedup(s) == d + [x];
      assert Dedup(s)[a] == d[a];
      FirstIndexPrefix(s, n, d[a]);
      forall k | 0 <= k < n ensures s[k] != x {
        assert p[k] == s[k];
      }
      FirstIndexIs(s, x, n);
    }
  }

  /** A duplicate-free sequence holds each value at most once. */
  lemma {:induction false} NoDupCount<T>(a: seq<T>, x: T)
    requires NoDup(a)
    ensures multiset(a)[x] <= 1
  {
    if |a| > 0 {
      assert a == [a[0]] + a[1..];
      assert NoDup(a[1..]) by {
        forall i, j | 0 <= i < j < |a[1..]| ensures a[1..][i] != a[1..][j] {
          assert a[1..][i] == a[i + 1] && a[1..][j] == a[j + 1];
        }
      }
      NoDupCount(a[1..], x);
      if a[0] == x {
        assert x !in a[1..];
      }
    }
  }

  /** Reordering a duplicate-free sequence keeps it duplicate-free. */
  lemma NoDupOfPermutation<T>(a: seq<T>, b: seq<T>)
    requires NoDup(a) && multiset(a) == multiset(b)
    ensures NoDup(b)
  {
    forall i, j | 0 <= i < j < |b| ensures b[i] != b[j] {
      NoDupCount(a, b[i]);
      assert b == b[..j] + b[j..];
      assert b[i] in multiset(b[..j]) && b[j] in multiset(b[j..]);
    }
  }

  /** `list(s)` for a Python set: its elements once each, in an order the model leaves open. */
  method SetToSeq<T>(s: set<T>) returns (r: seq<T>)
    ensures NoDup(r) && forall x :: x in r <==> x in s
  {
    r := [];
    var rest := s;
    while rest != {}
      invariant rest <= s && NoDup(r)
      invariant forall x :: x in r <==> x in s && x !in rest
      decreases |rest|
    {
      var x :| x in rest;
      r := r + [x];
      rest := rest - {x};
    }
  }

  /* ---------- Mapping ---------- */

  /** `f` applied to every element of `s`, in order (`s.map(f)`, a list comprehension). */
  function MapSeq<A, B>(s: seq<A>, f: A -> B): (r: seq<B>)
    ensures |r| == |s| && forall i :: 0 <= i < |s| ==> r[i] == f(s[i])
  {
    if |s| == 0 then [] else MapSeq(s[..|s| - 1], f) + [f(s[|s| - 1])]
  }

  /* ---------- Concatenation of blocks ---------- */

  /** The blocks of `b` one after the other (a list of lists flattened, a fragment of
      fragments rendered). */
  function Flatten<T>(b: seq<seq<T>>): (r: seq<T>)
    decreases |b|
  {
    if |b| == 0 then [] else b[0] + Flatten(b[1..])
  }

  /** Where block `i` starts in `Flatten(b)`: the lengths of the blocks before it. */
  function Start<T>(b: seq<seq<T>>, i: nat): nat
    requires i <= |b|
  {
    if i == 0 then 0 else |b[0]| + Start(b[1..], i - 1)
  }

  lemma {:induction false} FlattenLength<T>(b: seq<seq<T>>)
    ensures |Flatten(b)| == Start(b, |b|)
    decreases |b|
  {
    if |b| > 0 {
      FlattenLength(b[1..]);
    }
  }

  /** Element `k` of block `i` sits at `Start(b, i) + k`. */
  lemma {:induction false} FlattenAt<T>(b: seq<seq<T>>, i: nat, k: nat)
    requires i < |b| && k < |b[i]|
    ensures Start(b, i) + k < |Flatten(b)| && Flatten(b)[Start(b, i) + k] == b[i][k]
    decreases i
  {
    assert Flatten(b) == b[0] + Flatten(b[1..]);
    if i > 0 {
      assert b[1..][i - 1] == b[i];
      FlattenAt(b[1..], i - 1, k);
      var m := Start(b[1..], i - 1) + k;
      assert (b[0] + Flatten(b[1..]))[|b[0]| + m] == Flatten(b[1..])[m];
    }
  }

  /** Every element of `Flatten(b)` is element `k` of some block `i`. */
  lemma {:induction false} FlattenLocate<T>(b: seq<seq<T>>, n: nat) returns (i: nat, k: nat)
    requires n < |Flatten(b)|
    ensures i < |b| && k < |b[i]| && n == Start(b, i) + k && Flatten(b)[n] == b[i][k]
    decreases |b|
  {
    assert Flatten(b) == b[0] + Flatten(b[1..]);
    if n < |b[0]| {
      i, k := 0, n;
    } else {
      var i', k' := FlattenLocate(b[1..], n - |b[0]|);
      assert b[1..][i'] == b[i' + 1];
      i, k := i' + 1, k';
    }
  }

  /* ---------- Filtering ---------- */

  /** The elements of `s` that satisfy `p`, in their order (`s.filter(p)`). */
  function Filter<T(==,!new)>(s: seq<T>, p: T -> bool): (r: seq<T>)
    ensures |r| <= |s|
    ensures forall x :: x in r <==> x in s && p(x)
  {
    if |s| == 0 then [] else (if p(s[0]) then [s[0]] else []) + Filter(s[1..], p)
  }

  /** Filtering keeps distinct elements distinct. */
  lemma {:induction false} FilterNoDup<T(!new)>(s: seq<T>, p: T -> bool)
    requires NoDup(s)
    ensures NoDup(Filter(s, p))
  {
    if |s| > 0 {
      var t := s[1..];
      assert NoDup(t) by {
        forall i, j | 0 <= i < j < |t| ensures t[i] != t[j] {
          assert t[i] == s[i + 1] && t[j] == s[j + 1];
        }
      }
      FilterNoDup(t, p);
      assert s[0] !in t by {
        forall k | 0 <= k < |t| ensures t[k] != s[0] {
          assert t[k] == s[k + 1];
        }
      }
      ConsNoDup(if p(s[0]) then [s[0]] else [], Filter(t, p));
    }
  }

  /** A sequence of at most one element followed by distinct elements that do not include it. */
  lemma ConsNoDup<T>(h: seq<T>, t: seq<T>)
    requires |h| <= 1 && NoDup(t) && (|h| == 1 ==> h[0] !in t)
    ensures NoDup(h + t)
  {
    var r := h + t;
    forall i, j | 0 <= i < j < |r| ensures r[i] != r[j] {
      if |h| == 1 && i == 0 {
        assert r[j] == t[j - 1];
      } else {
        assert r[i] == t[i - |h|] && r[j] == t[j - |h|];
      }
    }
  }

  /** Appending a new element keeps a sequence duplicate-free. */
  lemma SnocNoDup<T>(s: seq<T>, x: T)
    requires NoDup(s) && x !in s
    ensures NoDup(s + [x])
  {
    var r := s + [x];
    forall i, j | 0 <= i < j < |r| ensures r[i] != r[j] {
      if j == |s| {
        assert r[i] == s[i];
      } else {
        assert r[i] == s[i] && r[j] == s[j];
      }
    }
  }

  /** Filtering with a predicate that every element meets changes nothing. */
  lemma {:induction false} FilterAll<T(!new)>(s: seq<T>, p: T -> bool)
    requires forall i :: 0 <= i < |s| ==> p(s[i])
    ensures Filter(s, p) == s
  {
    if |s| > 0 {
      FilterAll(s[1..], p);
    }
  }

  /** Filtering with a predicate that no element meets leaves nothing. */
  lemma {:induction false} FilterNone<T(!new)>(s: seq<T>, p: T -> bool)
    requires forall i :: 0 <= i < |s| ==> !p(s[i])
    ensures Filter(s, p) == []
  {
    if |s| > 0 {
      FilterNone(s[1..], p);
    }
  }

  /** Filtering with a predicate and with its negation splits the elements between the two. */
  lemma {:induction false} FilterPartition<T(!new)>(s: seq<T>, p: T -> bool, q: T -> bool)
    requires forall x :: q(x) == !p(x)
    ensures multiset(Filter(s, p)) + multiset(Filter(s, q)) == multiset(s)
  {
    if |s| > 0 {
      FilterPartition(s[1..], p, q);
      assert s == [s[0]] + s[1..];
    }
  }

  /** Filtering keeps a sequence sorted by a key. */
  lemma {:induction false} FilterSortedBy<T(!new)>(s: seq<T>, p: T -> bool, key: T -> int)
    requires SortedBy(s, key)
    ensures SortedBy(Filter(s, p), key)
  {
    if |s| > 0 {
      FilterSortedBy(s[1..], p, key);
      var rest := Filter(s[1..], p);
      forall y | y in rest ensures key(s[0]) <= key(y) {
        var j :| 0 <= j < |s[1..]| && s[1..][j] == y;
        assert s[j + 1] == y;
      }
    }
  }

  /** The index of the first element that satisfies `p`, or `|s|` when none does
      (`s.findIndex(p)` with -1 read as `|s|`). */
  function FindIndex<T>(s: seq<T>, p: T -> bool): (i: nat)
    ensures i <= |s| && (i < |s| ==> p(s[i]))
    ensures forall j :: 0 <= j < i ==> !p(s[j])
  {
    if |s| == 0 then 0 else if p(s[0]) then 0 else 1 + FindIndex(s[1..], p)
  }

  /** The first element that satisfies `p` (`s.find(p)`), or `None`. */
  function Find<T>(s: seq<T>, p: T -> bool): Wrappers.Option<T> {
    var i := FindIndex(s, p);
    if i < |s| then Wrappers.Some(s[i]) else Wrappers.None
  }

  /** `find` succeeds iff some element satisfies `p`, and then yields the first one. */
  lemma FindFirst<T>(s: seq<T>, p: T -> bool)
    ensures Find(s, p).Some? <==> exists i :: 0 <= i < |s| && p(s[i])
    ensures Find(s, p).Some? ==>
              exists i :: 0 <= i < |s| && p(s[i]) && (forall j :: 0 <= j < i ==> !p(s[j])) &&
                Find(s, p) == Wrappers.Some(s[i])
  {
    var i := FindIndex(s, p);
    if i < |s| {
      assert p(s[i]) && Find(s, p) == Wrappers.Some(s[i]);
    }
  }

  /* ---------- Stable sort by an integer key ---------- */

  predicate SortedBy<T>(s: seq<T>, key: T -> int) {
    forall i, j :: 0 <= i < j < |s| ==> key(s[i]) <= key(s[j])
  }

  /** Inserts `x` after every element whose key is not greater than its own. */
  function InsertBy<T(==)>(x: T, s: seq<T>, key: T -> int): (r: seq<T>)
    requires SortedBy(s, key)
    ensures SortedBy(r, key) && multiset(r) == multiset(s) + multiset{x}
  {
    if |s| == 0 then [x]
    else if key(x) < key(s[0]) then
      SortedByCons(x, s, key);
      [x] + s
    else
      SortedByTail(s, key);
      var rest := InsertBy(x, s[1..], key);
      InsertByStep(x, s, rest, key);
      [s[0]] + rest
  }

  /** A sorted list with its head removed is still sorted. */
  lemma SortedByTail<T>(s: seq<T>, key: T -> int)
    requires SortedBy(s, key) && |s| > 0
    ensures SortedBy(s[1..], key)
  {
    var t := s[1..];
    forall i, j | 0 <= i < j < |t| ensures key(t[i]) <= key(t[j]) {
      assert t[i] == s[i + 1] && t[j] == s[j + 1];
    }
  }

  /** The head stays in front when `x` goes into the tail. */
  lemma InsertByStep<T>(x: T, s: seq<T>, rest: seq<T>, key: T -> int)
    requires |s| > 0 && SortedBy(s, key) && key(s[0]) <= key(x)
    requires SortedBy(rest, key) && multiset(rest) == multiset(s[1..]) + multiset{x}
    ensures SortedBy([s[0]] + rest, key) && multiset([s[0]] + rest) == multiset(s) + multiset{x}
  {
    MultisetTail(s);
    forall y | y in rest ensures key(s[0]) <= key(y) {
      assert y in multiset(rest);
      if y != x {
        assert y in multiset(s[1..]);
        var k :| 0 <= k < |s[1..]| && s[1..][k] == y;
        assert s[k + 1] == y;
      }
    }
    SortedByCons(s[0], rest, key);
  }

  /** Putting in front an element whose key is not greater than any other keeps a list sorted. */
  lemma SortedByCons<T>(x: T, s: seq<T>, key: T -> int)
    requires SortedBy(s, key) && forall y :: y in s ==> key(x) <= key(y)
    ensures SortedBy([x] + s, key)
  {
    var r := [x] + s;
    forall i, j | 0 <= i < j < |r| ensures key(r[i]) <= key(r[j]) {
      assert r[j] == s[j - 1];
      if i > 0 {
        assert r[i] == s[i - 1];
      } else {
        assert s[j - 1] in s;
      }
    }
  }

  /** A stable sort by ascending key (JavaScript's `sort` with comparator `key(a) - key(b)`);
      `SortByStable` proves the stability. */
  function SortBy<T(==)>(s: seq<T>, key: T -> int): (r: seq<T>)
    ensures SortedBy(r, key) && multiset(r) == multiset(s)
  {
    if |s| == 0 then []
    else
      assert s == s[..|s| - 1] + [s[|s| - 1]];
      InsertBy(s[|s| - 1], SortBy(s[..|s| - 1], key), key)
  }

  /** The elements of `s` whose key is `k`, in their order in `s`. */
  function WithKey<T>(s: seq<T>, key: T -> int, k: int): seq<T> {
    if |s| == 0 then [] else (if key(s[0]) == k then [s[0]] else []) + WithKey(s[1..], key, k)
  }

  lemma {:induction false} WithKeyConcat<T>(a: seq<T>, b: seq<T>, key: T -> int, k: int)
    ensures WithKey(a + b, key, k) == WithKey(a, key, k) + WithKey(b, key, k)
    decreases |a|
  {
    if |a| == 0 {
      assert a + b == b;
    } else {
      var h := if key(a[0]) == k then [a[0]] else [];
      assert (a + b)[0] == a[0] && (a + b)[1..] == a[1..] + b;
      assert WithKey(a + b, key, k) == h + WithKey(a[1..] + b, key, k);
      WithKeyConcat(a[1..], b, key, k);
      assert h + (WithKey(a[1..], key, k) + WithKey(b, key, k))
          == (h + WithKey(a[1..], key, k)) + WithKey(b, key, k);
    }
  }

  /** No element of a list sorted from a key above `k` has key `k`. */
  lemma {:induction false} WithKeyAbove<T>(s: seq<T>, key: T -> int, k: int)
    requires SortedBy(s, key) && |s| > 0 && k < key(s[0])
    ensures WithKey(s, key, k) == []
    decreases |s|
  {
    if |s| > 1 {
      SortedByTail(s, key);
      WithKeyAbove(s[1..], key, k);
    }
  }

  /** Inserting `x` puts it after every element of its own key. */
  lemma {:induction false} InsertByWithKey<T>(x: T, s: seq<T>, key: T -> int, k: int)
    requires SortedBy(s, key)
    ensures WithKey(InsertBy(x, s, key), key, k) == WithKey(s, key, k) + WithKey([x], key, k)
    decreases |s|
  {
    if |s| == 0 {
    } else if key(x) < key(s[0]) {
      assert ([x] + s)[1..] == s;
      if key(x) == k {
        WithKeyAbove(s, key, k);
      }
    } else {
      SortedByTail(s, key);
      var rest := InsertBy(x, s[1..], key);
      assert InsertBy(x, s, key) == [s[0]] + rest;
      var h := if key(s[0]) == k then [s[0]] else [];
      var tx := WithKey([x], key, k);
      InsertByWithKey(x, s[1..], key, k);
      assert ([s[0]] + rest)[0] == s[0] && ([s[0]] + rest)[1..] == rest;
      assert WithKey([s[0]] + rest, key, k) == h + WithKey(rest, key, k);
      assert WithKey(s, key, k) == h + WithKey(s[1..], key, k);
      assert h + (WithKey(s[1..], key, k) + tx) == (h + WithKey(s[1..], key, k)) + tx;
    }
  }

  /** `SortBy` is stable: the elements of each key keep their relative order. */
  lemma {:induction false} SortByStable<T>(s: seq<T>, key: T -> int, k: int)
    ensures WithKey(SortBy(s, key), key, k) == WithKey(s, key, k)
    decreases |s|
  {
    if |s| > 0 {
      var init, x := s[..|s| - 1], s[|s| - 1];
      SortByStable(init, key, k);
      InsertByWithKey(x, SortBy(init, key), key, k);
      assert s == init + [x];
      WithKeyConcat(init, [x], key, k);
    }
  }

  /* ---------- Python's sorted() on strings ---------- */

  predicate SortedStrings(s: seq<string>) {
    forall i, j :: 0 <= i < j < |s| ==> LexLe(s[i], s[j])
  }

  function InsertString(x: string, s: seq<string>): (r: seq<string>)
    requires SortedStrings(s)
    ensures SortedStrings(r) && multiset(r) == multiset(s) + multiset{x}
  {
    if |s| == 0 then [x]
    else if LexLe(x, s[0]) then
      forall y | y in s ensures LexLe(x, y) {
        SortedHeadLeast(s, y);
        LexLeTrans(x, s[0], y);
      }
      SortedStringsCons(x, s);
      [x] + s
    else
      SortedStringsTail(s);
      var rest := InsertString(x, s[1..]);
      LexLeTotal(x, s[0]);
      InsertStringStep(x, s, rest);
      [s[0]] + rest
  }

  /** The head stays in front when `x` goes into the tail. */
  lemma InsertStringStep(x: string, s: seq<string>, rest: seq<string>)
    requires |s| > 0 && SortedStrings(s) && LexLe(s[0], x)
    requires SortedStrings(rest) && multiset(rest) == multiset(s[1..]) + multiset{x}
    ensures SortedStrings([s[0]] + rest) && multiset([s[0]] + rest) == multiset(s) + multiset{x}
  {
    MultisetTail(s);
    forall y | y in rest ensures LexLe(s[0], y) {
      assert y in multiset(rest);
      if y != x {
        assert y in multiset(s[1..]);
        SortedTailLeast(s, y);
      }
    }
    SortedStringsCons(s[0], rest);
  }

  /** Putting in front an element not greater than any other keeps a list sorted. */
  lemma SortedStringsCons(x: string, s: seq<string>)
    requires SortedStrings(s) && forall y :: y in s ==> LexLe(x, y)
    ensures SortedStrings([x] + s)
  {
    var r := [x] + s;
    forall i, j | 0 <= i < j < |r| ensures LexLe(r[i], r[j]) {
      assert r[j] == s[j - 1];
      if i > 0 {
        assert r[i] == s[i - 1];
      } else {
        assert s[j - 1] in s;
      }
    }
  }

  /** The head of a sorted list is not greater than the elements of its tail. */
  lemma SortedTailLeast(s: seq<string>, y: string)
    requires SortedStrings(s) && |s| > 0 && y in s[1..]
    ensures LexLe(s[0], y)
  {
    var k :| 0 <= k < |s[1..]| && s[1..][k] == y;
    assert s[k + 1] == y;
  }

  /** Taking off the head takes one copy of it out of the multiset. */
  lemma MultisetTail<T>(a: seq<T>)
    requires |a| > 0
    ensures multiset(a[1..]) == multiset(a) - multiset{a[0]}
    ensures a == [a[0]] + a[1..]
  {
    assert a == [a[0]] + a[1..];
  }

  /** `sorted(xs)` on a list of strings. */
  function SortStrings(s: seq<string>): (r: seq<string>)
    ensures SortedStrings(r) && multiset(r) == multiset(s)
  {
    if |s| == 0 then []
    else
      assert s == s[..|s| - 1] + [s[|s| - 1]];
      InsertString(s[|s| - 1], SortStrings(s[..|s| - 1]))
  }

  /** The head of a sorted list is not greater than any of its elements. */
  lemma SortedHeadLeast(a: seq<string>, x: string)
    requires SortedStrings(a) && x in a
    ensures LexLe(a[0], x)
  {
    if a[0] == x {
      LexLeRefl(x);
    }
  }

  /** A sorted list of strings is determined by its multiset: the order in which the elements
      were gathered does not show in the result. */
  lemma {:induction false} SortedStringsUnique(a: seq<string>, b: seq<string>)
    requires SortedStrings(a) && SortedStrings(b) && multiset(a) == multiset(b)
    ensures a == b
    decreases |a|
  {
    assert |a| == |multiset(a)| && |b| == |multiset(b)|;
    if |a| > 0 {
      assert a[0] in multiset(b) && b[0] in multiset(a);
      SortedHeadLeast(b, a[0]);
      SortedHeadLeast(a, b[0]);
      LexLeAntisym(a[0], b[0]);
      MultisetTail(a);
      MultisetTail(b);
      SortedStringsTail(a);
      SortedStringsTail(b);
      SortedStringsUnique(a[1..], b[1..]);
    }
  }

  lemma SortedStringsTail(a: seq<string>)
    requires SortedStrings(a) && |a| > 0
    ensures SortedStrings(a[1..])
  {
    var t := a[1..];
    forall i, j | 0 <= i < j < |t| ensures LexLe(t[i], t[j]) {
      assert t[i] == a[i + 1] && t[j] == a[j + 1];
    }
  }
}
