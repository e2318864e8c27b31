/** Sorting by a comparison, rearrangements, and the order Go gives to strings. */
module Sequences {

  ghost predicate TotalPreorder<T(!new)>(le: (T, T) -> bool) {
    && (forall a, b :: le(a, b) || le(b, a))
    && (forall a, b, c :: le(a, b) && le(b, c) ==> le(a, c))
  }

  ghost predicate TotalOrder<T(!new)>(le: (T, T) -> bool) {
    && TotalPreorder(le)
    && (forall a, b :: le(a, b) && le(b, a) ==> a == b)
  }

  ghost predicate SortedBy<T>(le: (T, T) -> bool, s: seq<T>) {
    forall i, j :: 0 <= i < j < |s| ==> le(s[i], s[j])
  }

  function Insert<T>(le: (T, T) -> bool, x: T, s: seq<T>): seq<T> {
    if s == [] then [x]
    else if le(x, s[0]) then [x] + s
    else [s[0]] + Insert(le, x, s[1..])
  }

  /** Stable: equal elements keep their order. */
  function Sort<T>(le: (T, T) -> bool, s: seq<T>): seq<T> {
    if s == [] then [] else Insert(le, s[0], Sort(le, s[1..]))
  }

  lemma {:induction false} InsertPermutes<T>(le: (T, T) -> bool, x: T, s: seq<T>)
    ensures multiset(Insert(le, x, s)) == multiset(s) + multiset{x}
  {
    if s != [] {
      MultisetOfTail(s);
      if !le(x, s[0]) {
        InsertPermutes(le, x, s[1..]);
      }
    }
  }

  lemma {:induction false} SortPermutes<T>(le: (T, T) -> bool, s: seq<T>)
    ensures multiset(Sort(le, s)) == multiset(s)
    ensures |Sort(le, s)| == |s|
  {
    if s != [] {
      SortPermutes(le, s[1..]);
      InsertPermutes(le, s[0], Sort(le, s[1..]));
      MultisetOfTail(s);
    }
    assert |Sort(le, s)| == |multiset(Sort(le, s))| == |multiset(s)|;
  }

  lemma {:induction false} InsertKeepsSorted<T(!new)>(le: (T, T) -> bool, x: T, s: seq<T>)
    requires TotalPreorder(le) && SortedBy(le, s)
    ensures SortedBy(le, Insert(le, x, s))
  {
    if s != [] && !le(x, s[0]) {
      InsertKeepsSorted(le, x, s[1..]);
      InsertPermutes(le, x, s[1..]);
      var r := Insert(le, x, s[1..]);
      forall j | 0 <= j < |r|
        ensures le(s[0], r[j])
      {
        assert r[j] in multiset(s[1..]) + multiset{x};
      }
    }
  }

  lemma {:induction false} SortSorts<T(!new)>(le: (T, T) -> bool, s: seq<T>)
    requires TotalPreorder(le)
    ensures SortedBy(le, Sort(le, s))
  {
    if s != [] {
      SortSorts(le, s[1..]);
      InsertKeepsSorted(le, s[0], Sort(le, s[1..]));
    }
  }

  ghost predicate Increasing(s: seq<nat>) {
    forall i, j :: 0 <= i < j < |s| ==> s[i] < s[j]
  }

  ghost predicate Distinct<T>(s: seq<T>) {
    forall i, j :: 0 <= i < j < |s| ==> s[i] != s[j]
  }

  lemma {:induction false} DistinctFits<T>(s: seq<T>, pool: set<T>)
    requires Distinct(s) && forall i :: 0 <= i < |s| ==> s[i] in pool
    ensures |s| <= |pool|
  {
    if s != [] {
      var init, last := s[..|s| - 1], s[|s| - 1];
      DistinctFits(init, pool - {last});
    }
  }

  lemma Pigeonhole<T>(s: seq<T>, pool: set<T>)
    requires |s| > |pool| && forall i :: 0 <= i < |s| ==> s[i] in pool
    ensures exists i, j :: 0 <= i < j < |s| && s[i] == s[j]
  {
    if Distinct(s) {
      DistinctFits(s, pool);
    }
  }

  lemma {:induction false} FreshId(ids: set<nat>) returns (id: nat)
    ensures forall x :: x in ids ==> x < id
  {
    if ids == {} {
      id := 0;
    } else {
      var y :| y in ids;
      var rest := FreshId(ids - {y});
      id := if y < rest then rest else y + 1;
      assert forall x :: x in ids ==> x == y || x in ids - {y};
    }
  }

  lemma {:induction false} InsertKeepsDistinct<T>(le: (T, T) -> bool, x: T, s: seq<T>)
    requires Distinct(s) && x !in s
    ensures Distinct(Insert(le, x, s))
  {
    if s != [] && !le(x, s[0]) {
      InsertKeepsDistinct(le, x, s[1..]);
      InsertPermutes(le, x, s[1..]);
      var r := Insert(le, x, s[1..]);
      forall j | 0 <= j < |r| ensures r[j] != s[0] {
        assert r[j] in multiset(s[1..]) + multiset{x};
      }
    }
  }

  lemma {:induction false} SortKeepsDistinct<T>(le: (T, T) -> bool, s: seq<T>)
    requires Distinct(s)
    ensures Distinct(Sort(le, s))
  {
    if s != [] {
      SortKeepsDistinct(le, s[1..]);
      SortPermutes(le, s[1..]);
      assert s[0] !in multiset(Sort(le, s[1..]));
      InsertKeepsDistinct(le, s[0], Sort(le, s[1..]));
    }
  }

  lemma MultisetOfTail<T>(s: seq<T>)
    requires s != []
    ensures s[0] in multiset(s) && multiset(s[1..]) == multiset(s) - multiset{s[0]}
  {
    assert s == [s[0]] + s[1..];
  }

  lemma FirstIsLeast<T(!new)>(le: (T, T) -> bool, s: seq<T>, x: T)
    requires TotalPreorder(le) && SortedBy(le, s) && x in multiset(s)
    ensures le(s[0], x)
  {
  }

  /** Whatever algorithm is used, a total order leaves one sorted arrangement. */
  lemma {:induction false} SortedIsUnique<T(!new)>(le: (T, T) -> bool, a: seq<T>, b: seq<T>)
    requires TotalOrder(le) && SortedBy(le, a) && SortedBy(le, b)
    requires multiset(a) == multiset(b)
    ensures a == b
  {
    assert |a| == |multiset(a)| == |multiset(b)| == |b|;
    if a != [] {
      MultisetOfTail(a);
      MultisetOfTail(b);
      FirstIsLeast(le, a, b[0]);
      FirstIsLeast(le, b, a[0]);
      SortedIsUnique(le, a[1..], b[1..]);
    }
  }

  lemma SortIgnoresOrder<T(!new)>(le: (T, T) -> bool, a: seq<T>, b: seq<T>)
    requires TotalOrder(le) && multiset(a) == multiset(b)
    ensures Sort(le, a) == Sort(le, b)
  {
    SortSorts(le, a);
    SortSorts(le, b);
    SortPermutes(le, a);
    SortPermutes(le, b);
    SortedIsUnique(le, Sort(le, a), Sort(le, b));
  }

  function FlatMap<T, U>(f: T -> seq<U>, s: seq<T>): seq<U> {
    if s == [] then [] else f(s[0]) + FlatMap(f, s[1..])
  }

  lemma ConcatAssociates<T>(a: seq<T>, b: seq<T>, c: seq<T>)
    ensures a + (b + c) == a + b + c
  {
  }

  lemma {:induction false} FlatMapConcat<T, U>(f: T -> seq<U>, a: seq<T>, b: seq<T>)
    ensures FlatMap(f, a + b) == FlatMap(f, a) + FlatMap(f, b)
  {
    if a == [] {
      assert a + b == b;
    } else {
      FlatMapConcat(f, a[1..], b);
      assert (a + b)[0] == a[0] && (a + b)[1..] == a[1..] + b;
      ConcatAssociates(f(a[0]), FlatMap(f, a[1..]), FlatMap(f, b));
    }
  }

  lemma FlatMapOne<T, U>(f: T -> seq<U>, x: T)
    ensures FlatMap(f, [x]) == f(x)
  {
  }

  lemma FlatMapMiddle<T, U>(f: T -> seq<U>, a: seq<T>, x: T, b: seq<T>)
    ensures FlatMap(f, a + ([x] + b)) == FlatMap(f, a) + (f(x) + FlatMap(f, b))
  {
    FlatMapConcat(f, a, [x] + b);
    assert ([x] + b)[1..] == b;
  }

  lemma {:induction false} FlatMapRemove<T, U>(f: T -> seq<U>, s: seq<T>, k: nat)
    requires k < |s|
    ensures multiset(FlatMap(f, s)) == multiset(FlatMap(f, s[..k] + s[k + 1..])) + multiset(f(s[k]))
  {
    var rest := s[..k] + s[k + 1..];
    if k == 0 {
      assert rest == s[1..];
    } else {
      FlatMapRemove(f, s[1..], k - 1);
      assert rest[1..] == s[1..][..k - 1] + s[1..][k..];
    }
  }

  lemma MultisetRemove<T>(s: seq<T>, k: nat)
    requires k < |s|
    ensures multiset(s[..k] + s[k + 1..]) == multiset(s) - multiset{s[k]}
  {
    assert s == s[..k] + [s[k]] + s[k + 1..];
  }

  /** Rearranging the input rearranges the output. */
  lemma {:induction false} FlatMapPermutes<T, U>(f: T -> seq<U>, a: seq<T>, b: seq<T>)
    requires multiset(a) == multiset(b)
    ensures multiset(FlatMap(f, a)) == multiset(FlatMap(f, b))
  {
    assert |a| == |multiset(a)| == |multiset(b)| == |b|;
    if a != [] {
      MultisetOfTail(a);
      var k :| 0 <= k < |b| && b[k] == a[0];
      var rest := b[..k] + b[k + 1..];
      MultisetRemove(b, k);
      FlatMapPermutes(f, a[1..], rest);
      FlatMapRemove(f, b, k);
    }
  }

  /** The elements from `from` on, except those at `a` and `b`. */
  function Keep<T>(s: seq<T>, a: int, b: int, from: nat): seq<T>
    requires from <= |s|
    decreases |s| - from
  {
    if from == |s| then []
    else if from == a || from == b then Keep(s, a, b, from + 1)
    else [s[from]] + Keep(s, a, b, from + 1)
  }

  /** The positions below `n` that are kept, from `from` on. */
  function KeptAt(n: nat, a: int, b: int, from: nat): (at: seq<nat>)
    requires from <= n
    ensures forall k :: 0 <= k < |at| ==> from <= at[k] < n && at[k] != a && at[k] != b
    decreases n - from
  {
    if from == n then []
    else if from == a || from == b then KeptAt(n, a, b, from + 1)
    else [from] + KeptAt(n, a, b, from + 1)
  }

  lemma {:induction false} KeptAtIncreases(n: nat, a: int, b: int, from: nat)
    requires from <= n
    ensures Increasing(KeptAt(n, a, b, from))
    decreases n - from
  {
    if from < n {
      KeptAtIncreases(n, a, b, from + 1);
    }
  }

  lemma {:induction false} KeepIsKeptAt<T>(s: seq<T>, a: int, b: int, from: nat)
    requires from <= |s|
    ensures |Keep(s, a, b, from)| == |KeptAt(|s|, a, b, from)|
    ensures forall k :: 0 <= k < |Keep(s, a, b, from)| ==> Keep(s, a, b, from)[k] == s[KeptAt(|s|, a, b, from)[k]]
    decreases |s| - from
  {
    if from < |s| {
      KeepIsKeptAt(s, a, b, from + 1);
    }
  }

  lemma {:induction false} KeepAll<T>(s: seq<T>, a: int, b: int, from: nat)
    requires from <= |s| && a < from && b < from
    ensures Keep(s, a, b, from) == s[from..]
    decreases |s| - from
  {
    if from < |s| {
      KeepAll(s, a, b, from + 1);
      assert s[from..] == [s[from]] + s[from + 1..];
    }
  }

  lemma {:induction false} KeepAllButOne<T>(s: seq<T>, a: int, b: int, from: nat)
    requires from <= b < |s| && (a < from || a == b)
    ensures multiset(Keep(s, a, b, from)) + multiset{s[b]} == multiset(s[from..])
    decreases |s| - from
  {
    assert s[from..] == [s[from]] + s[from + 1..];
    if from == b {
      KeepAll(s, a, b, from + 1);
    } else {
      KeepAllButOne(s, a, b, from + 1);
    }
  }

  lemma {:induction false} KeepAllButTwo<T>(s: seq<T>, a: int, b: int, from: nat)
    requires from <= a < b < |s|
    ensures multiset(Keep(s, a, b, from)) + multiset{s[a]} + multiset{s[b]} == multiset(s[from..])
    decreases |s| - from
  {
    assert s[from..] == [s[from]] + s[from + 1..];
    if from == a {
      KeepAllButOne(s, a, b, from + 1);
    } else {
      KeepAllButTwo(s, a, b, from + 1);
    }
  }

  lemma KeepSwap<T>(s: seq<T>, a: int, b: int, from: nat)
    requires from <= |s|
    ensures Keep(s, a, b, from) == Keep(s, b, a, from)
    decreases |s| - from
  {
  }

  predicate LexLe(a: string, b: string) {
    if a == [] then true
    else if b == [] then false
    else if a[0] == b[0] then LexLe(a[1..], b[1..])
    else a[0] < b[0]
  }

  /** The strings agree up to position `k`, where `a` has ended or has the smaller character. */
  predicate DifferAt(a: string, b: string, k: nat) {
    k <= |a| && k < |b| && a[..k] == b[..k] && (k == |a| || a[k] < b[k])
  }

  ghost predicate Precedes(a: string, b: string) {
    exists k :: DifferAt(a, b, k)
  }

  lemma {:induction false} LessDiffers(a: string, b: string) returns (k: nat)
    requires LexLe(a, b) && a != b
    ensures DifferAt(a, b, k)
  {
    k := 0;
    if a != [] && a[0] == b[0] {
      assert a == [a[0]] + a[1..] && b == [b[0]] + b[1..];
      k := LessDiffers(a[1..], b[1..]);
      k := k + 1;
      assert a[..k] == [a[0]] + a[1..][..k - 1] && b[..k] == [b[0]] + b[1..][..k - 1];
    }
  }

  lemma {:induction false} DifferingIsLess(a: string, b: string, k: nat)
    requires DifferAt(a, b, k)
    ensures LexLe(a, b) && a != b
  {
    if k > 0 {
      assert a[0] == a[..k][0] == b[..k][0] == b[0];
      assert a[1..][..k - 1] == a[..k][1..] && b[1..][..k - 1] == b[..k][1..];
      DifferingIsLess(a[1..], b[1..], k - 1);
    }
  }

  /** The order is decided by the first difference. */
  lemma LexIsFirstDifference(a: string, b: string)
    ensures LexLe(a, b) && a != b <==> Precedes(a, b)
  {
    if LexLe(a, b) && a != b {
      var k := LessDiffers(a, b);
    }
    if k: nat :| DifferAt(a, b, k) {
      DifferingIsLess(a, b, k);
    }
  }

  lemma {:induction false} LexTotal(a: string, b: string)
    ensures LexLe(a, b) || LexLe(b, a)
    ensures LexLe(a, b) && LexLe(b, a) ==> a == b
  {
    if a != [] && b != [] && a[0] == b[0] {
      LexTotal(a[1..], b[1..]);
      assert a == [a[0]] + a[1..] && b == [b[0]] + b[1..];
    }
  }

  lemma {:induction false} LexTransitive(a: string, b: string, c: string)
    requires LexLe(a, b) && LexLe(b, c)
    ensures LexLe(a, c)
  {
    if a != [] && b != [] && c != [] && a[0] == b[0] == c[0] {
      LexTransitive(a[1..], b[1..], c[1..]);
    }
  }

  lemma LexIsTotalOrder()
    ensures TotalOrder(LexLe)
  {
    forall a, b ensures LexLe(a, b) || LexLe(b, a) {
      LexTotal(a, b);
    }
    forall a, b | LexLe(a, b) && LexLe(b, a) ensures a == b {
      LexTotal(a, b);
    }
    forall a, b, c | LexLe(a, b) && LexLe(b, c) ensures LexLe(a, c) {
      LexTransitive(a, b, c);
    }
  }
}
