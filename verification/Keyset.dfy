/** Sort keys of the history tables and the algebra of sorted key lists.

    Every paged query of the account API orders by `(created_at DESC, id DESC)`.  A `Key`
    is that pair; `created_at` is counted in microseconds, the resolution of a database
    timestamp, and `id` is the UUID read as a 128-bit number.  The lists below are newest
    first, and the order on keys is total, so a sorted list is determined by its elements. */
module Keyset {

  datatype Key = Key(ts: int, id: nat)

  /** `a` comes strictly before `b` in a newest-first list: SQL's `(b.ts, b.id) < (a.ts, a.id)`. */
  predicate Before(a: Key, b: Key) {
    a.ts > b.ts || (a.ts == b.ts && a.id > b.id)
  }

  predicate NotAfter(a: Key, b: Key) {
    a == b || Before(a, b)
  }

  ghost predicate Sorted(s: seq<Key>) {
    forall i, j | 0 <= i < j < |s| :: NotAfter(s[i], s[j])
  }

  ghost predicate Descending(s: seq<Key>) {
    forall i, j | 0 <= i < j < |s| :: Before(s[i], s[j])
  }

  function Take<T>(s: seq<T>, n: nat): seq<T> {
    if n <= |s| then s[..n] else s
  }

  function Drop<T>(s: seq<T>, n: nat): seq<T> {
    if n <= |s| then s[n..] else []
  }

  /** Merge of two newest-first lists. */
  function Merge(a: seq<Key>, b: seq<Key>): seq<Key>
    decreases |a| + |b|
  {
    if a == [] then b
    else if b == [] then a
    else if NotAfter(a[0], b[0]) then [a[0]] + Merge(a[1..], b)
    else [b[0]] + Merge(a, b[1..])
  }

  function Sort(s: seq<Key>): seq<Key> {
    if s == [] then [] else Merge([s[0]], Sort(s[1..]))
  }

  lemma {:induction false} MergeElements(a: seq<Key>, b: seq<Key>)
    ensures multiset(Merge(a, b)) == multiset(a) + multiset(b)
    decreases |a| + |b|
  {
    if a != [] && b != [] {
      assert a == [a[0]] + a[1..] && b == [b[0]] + b[1..];
      if NotAfter(a[0], b[0]) {
        MergeElements(a[1..], b);
      } else {
        MergeElements(a, b[1..]);
      }
    }
  }

  lemma {:induction false} SortedCons(h: Key, t: seq<Key>)
    requires Sorted(t)
    requires forall k | k in t :: NotAfter(h, k)
    ensures Sorted([h] + t)
  {
  }

  lemma {:induction false} SortedHead(s: seq<Key>)
    requires Sorted(s) && s != []
    ensures Sorted(s[1..])
    ensures forall k | k in s :: NotAfter(s[0], k)
  {
  }

  lemma {:induction false} MergeMember(a: seq<Key>, b: seq<Key>, k: Key)
    ensures k in Merge(a, b) <==> k in a || k in b
  {
    MergeElements(a, b);
    assert k in Merge(a, b) <==> k in multiset(Merge(a, b));
    assert k in a <==> k in multiset(a);
    assert k in b <==> k in multiset(b);
  }

  lemma {:induction false} MergeSorted(a: seq<Key>, b: seq<Key>)
    requires Sorted(a) && Sorted(b)
    ensures Sorted(Merge(a, b))
    decreases |a| + |b|
  {
    if a != [] && b != [] {
      SortedHead(a);
      SortedHead(b);
      var (h, p, q) := if NotAfter(a[0], b[0]) then (a[0], a[1..], b) else (b[0], a, b[1..]);
      MergeSorted(p, q);
      forall k | k in Merge(p, q)
        ensures NotAfter(h, k)
      {
        MergeMember(p, q, k);
        if k in a { TransNotAfter(h, a[0], k); } else { TransNotAfter(h, b[0], k); }
      }
      SortedCons(h, Merge(p, q));
    }
  }

  lemma {:induction false} TransNotAfter(x: Key, y: Key, z: Key)
    requires NotAfter(x, y) && NotAfter(y, z)
    ensures NotAfter(x, z)
  {
  }

  lemma {:induction false} SortCorrect(s: seq<Key>)
    ensures Sorted(Sort(s)) && multiset(Sort(s)) == multiset(s) && |Sort(s)| == |s|
  {
    if s != [] {
      SortCorrect(s[1..]);
      MergeSorted([s[0]], Sort(s[1..]));
      MergeElements([s[0]], Sort(s[1..]));
      assert s == [s[0]] + s[1..];
    }
    assert |multiset(Sort(s))| == |multiset(s)|;
  }

  /** A sorted list is determined by its elements. */
  lemma {:induction false} SortedUnique(a: seq<Key>, b: seq<Key>)
    requires Sorted(a) && Sorted(b) && multiset(a) == multiset(b)
    ensures a == b
  {
    assert |a| == |multiset(a)| == |multiset(b)| == |b|;
    if a != [] {
      SameHead(a, b);
      SortedHead(a);
      SortedHead(b);
      TailElements(a);
      TailElements(b);
      SortedUnique(a[1..], b[1..]);
    }
  }

  lemma {:induction false} SameHead(a: seq<Key>, b: seq<Key>)
    requires Sorted(a) && Sorted(b) && multiset(a) == multiset(b) && a != [] && b != []
    ensures a[0] == b[0]
  {
    assert a[0] in multiset(a) && b[0] in multiset(b);
    assert a[0] in b && b[0] in a;
    SortedHead(a);
    SortedHead(b);
  }

  lemma {:induction false} TailElements<T>(s: seq<T>)
    requires s != []
    ensures multiset(s[1..]) == multiset(s) - multiset{s[0]}
  {
    assert s == [s[0]] + s[1..];
  }

  /** Sorting a concatenation is merging the sorted parts. */
  lemma {:induction false} SortConcat(a: seq<Key>, b: seq<Key>)
    ensures Sort(a + b) == Merge(Sort(a), Sort(b))
  {
    SortCorrect(a);
    SortCorrect(b);
    SortCorrect(a + b);
    MergeSorted(Sort(a), Sort(b));
    MergeElements(Sort(a), Sort(b));
    SortedUnique(Sort(a + b), Merge(Sort(a), Sort(b)));
  }

  /** The first `n` of a merge need no more than the first `n` of each side. */
  lemma {:induction false} TakeMerge(a: seq<Key>, b: seq<Key>, n: nat, p: nat, q: nat)
    requires n <= p && n <= q
    ensures Take(Merge(a, b), n) == Take(Merge(Take(a, p), Take(b, q)), n)
    decreases n
  {
    hide Take;
    MergeUnfold(a, b);
    MergeUnfold(Take(a, p), Take(b, q));
    hide Merge;
    TakeFirst(a, p);
    TakeFirst(b, q);
    var (a', b') := (Take(a, p), Take(b, q));
    if n == 0 {
      TakeFirst(Merge(a, b), 0);
      TakeFirst(Merge(a', b'), 0);
    } else if a == [] {
      TakeTake(b, n, q);
    } else if b == [] {
      TakeTake(a, n, p);
    } else if NotAfter(a[0], b[0]) {
      TakeMerge(a[1..], b, n - 1, p - 1, q);
      TakeCons(a[0], Merge(a[1..], b), n);
      TakeCons(a[0], Merge(a'[1..], b'), n);
    } else {
      TakeMerge(a, b[1..], n - 1, p, q - 1);
      TakeCons(b[0], Merge(a, b[1..]), n);
      TakeCons(b[0], Merge(a', b'[1..]), n);
    }
  }

  lemma {:induction false} MergeUnfold(a: seq<Key>, b: seq<Key>)
    ensures a == [] ==> Merge(a, b) == b
    ensures b == [] ==> Merge(a, b) == a
    ensures a != [] && b != [] && NotAfter(a[0], b[0]) ==> Merge(a, b) == [a[0]] + Merge(a[1..], b)
    ensures a != [] && b != [] && !NotAfter(a[0], b[0]) ==> Merge(a, b) == [b[0]] + Merge(a, b[1..])
  {
  }

  lemma {:induction false} TakeFirst<T>(s: seq<T>, n: nat)
    ensures n == 0 || s == [] ==> Take(s, n) == []
    ensures n > 0 && s != [] ==> Take(s, n) != [] && Take(s, n)[0] == s[0] && Take(s, n)[1..] == Take(s[1..], n - 1)
  {
  }

  lemma {:induction false} TakeTake<T>(s: seq<T>, n: nat, p: nat)
    requires n <= p
    ensures Take(Take(s, p), n) == Take(s, n)
  {
  }

  lemma {:induction false} TakeCons<T>(x: T, s: seq<T>, n: nat)
    requires n > 0
    ensures Take([x] + s, n) == [x] + Take(s, n - 1)
  {
  }

  lemma {:induction false} SortedFixed(s: seq<Key>)
    requires Sorted(s)
    ensures Sort(s) == s
  {
    SortCorrect(s);
    SortedUnique(Sort(s), s);
  }

  /** The first `n` of a union depend only on the first `n` of its parts. */
  lemma {:induction false} TopCongruence(a: seq<Key>, b: seq<Key>, x: seq<Key>, y: seq<Key>, n: nat)
    requires Take(Sort(a), n) == Take(Sort(x), n) && Take(Sort(b), n) == Take(Sort(y), n)
    ensures Take(Sort(a + b), n) == Take(Sort(x + y), n)
  {
    SortConcat(a, b);
    SortConcat(x, y);
    TakeMerge(Sort(a), Sort(b), n, n, n);
    TakeMerge(Sort(x), Sort(y), n, n, n);
  }

  lemma {:induction false} TopOfTop(a: seq<Key>, n: nat, p: nat)
    requires n <= p
    ensures Take(Sort(Take(Sort(a), p)), n) == Take(Sort(a), n)
  {
    SortCorrect(a);
    SortedFixed(Take(Sort(a), p));
    TakeTake(Sort(a), n, p);
  }

  function Map<A, B>(f: A -> B, s: seq<A>): (t: seq<B>)
    ensures |t| == |s|
    ensures forall i | 0 <= i < |s| :: t[i] == f(s[i])
  {
    seq(|s|, i requires 0 <= i < |s| => f(s[i]))
  }

  function Without<T>(s: seq<T>, j: nat): seq<T>
    requires j < |s|
  {
    s[..j] + s[j + 1..]
  }

  lemma {:induction false} WithoutElements<T>(s: seq<T>, j: nat)
    requires j < |s|
    ensures multiset(s) == multiset(Without(s, j)) + multiset{s[j]}
  {
    assert s == s[..j] + [s[j]] + s[j + 1..];
  }

  lemma {:induction false} MapWithout<A, B>(f: A -> B, s: seq<A>, j: nat)
    requires j < |s|
    ensures Map(f, Without(s, j)) == Without(Map(f, s), j)
  {
  }

  /** Mapping respects rearrangement. */
  lemma {:induction false} MapPermutation<A, B>(f: A -> B, a: seq<A>, b: seq<A>)
    requires multiset(a) == multiset(b)
    ensures multiset(Map(f, a)) == multiset(Map(f, b))
  {
    MapSubset(f, a, b);
    MapSubset(f, b, a);
  }

  lemma {:induction false} MapSubset<A, B>(f: A -> B, a: seq<A>, b: seq<A>)
    requires multiset(a) <= multiset(b)
    ensures multiset(Map(f, a)) <= multiset(Map(f, b))
    decreases |a|
  {
    if a != [] {
      var j := Position(a, b);
      RemoveBoth(a, b, 0, j);
      MapSubset(f, Without(a, 0), Without(b, j));
      MapWithout(f, a, 0);
      MapWithout(f, b, j);
      AddBoth(Map(f, a), Map(f, b), 0, j);
    } else {
      assert Map(f, a) == [];
    }
  }

  lemma {:induction false} Position<T>(a: seq<T>, b: seq<T>) returns (j: nat)
    requires a != [] && multiset(a) <= multiset(b)
    ensures j < |b| && b[j] == a[0]
  {
    assert a[0] in multiset(a) && a[0] in multiset(b);
    j :| 0 <= j < |b| && b[j] == a[0];
  }

  lemma {:induction false} RemoveBoth<T>(a: seq<T>, b: seq<T>, i: nat, j: nat)
    requires i < |a| && j < |b| && a[i] == b[j] && multiset(a) <= multiset(b)
    ensures multiset(Without(a, i)) <= multiset(Without(b, j))
  {
    WithoutElements(a, i);
    WithoutElements(b, j);
    Cancel(multiset(Without(a, i)), multiset(Without(b, j)), a[i]);
  }

  lemma {:induction false} Cancel<T>(x: multiset<T>, y: multiset<T>, z: T)
    requires x + multiset{z} <= y + multiset{z}
    ensures x <= y
  {
    forall e
      ensures x[e] <= y[e]
    {
      assert (x + multiset{z})[e] <= (y + multiset{z})[e];
    }
  }

  lemma {:induction false} AddBoth<T>(a: seq<T>, b: seq<T>, i: nat, j: nat)
    requires i < |a| && j < |b| && a[i] == b[j] && multiset(Without(a, i)) <= multiset(Without(b, j))
    ensures multiset(a) <= multiset(b)
  {
    WithoutElements(a, i);
    WithoutElements(b, j);
  }
}
