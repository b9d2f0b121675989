/**
 * The documents of a database collection, held in its natural (insertion)
 * order. A sort on a key is modelled as an insertion sort of that order
 * by a total preorder `le` ("a sorts no later than b"); what it promises is
 * sortedness and a permutation, not an order among ties. A query filter
 * keeps the matching documents in natural order.
 */
module Collections {

  ghost predicate IsTotalPreorder<T(!new)>(le: (T, T) -> bool) {
    (forall a, b :: le(a, b) || le(b, a)) &&
    (forall a, b, c :: le(a, b) && le(b, c) ==> le(a, c))
  }

  predicate SortedBy<T>(s: seq<T>, le: (T, T) -> bool) {
    forall i, j :: 0 <= i < j < |s| ==> le(s[i], s[j])
  }

  /** Sorted with no two elements tied. */
  predicate StrictlySortedBy<T>(s: seq<T>, le: (T, T) -> bool) {
    forall i, j :: 0 <= i < j < |s| ==> le(s[i], s[j]) && !le(s[j], s[i])
  }

  /** Inserts `x` before the first element it sorts no later than. */
  function Insert<T(!new)>(x: T, s: seq<T>, le: (T, T) -> bool): (r: seq<T>)
    requires IsTotalPreorder(le) && SortedBy(s, le)
    ensures SortedBy(r, le)
    ensures multiset(r) == multiset(s) + multiset{x}
    decreases |s|
  {
    if s == [] then [x]
    else if le(x, s[0]) then [x] + s
    else
      var rest := Insert(x, s[1..], le);
      HeadBelow(x, s, rest, le);
      assert s == [s[0]] + s[1..];
      [s[0]] + rest
  }

  /** The head of a sorted sequence sorts no later than anything made of its tail and an element above it. */
  lemma HeadBelow<T>(x: T, s: seq<T>, rest: seq<T>, le: (T, T) -> bool)
    requires SortedBy(s, le) && s != [] && le(s[0], x)
    requires multiset(rest) == multiset(s[1..]) + multiset{x}
    ensures forall k :: 0 <= k < |rest| ==> le(s[0], rest[k])
  {
    forall k | 0 <= k < |rest| ensures le(s[0], rest[k]) {
      assert rest[k] in multiset(rest);
      if rest[k] != x {
        assert rest[k] in multiset(s[1..]);
        var i :| 0 <= i < |s[1..]| && s[1..][i] == rest[k];
        assert s[i + 1] == rest[k];
      }
    }
  }

  /** The elements of `s` in `le` order. */
  function Sort<T(!new)>(s: seq<T>, le: (T, T) -> bool): (r: seq<T>)
    requires IsTotalPreorder(le)
    ensures SortedBy(r, le)
    ensures multiset(r) == multiset(s)
    ensures |r| == |s|
    decreases |s|
  {
    if s == [] then []
    else
      assert s == [s[0]] + s[1..];
      Insert(s[0], Sort(s[1..], le), le)
  }

  /**
   * A sorted sequence is determined by its elements when one ordering of
   * them has no ties: it is then the only sorted one.
   */
  lemma {:induction false} SortedUnique<T>(a: seq<T>, b: seq<T>, le: (T, T) -> bool)
    requires SortedBy(a, le) && StrictlySortedBy(b, le)
    requires multiset(a) == multiset(b)
    ensures a == b
    decreases |a|
  {
    assert |a| == |multiset(a)| == |multiset(b)| == |b|;
    if a != [] {
      SameHead(a, b, le);
      DropFirst(a);
      DropFirst(b);
      SortedUnique(a[1..], b[1..], le);
    }
  }

  lemma SameHead<T>(a: seq<T>, b: seq<T>, le: (T, T) -> bool)
    requires SortedBy(a, le) && StrictlySortedBy(b, le)
    requires multiset(a) == multiset(b) && a != [] && b != []
    ensures a[0] == b[0]
  {
    assert a[0] in multiset(a) && b[0] in multiset(b);
    var j :| 0 <= j < |b| && b[j] == a[0];
    var i :| 0 <= i < |a| && a[i] == b[0];
    if i != 0 {
      assert le(a[0], a[i]);
      assert j == 0;
    }
  }

  lemma DropFirst<T>(s: seq<T>)
    requires s != []
    ensures multiset(s[1..]) == multiset(s) - multiset{s[0]}
  {
    assert s == [s[0]] + s[1..];
  }

  lemma DropAt<T>(s: seq<T>, i: nat)
    requires i < |s|
    ensures multiset(s[..i] + s[i + 1..]) == multiset(s) - multiset{s[i]}
  {
    assert s == s[..i] + [s[i]] + s[i + 1..];
  }

  /** Sorting a sequence that already has no ties returns it. */
  lemma SortStrict<T(!new)>(s: seq<T>, t: seq<T>, le: (T, T) -> bool)
    requires IsTotalPreorder(le) && StrictlySortedBy(t, le) && multiset(s) == multiset(t)
    ensures Sort(s, le) == t
  {
    SortedUnique(Sort(s, le), t, le);
  }

  /** `g` applied to every element. */
  function Map<A, B>(s: seq<A>, g: A -> B): (r: seq<B>)
    ensures |r| == |s| && forall k :: 0 <= k < |s| ==> r[k] == g(s[k])
  {
    if s == [] then [] else [g(s[0])] + Map(s[1..], g)
  }

  lemma {:induction false} MapAppend<A, B>(s: seq<A>, t: seq<A>, g: A -> B)
    ensures Map(s + t, g) == Map(s, g) + Map(t, g)
  {
    if s != [] {
      assert (s + t)[1..] == s[1..] + t;
      MapAppend(s[1..], t, g);
    }
  }

  lemma MapHead<A, B>(s: seq<A>, g: A -> B)
    requires s != []
    ensures multiset(Map(s, g)) == multiset{g(s[0])} + multiset(Map(s[1..], g))
  {
    assert Map(s, g) == [g(s[0])] + Map(s[1..], g);
  }

  lemma MapSplice<A, B>(left: seq<A>, x: A, right: seq<A>, g: A -> B)
    ensures multiset(Map(left + [x] + right, g)) == multiset{g(x)} + multiset(Map(left + right, g))
  {
    MapAppend(left + [x], right, g);
    MapAppend(left, [x], g);
    MapAppend(left, right, g);
    MapSingle(x, g);
  }

  lemma MapSingle<A, B>(x: A, g: A -> B)
    ensures Map([x], g) == [g(x)]
  {
  }


  lemma SplitLast<T>(s: seq<T>)
    requires s != []
    ensures s == s[..|s| - 1] + [s[|s| - 1]]
  {
  }

  lemma SplitAt<T>(t: seq<T>, i: nat)
    requires i < |t|
    ensures t == t[..i] + [t[i]] + t[i + 1..]
  {
  }

  /** Taking out the element at `i` takes its image out of the mapped multiset. */
  lemma MapSpliceAt<A, B>(t: seq<A>, i: nat, g: A -> B)
    requires i < |t|
    ensures multiset(Map(t, g)) == multiset{g(t[i])} + multiset(Map(t[..i] + t[i + 1..], g))
  {
    SplitAt(t, i);
    MapSplice(t[..i], t[i], t[i + 1..], g);
  }

  /** Applying a function to every element of two permutations gives two permutations. */
  lemma {:induction false} MapPermutation<A, B>(s: seq<A>, t: seq<A>, g: A -> B)
    requires multiset(s) == multiset(t)
    ensures multiset(Map(s, g)) == multiset(Map(t, g))
    decreases |s|
  {
    if s == [] {
      assert |t| == |multiset(t)| == 0;
    } else {
      assert s[0] in multiset(t);
      var i :| 0 <= i < |t| && t[i] == s[0];
      DropFirst(s);
      DropAt(t, i);
      MapPermutation(s[1..], t[..i] + t[i + 1..], g);
      MapSpliceAt(t, i, g);
      MapHead(s, g);
    }
  }


  predicate NoDuplicates<T(==)>(s: seq<T>) {
    forall i, j :: 0 <= i < j < |s| ==> s[i] != s[j]
  }

  /** Writing a value no other position holds keeps a sequence free of duplicates. */
  lemma NoDuplicatesUpdate<T>(s: seq<T>, j: nat, x: T)
    requires NoDuplicates(s) && j < |s|
    requires forall k :: 0 <= k < |s| && k != j ==> s[k] != x
    ensures NoDuplicates(s[j := x])
  {
  }

  /** Mapping after an update is updating after a map. */
  lemma MapUpdate<A, B>(s: seq<A>, j: nat, x: A, g: A -> B)
    requires j < |s|
    ensures Map(s[j := x], g) == Map(s, g)[j := g(x)]
  {
  }

  /** Without duplicates every element occurs at most once. */
  lemma {:induction false} NoDuplicatesCount<T>(s: seq<T>)
    requires NoDuplicates(s)
    ensures forall x :: multiset(s)[x] <= 1
    decreases |s|
  {
    if s != [] {
      assert NoDuplicates(s[1..]);
      NoDuplicatesCount(s[1..]);
      assert s == [s[0]] + s[1..];
      assert s[0] !in s[1..];
      forall x ensures multiset(s)[x] <= 1 {
        assert multiset(s)[x] == multiset{s[0]}[x] + multiset(s[1..])[x];
      }
    }
  }

  /** An element that also occurs at an earlier index occurs at least twice. */
  lemma CountAtLeast<T>(s: seq<T>, i: nat, j: nat)
    requires i < j < |s|
    ensures multiset(s)[s[j]] >= if s[i] == s[j] then 2 else 1
  {
    assert s == s[..j] + [s[j]] + s[j + 1..];
    assert s[i] == s[..j][i];
    assert multiset(s)[s[j]] == multiset(s[..j])[s[j]] + 1 + multiset(s[j + 1..])[s[j]];
  }

  /** Reordering keeps a sequence free of duplicates. */
  lemma NoDuplicatesPermutation<T>(s: seq<T>, t: seq<T>)
    requires NoDuplicates(s) && multiset(s) == multiset(t)
    ensures NoDuplicates(t)
  {
    NoDuplicatesCount(s);
    forall i, j | 0 <= i < j < |t| ensures t[i] != t[j] {
      CountAtLeast(t, i, j);
      assert multiset(t)[t[j]] <= 1;
    }
  }

  /** `s` with the elements at `i` and `j` exchanged. */
  function Swap<T>(s: seq<T>, i: nat, j: nat): (r: seq<T>)
    requires i < |s| && j < |s|
    ensures |r| == |s| && multiset(r) == multiset(s)
    ensures r[i] == s[j] && r[j] == s[i]
    ensures forall k :: 0 <= k < |s| && k != i && k != j ==> r[k] == s[k]
  {
    s[i := s[j]][j := s[i]]
  }

  /** The elements that `keep` accepts, in order. */
  function Filter<T>(s: seq<T>, keep: T -> bool): (r: seq<T>)
    ensures |r| <= |s|
    ensures forall k :: 0 <= k < |r| ==> r[k] in s && keep(r[k])
    ensures forall k :: 0 <= k < |s| && keep(s[k]) ==> s[k] in r
  {
    if s == [] then [] else (if keep(s[0]) then [s[0]] else []) + Filter(s[1..], keep)
  }

  /** Filtering distributes over appending one element. */
  lemma {:induction false} FilterSnoc<T>(s: seq<T>, x: T, keep: T -> bool)
    ensures Filter(s + [x], keep) == Filter(s, keep) + (if keep(x) then [x] else [])
  {
    if s != [] {
      assert (s + [x])[1..] == s[1..] + [x];
      FilterSnoc(s[1..], x, keep);
    }
  }

  /** Filtering distributes over concatenation. */
  lemma {:induction false} FilterAppend<T>(s: seq<T>, t: seq<T>, keep: T -> bool)
    ensures Filter(s + t, keep) == Filter(s, keep) + Filter(t, keep)
  {
    if s == [] {
      assert s + t == t;
    } else {
      assert (s + t)[1..] == s[1..] + t;
      FilterAppend(s[1..], t, keep);
      assert Filter(s + t, keep) == (if keep(s[0]) then [s[0]] else []) + Filter(s[1..] + t, keep);
    }
  }

  /** Everything is kept when every element is accepted. */
  lemma {:induction false} FilterAll<T>(s: seq<T>, keep: T -> bool)
    requires forall k :: 0 <= k < |s| ==> keep(s[k])
    ensures Filter(s, keep) == s
  {
    if s != [] {
      FilterAll(s[1..], keep);
    }
  }

  /** Nothing is kept when no element is accepted. */
  lemma {:induction false} FilterNone<T>(s: seq<T>, keep: T -> bool)
    requires forall k :: 0 <= k < |s| ==> !keep(s[k])
    ensures Filter(s, keep) == []
  {
    if s != [] {
      FilterNone(s[1..], keep);
    }
  }

  /** Dropping elements keeps the keys of the remaining ones distinct. */
  lemma {:induction false} FilterNoDuplicates<T, K>(s: seq<T>, keep: T -> bool, key: T -> K)
    requires NoDuplicates(Map(s, key))
    ensures NoDuplicates(Map(Filter(s, keep), key))
    decreases |s|
  {
    if s != [] {
      var rest := Filter(s[1..], keep);
      MapTail(s, key);
      FilterNoDuplicates(s[1..], keep, key);
      if keep(s[0]) {
        HeadKeyFresh(s, rest, key);
        assert Filter(s, keep) == [s[0]] + rest;
        MapCons(s[0], rest, key);
        ConsNoDuplicates(key(s[0]), Map(rest, key));
      }
    }
  }

  lemma MapTail<A, B>(s: seq<A>, g: A -> B)
    requires s != []
    ensures Map(s[1..], g) == Map(s, g)[1..]
  {
  }

  /** The key of the first element occurs nowhere among elements drawn from the rest. */
  lemma HeadKeyFresh<T, K>(s: seq<T>, rest: seq<T>, key: T -> K)
    requires s != [] && NoDuplicates(Map(s, key))
    requires forall k :: 0 <= k < |rest| ==> rest[k] in s[1..]
    ensures forall k :: 0 <= k < |rest| ==> Map(rest, key)[k] != key(s[0])
  {
    forall k | 0 <= k < |rest| ensures Map(rest, key)[k] != key(s[0]) {
      var j :| 0 <= j < |s| - 1 && s[1..][j] == rest[k];
      assert Map(s, key)[j + 1] != Map(s, key)[0];
    }
  }

  lemma MapCons<A, B>(x: A, s: seq<A>, g: A -> B)
    ensures Map([x] + s, g) == [g(x)] + Map(s, g)
  {
    assert ([x] + s)[1..] == s;
  }

  lemma ConsNoDuplicates<T>(y: T, m: seq<T>)
    requires NoDuplicates(m) && forall k :: 0 <= k < |m| ==> m[k] != y
    ensures NoDuplicates([y] + m)
  {
  }
}
