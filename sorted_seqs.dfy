/** Ascending listings of finite sets under a strict total order: how a
    Java `TreeSet` or `TreeMap` hands out its elements. */
module SortedSeqs {

  /** `less` is irreflexive, transitive and total on the elements of S. */
  ghost predicate StrictOrderOn<T>(less: (T, T) -> bool, S: set<T>)
  {
    && (forall x :: x in S ==> !less(x, x))
    && (forall x, y, z :: x in S && y in S && z in S && less(x, y) && less(y, z) ==> less(x, z))
    && (forall x, y :: x in S && y in S && x != y ==> less(x, y) || less(y, x))
  }

  /** Strictly ascending, hence free of duplicates. */
  ghost predicate Sorted<T>(less: (T, T) -> bool, s: seq<T>)
  {
    forall i, j {:trigger less(s[i], s[j])} :: 0 <= i < j < |s| ==> less(s[i], s[j])
  }

  function Elems<T>(s: seq<T>): set<T>
  {
    set x | x in s
  }

  lemma ElemsPrefixStep<T>(s: seq<T>, i: nat)
    requires i < |s|
    ensures Elems(s[..i + 1]) == Elems(s[..i]) + {s[i]}
  {
    assert s[..i + 1] == s[..i] + [s[i]];
  }

  lemma ElemsEmpty<T>(s: seq<T>)
    ensures Elems(s) == {} <==> s == []
  {
    if s != [] {
      assert s[0] in Elems(s);
    }
  }

  predicate IsLeast<T>(less: (T, T) -> bool, m: T, S: set<T>)
  {
    m in S && forall x :: x in S && x != m ==> less(m, x)
  }

  lemma {:induction false} LeastExists<T>(less: (T, T) -> bool, S: set<T>)
    requires StrictOrderOn(less, S) && S != {}
    ensures exists m :: m in S && IsLeast(less, m, S)
    decreases |S|
  {
    var x :| x in S;
    var rest := S - {x};
    if rest == {} {
      assert S == {x};
      assert IsLeast(less, x, S);
    } else {
      LeastExists(less, rest);
      var m :| m in rest && IsLeast(less, m, rest);
      if less(m, x) {
        assert IsLeast(less, m, S);
      } else {
        assert IsLeast(less, x, S);
      }
    }
  }

  lemma LeastUnique<T>(less: (T, T) -> bool, S: set<T>, a: T, b: T)
    requires StrictOrderOn(less, S)
    requires IsLeast(less, a, S) && IsLeast(less, b, S)
    ensures a == b
  {
    assert a != b ==> less(a, b) && less(b, a);
  }

  /** The elements of S in ascending order, as a `TreeSet` iterates them. */
  function FromSet<T>(less: (T, T) -> bool, S: set<T>): (r: seq<T>)
    requires StrictOrderOn(less, S)
    ensures Sorted(less, r) && Elems(r) == S && |r| == |S|
    decreases |S|
  {
    if S == {} then []
    else
      LeastExists(less, S);
      assert forall a, b :: a in S && b in S && IsLeast(less, a, S) && IsLeast(less, b, S) ==> a == b by {
        forall a, b | a in S && b in S && IsLeast(less, a, S) && IsLeast(less, b, S) ensures a == b {
          LeastUnique(less, S, a, b);
        }
      }
      var m :| m in S && IsLeast(less, m, S);
      var tail := FromSet(less, S - {m});
      assert forall x :: x in Elems(tail) ==> less(m, x);
      SortedCons(less, m, tail);
      [m] + tail
  }

  lemma SortedCons<T>(less: (T, T) -> bool, m: T, tail: seq<T>)
    requires Sorted(less, tail) && forall x :: x in Elems(tail) ==> less(m, x)
    ensures Sorted(less, [m] + tail) && Elems([m] + tail) == {m} + Elems(tail)
  {
    var r := [m] + tail;
    forall i, j | 0 <= i < j < |r| ensures less(r[i], r[j]) {
      assert r[j] == tail[j - 1] && tail[j - 1] in Elems(tail);
      if 0 < i {
        assert r[i] == tail[i - 1] && less(tail[i - 1], tail[j - 1]);
      }
    }
  }

  /** The first element of a strictly ascending sequence is its least. */
  lemma SortedHeadIsLeast<T>(less: (T, T) -> bool, s: seq<T>)
    requires s != [] && Sorted(less, s)
    ensures IsLeast(less, s[0], Elems(s))
  {
    forall x | x in Elems(s) && x != s[0] ensures less(s[0], x) {
      var i :| 0 <= i < |s| && s[i] == x;
    }
  }

  /** A strictly ascending listing of a set is unique. */
  lemma {:induction false} SortedUnique<T>(less: (T, T) -> bool, a: seq<T>, b: seq<T>)
    requires StrictOrderOn(less, Elems(a))
    requires Sorted(less, a) && Sorted(less, b) && Elems(a) == Elems(b)
    ensures a == b
    decreases |a|
  {
    if a == [] {
      ElemsEmpty(b);
    } else {
      assert a[0] in Elems(b);
      SortedHeadIsLeast(less, a);
      SortedHeadIsLeast(less, b);
      LeastUnique(less, Elems(a), a[0], b[0]);
      NotInSortedTail(less, a);
      NotInSortedTail(less, b);
      assert Elems(a) == {a[0]} + Elems(a[1..]);
      assert Elems(b) == {b[0]} + Elems(b[1..]);
      SortedUnique(less, a[1..], b[1..]);
      assert a == [a[0]] + a[1..];
      assert b == [b[0]] + b[1..];
    }
  }

  lemma NotInSortedTail<T>(less: (T, T) -> bool, s: seq<T>)
    requires s != [] && Sorted(less, s)
    requires StrictOrderOn(less, Elems(s))
    ensures s[0] !in Elems(s[1..])
  {
    forall i | 0 <= i < |s| - 1 ensures s[1..][i] != s[0] {
      assert less(s[0], s[i + 1]);
      assert s[0] in Elems(s);
    }
  }

  /** The natural order on Java `Integer`s, as a `TreeSet<Integer>` uses it. */
  predicate IntLess(a: int, b: int)
  {
    a < b
  }

  lemma IntLessIsStrictOrder(S: set<int>)
    ensures StrictOrderOn(IntLess, S)
  {
  }

  /** The ascending listing of a set of ids. */
  function SortedInts(S: set<int>): (r: seq<int>)
    ensures Sorted(IntLess, r) && Elems(r) == S && |r| == |S|
  {
    IntLessIsStrictOrder(S);
    FromSet(IntLess, S)
  }
}
