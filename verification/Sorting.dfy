/** Sorting with a library routine that is only known to return an ordered permutation:
    when distinct records never compare equal, the result is determined. */
module Sorting {
  ghost predicate StrictOrder<T(!new)>(lt: (T, T) -> bool) {
    (forall x :: !lt(x, x)) && (forall x, y, z :: lt(x, y) && lt(y, z) ==> lt(x, z))
  }

  ghost predicate Ascending<T>(lt: (T, T) -> bool, s: seq<T>) {
    forall i, j :: 0 <= i < j < |s| ==> lt(s[i], s[j])
  }

  /** What the sorting routine promises: no later element is smaller. */
  ghost predicate InOrder<T>(lt: (T, T) -> bool, s: seq<T>) {
    forall i, j :: 0 <= i < j < |s| ==> !lt(s[j], s[i])
  }

  ghost predicate SortedFrom<T>(lt: (T, T) -> bool, s: seq<T>, r: seq<T>) {
    multiset(r) == multiset(s) && InOrder(lt, r)
  }

  /** No record twice, and any two compare one way or the other. */
  ghost predicate Keyed<T(!new)>(lt: (T, T) -> bool, m: multiset<T>) {
    && (forall x :: m[x] <= 1)
    && (forall x, y :: x in m && y in m && x != y ==> lt(x, y) || lt(y, x))
  }

  ghost predicate PairwiseOrdered<T>(lt: (T, T) -> bool, s: seq<T>) {
    forall i, j :: 0 <= i < j < |s| ==> lt(s[i], s[j]) || lt(s[j], s[i])
  }

  lemma {:induction false} PairwiseKeyed<T(!new)>(lt: (T, T) -> bool, s: seq<T>)
    requires StrictOrder(lt) && PairwiseOrdered(lt, s)
    ensures Keyed(lt, multiset(s))
    decreases |s|
  {
    if s != [] {
      var front, last := s[..|s| - 1], s[|s| - 1];
      PairwiseKeyed(lt, front);
      assert s == front + [last];
      forall x | x in front ensures lt(x, last) || lt(last, x) {
        var i :| 0 <= i < |front| && front[i] == x;
        assert x == s[i];
      }
    }
  }

  lemma CountedTwice<T>(s: seq<T>, i: nat, j: nat)
    requires i < j < |s| && s[i] == s[j]
    ensures multiset(s)[s[i]] >= 2
  {
    assert s == s[..j] + s[j..];
    assert s[i] in s[..j] && s[j..][0] == s[i];
  }

  lemma OrderedAscends<T(!new)>(lt: (T, T) -> bool, r: seq<T>)
    requires Keyed(lt, multiset(r)) && InOrder(lt, r)
    ensures Ascending(lt, r)
  {
    forall i, j | 0 <= i < j < |r| ensures lt(r[i], r[j]) {
      if r[i] == r[j] { CountedTwice(r, i, j); }
      assert r[i] in multiset(r) && r[j] in multiset(r);
    }
  }

  lemma LeastIsFirst<T(!new)>(lt: (T, T) -> bool, r: seq<T>, t: seq<T>)
    requires StrictOrder(lt) && Ascending(lt, r) && Ascending(lt, t) && multiset(r) == multiset(t) && r != [] && t != []
    ensures r[0] == t[0]
  {
    var x, y := r[0], t[0];
    assert x in multiset(t) && y in multiset(r);
    var i :| 0 <= i < |t| && t[i] == x;
    var j :| 0 <= j < |r| && r[j] == y;
    assert lt(x, y) && lt(y, x) ==> lt(x, x);
  }

  lemma TailKeeps<T>(r: seq<T>)
    requires r != []
    ensures multiset(r[1..]) == multiset(r) - multiset{r[0]}
  {
    assert r == [r[0]] + r[1..];
  }

  /** There is only one way to put keyed records in ascending order. */
  lemma {:induction false} AscendingUnique<T(!new)>(lt: (T, T) -> bool, r: seq<T>, t: seq<T>)
    requires StrictOrder(lt) && Ascending(lt, r) && Ascending(lt, t) && multiset(r) == multiset(t)
    ensures r == t
    decreases |r|
  {
    hide StrictOrder;
    assert |r| == |multiset(r)| == |multiset(t)| == |t|;
    if r != [] {
      LeastIsFirst(lt, r, t);
      TailKeeps(r);
      TailKeeps(t);
      AscendingUnique(lt, r[1..], t[1..]);
      assert r == [r[0]] + r[1..] && t == [t[0]] + t[1..];
    }
  }

  /** Whatever order the records came in, and whatever the routine does with ties. */
  lemma SortDetermined<T(!new)>(lt: (T, T) -> bool, s: seq<T>, s': seq<T>, r: seq<T>, r': seq<T>)
    requires StrictOrder(lt) && Keyed(lt, multiset(s)) && multiset(s) == multiset(s')
    requires SortedFrom(lt, s, r) && SortedFrom(lt, s', r')
    ensures r == r'
  {
    OrderedAscends(lt, r);
    OrderedAscends(lt, r');
    AscendingUnique(lt, r, r');
  }

  // ------------------------------------------------------------ a sorting routine

  function Insert<T>(lt: (T, T) -> bool, x: T, s: seq<T>): seq<T> {
    if s == [] then [x] else if lt(x, s[0]) then [x] + s else [s[0]] + Insert(lt, x, s[1..])
  }

  function Sort<T>(lt: (T, T) -> bool, s: seq<T>): seq<T> {
    if s == [] then [] else Insert(lt, s[0], Sort(lt, s[1..]))
  }

  lemma PrependAscends<T(!new)>(lt: (T, T) -> bool, x: T, s: seq<T>)
    requires Ascending(lt, s) && forall y :: y in s ==> lt(x, y)
    ensures Ascending(lt, [x] + s)
  {
  }

  lemma BelowAll<T(!new)>(lt: (T, T) -> bool, x: T, s: seq<T>)
    requires StrictOrder(lt) && Ascending(lt, s) && s != [] && lt(x, s[0])
    ensures forall y :: y in s ==> lt(x, y)
  {
    forall y | y in s ensures lt(x, y) {
      var j :| 0 <= j < |s| && s[j] == y;
    }
  }

  lemma {:induction false} InsertKeeps<T(!new)>(lt: (T, T) -> bool, x: T, s: seq<T>)
    requires StrictOrder(lt) && Ascending(lt, s) && forall y :: y in s ==> lt(x, y) || lt(y, x)
    ensures multiset(Insert(lt, x, s)) == multiset(s) + multiset{x} && Ascending(lt, Insert(lt, x, s))
    decreases |s|
  {
    hide StrictOrder;
    if s != [] {
      TailKeeps(s);
      if lt(x, s[0]) {
        BelowAll(lt, x, s);
        PrependAscends(lt, x, s);
      } else {
        InsertKeeps(lt, x, s[1..]);
        var t := Insert(lt, x, s[1..]);
        forall y | y in t ensures lt(s[0], y) {
          assert y in multiset(t);
          assert y == x || y in s[1..];
        }
        PrependAscends(lt, s[0], t);
      }
    }
  }

  lemma {:induction false} SortSorts<T(!new)>(lt: (T, T) -> bool, s: seq<T>)
    requires StrictOrder(lt) && PairwiseOrdered(lt, s)
    ensures multiset(Sort(lt, s)) == multiset(s) && Ascending(lt, Sort(lt, s))
    decreases |s|
  {
    hide StrictOrder;
    if s != [] {
      SortSorts(lt, s[1..]);
      forall y | y in Sort(lt, s[1..]) ensures lt(s[0], y) || lt(y, s[0]) {
        assert y in multiset(Sort(lt, s[1..]));
        var j :| 0 <= j < |s[1..]| && s[1..][j] == y;
        assert s[j + 1] == y;
      }
      InsertKeeps(lt, s[0], Sort(lt, s[1..]));
      assert s == [s[0]] + s[1..];
    }
  }

  lemma AscendingInOrder<T(!new)>(lt: (T, T) -> bool, s: seq<T>)
    requires StrictOrder(lt) && Ascending(lt, s)
    ensures InOrder(lt, s)
  {
    forall i, j | 0 <= i < j < |s| ensures !lt(s[j], s[i]) {
      var x, y := s[i], s[j];
      assert lt(x, y);
      assert lt(y, x) ==> lt(x, x);
    }
  }
}
