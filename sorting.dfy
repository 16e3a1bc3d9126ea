/**
 * The stable sort of JavaScript's `Array.prototype.sort`, as an insertion sort over a
 * "strictly before" relation (a comparator returning a negative number), and the
 * lexicographic order that stands in for `String.prototype.localeCompare`.
 */
module Sorting {

  /** `lt` is irreflexive, transitive, and incomparability is transitive. */
  ghost predicate StrictWeakOrder<T(!new)>(lt: (T, T) -> bool)
  {
    && (forall a :: !lt(a, a))
    && (forall a, b, c :: lt(a, b) && lt(b, c) ==> lt(a, c))
    && (forall a, b, c :: lt(a, c) ==> lt(a, b) || lt(b, c))
  }

  /** Neither is strictly before the other: a comparator returning 0. */
  predicate Tied<T>(lt: (T, T) -> bool, a: T, b: T)
  {
    !lt(a, b) && !lt(b, a)
  }

  /** No element is strictly before an element that precedes it. */
  predicate Sorted<T>(s: seq<T>, lt: (T, T) -> bool)
  {
    forall i, j :: 0 <= i < j < |s| ==> !lt(s[j], s[i])
  }

  /** Puts `x` in front of the first element that is not strictly before it. */
  function Insert<T>(x: T, s: seq<T>, lt: (T, T) -> bool): (r: seq<T>)
    ensures |r| == |s| + 1
    ensures forall i :: 0 <= i < |r| ==> r[i] == x || r[i] in s
  {
    if s == [] || !lt(s[0], x) then [x] + s
    else [s[0]] + Insert(x, s[1..], lt)
  }

  /** Stable sort: each element is inserted in front of its equals that came later. */
  function SortBy<T>(s: seq<T>, lt: (T, T) -> bool): (r: seq<T>)
    ensures |r| == |s|
  {
    if s == [] then [] else Insert(s[0], SortBy(s[1..], lt), lt)
  }

  lemma {:induction false} InsertPermutes<T>(x: T, s: seq<T>, lt: (T, T) -> bool)
    ensures multiset(Insert(x, s, lt)) == multiset(s) + multiset{x}
    decreases |s|
  {
    if s != [] && lt(s[0], x) {
      InsertPermutes(x, s[1..], lt);
      assert s == [s[0]] + s[1..];
    }
  }

  /** The stable sort only reorders: the result is a permutation of the input. */
  lemma {:induction false} SortByPermutes<T>(s: seq<T>, lt: (T, T) -> bool)
    ensures multiset(SortBy(s, lt)) == multiset(s)
    decreases |s|
  {
    if s != [] {
      SortByPermutes(s[1..], lt);
      InsertPermutes(s[0], SortBy(s[1..], lt), lt);
      assert s == [s[0]] + s[1..];
    }
  }

  /** The elements of `s` tied with `c`, in their order in `s`. */
  function Peers<T>(s: seq<T>, c: T, lt: (T, T) -> bool): (r: seq<T>)
    ensures forall x :: x in r ==> x in s && Tied(lt, x, c)
  {
    if s == [] then []
    else (if Tied(lt, s[0], c) then [s[0]] else []) + Peers(s[1..], c, lt)
  }

  lemma {:induction false} InsertSorted<T(!new)>(x: T, s: seq<T>, lt: (T, T) -> bool)
    requires StrictWeakOrder(lt) && Sorted(s, lt)
    ensures Sorted(Insert(x, s, lt), lt)
    decreases |s|
  {
    if s == [] || !lt(s[0], x) {
      var r := [x] + s;
      forall i, j | 0 <= i < j < |r| ensures !lt(r[j], r[i]) {
        if i == 0 {
          assert !lt(s[j - 1], s[0]) || j - 1 == 0;
        }
      }
    } else {
      InsertSorted(x, s[1..], lt);
      var tail := Insert(x, s[1..], lt);
      var r := [s[0]] + tail;
      forall i, j | 0 <= i < j < |r| ensures !lt(r[j], r[i]) {
        if i == 0 {
          assert r[j] == tail[j - 1];
          if r[j] != x {
            var k :| 0 <= k < |s[1..]| && s[1..][k] == r[j];
            assert s[k + 1] == r[j];
          }
        }
      }
    }
  }

  /** With a strict weak order the stable sort's output is sorted. */
  lemma {:induction false} SortBySorted<T(!new)>(s: seq<T>, lt: (T, T) -> bool)
    requires StrictWeakOrder(lt)
    ensures Sorted(SortBy(s, lt), lt)
    decreases |s|
  {
    if s != [] {
      SortBySorted(s[1..], lt);
      InsertSorted(s[0], SortBy(s[1..], lt), lt);
    }
  }

  lemma {:induction false} PeersAppend<T>(a: seq<T>, b: seq<T>, c: T, lt: (T, T) -> bool)
    ensures Peers(a + b, c, lt) == Peers(a, c, lt) + Peers(b, c, lt)
    decreases |a|
  {
    if a == [] {
      assert a + b == b;
    } else {
      assert (a + b)[0] == a[0] && (a + b)[1..] == a[1..] + b;
      PeersAppend(a[1..], b, c, lt);
    }
  }

  lemma {:induction false} InsertPeers<T(!new)>(x: T, s: seq<T>, c: T, lt: (T, T) -> bool)
    requires BeforeNotTied(x, c, lt)
    ensures Peers(Insert(x, s, lt), c, lt) == (if Tied(lt, x, c) then [x] else []) + Peers(s, c, lt)
    decreases |s|
  {
    if s == [] || !lt(s[0], x) {
      PeersAppend([x], s, c, lt);
    } else {
      InsertPeers(x, s[1..], c, lt);
      assert Tied(lt, x, c) ==> !Tied(lt, s[0], c);
      InsertPeersStep(x, s, c, lt);
    }
  }

  /** Inserting `x` after an element strictly before it keeps that element in front. */
  lemma InsertPasses<T>(x: T, s: seq<T>, lt: (T, T) -> bool)
    requires s != [] && lt(s[0], x)
    ensures Insert(x, s, lt)[0] == s[0] && Insert(x, s, lt)[1..] == Insert(x, s[1..], lt)
  {
    var tail := Insert(x, s[1..], lt);
    assert ([s[0]] + tail)[1..] == tail;
  }

  /** Two fronts of which one is empty can be exchanged. */
  lemma SwapFront<T>(head: seq<T>, mid: seq<T>, rest: seq<T>)
    requires head == [] || mid == []
    ensures head + (mid + rest) == mid + (head + rest)
  {
    if head == [] {
      assert head + (mid + rest) == mid + rest;
    } else {
      assert mid + (head + rest) == head + rest;
    }
  }

  /** One step of InsertPeers: `x` passes over `s[0]`, which is strictly before it. */
  lemma InsertPeersStep<T>(x: T, s: seq<T>, c: T, lt: (T, T) -> bool)
    requires s != [] && lt(s[0], x)
    requires Tied(lt, x, c) ==> !Tied(lt, s[0], c)
    requires Peers(Insert(x, s[1..], lt), c, lt) == (if Tied(lt, x, c) then [x] else []) + Peers(s[1..], c, lt)
    ensures Peers(Insert(x, s, lt), c, lt) == (if Tied(lt, x, c) then [x] else []) + Peers(s, c, lt)
  {
    var r := Insert(x, s, lt);
    InsertPasses(x, s, lt);
    var head := if Tied(lt, s[0], c) then [s[0]] else [];
    var mid := if Tied(lt, x, c) then [x] else [];
    var rest := Peers(s[1..], c, lt);
    assert Peers(r, c, lt) == head + Peers(r[1..], c, lt);
    SwapFront(head, mid, rest);
  }

  /** If `x` is tied with `c`, nothing strictly before `x` is. */
  ghost predicate BeforeNotTied<T(!new)>(x: T, c: T, lt: (T, T) -> bool)
  {
    Tied(lt, x, c) ==> forall y :: lt(y, x) ==> !Tied(lt, y, c)
  }

  lemma StrictWeakBeforeNotTied<T(!new)>(x: T, c: T, lt: (T, T) -> bool)
    requires StrictWeakOrder(lt)
    ensures BeforeNotTied(x, c, lt)
  {
    forall y | lt(y, x) && Tied(lt, x, c) ensures !Tied(lt, y, c) {
      assert lt(y, c) || lt(c, x);
    }
  }

  /** Stability: elements that compare equal keep their relative order. */
  lemma {:induction false} SortByStable<T(!new)>(s: seq<T>, c: T, lt: (T, T) -> bool)
    requires StrictWeakOrder(lt)
    ensures Peers(SortBy(s, lt), c, lt) == Peers(s, c, lt)
    decreases |s|
  {
    if s != [] {
      SortByStable(s[1..], c, lt);
      StrictWeakBeforeNotTied(s[0], c, lt);
      InsertPeers(s[0], SortBy(s[1..], lt), c, lt);
    }
  }

  /** Sorting a sorted sequence changes nothing, so sorting twice is sorting once. */
  lemma {:induction false} SortBySortedIdentity<T>(s: seq<T>, lt: (T, T) -> bool)
    requires Sorted(s, lt)
    ensures SortBy(s, lt) == s
    decreases |s|
  {
    if s != [] {
      assert Sorted(s[1..], lt) by {
        forall i, j | 0 <= i < j < |s[1..]| ensures !lt(s[1..][j], s[1..][i]) {
          assert s[1..][j] == s[j + 1] && s[1..][i] == s[i + 1];
        }
      }
      SortBySortedIdentity(s[1..], lt);
      if |s| > 1 {
        assert !lt(s[1], s[0]);
      }
      assert [s[0]] + s[1..] == s;
    }
  }

  lemma SortByIdempotent<T(!new)>(s: seq<T>, lt: (T, T) -> bool)
    requires StrictWeakOrder(lt)
    ensures SortBy(SortBy(s, lt), lt) == SortBy(s, lt)
  {
    SortBySorted(s, lt);
    SortBySortedIdentity(SortBy(s, lt), lt);
  }

  /** Keeping only the elements tied with `c` under one order keeps sortedness under another. */
  lemma {:induction false} PeersSorted<T>(s: seq<T>, c: T, lt: (T, T) -> bool, order: (T, T) -> bool)
    requires Sorted(s, order)
    ensures Sorted(Peers(s, c, lt), order)
    decreases |s|
  {
    if s != [] {
      assert Sorted(s[1..], order) by {
        forall i, j | 0 <= i < j < |s[1..]| ensures !order(s[1..][j], s[1..][i]) {
          assert s[1..][j] == s[j + 1] && s[1..][i] == s[i + 1];
        }
      }
      PeersSorted(s[1..], c, lt, order);
      var rest := Peers(s[1..], c, lt);
      if Tied(lt, s[0], c) {
        var r := [s[0]] + rest;
        forall i, j | 0 <= i < j < |r| ensures !order(r[j], r[i]) {
          if i == 0 {
            assert r[j] in rest;
            var k :| 0 <= k < |s[1..]| && s[1..][k] == r[j];
            assert s[k + 1] == r[j];
          }
        }
      }
    }
  }

  lemma {:induction false} PeersMember<T>(s: seq<T>, c: T, lt: (T, T) -> bool, x: T)
    requires x in s && Tied(lt, x, c)
    ensures x in Peers(s, c, lt)
    decreases |s|
  {
    if s[0] != x {
      PeersMember(s[1..], c, lt, x);
    }
  }

  /** Two elements tied with `c` keep their relative order among the peers of `c`. */
  lemma {:induction false} PeersOrder<T>(s: seq<T>, c: T, lt: (T, T) -> bool, i: int, j: int)
    requires 0 <= i < j < |s| && Tied(lt, s[i], c) && Tied(lt, s[j], c)
    ensures exists p, q :: 0 <= p < q < |Peers(s, c, lt)| &&
                           Peers(s, c, lt)[p] == s[i] && Peers(s, c, lt)[q] == s[j]
    decreases |s|
  {
    var rest := Peers(s[1..], c, lt);
    if i == 0 {
      assert s[j] == s[1..][j - 1];
      PeersMember(s[1..], c, lt, s[j]);
      var q :| 0 <= q < |rest| && rest[q] == s[j];
      assert Peers(s, c, lt) == [s[0]] + rest;
      assert Peers(s, c, lt)[0] == s[i] && Peers(s, c, lt)[q + 1] == s[j];
    } else {
      assert s[i] == s[1..][i - 1] && s[j] == s[1..][j - 1];
      PeersOrder(s[1..], c, lt, i - 1, j - 1);
      var p, q :| 0 <= p < q < |rest| && rest[p] == s[i] && rest[q] == s[j];
      if Tied(lt, s[0], c) {
        assert Peers(s, c, lt) == [s[0]] + rest;
        assert Peers(s, c, lt)[p + 1] == s[i] && Peers(s, c, lt)[q + 1] == s[j];
      } else {
        assert Peers(s, c, lt) == rest;
      }
    }
  }

  // Lexicographic order on code points, standing in for `localeCompare`.

  /** `a` comes strictly before `b` in dictionary order. */
  predicate LabelLt(a: string, b: string)
    decreases |a|
  {
    if a == [] then b != []
    else if b == [] then false
    else if a[0] != b[0] then a[0] < b[0]
    else LabelLt(a[1..], b[1..])
  }

  lemma {:induction false} LabelLtIrreflexive(a: string)
    ensures !LabelLt(a, a)
    decreases |a|
  {
    if a != [] {
      LabelLtIrreflexive(a[1..]);
    }
  }

  lemma {:induction false} LabelLtTransitive(a: string, b: string, c: string)
    requires LabelLt(a, b) && LabelLt(b, c)
    ensures LabelLt(a, c)
    decreases |a|
  {
    if a != [] && b != [] && c != [] && a[0] == b[0] && b[0] == c[0] {
      LabelLtTransitive(a[1..], b[1..], c[1..]);
    }
  }

  lemma {:induction false} LabelLtAsymmetric(a: string, b: string)
    requires LabelLt(a, b)
    ensures !LabelLt(b, a)
    decreases |a|
  {
    if a != [] && b != [] && a[0] == b[0] {
      LabelLtAsymmetric(a[1..], b[1..]);
    }
  }

  lemma {:induction false} LabelLtTotal(a: string, b: string)
    requires a != b
    ensures LabelLt(a, b) || LabelLt(b, a)
    decreases |a|
  {
    if a != [] && b != [] && a[0] == b[0] {
      assert a == [a[0]] + a[1..] && b == [b[0]] + b[1..];
      LabelLtTotal(a[1..], b[1..]);
    }
  }

  /** Dictionary order is a strict weak order (indeed a strict total order). */
  lemma LabelLtStrictWeakOrder()
    ensures StrictWeakOrder(LabelLt)
  {
    forall a ensures !LabelLt(a, a) {
      LabelLtIrreflexive(a);
    }
    forall a, b, c | LabelLt(a, b) && LabelLt(b, c) ensures LabelLt(a, c) {
      LabelLtTransitive(a, b, c);
    }
    forall a, b, c | LabelLt(a, c) ensures LabelLt(a, b) || LabelLt(b, c) {
      if !LabelLt(a, b) && a != b {
        LabelLtTotal(a, b);
        LabelLtTransitive(b, a, c);
      }
    }
  }
}
