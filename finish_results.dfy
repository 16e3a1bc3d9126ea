/**
 * What the finish checker returns, and `uniqueResults`: the splits of one pattern are
 * deduplicated by the members they list once their groups are put in label order, and the
 * surviving splits list their groups by size, largest first.
 */
module FinishResults {
  import opened Common
  import opened Sorting
  import opened Catalog

  /**
   * A pattern that covers the whole hand reports the hand itself (`{name, ids}`); a pattern
   * that splits the hand reports its groups.
   */
  datatype Payload = WholeHand(ids: seq<string>) | Units(units: seq<Unit>)

  /** One entry of the list a successful check returns: pattern name, score, and what it found. */
  datatype WinResult = WinResult(name: string, score: int, payload: Payload)

  /** `a.label.localeCompare(b.label) < 0`. */
  predicate ByLabel(a: Unit, b: Unit)
  {
    LabelLt(a.name, b.name)
  }

  /** `b.numOfMembers - a.numOfMembers < 0`: larger groups first. */
  predicate BySizeDesc(a: Unit, b: Unit)
  {
    a.numOfMembers > b.numOfMembers
  }

  lemma ByLabelStrictWeakOrder()
    ensures StrictWeakOrder(ByLabel)
  {
    LabelLtStrictWeakOrder();
    forall a, b, c | ByLabel(a, c) ensures ByLabel(a, b) || ByLabel(b, c) {
      assert LabelLt(a.name, c.name);
    }
    forall a, b, c | ByLabel(a, b) && ByLabel(b, c) ensures ByLabel(a, c) {
      assert LabelLt(a.name, b.name) && LabelLt(b.name, c.name);
    }
    forall a ensures !ByLabel(a, a) {
      assert !LabelLt(a.name, a.name);
    }
  }

  /** `flatMap(unit => unit.tileIdentifiers)`. */
  function Flatten(units: seq<Unit>): (r: seq<string>)
    ensures forall id :: id in r <==> exists u :: u in units && id in u.tileIdentifiers
  {
    if units == [] then []
    else
      assert forall u :: u in units <==> u == units[0] || u in units[1..];
      units[0].tileIdentifiers + Flatten(units[1..])
  }

  /**
   * The deduplication key as `uniqueResults` computes it: the members of the groups taken in
   * label order (the source joins them with commas into one string). Groups with equal labels
   * stay in the order the result lists them.
   */
  function LabelOrderKey(units: seq<Unit>): seq<string>
  {
    Flatten(SortBy(units, ByLabel))
  }

  /**
   * `uniqueResults` sorts each result's groups in place while it computes keys; since the sort
   * is idempotent, a result whose groups were already sorted keeps its key.
   */
  lemma LabelOrderKeyAfterInPlaceSort(units: seq<Unit>)
    ensures LabelOrderKey(SortBy(units, ByLabel)) == LabelOrderKey(units)
  {
    ByLabelStrictWeakOrder();
    SortByIdempotent(units, ByLabel);
  }

  /** The key `uniqueResults` is meant to compute: the groups of a result, in whatever order. */
  function Key(units: seq<Unit>): multiset<Unit>
  {
    multiset(units)
  }

  /** Sorting a result's groups in place does not change its key. */
  lemma KeyAfterInPlaceSort(units: seq<Unit>)
    ensures Key(SortBy(units, ByLabel)) == Key(units)
  {
    SortByPermutes(units, ByLabel);
  }

  /** `findIndex`: the first position holding `k`, or -1. */
  function FindIndex<K(==)>(ks: seq<K>, k: K): (r: int)
    ensures -1 <= r < |ks|
    ensures r == -1 <==> k !in ks
    ensures r >= 0 ==> ks[r] == k && k !in ks[..r]
  {
    if ks == [] then -1
    else if ks[0] == k then 0
    else
      var r := FindIndex(ks[1..], k);
      assert r >= 0 ==> ks[..r + 1] == [ks[0]] + ks[1..][..r];
      if r == -1 then -1 else r + 1
  }

  /** Position `i` holds the first occurrence of its key: `findIndex` of that key returns `i`. */
  predicate IsFirst<K(==)>(ks: seq<K>, i: nat)
    requires i < |ks|
  {
    ks[i] !in ks[..i]
  }

  /** The positions below `n` that hold the first occurrence of their key, in increasing order. */
  function FirstIndices<K(==)>(ks: seq<K>, n: nat): (r: seq<nat>)
    requires n <= |ks|
    ensures |r| <= n
    ensures forall a :: 0 <= a < |r| ==> r[a] < n && IsFirst(ks, r[a])
    ensures forall a, b :: 0 <= a < b < |r| ==> r[a] < r[b]
    ensures forall i :: 0 <= i < n && IsFirst(ks, i) ==> i in r
  {
    if n == 0 then []
    else
      var prev := FirstIndices(ks, n - 1);
      var first := FindIndex(ks, ks[n - 1]) == n - 1;
      assert first <==> IsFirst(ks, n - 1);
      var r := prev + (if first then [n - 1] else []);
      assert forall a :: 0 <= a < |prev| ==> r[a] == prev[a];
      assert first ==> r[|prev|] == n - 1;
      r
  }

  /** The intended key of every result, in order. */
  function Keys(rs: seq<seq<Unit>>): (ks: seq<multiset<Unit>>)
    ensures |ks| == |rs| && forall i :: 0 <= i < |rs| ==> ks[i] == Key(rs[i])
  {
    seq(|rs|, i requires 0 <= i < |rs| => Key(rs[i]))
  }

  /** The key `uniqueResults` computes for every result, in order. */
  function LabelOrderKeys(rs: seq<seq<Unit>>): (ks: seq<seq<string>>)
    ensures |ks| == |rs| && forall i :: 0 <= i < |rs| ==> ks[i] == LabelOrderKey(rs[i])
  {
    seq(|rs|, i requires 0 <= i < |rs| => LabelOrderKey(rs[i]))
  }

  /** The order the returned results list their groups in: by size, ties in label order. */
  function Normalize(units: seq<Unit>): seq<Unit>
  {
    SortBy(SortBy(units, ByLabel), BySizeDesc)
  }

  /**
   * A result's groups after `uniqueResults`: the same groups, largest first, and groups of
   * equal size in label order (the stable size sort keeps the earlier label sort among them).
   */
  lemma {:induction false} NormalizeOrders(units: seq<Unit>)
    ensures multiset(Normalize(units)) == multiset(units)
    ensures Sorted(Normalize(units), BySizeDesc)
    ensures forall i, j ::
              (0 <= i < j < |Normalize(units)| &&
               Normalize(units)[i].numOfMembers == Normalize(units)[j].numOfMembers) ==>
              !LabelLt(Normalize(units)[j].name, Normalize(units)[i].name)
  {
    var byLabel := SortBy(units, ByLabel);
    var n := Normalize(units);
    SortByPermutes(units, ByLabel);
    SortByPermutes(byLabel, BySizeDesc);
    SortBySorted(byLabel, BySizeDesc);
    ByLabelStrictWeakOrder();
    SortBySorted(units, ByLabel);
    forall i, j | 0 <= i < j < |n| && n[i].numOfMembers == n[j].numOfMembers
      ensures !LabelLt(n[j].name, n[i].name)
    {
      var c := n[i];
      SortByStable(byLabel, c, BySizeDesc);
      PeersSorted(byLabel, c, BySizeDesc, ByLabel);
      PeersOrder(n, c, BySizeDesc, i, j);
      var peers := Peers(n, c, BySizeDesc);
      var p, q :| 0 <= p < q < |peers| && peers[p] == n[i] && peers[q] == n[j];
      assert !ByLabel(peers[q], peers[p]);
    }
  }

  /**
   * The filter of `uniqueResults`, given the key of each result: keep each result whose key
   * no earlier result has, in their original order, and list each kept result's groups in
   * `Normalize` order.
   */
  function UniqueByKeys<K(==)>(rs: seq<seq<Unit>>, ks: seq<K>): (r: seq<seq<Unit>>)
    requires |ks| == |rs|
    ensures |r| <= |rs|
    ensures |rs| > 0 ==> |r| > 0
    ensures forall a :: 0 <= a < |r| ==>
              exists k :: 0 <= k < |rs| && r[a] == Normalize(rs[k]) && forall j :: 0 <= j < k ==> ks[j] != ks[k]
  {
    var idx := FirstIndices(ks, |rs|);
    assert |rs| > 0 ==> IsFirst(ks, 0);
    var r := seq(|idx|, a requires 0 <= a < |idx| => Normalize(rs[idx[a]]));
    forall a | 0 <= a < |r|
      ensures forall j :: 0 <= j < idx[a] ==> ks[j] != ks[idx[a]]
    {
      assert IsFirst(ks, idx[a]);
      assert forall j :: 0 <= j < idx[a] ==> ks[j] == ks[..idx[a]][j];
    }
    r
  }

  /** The kept results are the results at the first positions of their keys, in order. */
  lemma UniqueByKeysAt<K>(rs: seq<seq<Unit>>, ks: seq<K>, a: nat)
    requires |ks| == |rs|
    ensures var idx := FirstIndices(ks, |rs|);
            |UniqueByKeys(rs, ks)| == |idx| && (a < |idx| ==> UniqueByKeys(rs, ks)[a] == Normalize(rs[idx[a]]))
  {
  }

  /** Two first positions hold different keys. */
  lemma FirstIndicesDiffer<K>(ks: seq<K>, a: nat, b: nat)
    requires a < b < |FirstIndices(ks, |ks|)|
    ensures var idx := FirstIndices(ks, |ks|); ks[idx[a]] != ks[idx[b]]
  {
    var idx := FirstIndices(ks, |ks|);
    assert idx[a] < idx[b] && IsFirst(ks, idx[b]);
    assert ks[idx[a]] == ks[..idx[b]][idx[a]];
  }

  /** Every key has a first position. */
  lemma FirstIndicesCover<K>(ks: seq<K>, k: nat) returns (a: nat)
    requires k < |ks|
    ensures var idx := FirstIndices(ks, |ks|); a < |idx| && ks[idx[a]] == ks[k]
  {
    var idx := FirstIndices(ks, |ks|);
    var f := FindIndex(ks, ks[k]);
    assert IsFirst(ks, f);
    a :| 0 <= a < |idx| && idx[a] == f;
  }

  /**
   * The kept results are exactly the first result of every key: one per key, in input order,
   * and every key of the input is represented.
   */
  lemma UniqueByKeysOnePerKey<K>(rs: seq<seq<Unit>>, ks: seq<K>)
    requires |ks| == |rs|
    ensures var idx := FirstIndices(ks, |rs|);
            && |UniqueByKeys(rs, ks)| == |idx|
            && (forall a :: 0 <= a < |idx| ==> UniqueByKeys(rs, ks)[a] == Normalize(rs[idx[a]]))
            && (forall a, b :: 0 <= a < b < |idx| ==> idx[a] < idx[b] && ks[idx[a]] != ks[idx[b]])
            && (forall k :: 0 <= k < |rs| ==> exists a :: 0 <= a < |idx| && ks[idx[a]] == ks[k])
  {
    var idx := FirstIndices(ks, |rs|);
    UniqueByKeysAt(rs, ks, 0);
    forall a | 0 <= a < |idx| ensures UniqueByKeys(rs, ks)[a] == Normalize(rs[idx[a]]) {
      UniqueByKeysAt(rs, ks, a);
    }
    forall a, b | 0 <= a < b < |idx| ensures ks[idx[a]] != ks[idx[b]] {
      FirstIndicesDiffer(ks, a, b);
    }
    forall k | 0 <= k < |rs| ensures exists a :: 0 <= a < |idx| && ks[idx[a]] == ks[k] {
      var a := FirstIndicesCover(ks, k);
      assert 0 <= a < |idx| && ks[idx[a]] == ks[k];
    }
  }

  /** `uniqueResults` with the key it is meant to compute. */
  function UniqueResults(rs: seq<seq<Unit>>): (r: seq<seq<Unit>>)
    ensures |r| <= |rs|
    ensures |rs| > 0 ==> |r| > 0
    ensures forall a :: 0 <= a < |r| ==>
              exists k :: 0 <= k < |rs| && r[a] == Normalize(rs[k]) &&
                forall j :: 0 <= j < k ==> multiset(rs[j]) != multiset(rs[k])
  {
    UniqueByKeys(rs, Keys(rs))
  }

  /** `uniqueResults` as written, with the key it computes. */
  function UniqueResultsAsWritten(rs: seq<seq<Unit>>): seq<seq<Unit>>
  {
    UniqueByKeys(rs, LabelOrderKeys(rs))
  }

  /** Of two results, the second is kept exactly when its key differs from the first's. */
  lemma FirstIndicesOfTwo<K>(ks: seq<K>)
    requires |ks| == 2
    ensures FirstIndices(ks, 2) == if ks[0] == ks[1] then [0] else [0, 1]
  {
    assert FirstIndices(ks, 0) == [];
    assert FindIndex(ks, ks[0]) == 0;
    assert FirstIndices(ks, 1) == [0];
    if ks[0] == ks[1] {
      assert FindIndex(ks, ks[1]) == 0;
    } else {
      assert ks[1..] == [ks[1]];
      assert FindIndex(ks[1..], ks[1]) == 0;
      assert FindIndex(ks, ks[1]) == 1;
    }
  }

  /** Two groups with one label: label order keeps the order they are listed in. */
  lemma LabelOrderKeyOfEqualLabels(g1: Unit, g2: Unit)
    requires g1.name == g2.name && |g1.tileIdentifiers| > 0
    ensures |LabelOrderKey([g1, g2])| > 0 && LabelOrderKey([g1, g2])[0] == g1.tileIdentifiers[0]
  {
    LabelLtIrreflexive(g1.name);
    assert [g1, g2][1..] == [g2];
    assert SortBy([g1, g2], ByLabel) == [g1, g2];
  }

  /**
   * The key of a split led by `u` and followed by two equally labelled groups: the two groups
   * keep their order, and `u` goes in front of them unless its label sorts after theirs.
   */
  lemma LabelOrderKeyAfterLead(u: Unit, g1: Unit, g2: Unit)
    requires g1.name == g2.name
    ensures LabelOrderKey([u, g1, g2]) ==
            if ByLabel(g1, u) then g1.tileIdentifiers + g2.tileIdentifiers + u.tileIdentifiers
            else u.tileIdentifiers + g1.tileIdentifiers + g2.tileIdentifiers
  {
    LabelLtIrreflexive(g1.name);
    assert [u, g1, g2][1..] == [g1, g2];
    assert [g1, g2][1..] == [g2];
    assert SortBy([g2], ByLabel) == [g2];
    assert SortBy([g1, g2], ByLabel) == [g1, g2];
    var sorted := SortBy([u, g1, g2], ByLabel);
    if ByLabel(g1, u) {
      assert Insert(u, [g2], ByLabel) == [g2, u];
      assert sorted == [g1, g2, u];
      assert Flatten([u]) == u.tileIdentifiers;
      assert Flatten([g2, u]) == g2.tileIdentifiers + u.tileIdentifiers;
    } else {
      assert sorted == [u, g1, g2];
      assert Flatten([g2]) == g2.tileIdentifiers;
      assert Flatten([g1, g2]) == g1.tileIdentifiers + g2.tileIdentifiers;
    }
  }

  /** With the key `uniqueResults` computes, two results with different keys are both reported. */
  lemma AsWrittenKeepsBoth(r1: seq<Unit>, r2: seq<Unit>)
    requires LabelOrderKey(r1) != LabelOrderKey(r2)
    ensures |UniqueResultsAsWritten([r1, r2])| == 2
  {
    var rs := [r1, r2];
    UniqueByKeysOnePerKey(rs, LabelOrderKeys(rs));
    FirstIndicesOfTwo(LabelOrderKeys(rs));
  }

  /** With the intended key, of two results listing the same groups only the first is reported. */
  lemma IntendedKeepsOne(r1: seq<Unit>, r2: seq<Unit>)
    requires Key(r1) == Key(r2)
    ensures |UniqueResults([r1, r2])| == 1
  {
    var rs := [r1, r2];
    UniqueByKeysOnePerKey(rs, Keys(rs));
    FirstIndicesOfTwo(Keys(rs));
  }

  /**
   * Two results `[u, g1, g2]` and `[u, g2, g1]` listing the same equally labelled groups
   * after the same lead unit (as the 5スター search finds when the four tiles left over
   * split into two pairs a fallback group covers): the key `uniqueResults` computes tells
   * them apart, so the same split is reported twice, while the intended key keeps one.
   */
  lemma LabelOrderKeyKeepsDuplicate(u: Unit, g1: Unit, g2: Unit)
    requires g1.name == g2.name && |g1.tileIdentifiers| > 0 && |g2.tileIdentifiers| > 0
    requires g1.tileIdentifiers[0] != g2.tileIdentifiers[0]
    ensures Key([u, g1, g2]) == Key([u, g2, g1])
    ensures LabelOrderKey([u, g1, g2]) != LabelOrderKey([u, g2, g1])
    ensures |UniqueResultsAsWritten([[u, g1, g2], [u, g2, g1]])| == 2
    ensures |UniqueResults([[u, g1, g2], [u, g2, g1]])| == 1
  {
    LabelOrderKeyAfterLead(u, g1, g2);
    LabelOrderKeyAfterLead(u, g2, g1);
    var k1 := LabelOrderKey([u, g1, g2]);
    var k2 := LabelOrderKey([u, g2, g1]);
    var at := if ByLabel(g1, u) then 0 else |u.tileIdentifiers|;
    assert k1[at] == g1.tileIdentifiers[0] && k2[at] == g2.tileIdentifiers[0];
    AsWrittenKeepsBoth([u, g1, g2], [u, g2, g1]);
    assert Key([u, g1, g2]) == Key([u, g2, g1]);
    IntendedKeepsOne([u, g1, g2], [u, g2, g1]);
  }

  /** The key as written of a result whose first group's label sorts before the other two. */
  lemma LabelOrderKeyAfterFirst(u: Unit, x: Unit, y: Unit)
    requires ByLabel(u, x) && ByLabel(u, y)
    ensures LabelOrderKey([u, x, y]) ==
            u.tileIdentifiers + if ByLabel(y, x) then y.tileIdentifiers + x.tileIdentifiers
                                else x.tileIdentifiers + y.tileIdentifiers
  {
    LabelLtAsymmetric(u.name, x.name);
    LabelLtAsymmetric(u.name, y.name);
    assert [u, x, y][1..] == [x, y];
    assert [x, y][1..] == [y];
    assert SortBy([y], ByLabel) == [y];
    var pair := if ByLabel(y, x) then [y, x] else [x, y];
    assert Insert(x, [y], ByLabel) == pair;
    assert SortBy([u, x, y], ByLabel) == [u] + pair;
    assert Flatten([pair[1]]) == pair[1].tileIdentifiers;
    assert Flatten(pair) == pair[0].tileIdentifiers + pair[1].tileIdentifiers;
    assert Flatten([u] + pair) == u.tileIdentifiers + Flatten(pair);
  }

  /** With the key `uniqueResults` computes, of two results with one key only the first is reported. */
  lemma AsWrittenMergesEqualKeys(r1: seq<Unit>, r2: seq<Unit>)
    requires LabelOrderKey(r1) == LabelOrderKey(r2)
    ensures |UniqueResultsAsWritten([r1, r2])| == 1
  {
    var rs := [r1, r2];
    UniqueByKeysOnePerKey(rs, LabelOrderKeys(rs));
    FirstIndicesOfTwo(LabelOrderKeys(rs));
  }

  /** With the intended key, two results listing different groups are both reported. */
  lemma IntendedKeepsBoth(r1: seq<Unit>, r2: seq<Unit>)
    requires Key(r1) != Key(r2)
    ensures |UniqueResults([r1, r2])| == 2
  {
    var rs := [r1, r2];
    UniqueByKeysOnePerKey(rs, Keys(rs));
    FirstIndicesOfTwo(Keys(rs));
  }

  /**
   * Two results `[u, r1, p1]` and `[u, r2, p2]` whose groups, taken in label order, list the
   * same tiles in the same order: the key `uniqueResults` computes has no group boundaries, so
   * it takes them for one and reports only the first, although they list different groups;
   * the intended key reports both.
   */
  lemma LabelOrderKeyMergesSplits(u: Unit, p1: Unit, r1: Unit, p2: Unit, r2: Unit)
    requires ByLabel(u, p1) && ByLabel(p1, r1) && ByLabel(u, r2) && ByLabel(r2, p2)
    requires p1.tileIdentifiers + r1.tileIdentifiers == r2.tileIdentifiers + p2.tileIdentifiers
    requires p1 != r2 && p1 != p2
    ensures LabelOrderKey([u, r1, p1]) == LabelOrderKey([u, r2, p2])
    ensures Key([u, r1, p1]) != Key([u, r2, p2])
    ensures |UniqueResultsAsWritten([[u, r1, p1], [u, r2, p2]])| == 1
    ensures |UniqueResults([[u, r1, p1], [u, r2, p2]])| == 2
  {
    LabelLtTransitive(u.name, p1.name, r1.name);
    LabelLtAsymmetric(p1.name, r1.name);
    LabelLtTransitive(u.name, r2.name, p2.name);
    LabelLtAsymmetric(r2.name, p2.name);
    LabelLtIrreflexive(u.name);
    LabelOrderKeyAfterFirst(u, r1, p1);
    LabelOrderKeyAfterFirst(u, r2, p2);
    assert multiset([u, r1, p1])[p1] > 0 && multiset([u, r2, p2])[p1] == 0;
    AsWrittenMergesEqualKeys([u, r1, p1], [u, r2, p2]);
    IntendedKeepsBoth([u, r1, p1], [u, r2, p2]);
  }

  /**
   * A merge on labels that every collation orders alike (`0`, `A`, `B`, `C`, `D`): after a
   * four-member unit `0`, the tiles `201`–`205` split as triple `B` with pair `A`, and as triple
   * `C` with pair `D`.
   */
  const MergeLead := Unit("0", 4, ["101", "102", "103", "104"])
  const MergePairA := Unit("A", 2, ["201", "202"])
  const MergeTripleB := Unit("B", 3, ["203", "204", "205"])
  const MergeTripleC := Unit("C", 3, ["201", "202", "203"])
  const MergePairD := Unit("D", 2, ["204", "205"])

  lemma MergeLabelsOrdered()
    ensures ByLabel(MergeLead, MergePairA) && ByLabel(MergePairA, MergeTripleB)
    ensures ByLabel(MergeLead, MergeTripleC) && ByLabel(MergeTripleC, MergePairD)
  {
  }

  /**
   * Both splits list `0`'s tiles, then `A`'s and `B`'s (`201` to `205`), so the key as written
   * keeps one of them.
   */
  lemma LabelOrderKeyMergesWitness()
    ensures LabelOrderKey([MergeLead, MergeTripleB, MergePairA]) == LabelOrderKey([MergeLead, MergeTripleC, MergePairD])
    ensures |UniqueResultsAsWritten([[MergeLead, MergeTripleB, MergePairA], [MergeLead, MergeTripleC, MergePairD]])| == 1
    ensures |UniqueResults([[MergeLead, MergeTripleB, MergePairA], [MergeLead, MergeTripleC, MergePairD]])| == 2
  {
    MergeLabelsOrdered();
    LabelOrderKeyMergesSplits(MergeLead, MergePairA, MergeTripleB, MergePairD, MergeTripleC);
  }

  /** A kept result lists the same groups as the first result of its key. */
  lemma UniqueResultsAt(rs: seq<seq<Unit>>, a: nat)
    requires a < |UniqueResults(rs)|
    ensures var idx := FirstIndices(Keys(rs), |rs|);
            a < |idx| && multiset(UniqueResults(rs)[a]) == Key(rs[idx[a]])
  {
    UniqueByKeysAt(rs, Keys(rs), a);
    NormalizeOrders(rs[FirstIndices(Keys(rs), |rs|)[a]]);
  }

  /** Two kept results never list the same groups. */
  lemma UniqueResultsDiffer(rs: seq<seq<Unit>>, a: nat, b: nat)
    requires a < b < |UniqueResults(rs)|
    ensures multiset(UniqueResults(rs)[a]) != multiset(UniqueResults(rs)[b])
  {
    UniqueByKeysAt(rs, Keys(rs), b);
    FirstIndicesDiffer(Keys(rs), a, b);
    UniqueResultsAt(rs, a);
    UniqueResultsAt(rs, b);
  }

  /** Every result found lists the same groups as some kept result. */
  lemma UniqueResultsCover(rs: seq<seq<Unit>>, k: nat) returns (a: nat)
    requires k < |rs|
    ensures a < |UniqueResults(rs)| && multiset(UniqueResults(rs)[a]) == multiset(rs[k])
  {
    a := FirstIndicesCover(Keys(rs), k);
    UniqueByKeysAt(rs, Keys(rs), a);
    UniqueResultsAt(rs, a);
  }

  /**
   * With the intended key, no two reported results list the same groups, and every result
   * found lists the same groups as a reported one.
   */
  lemma UniqueResultsDistinctGroups(rs: seq<seq<Unit>>)
    ensures Distinct(Keys(UniqueResults(rs)))
    ensures forall k :: 0 <= k < |rs| ==> Key(rs[k]) in Keys(UniqueResults(rs))
  {
    var kept := UniqueResults(rs);
    forall a, b | 0 <= a < b < |kept| ensures Keys(kept)[a] != Keys(kept)[b] {
      UniqueResultsDiffer(rs, a, b);
    }
    forall k | 0 <= k < |rs| ensures Key(rs[k]) in Keys(kept) {
      var a := UniqueResultsCover(rs, k);
      assert Keys(kept)[a] == Key(rs[k]);
    }
  }

  /**
   * `results.length ? this.uniqueResults(results) : false`: nothing found is no result;
   * otherwise every kept split is reported under the pattern's name and score.
   */
  function Conclude(name: string, score: int, splits: seq<seq<Unit>>): (r: Option<seq<WinResult>>)
    ensures r.Some? <==> |splits| > 0
    ensures r.Some? ==> |r.value| > 0
    ensures r.Some? ==> forall a :: 0 <= a < |r.value| ==>
              && r.value[a].name == name && r.value[a].score == score
              && exists k :: 0 <= k < |splits| && r.value[a].payload == Units(Normalize(splits[k])) &&
                   forall j :: 0 <= j < k ==> multiset(splits[j]) != multiset(splits[k])
  {
    if |splits| == 0 then None
    else
      var kept := UniqueResults(splits);
      Some(seq(|kept|, a requires 0 <= a < |kept| => WinResult(name, score, Units(kept[a]))))
  }

  /** Each reported entry comes from one of the splits, under the pattern's name and score. */
  lemma ConcludeEntry(name: string, score: int, splits: seq<seq<Unit>>, w: WinResult) returns (k: nat)
    requires Conclude(name, score, splits).Some? && w in Conclude(name, score, splits).value
    ensures k < |splits| && w == WinResult(name, score, Units(Normalize(splits[k])))
  {
    var r := Conclude(name, score, splits).value;
    var a :| 0 <= a < |r| && r[a] == w;
    k :| 0 <= k < |splits| && r[a].payload == Units(Normalize(splits[k]));
  }
}
