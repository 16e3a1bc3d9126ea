/**
 * The finish patterns that split the hand into groups: 5スター (a five-member unit and two
 * sets), カルテット (a four-member unit and two sets), ノーマルライブ (a three-member unit and
 * two sets of three), スタートダッシュ (a three-member unit, a two-member unit and two sets)
 * and トリコロール (three three-member units). Each search walks the catalog units and the
 * index pairs or triples of what remains, in the source's loop order, and collects every
 * split it finds.
 */
module FinishSearch {
  import opened Common
  import opened Catalog
  import opened FinishMatch
  import opened FinishResults
  import opened Loops

  /** Every catalog unit lists at most as many tiles as it has members. */
  predicate WellFormedUnits(units: seq<Unit>)
  {
    forall u :: u in units ==> |u.tileIdentifiers| <= u.numOfMembers
  }

  /** What the split searches need of a hand: nine distinct catalog tiles. */
  predicate HandReady(units: seq<Unit>, catalog: seq<Tile>, hand: seq<string>)
  {
    |hand| == 9 && Distinct(hand) && AllKnown(catalog, hand) && WellFormedUnits(units)
  }

  /** A pool of tiles to split further: distinct catalog tiles, at least `min` of them. */
  predicate PoolReady(catalog: seq<Tile>, pool: seq<string>, min: int)
  {
    Distinct(pool) && AllKnown(catalog, pool) && |pool| >= min
  }

  /** `units.filter(unit => unit.numOfMembers === n)`. */
  function OfSize(units: seq<Unit>, n: int): (r: seq<Unit>)
    ensures forall u :: u in r <==> u in units && u.numOfMembers == n
  {
    if units == [] then []
    else
      assert forall u :: u in units <==> u == units[0] || u in units[1..];
      (if units[0].numOfMembers == n then [units[0]] else []) + OfSize(units[1..], n)
  }

  /** `getMatchedUnit` is called only on non-empty sets of catalog tiles, where it cannot fail. */
  lemma SubsetSafe(units: seq<Unit>, catalog: seq<Tile>, pool: seq<string>, subset: seq<string>)
    requires AllKnown(catalog, pool) && |subset| > 0
    requires forall t :: t in subset ==> t in pool
    ensures NoCrash(units, catalog, subset)
  {
    FirstKnownExists(catalog, subset);
  }

  /** Taking a found unit's tiles out of a ready pool leaves a ready pool, smaller by at most the unit's size. */
  lemma RestReady(units: seq<Unit>, catalog: seq<Tile>, pool: seq<string>, min: int, u: Unit)
    requires WellFormedUnits(units) && u in units && PoolReady(catalog, pool, min)
    ensures PoolReady(catalog, Remove(pool, u.tileIdentifiers), min - u.numOfMembers)
  {
    RemoveSize(pool, u.tileIdentifiers);
    RemoveMembers(pool, u.tileIdentifiers);
  }

  /** A group the checker accepts: `getMatchedUnit` of its tiles returns exactly it. */
  predicate IsGroup(units: seq<Unit>, catalog: seq<Tile>, g: Unit)
  {
    NoCrash(units, catalog, g.tileIdentifiers) && GetMatchedUnit(units, catalog, g.tileIdentifiers) == Some(g)
  }

  /** Every tile of every part is in the pool, and no tile is in two parts. */
  ghost predicate Separate(pool: seq<string>, parts: seq<seq<string>>)
  {
    && (forall p, t :: p in parts && t in p ==> t in pool)
    && (forall a, b, t :: 0 <= a < b < |parts| && t in parts[a] ==> t !in parts[b])
  }

  /** The parts are separate and together hold every tile of the pool. */
  ghost predicate Partition(pool: seq<string>, parts: seq<seq<string>>)
  {
    Separate(pool, parts) && forall t :: t in pool ==> exists p :: p in parts && t in p
  }

  /** Taking a part out of a pool and separating the rest separates the pool. */
  lemma SeparateLift(pool: seq<string>, ids: seq<string>, parts: seq<seq<string>>)
    requires Within(ids, pool) && Separate(Remove(pool, ids), parts)
    ensures Separate(pool, [ids] + parts)
  {
    var all := [ids] + parts;
    RemoveMembers(pool, ids);
    forall p, t | p in all && t in p ensures t in pool {
      if p != ids {
        assert p in parts;
      }
    }
    forall a, b, t | 0 <= a < b < |all| && t in all[a] ensures t !in all[b] {
      if a == 0 {
        assert all[b] == parts[b - 1];
        assert Found(ids, t) && t !in Remove(pool, ids);
        assert all[b] in parts;
      } else {
        assert all[a] == parts[a - 1] && all[b] == parts[b - 1];
      }
    }
  }

  /** Taking a part out of a pool and partitioning the rest partitions the pool. */
  lemma PartitionLift(pool: seq<string>, ids: seq<string>, parts: seq<seq<string>>)
    requires Within(ids, pool) && Partition(Remove(pool, ids), parts)
    ensures Partition(pool, [ids] + parts)
  {
    SeparateLift(pool, ids, parts);
    RemoveMembers(pool, ids);
    var all := [ids] + parts;
    forall t | t in pool ensures exists p :: p in all && t in p {
      if Found(ids, t) {
        assert all[0] == ids;
      } else {
        assert t in Remove(pool, ids);
        var p :| p in parts && t in p;
        assert p in all;
      }
    }
  }

  /** Where the matched set stands in the reported list: before or after the remaining group. */
  datatype Arrangement = GroupFirst | GroupLast

  function Arrange(front: seq<Unit>, arr: Arrangement, g: Unit, last: Unit): (r: seq<Unit>)
    ensures |r| == |front| + 2 && r[..|front|] == front
    ensures arr == GroupFirst ==> r[|front|] == g && r[|front| + 1] == last
    ensures arr == GroupLast ==> r[|front|] == last && r[|front| + 1] == g
  {
    front + (if arr == GroupFirst then [g, last] else [last, g])
  }

  // ---------------------------------------------------------------------------------------
  // One iteration of the index loops: match the chosen tiles, then everything else in the pool.

  /** The split one iteration pushes, if any: the chosen tiles as a group and the rest of the pool as another. */
  function SplitCell(units: seq<Unit>, catalog: seq<Tile>, front: seq<Unit>, arr: Arrangement,
                     pool: seq<string>, subset: seq<string>): seq<seq<Unit>>
  {
    match Match(units, catalog, subset)
    case None => []
    case Some(g) =>
      match Match(units, catalog, Remove(pool, g.tileIdentifiers))
      case None => []
      case Some(last) => [Arrange(front, arr, g, last)]
  }

  /**
   * Both `getMatchedUnit` calls of an iteration are safe: the one on the chosen tiles, and,
   * when they match, the one on the rest of the pool. So `SplitCell`, which reads a failing
   * call as no group, is what the source computes.
   */
  lemma SplitCellSafe(units: seq<Unit>, catalog: seq<Tile>, pool: seq<string>, subset: seq<string>)
    requires PoolReady(catalog, pool, |subset| + 1) && |subset| > 0
    requires forall t :: t in subset ==> t in pool
    ensures NoCrash(units, catalog, subset)
    ensures var g := GetMatchedUnit(units, catalog, subset);
      g.Some? ==> NoCrash(units, catalog, Remove(pool, g.value.tileIdentifiers))
  {
    SubsetSafe(units, catalog, pool, subset);
    var g := GetMatchedUnit(units, catalog, subset);
    if g.Some? {
      var rest := Remove(pool, g.value.tileIdentifiers);
      RemoveSize(pool, subset);
      RemoveMembers(pool, subset);
      SubsetSafe(units, catalog, pool, rest);
    }
  }

  /**
   * A split of a pool into a matched set of `setSize` tiles and a matched rest, listed after
   * `front` as `arr` says.
   */
  ghost predicate SetsSplit(units: seq<Unit>, catalog: seq<Tile>, front: seq<Unit>, arr: Arrangement,
                            setSize: int, pool: seq<string>, c: seq<Unit>)
  {
    exists g: Unit, last: Unit ::
      && c == Arrange(front, arr, g, last)
      && |g.tileIdentifiers| == setSize
      && IsGroup(units, catalog, g) && IsGroup(units, catalog, last)
      && Partition(pool, [g.tileIdentifiers, last.tileIdentifiers])
  }

  /** What an iteration pushes is a split of the pool, the chosen tiles forming the set. */
  lemma SplitCellSound(units: seq<Unit>, catalog: seq<Tile>, front: seq<Unit>, arr: Arrangement,
                       pool: seq<string>, subset: seq<string>, c: seq<Unit>)
    requires Within(subset, pool) && c in SplitCell(units, catalog, front, arr, pool, subset)
    ensures SetsSplit(units, catalog, front, arr, |subset|, pool, c)
  {
    var g := Match(units, catalog, subset).value;
    var rest := Remove(pool, subset);
    var last := Match(units, catalog, rest).value;
    RemoveMembers(pool, subset);
    assert c == Arrange(front, arr, g, last);
    assert Partition(rest, [rest]);
    PartitionLift(pool, subset, [rest]);
  }

  /** A matched set whose removal leaves a matched rest is pushed by the iteration that chooses it. */
  lemma SplitCellComplete(units: seq<Unit>, catalog: seq<Tile>, front: seq<Unit>, arr: Arrangement,
                          pool: seq<string>, g: Unit, last: Unit)
    requires IsGroup(units, catalog, g) && IsGroup(units, catalog, last)
    requires last.tileIdentifiers == Remove(pool, g.tileIdentifiers)
    ensures SplitCell(units, catalog, front, arr, pool, g.tileIdentifiers) == [Arrange(front, arr, g, last)]
  {
  }

  // ---------------------------------------------------------------------------------------
  // Pairs: `for (i = 0; i < length - 1; i++) for (j = i + 1; j < length; j++)`.

  /** One iteration of the pair loops, for the indices `i < j` of the pool. */
  function PairBody(units: seq<Unit>, catalog: seq<Tile>, front: seq<Unit>, arr: Arrangement,
                    pool: seq<string>): (nat, nat) -> seq<seq<Unit>>
  {
    (i: nat, j: nat) => PairCell(units, catalog, front, arr, pool, i, j)
  }

  /** What the iteration at `(i, j)` pushes; nothing outside the loops' range. */
  function PairCell(units: seq<Unit>, catalog: seq<Tile>, front: seq<Unit>, arr: Arrangement,
                    pool: seq<string>, i: nat, j: nat): seq<seq<Unit>>
  {
    if i < j < |pool| then SplitCell(units, catalog, front, arr, pool, [pool[i], pool[j]]) else []
  }

  lemma PairBodyAt(units: seq<Unit>, catalog: seq<Tile>, front: seq<Unit>, arr: Arrangement,
                    pool: seq<string>, i: nat, j: nat)
    requires i < j < |pool|
    ensures PairBody(units, catalog, front, arr, pool)(i, j) == SplitCell(units, catalog, front, arr, pool, [pool[i], pool[j]])
  {
  }

  /** Every split of the pair loops, in loop order (the row of the last index is empty). */
  function PairAll(units: seq<Unit>, catalog: seq<Tile>, front: seq<Unit>, arr: Arrangement,
                   pool: seq<string>): seq<seq<Unit>>
  {
    Table(PairBody(units, catalog, front, arr, pool), |pool|, |pool|)
  }

  /** The pair loops, collecting the splits in loop order. */
  method SearchPairs(units: seq<Unit>, catalog: seq<Tile>, front: seq<Unit>, arr: Arrangement,
                     pool: seq<string>) returns (rs: seq<seq<Unit>>)
    requires |pool| >= 3
    ensures rs == PairAll(units, catalog, front, arr, pool)
  {
    rs := TableLoop(PairBody(units, catalog, front, arr, pool), |pool|);
  }

  /** What the iteration at `i < j` pushes is a split of the pool with those tiles as the set. */
  lemma PairCellSound(units: seq<Unit>, catalog: seq<Tile>, front: seq<Unit>, arr: Arrangement,
                      pool: seq<string>, i: nat, j: nat, c: seq<Unit>)
    requires "" !in pool && i < j < |pool|
    requires c in PairBody(units, catalog, front, arr, pool)(i, j)
    ensures SetsSplit(units, catalog, front, arr, 2, pool, c)
  {
    PairBodyAt(units, catalog, front, arr, pool, i, j);
    SplitCellSound(units, catalog, front, arr, pool, [pool[i], pool[j]], c);
  }

  /** Each split of the pair search is a split of the pool into two matched tiles and a matched rest. */
  lemma PairAllSound(units: seq<Unit>, catalog: seq<Tile>, front: seq<Unit>, arr: Arrangement, pool: seq<string>)
    requires "" !in pool
    ensures forall c :: c in PairAll(units, catalog, front, arr, pool) ==> SetsSplit(units, catalog, front, arr, 2, pool, c)
  {
    ghost var body := PairBody(units, catalog, front, arr, pool);
    TableMembers(body, |pool|, |pool|);
    forall c | c in PairAll(units, catalog, front, arr, pool) ensures SetsSplit(units, catalog, front, arr, 2, pool, c) {
      var i: nat, j: nat :| i < j < |pool| && c in body(i, j);
      PairCellSound(units, catalog, front, arr, pool, i, j, c);
    }
  }

  /** The two groups of a split the pair search reports. */
  lemma PairAllWitness(units: seq<Unit>, catalog: seq<Tile>, front: seq<Unit>, arr: Arrangement,
                       pool: seq<string>, c: seq<Unit>) returns (g: Unit, last: Unit)
    requires "" !in pool && c in PairAll(units, catalog, front, arr, pool)
    ensures c == Arrange(front, arr, g, last) && |g.tileIdentifiers| == 2
    ensures IsGroup(units, catalog, g) && IsGroup(units, catalog, last)
    ensures Partition(pool, [g.tileIdentifiers, last.tileIdentifiers])
  {
    PairAllSound(units, catalog, front, arr, pool);
    g, last :| c == Arrange(front, arr, g, last) && |g.tileIdentifiers| == 2
      && IsGroup(units, catalog, g) && IsGroup(units, catalog, last)
      && Partition(pool, [g.tileIdentifiers, last.tileIdentifiers]);
  }

  /** Whatever the iteration at `i < j` pushes is reported. */
  lemma PairAllComplete(units: seq<Unit>, catalog: seq<Tile>, front: seq<Unit>, arr: Arrangement,
                        pool: seq<string>, i: nat, j: nat)
    requires i < j < |pool|
    ensures forall c :: c in SplitCell(units, catalog, front, arr, pool, [pool[i], pool[j]]) ==>
              c in PairAll(units, catalog, front, arr, pool)
  {
    ghost var body := PairBody(units, catalog, front, arr, pool);
    TableMembers(body, |pool|, |pool|);
    PairBodyAt(units, catalog, front, arr, pool, i, j);
  }

  /** A matched pair at positions `i < j` whose removal leaves a matched rest is reported. */
  lemma PairAllHas(units: seq<Unit>, catalog: seq<Tile>, front: seq<Unit>, arr: Arrangement,
                   pool: seq<string>, g: Unit, last: Unit, i: nat, j: nat)
    requires i < j < |pool| && g.tileIdentifiers == [pool[i], pool[j]]
    requires last.tileIdentifiers == Remove(pool, g.tileIdentifiers)
    requires IsGroup(units, catalog, g) && IsGroup(units, catalog, last)
    ensures Arrange(front, arr, g, last) in PairAll(units, catalog, front, arr, pool)
  {
    SplitCellComplete(units, catalog, front, arr, pool, g, last);
    PairAllComplete(units, catalog, front, arr, pool, i, j);
  }

  // ---------------------------------------------------------------------------------------
  // Triples: `for (i < length - 2) for (j = i + 1; j < length - 1) for (k = j + 1; k < length)`.

  /** One iteration of the triple loops, for the indices `i < j < k` of the pool. */
  function TripleBody(units: seq<Unit>, catalog: seq<Tile>, front: seq<Unit>, arr: Arrangement,
                      pool: seq<string>): (nat, nat, nat) -> seq<seq<Unit>>
  {
    (i: nat, j: nat, k: nat) => TripleCell(units, catalog, front, arr, pool, i, j, k)
  }

  /** What the iteration at `(i, j, k)` pushes; nothing outside the loops' range. */
  function TripleCell(units: seq<Unit>, catalog: seq<Tile>, front: seq<Unit>, arr: Arrangement,
                      pool: seq<string>, i: nat, j: nat, k: nat): seq<seq<Unit>>
  {
    if i < j < k < |pool| then SplitCell(units, catalog, front, arr, pool, [pool[i], pool[j], pool[k]]) else []
  }

  lemma TripleBodyAt(units: seq<Unit>, catalog: seq<Tile>, front: seq<Unit>, arr: Arrangement,
                      pool: seq<string>, i: nat, j: nat, k: nat)
    requires i < j < k < |pool|
    ensures TripleBody(units, catalog, front, arr, pool)(i, j, k) ==
            SplitCell(units, catalog, front, arr, pool, [pool[i], pool[j], pool[k]])
  {
  }

  /** Every split of the triple loops, in loop order (the rows the source skips are empty). */
  function TripleAll(units: seq<Unit>, catalog: seq<Tile>, front: seq<Unit>, arr: Arrangement,
                     pool: seq<string>): seq<seq<Unit>>
  {
    Cube(TripleBody(units, catalog, front, arr, pool), |pool|, |pool|)
  }

  /** The triple loops, collecting the splits in loop order. */
  method SearchTriples(units: seq<Unit>, catalog: seq<Tile>, front: seq<Unit>, arr: Arrangement,
                       pool: seq<string>) returns (rs: seq<seq<Unit>>)
    requires |pool| >= 4
    ensures rs == TripleAll(units, catalog, front, arr, pool)
  {
    rs := CubeLoop(TripleBody(units, catalog, front, arr, pool), |pool|);
  }

  /** What the iteration at `i < j < k` pushes is a split of the pool with those tiles as the set. */
  lemma TripleCellSound(units: seq<Unit>, catalog: seq<Tile>, front: seq<Unit>, arr: Arrangement,
                        pool: seq<string>, i: nat, j: nat, k: nat, c: seq<Unit>)
    requires "" !in pool && i < j < k < |pool|
    requires c in TripleBody(units, catalog, front, arr, pool)(i, j, k)
    ensures SetsSplit(units, catalog, front, arr, 3, pool, c)
  {
    TripleBodyAt(units, catalog, front, arr, pool, i, j, k);
    SplitCellSound(units, catalog, front, arr, pool, [pool[i], pool[j], pool[k]], c);
  }

  /** Each split of the triple search is a split of the pool into three matched tiles and a matched rest. */
  lemma TripleAllSound(units: seq<Unit>, catalog: seq<Tile>, front: seq<Unit>, arr: Arrangement, pool: seq<string>)
    requires "" !in pool
    ensures forall c :: c in TripleAll(units, catalog, front, arr, pool) ==> SetsSplit(units, catalog, front, arr, 3, pool, c)
  {
    ghost var body := TripleBody(units, catalog, front, arr, pool);
    CubeMembers(body, |pool|, |pool|);
    forall c | c in TripleAll(units, catalog, front, arr, pool) ensures SetsSplit(units, catalog, front, arr, 3, pool, c) {
      var i: nat, j: nat, k: nat :| i < j < k < |pool| && c in body(i, j, k);
      TripleCellSound(units, catalog, front, arr, pool, i, j, k, c);
    }
  }

  /** The two groups of a split the triple search reports. */
  lemma TripleAllWitness(units: seq<Unit>, catalog: seq<Tile>, front: seq<Unit>, arr: Arrangement,
                         pool: seq<string>, c: seq<Unit>) returns (g: Unit, last: Unit)
    requires "" !in pool && c in TripleAll(units, catalog, front, arr, pool)
    ensures c == Arrange(front, arr, g, last) && |g.tileIdentifiers| == 3
    ensures IsGroup(units, catalog, g) && IsGroup(units, catalog, last)
    ensures Partition(pool, [g.tileIdentifiers, last.tileIdentifiers])
  {
    TripleAllSound(units, catalog, front, arr, pool);
    g, last :| c == Arrange(front, arr, g, last) && |g.tileIdentifiers| == 3
      && IsGroup(units, catalog, g) && IsGroup(units, catalog, last)
      && Partition(pool, [g.tileIdentifiers, last.tileIdentifiers]);
  }

  /** Whatever the iteration at `i < j < k` pushes is reported. */
  lemma TripleAllComplete(units: seq<Unit>, catalog: seq<Tile>, front: seq<Unit>, arr: Arrangement,
                          pool: seq<string>, i: nat, j: nat, k: nat)
    requires i < j < k < |pool|
    ensures forall c :: c in SplitCell(units, catalog, front, arr, pool, [pool[i], pool[j], pool[k]]) ==>
              c in TripleAll(units, catalog, front, arr, pool)
  {
    ghost var body := TripleBody(units, catalog, front, arr, pool);
    CubeMembers(body, |pool|, |pool|);
    TripleBodyAt(units, catalog, front, arr, pool, i, j, k);
  }

  /** A matched triple at positions `i < j < k` whose removal leaves a matched rest is reported. */
  lemma TripleAllHas(units: seq<Unit>, catalog: seq<Tile>, front: seq<Unit>, arr: Arrangement,
                     pool: seq<string>, g: Unit, last: Unit, i: nat, j: nat, k: nat)
    requires i < j < k < |pool| && g.tileIdentifiers == [pool[i], pool[j], pool[k]]
    requires last.tileIdentifiers == Remove(pool, g.tileIdentifiers)
    requires IsGroup(units, catalog, g) && IsGroup(units, catalog, last)
    ensures Arrange(front, arr, g, last) in TripleAll(units, catalog, front, arr, pool)
  {
    SplitCellComplete(units, catalog, front, arr, pool, g, last);
    TripleAllComplete(units, catalog, front, arr, pool, i, j, k);
  }
}
