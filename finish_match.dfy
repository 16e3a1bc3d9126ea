/**
 * The finish checker's primitives over tile identifiers: membership as the checker tests
 * it, taking tiles out of a hand, the catalog tiles of a set of identifiers, and the group
 * matching (`getMatchedUnit`) that every split search relies on.
 */
module FinishMatch {
  import opened Common
  import opened Catalog

  /**
   * `xs.find(x => x === t)` used as a condition: `t` occurs in `xs` and is not the empty
   * string, which `find` would return but a condition reads as false.
   */
  predicate Found(xs: seq<string>, t: string)
  {
    t != "" && t in xs
  }

  /** `ids.every(id => pool.find(p => p === id))`: every identifier is found in the pool. */
  predicate Within(ids: seq<string>, pool: seq<string>)
  {
    forall id :: id in ids ==> Found(pool, id)
  }

  /**
   * `pool.filter(t => !ids.find(id => id === t))`: the tiles of the pool not found among `ids`.
   * What it keeps is stated by `RemoveMembers`, so that the searches, which call it at every
   * iteration, do not carry the quantifier.
   */
  function Remove(pool: seq<string>, ids: seq<string>): seq<string>
  {
    if pool == [] then []
    else (if Found(ids, pool[0]) then [] else [pool[0]]) + Remove(pool[1..], ids)
  }

  /** The filter keeps exactly the pool's tiles not found among `ids`, in order, and repeats nothing new. */
  lemma {:induction false} RemoveMembers(pool: seq<string>, ids: seq<string>)
    ensures forall t :: t in Remove(pool, ids) <==> t in pool && !Found(ids, t)
    ensures |Remove(pool, ids)| <= |pool|
    ensures Distinct(pool) ==> Distinct(Remove(pool, ids))
    decreases |pool|
  {
    if pool != [] {
      var rest := Remove(pool[1..], ids);
      RemoveMembers(pool[1..], ids);
      assert forall t :: t in pool <==> t == pool[0] || t in pool[1..];
      assert Distinct(pool) ==> Distinct(pool[1..]) && pool[0] !in rest;
    }
  }

  /** `RemoveMembers` for one tile. */
  lemma RemoveHas(pool: seq<string>, ids: seq<string>, t: string)
    ensures t in Remove(pool, ids) <==> t in pool && !Found(ids, t)
  {
    RemoveMembers(pool, ids);
  }

  lemma {:induction false} RemoveNothing(pool: seq<string>, ids: seq<string>)
    requires forall t :: t in pool ==> !Found(ids, t)
    ensures Remove(pool, ids) == pool
    decreases |pool|
  {
    if pool != [] {
      RemoveNothing(pool[1..], ids);
      assert pool == [pool[0]] + pool[1..];
    }
  }

  /** Taking out `[x] + ids` is taking out `ids`, then `x`. */
  lemma {:induction false} RemoveCons(pool: seq<string>, x: string, ids: seq<string>)
    ensures Remove(pool, [x] + ids) == Remove(Remove(pool, ids), [x])
    decreases |pool|
  {
    if pool != [] {
      var p, rest := pool[0], pool[1..];
      RemoveCons(rest, x, ids);
      var inner := Remove(rest, ids);
      var tail := Remove(inner, [x]);
      assert Remove(pool, [x] + ids) == (if Found([x] + ids, p) then [] else [p]) + tail;
      if Found(ids, p) {
        assert Found([x] + ids, p);
        assert Remove(pool, ids) == inner;
      } else {
        var q := [p] + inner;
        assert Remove(pool, ids) == q;
        assert q[0] == p && q[1..] == inner;
        assert Remove(q, [x]) == (if Found([x], p) then [] else [p]) + tail;
        assert Found([x] + ids, p) == Found([x], p);
      }
    }
  }

  /** From a sequence without repetitions one identifier takes out at most one tile. */
  lemma {:induction false} RemoveOne(pool: seq<string>, x: string)
    requires Distinct(pool)
    ensures |Remove(pool, [x])| >= |pool| - 1
    decreases |pool|
  {
    if pool != [] {
      assert Distinct(pool[1..]);
      if Found([x], pool[0]) {
        assert pool[0] == x && x !in pool[1..];
        RemoveNothing(pool[1..], [x]);
      } else {
        RemoveOne(pool[1..], x);
      }
    }
  }

  /** An identifier that is present takes out at least one tile. */
  lemma {:induction false} RemovePresent(pool: seq<string>, x: string)
    requires x in pool && x != ""
    ensures |Remove(pool, [x])| < |pool|
    decreases |pool|
  {
    RemoveMembers(pool[1..], [x]);
    if pool[0] != x {
      RemovePresent(pool[1..], x);
    }
  }

  /** From a hand without repetitions, `k` identifiers take out at most `k` tiles. */
  lemma {:induction false} RemoveSize(pool: seq<string>, ids: seq<string>)
    requires Distinct(pool)
    ensures |Remove(pool, ids)| >= |pool| - |ids|
    decreases |ids|
  {
    if ids == [] {
      RemoveNothing(pool, ids);
    } else {
      RemoveSize(pool, ids[1..]);
      assert ids == [ids[0]] + ids[1..];
      RemoveCons(pool, ids[0], ids[1..]);
      RemoveMembers(pool, ids[1..]);
      RemoveOne(Remove(pool, ids[1..]), ids[0]);
    }
  }

  /**
   * `this.idols.filter(idol => ids.find(id => id === idol.identifier))`, in catalog order.
   * Its meaning is the lemma below rather than a postcondition, which would be instantiated
   * at every group match.
   */
  function KnownTiles(catalog: seq<Tile>, ids: seq<string>): seq<Tile>
  {
    if catalog == [] then []
    else (if Found(ids, catalog[0].identifier) then [catalog[0]] else []) + KnownTiles(catalog[1..], ids)
  }

  /** The known tiles are exactly the catalog tiles whose identifier is found among `ids`. */
  lemma {:induction false} KnownTilesMembers(catalog: seq<Tile>, ids: seq<string>)
    ensures forall t :: t in KnownTiles(catalog, ids) <==> t in catalog && Found(ids, t.identifier)
    decreases |catalog|
  {
    if catalog != [] {
      KnownTilesMembers(catalog[1..], ids);
      assert forall t :: t in catalog <==> t == catalog[0] || t in catalog[1..];
    }
  }

  /** The tile catalog holds a tile with this (non-empty) identifier. */
  predicate Known(catalog: seq<Tile>, x: string)
  {
    x != "" && exists t :: t in catalog && t.identifier == x
  }

  predicate AllKnown(catalog: seq<Tile>, xs: seq<string>)
  {
    forall x :: x in xs ==> Known(catalog, x)
  }

  lemma KnownTilesNonEmpty(catalog: seq<Tile>, xs: seq<string>)
    requires AllKnown(catalog, xs) && |xs| > 0
    ensures |KnownTiles(catalog, xs)| > 0
  {
    assert Known(catalog, xs[0]);
    var t :| t in catalog && t.identifier == xs[0];
    KnownTilesMembers(catalog, xs);
    assert t in KnownTiles(catalog, xs);
  }

  /** All given tiles share one type and one status. */
  predicate SharedKind(idols: seq<Tile>)
  {
    forall a, b :: a in idols && b in idols ==> a.idolType == b.idolType && a.idolStatus == b.idolStatus
  }

  /** The source's form of the test: every tile agrees with the first one. */
  predicate SameAsFirst(idols: seq<Tile>)
  {
    forall i :: 0 <= i < |idols| ==>
      idols[i].idolType == idols[0].idolType && idols[i].idolStatus == idols[0].idolStatus
  }

  lemma SameAsFirstIsSharedKind(idols: seq<Tile>)
    ensures SameAsFirst(idols) <==> SharedKind(idols)
  {
    if SameAsFirst(idols) {
      forall a, b | a in idols && b in idols
        ensures a.idolType == b.idolType && a.idolStatus == b.idolStatus
      {
        var i :| 0 <= i < |idols| && idols[i] == a;
        var j :| 0 <= j < |idols| && idols[j] == b;
      }
    }
  }

  /** A catalog unit fits a subset when its size is the subset's and it holds every subset tile. */
  predicate Fits(u: Unit, subset: seq<string>)
  {
    u.numOfMembers == |subset| && Within(subset, u.tileIdentifiers)
  }

  /**
   * `units.filter(size).find(holds every tile)`: the first fitting catalog unit. What it finds is
   * stated by `FirstFittingMeaning`.
   */
  function FirstFitting(units: seq<Unit>, subset: seq<string>): Option<Unit>
  {
    if units == [] then None
    else if Fits(units[0], subset) then Some(units[0])
    else FirstFitting(units[1..], subset)
  }

  /** No unit fits, or the result is the first unit that fits. */
  lemma {:induction false} FirstFittingMeaning(units: seq<Unit>, subset: seq<string>)
    ensures var r := FirstFitting(units, subset);
      && (r.None? <==> forall u :: u in units ==> !Fits(u, subset))
      && (r.Some? ==> exists k :: 0 <= k < |units| && units[k] == r.value && Fits(r.value, subset) &&
                        forall j :: 0 <= j < k ==> !Fits(units[j], subset))
    decreases |units|
  {
    if units != [] && !Fits(units[0], subset) {
      FirstFittingMeaning(units[1..], subset);
      assert forall u :: u in units ==> u == units[0] || u in units[1..];
      var r := FirstFitting(units[1..], subset);
      if r.Some? {
        var k :| 0 <= k < |units[1..]| && units[1..][k] == r.value && Fits(r.value, subset) &&
                 forall j :: 0 <= j < k ==> !Fits(units[1..][j], subset);
        assert units[k + 1] == r.value;
        assert forall j :: 0 < j < k + 1 ==> units[j] == units[1..][j - 1];
      }
    }
  }

  /** `idols[0]` of `KnownTiles`: the first catalog tile whose identifier is found among the subset. */
  function FirstKnown(catalog: seq<Tile>, subset: seq<string>): Option<Tile>
  {
    if catalog == [] then None
    else if Found(subset, catalog[0].identifier) then Some(catalog[0])
    else FirstKnown(catalog[1..], subset)
  }

  lemma {:induction false} FirstKnownIsFirst(catalog: seq<Tile>, subset: seq<string>)
    ensures FirstKnown(catalog, subset).Some? <==> |KnownTiles(catalog, subset)| > 0
    ensures FirstKnown(catalog, subset).Some? ==> FirstKnown(catalog, subset).value == KnownTiles(catalog, subset)[0]
    decreases |catalog|
  {
    if catalog != [] && !Found(subset, catalog[0].identifier) {
      FirstKnownIsFirst(catalog[1..], subset);
    }
  }

  /** A non-empty set of catalog tiles has a first known tile. */
  lemma FirstKnownExists(catalog: seq<Tile>, xs: seq<string>)
    requires AllKnown(catalog, xs) && |xs| > 0
    ensures FirstKnown(catalog, xs).Some?
  {
    KnownTilesNonEmpty(catalog, xs);
    FirstKnownIsFirst(catalog, xs);
  }

  /** `idols.every(idol => same type and status as t)`, walking the catalog instead of the filtered list. */
  function AllOfKind(catalog: seq<Tile>, subset: seq<string>, t: Tile): bool
  {
    catalog == [] ||
    ((Found(subset, catalog[0].identifier) ==>
        catalog[0].idolType == t.idolType && catalog[0].idolStatus == t.idolStatus) &&
     AllOfKind(catalog[1..], subset, t))
  }

  lemma {:induction false} AllOfKindMeaning(catalog: seq<Tile>, subset: seq<string>, t: Tile)
    ensures AllOfKind(catalog, subset, t) <==>
            forall o :: o in KnownTiles(catalog, subset) ==> o.idolType == t.idolType && o.idolStatus == t.idolStatus
    decreases |catalog|
  {
    if catalog != [] {
      AllOfKindMeaning(catalog[1..], subset, t);
      assert forall o :: o in KnownTiles(catalog, subset) <==>
        (Found(subset, catalog[0].identifier) && o == catalog[0]) || o in KnownTiles(catalog[1..], subset);
    }
  }

  /** `getMatchedUnit` reads `idols[0]` only when no catalog unit fits; it must exist then. */
  predicate NoCrash(units: seq<Unit>, catalog: seq<Tile>, subset: seq<string>)
  {
    FirstFitting(units, subset).Some? || FirstKnown(catalog, subset).Some?
  }

  /** The label of a generic group: `汎用` followed by type and status. */
  function GenericLabel(t: Tile): string
  {
    "汎用" + TypeName(t.idolType) + StatusName(t.idolStatus)
  }

  /**
   * `getMatchedUnit`: a group is formed from exactly the given tiles, with as many members
   * as there are tiles. `GetMatchedUnitMeaning` says when and under which label.
   */
  function GetMatchedUnit(units: seq<Unit>, catalog: seq<Tile>, subset: seq<string>): (r: Option<Unit>)
    requires NoCrash(units, catalog, subset)
    ensures r.Some? ==> r.value.tileIdentifiers == subset && r.value.numOfMembers == |subset|
  {
    match FirstFitting(units, subset)
    case Some(u) =>
      FirstFittingMeaning(units, subset);
      Some(Unit(u.name, u.numOfMembers, subset))
    case None =>
      var t := FirstKnown(catalog, subset).value;
      if AllOfKind(catalog, subset, t) then Some(Unit(GenericLabel(t), |subset|, subset)) else None
  }

  /**
   * `getMatchedUnit` made total: where the source would read the first of no tiles (and
   * throw) there is no group. The searches call it only where that cannot happen.
   */
  function Match(units: seq<Unit>, catalog: seq<Tile>, subset: seq<string>): Option<Unit>
  {
    if NoCrash(units, catalog, subset) then GetMatchedUnit(units, catalog, subset) else None
  }

  /**
   * The source's own form of `getMatchedUnit`, on the filtered tile list: it cannot crash
   * exactly when a unit fits or some tile is known; a fitting unit lends its label; otherwise
   * the group is generic, labelled after `idols[0]`, when every known tile agrees with it.
   * Hence the subset forms a group exactly when a catalog unit of its size holds all of it, or
   * when all of its catalog tiles share type and status.
   */
  lemma GetMatchedUnitMeaning(units: seq<Unit>, catalog: seq<Tile>, subset: seq<string>)
    ensures NoCrash(units, catalog, subset) <==>
            FirstFitting(units, subset).Some? || |KnownTiles(catalog, subset)| > 0
    ensures NoCrash(units, catalog, subset) ==>
      var r := GetMatchedUnit(units, catalog, subset);
      var fit := FirstFitting(units, subset);
      var idols := KnownTiles(catalog, subset);
      && (fit.Some? ==> r == Some(Unit(fit.value.name, fit.value.numOfMembers, subset)))
      && (fit.None? ==> |idols| > 0)
      && (fit.None? ==>
            r == if SameAsFirst(idols) then Some(Unit(GenericLabel(idols[0]), |subset|, subset)) else None)
      && (r.Some? <==> (exists u :: u in units && Fits(u, subset)) || SharedKind(idols))
  {
    FirstFittingMeaning(units, subset);
    FirstKnownIsFirst(catalog, subset);
    var idols := KnownTiles(catalog, subset);
    SameAsFirstIsSharedKind(idols);
    if FirstFitting(units, subset).None? && |idols| > 0 {
      AllOfKindMeaning(catalog, subset, idols[0]);
      assert SameAsFirst(idols) <==> forall o :: o in idols ==>
        o.idolType == idols[0].idolType && o.idolStatus == idols[0].idolStatus;
    }
  }
}
