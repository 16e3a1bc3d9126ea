/**
 * The recommendation half of the navi service: for a hand, the catalog units that contain at
 * least one held tile, each annotated with how many members are held and with its member
 * tiles (held ones first), ranked by held members then by missing members, optionally with
 * every unit dropped that reuses a tile of an earlier kept unit.
 */
module NaviRecommend {
  import opened Common
  import opened Sorting
  import opened Catalog

  /** A member tile of a recommended unit, with whether the hand holds it. */
  datatype Member = Member(tile: Tile, isHold: bool)

  /** A catalog unit annotated for the hand: its member tiles and `numOfHoldTiles`. */
  datatype Recommended = Recommended(unit: Unit, tiles: seq<Member>, numOfHoldTiles: int)

  /** What a member whose identifier the catalog lacks is shown as. */
  const Placeholder: Tile := Tile("UNKNOWN", "不明", Cute, Vocal)

  /** `holdTiles.some((t) => t.identifier === id)`. */
  predicate Held(hold: seq<Tile>, id: string)
  {
    exists t :: t in hold && t.identifier == id
  }

  /** How many of the identifiers are held, counting repeats. */
  function CountHeld(ids: seq<string>, hold: seq<Tile>): nat
  {
    if ids == [] then 0
    else CountHeld(ids[..|ids| - 1], hold) + (if Held(hold, ids[|ids| - 1]) then 1 else 0)
  }

  /** No held identifier gives zero, every one held gives the length, and it never exceeds the length. */
  lemma {:induction false} CountHeldBounds(ids: seq<string>, hold: seq<Tile>)
    ensures CountHeld(ids, hold) <= |ids|
    ensures CountHeld(ids, hold) == 0 <==> forall id :: id in ids ==> !Held(hold, id)
    ensures CountHeld(ids, hold) == |ids| <==> forall id :: id in ids ==> Held(hold, id)
    decreases |ids|
  {
    if ids != [] {
      var init := ids[..|ids| - 1];
      CountHeldBounds(init, hold);
      assert ids == init + [ids[|ids| - 1]];
      assert forall id :: id in ids <==> id in init || id == ids[|ids| - 1];
    }
  }

  /** The member loop counting `numOfHoldTiles`. */
  method CountHoldTiles(ids: seq<string>, hold: seq<Tile>) returns (n: nat)
    ensures n == CountHeld(ids, hold)
  {
    n := 0;
    for i := 0 to |ids|
      invariant n == CountHeld(ids[..i], hold)
    {
      assert ids[..i + 1][..i] == ids[..i];
      if exists t :: t in hold && t.identifier == ids[i] {
        n := n + 1;
      }
    }
    assert ids[..|ids|] == ids;
  }

  /** A member as the annotation loop pushes it: the placeholder if the lookup fails. */
  function MemberOf(catalog: seq<Tile>, hold: seq<Tile>, id: string): Member
  {
    match GetTileByIdentifier(catalog, id)
    case None => Member(Placeholder, false)
    case Some(t) => Member(t, Held(hold, t.identifier))
  }

  function Members(catalog: seq<Tile>, hold: seq<Tile>, ids: seq<string>): (ms: seq<Member>)
    ensures |ms| == |ids|
  {
    seq(|ids|, k requires 0 <= k < |ids| => MemberOf(catalog, hold, ids[k]))
  }

  /**
   * One member per identifier, in order: a member the catalog lacks is the unheld
   * placeholder, any other is the catalog tile, held exactly when the hand has a tile with its
   * identifier.
   */
  lemma MembersMeaning(catalog: seq<Tile>, hold: seq<Tile>, ids: seq<string>)
    ensures forall k :: 0 <= k < |ids| ==>
              var m := Members(catalog, hold, ids)[k];
              if exists t :: t in catalog && t.identifier == NormalizeIdentifier(ids[k]) then
                && m.tile in catalog
                && m.tile.identifier == NormalizeIdentifier(ids[k])
                && (m.isHold <==> Held(hold, m.tile.identifier))
              else m == Member(Placeholder, false)
  {
  }

  lemma MembersStep(catalog: seq<Tile>, hold: seq<Tile>, ids: seq<string>, i: nat)
    requires i < |ids|
    ensures Members(catalog, hold, ids[..i + 1]) == Members(catalog, hold, ids[..i]) + [MemberOf(catalog, hold, ids[i])]
  {
    assert forall k :: 0 <= k < i ==> ids[..i + 1][k] == ids[..i][k];
  }

  /** The annotation loop, pushing one member per identifier. */
  method MemberTiles(catalog: seq<Tile>, hold: seq<Tile>, ids: seq<string>) returns (tiles: seq<Member>)
    ensures tiles == Members(catalog, hold, ids)
  {
    tiles := [];
    for i := 0 to |ids|
      invariant tiles == Members(catalog, hold, ids[..i])
    {
      MembersStep(catalog, hold, ids, i);
      var tile := GetTileByIdentifier(catalog, ids[i]);
      if tile.None? {
        tiles := tiles + [Member(Placeholder, false)];
        continue;
      }
      tiles := tiles + [Member(tile.value, exists t :: t in hold && t.identifier == tile.value.identifier)];
    }
    assert ids[..|ids|] == ids;
  }

  /** The member comparator: a held member goes before an unheld one, others keep their order. */
  predicate HeldBefore(a: Member, b: Member)
  {
    a.isHold && !b.isHold
  }

  function HeldOnes(ms: seq<Member>): (r: seq<Member>)
    ensures forall m :: m in r <==> m in ms && m.isHold
  {
    if ms == [] then []
    else
      assert forall m :: m in ms <==> m == ms[0] || m in ms[1..];
      (if ms[0].isHold then [ms[0]] else []) + HeldOnes(ms[1..])
  }

  function UnheldOnes(ms: seq<Member>): (r: seq<Member>)
    ensures forall m :: m in r <==> m in ms && !m.isHold
  {
    if ms == [] then []
    else
      assert forall m :: m in ms <==> m == ms[0] || m in ms[1..];
      (if ms[0].isHold then [] else [ms[0]]) + UnheldOnes(ms[1..])
  }

  /** Members sorted held first (the in-place `sort` of `unit.tiles`). */
  function HeldFirst(ms: seq<Member>): seq<Member>
  {
    SortBy(ms, HeldBefore)
  }

  /** An unheld member inserted into held-then-unheld members lands after the held ones. */
  lemma {:induction false} InsertUnheld(x: Member, held: seq<Member>, unheld: seq<Member>)
    requires !x.isHold
    requires forall m :: m in held ==> m.isHold
    requires forall m :: m in unheld ==> !m.isHold
    ensures Insert(x, held + unheld, HeldBefore) == held + [x] + unheld
    decreases |held|
  {
    if held != [] {
      assert (held + unheld)[0] == held[0];
      assert (held + unheld)[1..] == held[1..] + unheld;
      InsertUnheld(x, held[1..], unheld);
    }
  }

  /**
   * The stable held-first sort is exactly the held members followed by the unheld ones, each
   * in their original order.
   */
  lemma {:induction false} HeldFirstSplits(ms: seq<Member>)
    ensures HeldFirst(ms) == HeldOnes(ms) + UnheldOnes(ms)
    decreases |ms|
  {
    if ms != [] {
      HeldFirstSplits(ms[1..]);
      var held, unheld := HeldOnes(ms[1..]), UnheldOnes(ms[1..]);
      if !ms[0].isHold {
        InsertUnheld(ms[0], held, unheld);
      }
    }
  }

  /** Position `i` of the held-first members is held exactly when `i` is below the number held. */
  lemma HeldFirstOrders(ms: seq<Member>)
    ensures multiset(HeldFirst(ms)) == multiset(ms)
    ensures forall i :: 0 <= i < |HeldFirst(ms)| ==> (HeldFirst(ms)[i].isHold <==> i < |HeldOnes(ms)|)
  {
    HeldFirstSplits(ms);
    SortByPermutes(ms, HeldBefore);
    var s := HeldFirst(ms);
    forall i | 0 <= i < |s| ensures s[i].isHold <==> i < |HeldOnes(ms)| {
      if i < |HeldOnes(ms)| {
        assert s[i] == HeldOnes(ms)[i];
      } else {
        assert s[i] == UnheldOnes(ms)[i - |HeldOnes(ms)|];
      }
    }
  }

  /** One catalog unit, annotated for the hand. */
  function Annotate(catalog: seq<Tile>, hold: seq<Tile>, u: Unit): Recommended
  {
    Recommended(u, HeldFirst(Members(catalog, hold, u.tileIdentifiers)), CountHeld(u.tileIdentifiers, hold))
  }

  /** The units loop: every unit with a held member, annotated, in catalog order. */
  function Annotated(units: seq<Unit>, catalog: seq<Tile>, hold: seq<Tile>): seq<Recommended>
  {
    if units == [] then []
    else
      var u := units[|units| - 1];
      Annotated(units[..|units| - 1], catalog, hold) +
      (if CountHeld(u.tileIdentifiers, hold) == 0 then [] else [Annotate(catalog, hold, u)])
  }

  /**
   * Every annotated unit holds at least one member and is the annotation of a catalog unit,
   * and every catalog unit with a held member is annotated.
   */
  lemma {:induction false} AnnotatedMeaning(units: seq<Unit>, catalog: seq<Tile>, hold: seq<Tile>)
    ensures forall r :: r in Annotated(units, catalog, hold) ==>
              r.numOfHoldTiles >= 1 && r.unit in units && r == Annotate(catalog, hold, r.unit)
    ensures forall u :: u in units && CountHeld(u.tileIdentifiers, hold) > 0 ==>
              Annotate(catalog, hold, u) in Annotated(units, catalog, hold)
    decreases |units|
  {
    if units != [] {
      var init := units[..|units| - 1];
      AnnotatedMeaning(init, catalog, hold);
      assert forall u :: u in units <==> u in init || u == units[|units| - 1];
    }
  }

  /** The ranking comparator: more held members first, then fewer missing members. */
  predicate RankBefore(a: Recommended, b: Recommended)
  {
    || a.numOfHoldTiles > b.numOfHoldTiles
    || (a.numOfHoldTiles == b.numOfHoldTiles &&
        |a.tiles| - a.numOfHoldTiles < |b.tiles| - b.numOfHoldTiles)
  }

  lemma RankBeforeStrictWeakOrder()
    ensures StrictWeakOrder(RankBefore)
  {
  }

  /** The two in-place sorts of `filteredUnits`, as one stable sort by the combined key. */
  function Ranked(units: seq<Unit>, catalog: seq<Tile>, hold: seq<Tile>): seq<Recommended>
  {
    SortBy(Annotated(units, catalog, hold), RankBefore)
  }

  /**
   * The ranking keeps the annotated units, orders them by held members descending then by
   * missing members ascending, and keeps catalog order among units tied on both.
   */
  lemma RankedOrders(units: seq<Unit>, catalog: seq<Tile>, hold: seq<Tile>)
    ensures multiset(Ranked(units, catalog, hold)) == multiset(Annotated(units, catalog, hold))
    ensures forall i, j :: 0 <= i < j < |Ranked(units, catalog, hold)| ==>
              !RankBefore(Ranked(units, catalog, hold)[j], Ranked(units, catalog, hold)[i])
    ensures forall c :: Peers(Ranked(units, catalog, hold), c, RankBefore) ==
                        Peers(Annotated(units, catalog, hold), c, RankBefore)
  {
    var a := Annotated(units, catalog, hold);
    RankBeforeStrictWeakOrder();
    SortByPermutes(a, RankBefore);
    SortBySorted(a, RankBefore);
    forall c ensures Peers(Ranked(units, catalog, hold), c, RankBefore) == Peers(a, c, RankBefore) {
      SortByStable(a, c, RankBefore);
    }
  }

  /** The identifiers of a recommended unit's member tiles, placeholders included. */
  function TileIds(r: Recommended): (ids: seq<string>)
    ensures |ids| == |r.tiles|
  {
    seq(|r.tiles|, k requires 0 <= k < |r.tiles| => r.tiles[k].tile.identifier)
  }

  /** Two recommended units have a member identifier in common. */
  predicate Shares(a: Recommended, b: Recommended)
  {
    exists id :: id in TileIds(a) && id in TileIds(b)
  }

  lemma SharesSymmetric(a: Recommended, b: Recommended)
    ensures Shares(a, b) <==> Shares(b, a)
  {
  }

  /** The dedup filter: keep a unit unless it shares an identifier with an earlier kept one. */
  function Dedup(rs: seq<Recommended>): seq<Recommended>
  {
    if rs == [] then []
    else
      var kept := Dedup(rs[..|rs| - 1]);
      var r := rs[|rs| - 1];
      if exists y :: y in kept && Shares(r, y) then kept else kept + [r]
  }

  /** The kept units are a subsequence of the ranking and no two of them share an identifier. */
  lemma {:induction false} DedupKeeps(rs: seq<Recommended>)
    ensures IsSubsequence(Dedup(rs), rs)
    ensures forall i, j :: 0 <= i < j < |Dedup(rs)| ==> !Shares(Dedup(rs)[i], Dedup(rs)[j])
    decreases |rs|
  {
    if rs == [] {
      SubsequenceReflexive(rs);
    } else {
      var init := rs[..|rs| - 1];
      var last := rs[|rs| - 1];
      var kept := Dedup(init);
      DedupKeeps(init);
      assert rs == init + [last];
      if exists y :: y in kept && Shares(last, y) {
        SubsequenceExtendRight(kept, init, last);
      } else {
        SubsequenceExtendBoth(kept, init, last);
        var k := kept + [last];
        forall i, j | 0 <= i < j < |k| ensures !Shares(k[i], k[j]) {
          if j == |kept| {
            assert k[i] in kept;
            SharesSymmetric(k[i], k[j]);
          } else {
            assert k[i] == kept[i] && k[j] == kept[j];
          }
        }
      }
    }
  }

  /** A unit missing from the kept ones shares an identifier with a kept one. */
  lemma {:induction false} DedupDropsOnlyShared(rs: seq<Recommended>)
    ensures forall x :: x in rs ==> x in Dedup(rs) || exists y :: y in Dedup(rs) && Shares(x, y)
    decreases |rs|
  {
    if rs != [] {
      var init := rs[..|rs| - 1];
      DedupDropsOnlyShared(init);
      assert forall x :: x in rs <==> x in init || x == rs[|rs| - 1];
    }
  }

  /** The inner loop of the dedup: does one of the unit's member identifiers occur in `used`? */
  method UsesAny(u: Recommended, used: seq<string>) returns (isDuplicated: bool)
    ensures isDuplicated <==> exists id :: id in TileIds(u) && id in used
  {
    isDuplicated := false;
    var j := 0;
    while j < |u.tiles| && !isDuplicated
      invariant 0 <= j <= |u.tiles|
      invariant isDuplicated <==> exists k :: 0 <= k < j && u.tiles[k].tile.identifier in used
    {
      if u.tiles[j].tile.identifier in used {
        isDuplicated := true;
      }
      j := j + 1;
    }
    if isDuplicated {
      var k :| 0 <= k < j && u.tiles[k].tile.identifier in used;
      assert TileIds(u)[k] == u.tiles[k].tile.identifier;
    } else {
      assert forall k :: 0 <= k < |u.tiles| ==> TileIds(u)[k] == u.tiles[k].tile.identifier;
    }
  }

  /** A kept unit adds each of its member identifiers to `used`. */
  method UseAll(used: seq<string>, ids: seq<string>) returns (used': seq<string>)
    ensures forall id :: id in used' <==> id in used || id in ids
  {
    used' := used;
    for k := 0 to |ids|
      invariant forall id :: id in used' <==> id in used || id in ids[..k]
    {
      assert ids[..k + 1] == ids[..k] + [ids[k]];
      used' := used' + [ids[k]];
    }
    assert ids[..|ids|] == ids;
  }

  /**
   * The dedup loop with its `usedTileIdentifiers` list: a unit is dropped when one of its
   * member identifiers is already used, and a kept unit adds all of its identifiers.
   */
  method RemoveDuplicatedAssigns(rs: seq<Recommended>) returns (kept: seq<Recommended>)
    ensures kept == Dedup(rs)
  {
    var used: seq<string> := [];
    kept := [];
    for i := 0 to |rs|
      invariant kept == Dedup(rs[..i])
      invariant forall id :: id in used <==> exists y :: y in kept && id in TileIds(y)
    {
      assert rs[..i + 1][..i] == rs[..i];
      var u := rs[i];
      var isDuplicated := UsesAny(u, used);
      assert isDuplicated <==> exists y :: y in kept && Shares(u, y) by {
        if isDuplicated {
          var id :| id in TileIds(u) && id in used;
          var y :| y in kept && id in TileIds(y);
          assert Shares(u, y);
        }
        if exists y :: y in kept && Shares(u, y) {
          var y :| y in kept && Shares(u, y);
          var id :| id in TileIds(u) && id in TileIds(y);
          assert id in used;
        }
      }
      if !isDuplicated {
        used := UseAll(used, TileIds(u));
        kept := kept + [u];
      }
    }
    assert rs[..|rs|] == rs;
  }

  /** `getRecommendedUnitsByHoldTiles` as a value: the ranking, deduplicated on request. */
  function Recommend(units: seq<Unit>, catalog: seq<Tile>, hold: seq<Tile>, removeDuplicatedAssigns: bool): seq<Recommended>
  {
    var ranked := Ranked(units, catalog, hold);
    if removeDuplicatedAssigns then Dedup(ranked) else ranked
  }

  /**
   * `getRecommendedUnitsByHoldTiles`: annotate every unit with a held member, sort each
   * unit's members held first, rank the units, and drop reused tiles on request.
   */
  method GetRecommendedUnitsByHoldTiles(units: seq<Unit>, catalog: seq<Tile>, hold: seq<Tile>,
                                        removeDuplicatedAssigns: bool)
    returns (r: seq<Recommended>)
    ensures r == Recommend(units, catalog, hold, removeDuplicatedAssigns)
  {
    var filteredUnits: seq<Recommended> := [];
    for i := 0 to |units|
      invariant filteredUnits == Annotated(units[..i], catalog, hold)
    {
      assert units[..i + 1][..i] == units[..i];
      var unitDefinition := units[i];
      var numOfHoldTiles := CountHoldTiles(unitDefinition.tileIdentifiers, hold);
      if numOfHoldTiles == 0 {
        continue;
      }
      var tiles := MemberTiles(catalog, hold, unitDefinition.tileIdentifiers);
      tiles := SortBy(tiles, HeldBefore);
      filteredUnits := filteredUnits + [Recommended(unitDefinition, tiles, numOfHoldTiles)];
    }
    assert units[..|units|] == units;
    filteredUnits := SortBy(filteredUnits, RankBefore);
    if removeDuplicatedAssigns {
      filteredUnits := RemoveDuplicatedAssigns(filteredUnits);
    }
    r := filteredUnits;
  }

  /** A recommended unit has a member tile with this identifier. */
  predicate HasTile(r: Recommended, id: string)
  {
    exists m :: m in r.tiles && m.tile.identifier == id
  }

  /** The filter of `getRecommendedUnits`. */
  function Containing(rs: seq<Recommended>, id: string): seq<Recommended>
  {
    if rs == [] then []
    else (if HasTile(rs[0], id) then [rs[0]] else []) + Containing(rs[1..], id)
  }

  /** The filter keeps, in order, exactly the units with a member of that identifier. */
  lemma {:induction false} ContainingMeaning(rs: seq<Recommended>, id: string)
    ensures IsSubsequence(Containing(rs, id), rs)
    ensures forall r :: r in Containing(rs, id) <==> r in rs && HasTile(r, id)
    decreases |rs|
  {
    if rs == [] {
      SubsequenceReflexive(rs);
    } else {
      ContainingMeaning(rs[1..], id);
      var rest := Containing(rs[1..], id);
      assert forall r :: r in rs <==> r == rs[0] || r in rs[1..];
      if HasTile(rs[0], id) {
        assert ([rs[0]] + rest)[1..] == rest;
      } else {
        assert [] + rest == rest;
      }
    }
  }

  /** `getRecommendedUnits`: the recommended units (not deduplicated) with the selected tile among their members. */
  method GetRecommendedUnits(units: seq<Unit>, catalog: seq<Tile>, selectedTile: Tile, holdTiles: seq<Tile>)
    returns (r: seq<Recommended>)
    ensures r == Containing(Recommend(units, catalog, holdTiles, false), selectedTile.identifier)
  {
    var all := GetRecommendedUnitsByHoldTiles(units, catalog, holdTiles, false);
    r := Containing(all, selectedTile.identifier);
  }
}
