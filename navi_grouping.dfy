/**
 * The grouping half of the navi service: every hand tile is matched with the first
 * deduplicated recommended unit that contains it, and when that unit holds at least two
 * tiles of the hand the tile gets the unit's group, labelled `A`, `B`, ... and coloured from
 * a six-colour palette in the order the units are first met.
 */
module NaviGrouping {
  import opened Common
  import opened Catalog
  import opened NaviRecommend

  /** The grouping palette: light blue, red, yellow-green, orange, purple, green. */
  const Colors: seq<string> := ["#18c3d9", "#d9185c", "#a2d918", "#d97818", "#8418d9", "#18d928"]

  /** JavaScript's `%` on integers: the remainder takes the sign of the dividend. */
  function TruncatedRem(n: int, d: int): int
    requires d > 0
  {
    if n >= 0 then n % d else -((-n) % d)
  }

  /**
   * `getGroupingColorByNumber`: the palette entry at `countOfGroups % 6` with JavaScript's
   * remainder. A negative remainder reads before the array, which is `undefined`; the
   * `#000000` fallback for an index past the end cannot be reached.
   */
  function GetGroupingColorByNumber(countOfGroups: int): (r: Option<string>)
    ensures countOfGroups >= 0 ==> r == Some(Colors[countOfGroups % 6])
    ensures r.None? <==> countOfGroups < 0 && countOfGroups % 6 != 0
    ensures r.Some? ==> r.value in Colors && r.value != "#000000"
  {
    var index := TruncatedRem(countOfGroups, |Colors|);
    if index >= |Colors| then
      assert false;
      Some("#000000")
    else if index < 0 then None
    else Some(Colors[index])
  }

  /**
   * `String.fromCharCode(65 + countOfGroups)`: the UTF-16 code unit `(65 + countOfGroups)`
   * modulo 2^16; a lone surrogate, which is not a character here, becomes U+FFFD.
   */
  function GroupingLabel(countOfGroups: nat): (c: char)
    ensures 65 + countOfGroups < 0xD800 ==> c as int == 65 + countOfGroups
    ensures countOfGroups < 26 ==> 'A' <= c <= 'Z'
  {
    var code := (65 + countOfGroups) % 0x1_0000;
    if 0xD800 <= code < 0xE000 then '�' else code as char
  }

  /** Group numbers below the surrogate range get different labels. */
  lemma GroupingLabelsDiffer(j: nat, k: nat)
    requires j != k && 65 + j < 0xD800 && 65 + k < 0xD800
    ensures GroupingLabel(j) != GroupingLabel(k)
  {
  }

  /** A suggested group: colour, letter, and the unit it stands for. */
  datatype Group = Group(groupingColor: Option<string>, groupingLabel: char, unit: Recommended)

  /** A hand tile with its suggested group, if any. */
  datatype HoldTile = HoldTile(tile: Tile, suggestedGroup: Option<Group>)

  /** The first recommended unit with a member of this identifier. */
  function FirstContaining(rs: seq<Recommended>, id: string): Option<Recommended>
  {
    if rs == [] then None
    else if HasTile(rs[0], id) then Some(rs[0])
    else FirstContaining(rs[1..], id)
  }

  /** `FirstContaining` finds the earliest unit with the identifier, and none only if no unit has it. */
  lemma {:induction false} FirstContainingMeaning(rs: seq<Recommended>, id: string)
    ensures FirstContaining(rs, id).None? <==> forall r :: r in rs ==> !HasTile(r, id)
    ensures FirstContaining(rs, id).Some? ==>
              exists k :: 0 <= k < |rs| && rs[k] == FirstContaining(rs, id).value && HasTile(rs[k], id) &&
                forall j :: 0 <= j < k ==> !HasTile(rs[j], id)
    decreases |rs|
  {
    if rs != [] && !HasTile(rs[0], id) {
      FirstContainingMeaning(rs[1..], id);
      assert forall r :: r in rs <==> r == rs[0] || r in rs[1..];
      if FirstContaining(rs, id).Some? {
        var k :| 0 <= k < |rs[1..]| && rs[1..][k] == FirstContaining(rs, id).value && HasTile(rs[1..][k], id) &&
                 forall j :: 0 <= j < k ==> !HasTile(rs[1..][j], id);
        assert rs[k + 1] == rs[1..][k];
        assert forall j :: 0 < j < k + 1 ==> rs[j] == rs[1..][j - 1];
      }
    }
  }

  /**
   * Among units no two of which share an identifier (as the deduplicated recommendation
   * guarantees), the first unit with an identifier is the only one.
   */
  lemma OnlyContaining(rs: seq<Recommended>, id: string, x: Recommended)
    requires forall i, j :: 0 <= i < j < |rs| ==> !Shares(rs[i], rs[j])
    requires x in rs && HasTile(x, id)
    ensures FirstContaining(rs, id) == Some(x)
  {
    FirstContainingMeaning(rs, id);
    var k :| 0 <= k < |rs| && rs[k] == FirstContaining(rs, id).value && HasTile(rs[k], id) &&
             forall j :: 0 <= j < k ==> !HasTile(rs[j], id);
    var n :| 0 <= n < |rs| && rs[n] == x;
    HasTileId(rs[k], id);
    HasTileId(x, id);
    assert !(n < k);
    assert !(k < n);
  }

  /** A unit has a member with the identifier exactly when the identifier is among its members'. */
  lemma HasTileId(r: Recommended, id: string)
    ensures HasTile(r, id) <==> id in TileIds(r)
  {
    if HasTile(r, id) {
      var m :| m in r.tiles && m.tile.identifier == id;
      var k :| 0 <= k < |r.tiles| && r.tiles[k] == m;
      assert TileIds(r)[k] == id;
    }
    if id in TileIds(r) {
      var k :| 0 <= k < |r.tiles| && TileIds(r)[k] == id;
      assert r.tiles[k] in r.tiles;
    }
  }

  /** The loop looking for the first unit that contains the tile. */
  method FindSuggestedUnit(rs: seq<Recommended>, id: string) returns (r: Option<Recommended>)
    ensures r == FirstContaining(rs, id)
  {
    r := None;
    var k := 0;
    while k < |rs|
      invariant 0 <= k <= |rs|
      invariant FirstContaining(rs, id) == FirstContaining(rs[k..], id)
    {
      assert rs[k..][1..] == rs[k + 1..];
      if exists m :: m in rs[k].tiles && m.tile.identifier == id {
        r := Some(rs[k]);
        return;
      }
      k := k + 1;
    }
  }

  /**
   * In the deduplicated recommendation a tile is in at most one unit, so the unit the
   * grouping picks for it is the only recommended unit that contains it.
   */
  lemma SuggestedUnitIsOnly(units: seq<Unit>, catalog: seq<Tile>, hold: seq<Tile>, id: string, x: Recommended)
    requires x in Recommend(units, catalog, hold, true) && HasTile(x, id)
    ensures FirstContaining(Recommend(units, catalog, hold, true), id) == Some(x)
  {
    DedupKeeps(Ranked(units, catalog, hold));
    OnlyContaining(Recommend(units, catalog, hold, true), id, x);
  }

  /** The unit a tile is grouped by: the first containing one, if it holds two or more tiles of the hand. */
  function SuggestedUnit(rs: seq<Recommended>, t: Tile): Option<Recommended>
  {
    match FirstContaining(rs, t.identifier)
    case None => None
    case Some(u) => if 2 <= u.numOfHoldTiles then Some(u) else None
  }

  /** A new group for the unit, numbered by the groups made before it. */
  function NewGroup(countOfGroups: nat, u: Recommended): Group
  {
    Group(GetGroupingColorByNumber(countOfGroups), GroupingLabel(countOfGroups), u)
  }

  /** `suggestedGroups` after the loop has scanned `hand`: one group per unit label, made when first met. */
  function Groups(rs: seq<Recommended>, hand: seq<Tile>): map<string, Group>
  {
    if hand == [] then map[]
    else
      var groups := Groups(rs, hand[..|hand| - 1]);
      match SuggestedUnit(rs, hand[|hand| - 1])
      case None => groups
      case Some(u) =>
        if u.unit.name in groups then groups else groups[u.unit.name := NewGroup(|groups|, u)]
  }

  /** The unit labels in the order the scan first meets them. */
  function Order(rs: seq<Recommended>, hand: seq<Tile>): seq<string>
  {
    if hand == [] then []
    else
      var order := Order(rs, hand[..|hand| - 1]);
      match SuggestedUnit(rs, hand[|hand| - 1])
      case None => order
      case Some(u) => if u.unit.name in order then order else order + [u.unit.name]
  }

  /** Group number `k` of a scan: letter and colour from `k`, a unit with that label holding two or more tiles. */
  predicate GroupNumbered(g: Group, k: nat, name: string)
  {
    && g.groupingLabel == GroupingLabel(k)
    && g.groupingColor == GetGroupingColorByNumber(k)
    && g.unit.unit.name == name
    && 2 <= g.unit.numOfHoldTiles
  }

  /** The `k`-th label has a group, and it is group number `k`. */
  predicate Numbered(groups: map<string, Group>, order: seq<string>)
  {
    forall k :: 0 <= k < |order| ==> order[k] in groups && GroupNumbered(groups[order[k]], k, order[k])
  }

  /** The groups are numbered by the order of their labels, one group per label. */
  ghost predicate NumberedGroups(groups: map<string, Group>, order: seq<string>)
  {
    && Distinct(order)
    && (forall name :: name in groups <==> name in order)
    && |groups| == |order|
    && Numbered(groups, order)
  }

  /** Numbering the next label `|order|` keeps the numbers of the labels before it. */
  lemma NumberedExtend(groups: map<string, Group>, order: seq<string>, name: string, gr: Group)
    requires Numbered(groups, order) && name !in order
    requires GroupNumbered(gr, |order|, name)
    ensures Numbered(groups[name := gr], order + [name])
  {
    var g, o := groups[name := gr], order + [name];
    forall k | 0 <= k < |o| ensures o[k] in g && GroupNumbered(g[o[k]], k, o[k]) {
      if k < |order| {
        assert o[k] == order[k] && o[k] != name;
        assert g[o[k]] == groups[order[k]];
      } else {
        assert o[k] == name;
      }
    }
  }

  /** Making the group of a label not met before keeps the numbering. */
  lemma NumberedStep(groups: map<string, Group>, order: seq<string>, u: Recommended)
    requires NumberedGroups(groups, order)
    requires u.unit.name !in order && 2 <= u.numOfHoldTiles
    ensures NumberedGroups(groups[u.unit.name := NewGroup(|groups|, u)], order + [u.unit.name])
  {
    var name := u.unit.name;
    var g, o := groups[name := NewGroup(|groups|, u)], order + [name];
    DistinctSnoc(order, name);
    assert name !in groups;
    assert |g| == |o|;
    NumberedExtend(groups, order, name, NewGroup(|groups|, u));
  }

  /**
   * The `k`-th label met gets group number `k`: its letter and colour come from `k`, its unit
   * carries that label and holds two or more tiles, and every label met has exactly one group.
   */
  lemma {:induction false} GroupsNumbered(rs: seq<Recommended>, hand: seq<Tile>)
    ensures NumberedGroups(Groups(rs, hand), Order(rs, hand))
    decreases |hand|
  {
    if hand != [] {
      var init := hand[..|hand| - 1];
      GroupsNumbered(rs, init);
      var groups, order := Groups(rs, init), Order(rs, init);
      match SuggestedUnit(rs, hand[|hand| - 1])
      case None =>
      case Some(u) =>
        if u.unit.name !in order {
          NumberedStep(groups, order, u);
        }
    }
  }

  /** Every label met comes from a tile of the hand whose suggested unit carries it. */
  lemma {:induction false} OrderFromHand(rs: seq<Recommended>, hand: seq<Tile>)
    ensures forall name :: name in Order(rs, hand) ==>
              exists i :: 0 <= i < |hand| && SuggestedUnit(rs, hand[i]).Some? && SuggestedUnit(rs, hand[i]).value.unit.name == name
    ensures forall i :: 0 <= i < |hand| && SuggestedUnit(rs, hand[i]).Some? ==>
              SuggestedUnit(rs, hand[i]).value.unit.name in Order(rs, hand)
    decreases |hand|
  {
    if hand != [] {
      var init := hand[..|hand| - 1];
      OrderFromHand(rs, init);
      assert forall i :: 0 <= i < |init| ==> init[i] == hand[i];
    }
  }

  /** The group of a tile: its suggested unit's group. */
  function GroupOf(rs: seq<Recommended>, groups: map<string, Group>, t: Tile): Option<Group>
  {
    match SuggestedUnit(rs, t)
    case None => None
    case Some(u) => if u.unit.name in groups then Some(groups[u.unit.name]) else None
  }

  /** The hand with the groups the whole scan makes. */
  function Grouped(rs: seq<Recommended>, hand: seq<Tile>): (ts: seq<HoldTile>)
    ensures |ts| == |hand|
  {
    seq(|hand|, j requires 0 <= j < |hand| => HoldTile(hand[j], GroupOf(rs, Groups(rs, hand), hand[j])))
  }

  /** Scanning one more tile keeps every group already made. */
  lemma GroupsKeep(rs: seq<Recommended>, hand: seq<Tile>, name: string)
    requires hand != [] && name in Groups(rs, hand[..|hand| - 1])
    ensures name in Groups(rs, hand) && Groups(rs, hand)[name] == Groups(rs, hand[..|hand| - 1])[name]
  {
  }

  /** A scanned tile with a suggested unit has that unit's label among the groups. */
  lemma {:induction false} GroupsCover(rs: seq<Recommended>, hand: seq<Tile>, j: nat)
    requires j < |hand| && SuggestedUnit(rs, hand[j]).Some?
    ensures SuggestedUnit(rs, hand[j]).value.unit.name in Groups(rs, hand)
    decreases |hand|
  {
    var init := hand[..|hand| - 1];
    if j < |init| {
      assert init[j] == hand[j];
      GroupsCover(rs, init, j);
      GroupsKeep(rs, hand, SuggestedUnit(rs, hand[j]).value.unit.name);
    }
  }

  /** Every tile scanned so far already has its group, and scanning one more tile leaves it unchanged. */
  lemma GroupedStep(rs: seq<Recommended>, hand: seq<Tile>, i: nat)
    requires i < |hand|
    ensures Grouped(rs, hand[..i + 1]) ==
            Grouped(rs, hand[..i]) + [HoldTile(hand[i], GroupOf(rs, Groups(rs, hand[..i + 1]), hand[i]))]
  {
    var before, after := hand[..i], hand[..i + 1];
    assert after[..i] == before;
    forall j | 0 <= j < i
      ensures GroupOf(rs, Groups(rs, after), after[j]) == GroupOf(rs, Groups(rs, before), before[j])
    {
      assert after[j] == before[j];
      var su := SuggestedUnit(rs, before[j]);
      if su.Some? {
        GroupsCover(rs, before, j);
        GroupsKeep(rs, after, su.value.unit.name);
      }
    }
  }

  /** One tile of the grouped hand: see `GroupedMeaning`. */
  lemma GroupedAt(rs: seq<Recommended>, hand: seq<Tile>, i: nat)
    requires i < |hand|
    ensures Grouped(rs, hand)[i].tile == hand[i]
    ensures Grouped(rs, hand)[i].suggestedGroup.Some? <==>
              FirstContaining(rs, hand[i].identifier).Some? &&
              2 <= FirstContaining(rs, hand[i].identifier).value.numOfHoldTiles
    ensures Grouped(rs, hand)[i].suggestedGroup.Some? ==>
              exists k :: 0 <= k < |Order(rs, hand)| &&
                Order(rs, hand)[k] == FirstContaining(rs, hand[i].identifier).value.unit.name &&
                GroupNumbered(Grouped(rs, hand)[i].suggestedGroup.value, k, Order(rs, hand)[k])
  {
    var groups, order := Groups(rs, hand), Order(rs, hand);
    var su := SuggestedUnit(rs, hand[i]);
    if su.Some? {
      GroupsNumbered(rs, hand);
      OrderFromHand(rs, hand);
      var name := su.value.unit.name;
      assert name in order;
      var k :| 0 <= k < |order| && order[k] == name;
      assert Grouped(rs, hand)[i].suggestedGroup == Some(groups[name]);
    }
  }

  /**
   * A hand tile keeps its place and gets a group exactly when the first recommended unit
   * containing it holds two or more tiles of the hand; the group is that of the unit's label,
   * numbered `k` when the label is the `k`-th met, so tiles whose units carry the same label
   * share one group.
   */
  lemma GroupedMeaning(rs: seq<Recommended>, hand: seq<Tile>)
    ensures forall i :: 0 <= i < |hand| ==>
              && Grouped(rs, hand)[i].tile == hand[i]
              && (Grouped(rs, hand)[i].suggestedGroup.Some? <==>
                    FirstContaining(rs, hand[i].identifier).Some? &&
                    2 <= FirstContaining(rs, hand[i].identifier).value.numOfHoldTiles)
    ensures forall i :: 0 <= i < |hand| && Grouped(rs, hand)[i].suggestedGroup.Some? ==>
              exists k :: 0 <= k < |Order(rs, hand)| &&
                Order(rs, hand)[k] == FirstContaining(rs, hand[i].identifier).value.unit.name &&
                GroupNumbered(Grouped(rs, hand)[i].suggestedGroup.value, k, Order(rs, hand)[k])
    ensures forall i, j ::
              (0 <= i < |hand| && 0 <= j < |hand| &&
               Grouped(rs, hand)[i].suggestedGroup.Some? && Grouped(rs, hand)[j].suggestedGroup.Some? &&
               FirstContaining(rs, hand[i].identifier).value.unit.name ==
               FirstContaining(rs, hand[j].identifier).value.unit.name) ==>
              Grouped(rs, hand)[i].suggestedGroup == Grouped(rs, hand)[j].suggestedGroup
  {
    forall i | 0 <= i < |hand|
      ensures && Grouped(rs, hand)[i].tile == hand[i]
              && (Grouped(rs, hand)[i].suggestedGroup.Some? <==>
                    FirstContaining(rs, hand[i].identifier).Some? &&
                    2 <= FirstContaining(rs, hand[i].identifier).value.numOfHoldTiles)
              && (Grouped(rs, hand)[i].suggestedGroup.Some? ==>
                    exists k :: 0 <= k < |Order(rs, hand)| &&
                      Order(rs, hand)[k] == FirstContaining(rs, hand[i].identifier).value.unit.name &&
                      GroupNumbered(Grouped(rs, hand)[i].suggestedGroup.value, k, Order(rs, hand)[k]))
    {
      GroupedAt(rs, hand, i);
    }
    var groups := Groups(rs, hand);
    forall i, j |
      && 0 <= i < |hand| && 0 <= j < |hand|
      && Grouped(rs, hand)[i].suggestedGroup.Some? && Grouped(rs, hand)[j].suggestedGroup.Some?
      && FirstContaining(rs, hand[i].identifier).value.unit.name == FirstContaining(rs, hand[j].identifier).value.unit.name
      ensures Grouped(rs, hand)[i].suggestedGroup == Grouped(rs, hand)[j].suggestedGroup
    {
      assert Grouped(rs, hand)[i].suggestedGroup == GroupOf(rs, groups, hand[i]);
      assert Grouped(rs, hand)[j].suggestedGroup == GroupOf(rs, groups, hand[j]);
    }
  }

  /**
   * `groupingHoldTiles`: the hand in order, each tile with the group of the deduplicated
   * recommended unit that first contains it.
   */
  method GroupingHoldTiles(units: seq<Unit>, catalog: seq<Tile>, cgTiles: seq<Tile>) returns (tiles: seq<HoldTile>)
    ensures tiles == Grouped(Recommend(units, catalog, cgTiles, true), cgTiles)
  {
    var recommendedUnits := GetRecommendedUnitsByHoldTiles(units, catalog, cgTiles, true);
    ghost var rs := recommendedUnits;
    var suggestedGroups: map<string, Group> := map[];
    tiles := [];
    for i := 0 to |cgTiles|
      invariant suggestedGroups == Groups(rs, cgTiles[..i])
      invariant tiles == Grouped(rs, cgTiles[..i])
    {
      var cgTile := cgTiles[i];
      GroupedStep(rs, cgTiles, i);
      assert cgTiles[..i + 1][..i] == cgTiles[..i];
      var suggestedUnit := FindSuggestedUnit(recommendedUnits, cgTile.identifier);
      var suggestedGroup: Option<Group> := None;
      if suggestedUnit.Some? && 2 <= suggestedUnit.value.numOfHoldTiles {
        var name := suggestedUnit.value.unit.name;
        if name !in suggestedGroups {
          var countOfGroups := |suggestedGroups|;
          suggestedGroups := suggestedGroups[name := Group(GetGroupingColorByNumber(countOfGroups),
                                                           GroupingLabel(countOfGroups), suggestedUnit.value)];
        }
        suggestedGroup := Some(suggestedGroups[name]);
      }
      tiles := tiles + [HoldTile(cgTile, suggestedGroup)];
    }
    assert cgTiles[..|cgTiles|] == cgTiles;
  }
}
