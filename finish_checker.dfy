/**
 * `checkFinish`: a hand that is not nine tiles wins nothing; otherwise the ten patterns are
 * tried from the highest score down, and the first that holds is the result.
 */
module FinishChecker {
  import opened Common
  import opened Catalog
  import opened FinishMatch
  import opened FinishResults
  import opened FinishCounting
  import opened FinishSearch
  import opened FinishPatterns

  /** The first outcome that found something, or none if none did. */
  function FirstWin(os: seq<Option<seq<WinResult>>>): Option<seq<WinResult>>
  {
    if os == [] then None
    else if os[0].Some? then os[0]
    else FirstWin(os[1..])
  }

  /** `FirstWin` is the earliest outcome that found something, and none only if all found nothing. */
  lemma {:induction false} FirstWinMeaning(os: seq<Option<seq<WinResult>>>)
    ensures FirstWin(os).None? <==> forall i :: 0 <= i < |os| ==> os[i].None?
    ensures FirstWin(os).Some? ==>
              exists i :: 0 <= i < |os| && FirstWin(os) == os[i] && forall j :: 0 <= j < i ==> os[j].None?
    decreases |os|
  {
    if os != [] && os[0].None? {
      FirstWinMeaning(os[1..]);
      assert forall i :: 0 < i < |os| ==> os[i] == os[1..][i - 1];
      if FirstWin(os).Some? {
        var i :| 0 <= i < |os[1..]| && FirstWin(os[1..]) == os[1..][i] &&
                 forall j :: 0 <= j < i ==> os[1..][j].None?;
        assert os[i + 1] == os[1..][i];
      }
    }
  }

  /** `a || b` on outcomes: the first unless it found nothing. */
  function OrElse(a: Option<seq<WinResult>>, b: Option<seq<WinResult>>): Option<seq<WinResult>>
  {
    if a.Some? then a else b
  }

  lemma FirstWinCons(a: Option<seq<WinResult>>, rest: seq<Option<seq<WinResult>>>)
    ensures FirstWin([a] + rest) == OrElse(a, FirstWin(rest))
  {
    assert ([a] + rest)[1..] == rest;
  }

  /** `FirstWin` over ten outcomes is the `if`/`else if` chain of `checkFinish`. */
  lemma FirstWinTen(a0: Option<seq<WinResult>>, a1: Option<seq<WinResult>>, a2: Option<seq<WinResult>>,
                    a3: Option<seq<WinResult>>, a4: Option<seq<WinResult>>, a5: Option<seq<WinResult>>,
                    a6: Option<seq<WinResult>>, a7: Option<seq<WinResult>>, a8: Option<seq<WinResult>>,
                    a9: Option<seq<WinResult>>)
    ensures FirstWin([a0, a1, a2, a3, a4, a5, a6, a7, a8, a9]) ==
            OrElse(a0, OrElse(a1, OrElse(a2, OrElse(a3, OrElse(a4, OrElse(a5, OrElse(a6, OrElse(a7, OrElse(a8, a9)))))))))
  {
    FirstWinCons(a9, []);
    FirstWinCons(a8, [a9]);
    FirstWinCons(a7, [a8, a9]);
    FirstWinCons(a6, [a7, a8, a9]);
    FirstWinCons(a5, [a6, a7, a8, a9]);
    FirstWinCons(a4, [a5, a6, a7, a8, a9]);
    FirstWinCons(a3, [a4, a5, a6, a7, a8, a9]);
    FirstWinCons(a2, [a3, a4, a5, a6, a7, a8, a9]);
    FirstWinCons(a1, [a2, a3, a4, a5, a6, a7, a8, a9]);
    FirstWinCons(a0, [a1, a2, a3, a4, a5, a6, a7, a8, a9]);
  }

  /** リハーサル's outcome, as `CheckRehearsal` computes it. */
  function Rehearsal(catalog: seq<Tile>, hand: seq<string>): Option<seq<WinResult>>
  {
    if KindsInThrees(KnownTiles(catalog, hand)) then Some(WholeHandWin("リハーサル", 30000, hand)) else None
  }

  /** A split pattern's outcome, as `CheckSplits` computes it. */
  function Splits(p: Pattern, units: seq<Unit>, catalog: seq<Tile>, hand: seq<string>): Option<seq<WinResult>>
  {
    Conclude(PatternName(p), PatternScore(p), Candidates(p, units, catalog, hand))
  }

  /** The outcome of each of the ten checks on a hand, in the order `checkFinish` tries them. */
  function Outcomes(units: seq<Unit>, catalog: seq<Tile>, hand: seq<string>): (os: seq<Option<seq<WinResult>>>)
    ensures |os| == 10
  {
    [ CheckCinderellaGirls(hand),
      CheckWonderfulMagic(hand),
      CheckEnsemble(catalog, hand),
      Splits(FiveStar, units, catalog, hand),
      Splits(Quartet, units, catalog, hand),
      CheckSymphony(catalog, hand),
      Splits(Tricolor, units, catalog, hand),
      Splits(NormalLive, units, catalog, hand),
      Splits(StartDash, units, catalog, hand),
      Rehearsal(catalog, hand) ]
  }

  /**
   * `checkFinish`: none unless the hand has nine tiles; otherwise the outcome of the first of
   * the ten checks that finds something, or none.
   */
  method CheckFinish(units: seq<Unit>, catalog: seq<Tile>, hand: seq<string>) returns (r: Option<seq<WinResult>>)
    requires |hand| == 9 ==> HandReady(units, catalog, hand)
    ensures |hand| != 9 ==> r.None?
    ensures |hand| == 9 ==> r == FirstWin(Outcomes(units, catalog, hand))
  {
    if |hand| != 9 {
      return None;
    }
    FirstWinTen(CheckCinderellaGirls(hand), CheckWonderfulMagic(hand), CheckEnsemble(catalog, hand),
                Splits(FiveStar, units, catalog, hand), Splits(Quartet, units, catalog, hand),
                CheckSymphony(catalog, hand), Splits(Tricolor, units, catalog, hand),
                Splits(NormalLive, units, catalog, hand), Splits(StartDash, units, catalog, hand),
                Rehearsal(catalog, hand));
    r := CheckCinderellaGirls(hand);
    if r.Some? {
      return;
    }
    r := CheckWonderfulMagic(hand);
    if r.Some? {
      return;
    }
    r := CheckEnsemble(catalog, hand);
    if r.Some? {
      return;
    }
    r := CheckSplits(FiveStar, units, catalog, hand);
    if r.Some? {
      return;
    }
    r := CheckSplits(Quartet, units, catalog, hand);
    if r.Some? {
      return;
    }
    r := CheckSymphony(catalog, hand);
    if r.Some? {
      return;
    }
    r := CheckSplits(Tricolor, units, catalog, hand);
    if r.Some? {
      return;
    }
    r := CheckSplits(NormalLive, units, catalog, hand);
    if r.Some? {
      return;
    }
    r := CheckSplits(StartDash, units, catalog, hand);
    if r.Some? {
      return;
    }
    r := CheckRehearsal(catalog, hand);
  }

  /** A result entry that one of the ten patterns justifies for this hand. */
  ghost predicate Justified(units: seq<Unit>, catalog: seq<Tile>, hand: seq<string>, w: WinResult)
  {
    || (w == WinResult("シンデレラガール", 600000, WholeHand(hand)) && forall t :: t in hand ==> t in CinderellaGirlRoster)
    || (w == WinResult("WONDERFUL M@GIC!!", 480000, WholeHand(hand)) && forall t :: t in hand ==> t in WonderfulMagicRoster)
    || (w == WinResult("アンサンブル", 420000, WholeHand(hand)) && SharedKind(KnownTiles(catalog, hand)))
    || (w == WinResult("シンフォニー", 240000, WholeHand(hand)) &&
        StatusesInThrees(KnownTiles(catalog, hand)) && SharedType(KnownTiles(catalog, hand)))
    || (w == WinResult("リハーサル", 30000, WholeHand(hand)) && KindsInThrees(KnownTiles(catalog, hand)))
    || exists p: Pattern, c :: PatternSplit(p, units, catalog, hand, c) &&
         w == WinResult(PatternName(p), PatternScore(p), Units(Normalize(c)))
  }

  /**
   * Every result a split pattern reports lists, largest first, the groups of a split of the
   * hand that the pattern accepts.
   */
  lemma SplitsJustified(p: Pattern, units: seq<Unit>, catalog: seq<Tile>, hand: seq<string>)
    requires "" !in hand
    ensures Splits(p, units, catalog, hand).Some? ==>
              forall w :: w in Splits(p, units, catalog, hand).value ==> Justified(units, catalog, hand, w)
  {
    CandidatesSound(p, units, catalog, hand);
    ConcludeJustified(p, units, catalog, hand, Candidates(p, units, catalog, hand));
  }

  lemma ConcludeJustified(p: Pattern, units: seq<Unit>, catalog: seq<Tile>, hand: seq<string>, cs: seq<seq<Unit>>)
    requires forall c :: c in cs ==> PatternSplit(p, units, catalog, hand, c)
    ensures Conclude(PatternName(p), PatternScore(p), cs).Some? ==>
              forall w :: w in Conclude(PatternName(p), PatternScore(p), cs).value ==> Justified(units, catalog, hand, w)
  {
    var r := Conclude(PatternName(p), PatternScore(p), cs);
    if r.Some? {
      forall w | w in r.value ensures Justified(units, catalog, hand, w) {
        var a :| 0 <= a < |r.value| && r.value[a] == w;
        var k :| 0 <= k < |cs| && w.payload == Units(Normalize(cs[k]));
        SplitJustifies(p, units, catalog, hand, cs[k]);
      }
    }
  }

  lemma SplitJustifies(p: Pattern, units: seq<Unit>, catalog: seq<Tile>, hand: seq<string>, c: seq<Unit>)
    requires PatternSplit(p, units, catalog, hand, c)
    ensures Justified(units, catalog, hand, WinResult(PatternName(p), PatternScore(p), Units(Normalize(c))))
  {
  }

  /** The outcome of `checkFinish` on a nine-tile hand, as its `if`/`else if` chain. */
  lemma FinishChain(units: seq<Unit>, catalog: seq<Tile>, hand: seq<string>)
    ensures FirstWin(Outcomes(units, catalog, hand)) ==
            OrElse(CheckCinderellaGirls(hand), OrElse(CheckWonderfulMagic(hand), OrElse(CheckEnsemble(catalog, hand),
            OrElse(Splits(FiveStar, units, catalog, hand), OrElse(Splits(Quartet, units, catalog, hand),
            OrElse(CheckSymphony(catalog, hand), OrElse(Splits(Tricolor, units, catalog, hand),
            OrElse(Splits(NormalLive, units, catalog, hand), OrElse(Splits(StartDash, units, catalog, hand),
            Rehearsal(catalog, hand))))))))))
  {
    FirstWinTen(CheckCinderellaGirls(hand), CheckWonderfulMagic(hand), CheckEnsemble(catalog, hand),
                Splits(FiveStar, units, catalog, hand), Splits(Quartet, units, catalog, hand),
                CheckSymphony(catalog, hand), Splits(Tricolor, units, catalog, hand),
                Splits(NormalLive, units, catalog, hand), Splits(StartDash, units, catalog, hand),
                Rehearsal(catalog, hand));
  }

  /**
   * Whatever `checkFinish` reports is non-empty and every entry is justified: a whole-hand
   * pattern whose condition holds, or a split of the hand that a split pattern accepts.
   */
  lemma FinishSound(units: seq<Unit>, catalog: seq<Tile>, hand: seq<string>)
    requires "" !in hand
    ensures FirstWin(Outcomes(units, catalog, hand)).Some? ==>
              && |FirstWin(Outcomes(units, catalog, hand)).value| > 0
              && forall w :: w in FirstWin(Outcomes(units, catalog, hand)).value ==> Justified(units, catalog, hand, w)
  {
    FinishChain(units, catalog, hand);
    if CheckCinderellaGirls(hand).Some? || CheckWonderfulMagic(hand).Some? || CheckEnsemble(catalog, hand).Some? {
    } else if Splits(FiveStar, units, catalog, hand).Some? {
      SplitsJustified(FiveStar, units, catalog, hand);
    } else if Splits(Quartet, units, catalog, hand).Some? {
      SplitsJustified(Quartet, units, catalog, hand);
    } else if CheckSymphony(catalog, hand).Some? {
    } else if Splits(Tricolor, units, catalog, hand).Some? {
      SplitsJustified(Tricolor, units, catalog, hand);
    } else if Splits(NormalLive, units, catalog, hand).Some? {
      SplitsJustified(NormalLive, units, catalog, hand);
    } else if Splits(StartDash, units, catalog, hand).Some? {
      SplitsJustified(StartDash, units, catalog, hand);
    }
  }

  /**
   * `checkFinish` finds nothing on a nine-tile hand exactly when no roster covers it, its
   * idols do not share a kind, no split pattern finds a split, and リハーサル fails (シンフォニー
   * holding implies that リハーサル holds, so it adds no condition of its own).
   */
  lemma FinishNone(units: seq<Unit>, catalog: seq<Tile>, hand: seq<string>)
    ensures FirstWin(Outcomes(units, catalog, hand)).None? <==>
              && (exists t :: t in hand && t !in CinderellaGirlRoster)
              && (exists t :: t in hand && t !in WonderfulMagicRoster)
              && !SharedKind(KnownTiles(catalog, hand))
              && Candidates(FiveStar, units, catalog, hand) == []
              && Candidates(Quartet, units, catalog, hand) == []
              && Candidates(Tricolor, units, catalog, hand) == []
              && Candidates(NormalLive, units, catalog, hand) == []
              && Candidates(StartDash, units, catalog, hand) == []
              && !KindsInThrees(KnownTiles(catalog, hand))
  {
    var idols := KnownTiles(catalog, hand);
    FinishChain(units, catalog, hand);
    if StatusesInThrees(idols) && SharedType(idols) {
      SymphonyImpliesRehearsal(idols);
    }
  }

  // ---------------------------------------------------------------------------------------
  // トリコロール and the ノーマルライブ test with three official units.

  /**
   * Once トリコロール finds a split, no entry of the result is named ノーマルライブ: トリコロール,
   * or a check before it in the chain, answers first.
   */
  lemma TricolorShadowsNormalLive(units: seq<Unit>, catalog: seq<Tile>, hand: seq<string>)
    requires Candidates(Tricolor, units, catalog, hand) != []
    ensures FirstWin(Outcomes(units, catalog, hand)).Some?
    ensures forall w :: w in FirstWin(Outcomes(units, catalog, hand)).value ==> w.name != "ノーマルライブ"
  {
    FinishChain(units, catalog, hand);
    var r := Splits(Tricolor, units, catalog, hand);
    assert r.Some?;
    SplitsNotNormalLive(Tricolor, units, catalog, hand);
    WholeHandNotNormalLive(catalog, hand);
    r := OrElseNotNormalLive(CheckSymphony(catalog, hand), r);
    SplitsNotNormalLive(Quartet, units, catalog, hand);
    r := OrElseNotNormalLive(Splits(Quartet, units, catalog, hand), r);
    SplitsNotNormalLive(FiveStar, units, catalog, hand);
    r := OrElseNotNormalLive(Splits(FiveStar, units, catalog, hand), r);
    r := OrElseNotNormalLive(CheckEnsemble(catalog, hand), r);
    r := OrElseNotNormalLive(CheckWonderfulMagic(hand), r);
    r := OrElseNotNormalLive(CheckCinderellaGirls(hand), r);
  }

  /** An outcome that reports nothing under the name ノーマルライブ. */
  ghost predicate NotNormalLive(o: Option<seq<WinResult>>)
  {
    o.Some? ==> forall w :: w in o.value ==> w.name != "ノーマルライブ"
  }

  /**
   * Putting a check other than ノーマルライブ in front of an outcome that found something
   * keeps it found and keeps ノーマルライブ out of it.
   */
  lemma OrElseNotNormalLive(a: Option<seq<WinResult>>, b: Option<seq<WinResult>>) returns (r: Option<seq<WinResult>>)
    requires b.Some? && NotNormalLive(b)
    requires NotNormalLive(a)
    ensures r == OrElse(a, b) && r.Some? && NotNormalLive(r)
  {
    r := OrElse(a, b);
  }

  /** The whole-hand checks that come before トリコロール report under their own names. */
  lemma WholeHandNotNormalLive(catalog: seq<Tile>, hand: seq<string>)
    ensures NotNormalLive(CheckCinderellaGirls(hand)) && NotNormalLive(CheckWonderfulMagic(hand))
    ensures NotNormalLive(CheckEnsemble(catalog, hand)) && NotNormalLive(CheckSymphony(catalog, hand))
  {
  }

  /** A split pattern other than ノーマルライブ reports only under its own name. */
  lemma SplitsNotNormalLive(p: Pattern, units: seq<Unit>, catalog: seq<Tile>, hand: seq<string>)
    requires p != NormalLive
    ensures NotNormalLive(Splits(p, units, catalog, hand))
  {
    SplitsNamed(p, units, catalog, hand);
  }

  /** Every entry a split pattern reports carries the pattern's name. */
  lemma SplitsNamed(p: Pattern, units: seq<Unit>, catalog: seq<Tile>, hand: seq<string>)
    ensures Splits(p, units, catalog, hand).Some? ==>
              forall w :: w in Splits(p, units, catalog, hand).value ==> w.name == PatternName(p)
  {
    var r := Splits(p, units, catalog, hand);
    if r.Some? {
      forall w | w in r.value ensures w.name == PatternName(p) {
        var a :| 0 <= a < |r.value| && r.value[a] == w;
      }
    }
  }

  /**
   * After a five-member unit `u`, four tiles are left, and the pair at positions 0 and 1
   * and the pair at positions 2 and 3 each make an equally labelled group (two fallback
   * groups of one type and status, say). The 5スター search finds the split both as
   * `[u, g1, g2]` and as `[u, g2, g1]`; the key as written keeps both, the intended key one.
   */
  lemma FallbackPairReportedTwice(units: seq<Unit>, catalog: seq<Tile>, hand: seq<string>, u: Unit, g1: Unit, g2: Unit)
    requires u in units && u.numOfMembers == 5 && Within(u.tileIdentifiers, hand)
    requires var rest := Remove(hand, u.tileIdentifiers);
      && |rest| == 4 && rest[0] != rest[2]
      && g1.tileIdentifiers == [rest[0], rest[1]] && g2.tileIdentifiers == [rest[2], rest[3]]
      && Remove(rest, g1.tileIdentifiers) == g2.tileIdentifiers && Remove(rest, g2.tileIdentifiers) == g1.tileIdentifiers
    requires IsGroup(units, catalog, g1) && IsGroup(units, catalog, g2) && g1.name == g2.name
    ensures [u, g1, g2] in Candidates(FiveStar, units, catalog, hand)
    ensures [u, g2, g1] in Candidates(FiveStar, units, catalog, hand)
    ensures |UniqueResultsAsWritten([[u, g1, g2], [u, g2, g1]])| == 2
    ensures |UniqueResults([[u, g1, g2], [u, g2, g1]])| == 1
  {
    FiveStarComplete(units, catalog, hand, u, g1, g2, 0, 1);
    FiveStarComplete(units, catalog, hand, u, g2, g1, 2, 3);
    LabelOrderKeyKeepsDuplicate(u, g1, g2);
  }

  /**
   * After a four-member unit `u`, five tiles are left. The pair at positions 0 and 1 with
   * the other three, and the pair at positions 3 and 4 with the other three, both make
   * matched groups. カルテット finds both splits, `[u, r1, p1]` and `[u, r2, p2]`. When their
   * labels sort as `u`, `p1`, `r1` and `u`, `r2`, `p2`, both list the five tiles in hand
   * order, so the key as written reports only the first of two different splits; the
   * intended key reports both.
   */
  lemma QuartetKeyMergesSplits(units: seq<Unit>, catalog: seq<Tile>, hand: seq<string>,
                               u: Unit, p1: Unit, r1: Unit, p2: Unit, r2: Unit)
    requires u in units && u.numOfMembers == 4 && Within(u.tileIdentifiers, hand)
    requires var rest := Remove(hand, u.tileIdentifiers);
      && |rest| == 5 && rest[0] != rest[3]
      && p1.tileIdentifiers == [rest[0], rest[1]] && r1.tileIdentifiers == Remove(rest, p1.tileIdentifiers)
      && p2.tileIdentifiers == [rest[3], rest[4]] && r2.tileIdentifiers == Remove(rest, p2.tileIdentifiers)
      && r1.tileIdentifiers == [rest[2], rest[3], rest[4]] && r2.tileIdentifiers == [rest[0], rest[1], rest[2]]
    requires IsGroup(units, catalog, p1) && IsGroup(units, catalog, r1)
    requires IsGroup(units, catalog, p2) && IsGroup(units, catalog, r2)
    requires ByLabel(u, p1) && ByLabel(p1, r1) && ByLabel(u, r2) && ByLabel(r2, p2)
    ensures [u, r1, p1] in Candidates(Quartet, units, catalog, hand)
    ensures [u, r2, p2] in Candidates(Quartet, units, catalog, hand)
    ensures LabelOrderKey([u, r1, p1]) == LabelOrderKey([u, r2, p2])
    ensures |UniqueResultsAsWritten([[u, r1, p1], [u, r2, p2]])| == 1
    ensures |UniqueResults([[u, r1, p1], [u, r2, p2]])| == 2
  {
    QuartetComplete(units, catalog, hand, u, p1, r1, 0, 1);
    QuartetComplete(units, catalog, hand, u, p2, r2, 3, 4);
    var rest := Remove(hand, u.tileIdentifiers);
    FiveTilesMerge(u, p1, r1, p2, r2, rest[0], rest[1], rest[2], rest[3], rest[4]);
  }

  /** The key part of `QuartetKeyMergesSplits`, on the five tiles left after the unit. */
  lemma FiveTilesMerge(u: Unit, p1: Unit, r1: Unit, p2: Unit, r2: Unit, a: string, b: string, c: string, d: string, e: string)
    requires p1.tileIdentifiers == [a, b] && r1.tileIdentifiers == [c, d, e]
    requires p2.tileIdentifiers == [d, e] && r2.tileIdentifiers == [a, b, c] && a != d
    requires ByLabel(u, p1) && ByLabel(p1, r1) && ByLabel(u, r2) && ByLabel(r2, p2)
    ensures LabelOrderKey([u, r1, p1]) == LabelOrderKey([u, r2, p2])
    ensures |UniqueResultsAsWritten([[u, r1, p1], [u, r2, p2]])| == 1
    ensures |UniqueResults([[u, r1, p1], [u, r2, p2]])| == 2
  {
    assert p1.tileIdentifiers + r1.tileIdentifiers == [a, b, c, d, e] == r2.tileIdentifiers + p2.tileIdentifiers;
    LabelOrderKeyMergesSplits(u, p1, r1, p2, r2);
  }

  /** The units of the source's test `ノーマルライブ - 3人公式 + 3人公式 + 3人公式`. */
  const MomoPairBerry := Unit("ももぺあべりー", 3, ["087", "015", "155"])
  const PetitPafeary := Unit("プチ＊パフェアリー", 3, ["024", "034", "104"])
  const FleetingBouquet := Unit("fleeting bouquet", 3, ["124", "026", "064"])

  /** That test's hand: the three units' members. */
  const ThreeOfficialUnitsHand := ["087", "015", "155", "024", "034", "104", "124", "026", "064"]

  /**
   * The test expects ノーマルライブ for this hand, but with these three units in the catalog,
   * whatever the tiles, `checkFinish` reports トリコロール (or an earlier pattern) instead.
   */
  lemma ThreeOfficialUnitsNotNormalLive(units: seq<Unit>, catalog: seq<Tile>)
    requires MomoPairBerry in units && PetitPafeary in units && FleetingBouquet in units
    ensures [MomoPairBerry, PetitPafeary, FleetingBouquet] in Candidates(Tricolor, units, catalog, ThreeOfficialUnitsHand)
    ensures FirstWin(Outcomes(units, catalog, ThreeOfficialUnitsHand)).Some?
    ensures forall w :: w in FirstWin(Outcomes(units, catalog, ThreeOfficialUnitsHand)).value ==>
              w.name != "ノーマルライブ"
  {
    var hand := ThreeOfficialUnitsHand;
    var parts := [MomoPairBerry.tileIdentifiers, PetitPafeary.tileIdentifiers, FleetingBouquet.tileIdentifiers];
    assert Separate(hand, parts);
    TricolorComplete(units, hand, catalog, MomoPairBerry, PetitPafeary, FleetingBouquet);
    TricolorShadowsNormalLive(units, catalog, hand);
  }

  /** The one idol type of a unit's known members, if they have one. */
  function UnitType(catalog: seq<Tile>, u: Unit): (t: Option<IdolType>)
    ensures t.Some? ==> forall idol :: idol in KnownTiles(catalog, u.tileIdentifiers) ==> idol.idolType == t.value
    ensures t.None? <==> KnownTiles(catalog, u.tileIdentifiers) == [] || !SharedType(KnownTiles(catalog, u.tileIdentifiers))
  {
    var idols := KnownTiles(catalog, u.tileIdentifiers);
    if idols != [] && SharedType(idols) then Some(idols[0].idolType) else None
  }

  /** Three units of three different idol types, one each: Cute, Cool and Passion. */
  predicate ThreeColours(catalog: seq<Tile>, c: seq<Unit>)
  {
    && |c| == 3
    && UnitType(catalog, c[0]).Some? && UnitType(catalog, c[1]).Some? && UnitType(catalog, c[2]).Some?
    && UnitType(catalog, c[0]) != UnitType(catalog, c[1])
    && UnitType(catalog, c[0]) != UnitType(catalog, c[2])
    && UnitType(catalog, c[1]) != UnitType(catalog, c[2])
  }

  /** The splits that are three colours, in order. */
  function Colourful(catalog: seq<Tile>, cs: seq<seq<Unit>>): (r: seq<seq<Unit>>)
    ensures forall c :: c in r <==> c in cs && ThreeColours(catalog, c)
  {
    if cs == [] then []
    else
      assert forall c :: c in cs <==> c == cs[0] || c in cs[1..];
      (if ThreeColours(catalog, cs[0]) then [cs[0]] else []) + Colourful(catalog, cs[1..])
  }

  /** トリコロール as the test `3人公式(Cu) + 3人公式(Co) + 3人公式(Pa)` names it: one unit of each type. */
  function TricolorIntended(units: seq<Unit>, catalog: seq<Tile>, hand: seq<string>): Option<seq<WinResult>>
  {
    Conclude(PatternName(Tricolor), PatternScore(Tricolor), Colourful(catalog, Candidates(Tricolor, units, catalog, hand)))
  }

  /**
   * The intended トリコロール reports only splits the source's トリコロール finds whose three
   * units have three different idol types, and it reports one whenever such a split exists.
   */
  lemma TricolorIntendedSound(units: seq<Unit>, catalog: seq<Tile>, hand: seq<string>)
    requires "" !in hand
    ensures TricolorIntended(units, catalog, hand).Some? <==>
              exists c :: c in Candidates(Tricolor, units, catalog, hand) && ThreeColours(catalog, c)
    ensures TricolorIntended(units, catalog, hand).Some? ==>
              forall w :: w in TricolorIntended(units, catalog, hand).value ==>
                exists c :: PatternSplit(Tricolor, units, catalog, hand, c) && ThreeColours(catalog, c) &&
                  w == WinResult("トリコロール", 240000, Units(Normalize(c)))
  {
    var cs := Colourful(catalog, Candidates(Tricolor, units, catalog, hand));
    if |cs| > 0 {
      assert cs[0] in cs;
    }
    TricolorIntendedEntries(units, catalog, hand);
  }

  /** One candidate split at a time, so that callers need not hold the quantified fact. */
  lemma CandidateSplit(p: Pattern, units: seq<Unit>, catalog: seq<Tile>, hand: seq<string>, c: seq<Unit>)
    requires "" !in hand && c in Candidates(p, units, catalog, hand)
    ensures PatternSplit(p, units, catalog, hand, c)
  {
    CandidatesSound(p, units, catalog, hand);
  }

  lemma TricolorIntendedEntries(units: seq<Unit>, catalog: seq<Tile>, hand: seq<string>)
    requires "" !in hand
    ensures TricolorIntended(units, catalog, hand).Some? ==>
              forall w :: w in TricolorIntended(units, catalog, hand).value ==>
                exists c :: PatternSplit(Tricolor, units, catalog, hand, c) && ThreeColours(catalog, c) &&
                  w == WinResult("トリコロール", 240000, Units(Normalize(c)))
  {
    var cs := Colourful(catalog, Candidates(Tricolor, units, catalog, hand));
    var r := TricolorIntended(units, catalog, hand);
    if r.Some? {
      forall w | w in r.value
        ensures exists c :: PatternSplit(Tricolor, units, catalog, hand, c) && ThreeColours(catalog, c) &&
                  w == WinResult("トリコロール", 240000, Units(Normalize(c)))
      {
        var k := ConcludeEntry(PatternName(Tricolor), PatternScore(Tricolor), cs, w);
        assert cs[k] in cs;
        CandidateSplit(Tricolor, units, catalog, hand, cs[k]);
      }
    }
  }

  /** A unit with known members of two types has no colour, so no intended トリコロール lists it. */
  lemma MixedUnitNotTricolour(catalog: seq<Tile>, u: Unit, a: Tile, b: Tile, c: seq<Unit>)
    requires a in catalog && b in catalog && a.idolType != b.idolType
    requires Found(u.tileIdentifiers, a.identifier) && Found(u.tileIdentifiers, b.identifier)
    requires u in c
    ensures UnitType(catalog, u).None? && !ThreeColours(catalog, c)
  {
    KnownTilesMembers(catalog, u.tileIdentifiers);
  }

  /**
   * ももぺあべりー's 橘ありす (`087`, Cool) and 櫻井桃華 (`015`, Cute) differ in type, so with the
   * test's tiles the intended トリコロール does not take the three official units, and the
   * test's ノーマルライブ is not shadowed by that split.
   */
  lemma ThreeOfficialUnitsNotTricolour(catalog: seq<Tile>, arisu: Tile, momoka: Tile)
    requires arisu in catalog && arisu.identifier == "087" && arisu.idolType == Cool
    requires momoka in catalog && momoka.identifier == "015" && momoka.idolType == Cute
    ensures !ThreeColours(catalog, [MomoPairBerry, PetitPafeary, FleetingBouquet])
  {
    MixedUnitNotTricolour(catalog, MomoPairBerry, arisu, momoka, [MomoPairBerry, PetitPafeary, FleetingBouquet]);
  }
}
