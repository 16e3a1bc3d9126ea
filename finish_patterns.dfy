/**
 * The five split patterns as the checker runs them: walk the catalog units of the leading
 * size, skip those whose tiles are not all in the hand, and search what remains.
 *   5スター:        a five-member unit, a matched pair, a matched rest
 *   カルテット:      a four-member unit, a matched rest, a matched pair
 *   ノーマルライブ:  a three-member unit, a matched rest, a matched triple
 *   スタートダッシュ: a three-member unit, a two-member unit, a matched pair, a matched rest
 *   トリコロール:    three three-member units taken in turn from what remains
 */
module FinishPatterns {
  import opened Common
  import opened Catalog
  import opened FinishMatch
  import opened FinishResults
  import opened FinishSearch
  import opened Loops

  datatype Pattern = FiveStar | Quartet | Tricolor | NormalLive | StartDash

  /** The size of the catalog units the outer loop walks. */
  function LeadSize(p: Pattern): int
  {
    match p
    case FiveStar => 5
    case Quartet => 4
    case _ => 3
  }

  function PatternName(p: Pattern): string
  {
    match p
    case FiveStar => "5スター"
    case Quartet => "カルテット"
    case Tricolor => "トリコロール"
    case NormalLive => "ノーマルライブ"
    case StartDash => "スタートダッシュ"
  }

  function PatternScore(p: Pattern): int
  {
    match p
    case FiveStar => 360000
    case Quartet => 420000
    case Tricolor => 240000
    case NormalLive => 120000
    case StartDash => 60000
  }

  // ---------------------------------------------------------------------------------------
  // What each loop iteration contributes.

  /** トリコロール's innermost loop: a third unit whose tiles all remain closes the split. */
  function TricolorThird(u1: Unit, u2: Unit, pool: seq<string>): Unit -> seq<seq<Unit>>
  {
    (u3: Unit) => if Within(u3.tileIdentifiers, pool) then [[u1, u2, u3]] else []
  }

  /** トリコロール's middle loop: a second unit whose tiles all remain, then every third unit. */
  function TricolorSecond(units3: seq<Unit>, u1: Unit, pool: seq<string>): Unit -> seq<seq<Unit>>
  {
    (u2: Unit) => if Within(u2.tileIdentifiers, pool)
          then Concat(TricolorThird(u1, u2, Remove(pool, u2.tileIdentifiers)), units3)
          else []
  }

  /** スタートダッシュ's middle loop: a two-member unit whose tiles all remain, then the pair loops. */
  function StartDashSecond(units: seq<Unit>, catalog: seq<Tile>, u1: Unit, pool: seq<string>): Unit -> seq<seq<Unit>>
  {
    (u2: Unit) => if Within(u2.tileIdentifiers, pool)
          then PairAll(units, catalog, [u1, u2], GroupFirst, Remove(pool, u2.tileIdentifiers))
          else []
  }

  /** The search after the leading unit `u1`, on the tiles `pool` it leaves. */
  function Inner(p: Pattern, units: seq<Unit>, catalog: seq<Tile>, u1: Unit, pool: seq<string>): seq<seq<Unit>>
  {
    match p
    case FiveStar => PairAll(units, catalog, [u1], GroupFirst, pool)
    case Quartet => PairAll(units, catalog, [u1], GroupLast, pool)
    case NormalLive => TripleAll(units, catalog, [u1], GroupLast, pool)
    case StartDash => Concat(StartDashSecond(units, catalog, u1, pool), OfSize(units, 2))
    case Tricolor => Concat(TricolorSecond(OfSize(units, 3), u1, pool), OfSize(units, 3))
  }

  /** The outer loop: a leading unit whose tiles are all in the hand, then the inner search. */
  function LeadBody(p: Pattern, units: seq<Unit>, catalog: seq<Tile>, hand: seq<string>): Unit -> seq<seq<Unit>>
  {
    (u1: Unit) => if Within(u1.tileIdentifiers, hand) then Inner(p, units, catalog, u1, Remove(hand, u1.tileIdentifiers)) else []
  }

  /** Every split a pattern's loops push, in loop order, before deduplication. */
  function Candidates(p: Pattern, units: seq<Unit>, catalog: seq<Tile>, hand: seq<string>): seq<seq<Unit>>
  {
    Concat(LeadBody(p, units, catalog, hand), OfSize(units, LeadSize(p)))
  }

  lemma InnerFiveStar(units: seq<Unit>, catalog: seq<Tile>, u1: Unit, pool: seq<string>)
    ensures Inner(FiveStar, units, catalog, u1, pool) == PairAll(units, catalog, [u1], GroupFirst, pool)
  {
  }

  lemma InnerQuartet(units: seq<Unit>, catalog: seq<Tile>, u1: Unit, pool: seq<string>)
    ensures Inner(Quartet, units, catalog, u1, pool) == PairAll(units, catalog, [u1], GroupLast, pool)
  {
  }

  lemma InnerNormalLive(units: seq<Unit>, catalog: seq<Tile>, u1: Unit, pool: seq<string>)
    ensures Inner(NormalLive, units, catalog, u1, pool) == TripleAll(units, catalog, [u1], GroupLast, pool)
  {
  }

  lemma InnerTricolor(units: seq<Unit>, catalog: seq<Tile>, u1: Unit, pool: seq<string>)
    ensures Inner(Tricolor, units, catalog, u1, pool) == Concat(TricolorSecond(OfSize(units, 3), u1, pool), OfSize(units, 3))
  {
  }

  lemma InnerStartDash(units: seq<Unit>, catalog: seq<Tile>, u1: Unit, pool: seq<string>)
    ensures Inner(StartDash, units, catalog, u1, pool) == Concat(StartDashSecond(units, catalog, u1, pool), OfSize(units, 2))
  {
  }

  lemma TricolorThirdAt(u1: Unit, u2: Unit, pool: seq<string>, u3: Unit)
    ensures TricolorThird(u1, u2, pool)(u3) == if Within(u3.tileIdentifiers, pool) then [[u1, u2, u3]] else []
  {
  }

  lemma TricolorSecondAt(units3: seq<Unit>, u1: Unit, pool: seq<string>, u2: Unit)
    ensures TricolorSecond(units3, u1, pool)(u2) ==
            if Within(u2.tileIdentifiers, pool)
            then Concat(TricolorThird(u1, u2, Remove(pool, u2.tileIdentifiers)), units3)
            else []
  {
  }

  lemma StartDashSecondAt(units: seq<Unit>, catalog: seq<Tile>, u1: Unit, pool: seq<string>, u2: Unit)
    ensures StartDashSecond(units, catalog, u1, pool)(u2) ==
            if Within(u2.tileIdentifiers, pool)
            then PairAll(units, catalog, [u1, u2], GroupFirst, Remove(pool, u2.tileIdentifiers))
            else []
  {
  }

  lemma LeadBodyAt(p: Pattern, units: seq<Unit>, catalog: seq<Tile>, hand: seq<string>, u1: Unit)
    ensures LeadBody(p, units, catalog, hand)(u1) ==
            if Within(u1.tileIdentifiers, hand) then Inner(p, units, catalog, u1, Remove(hand, u1.tileIdentifiers)) else []
  {
  }

  // ---------------------------------------------------------------------------------------
  // The loops.

  /** トリコロール's innermost loop over the three-member units. */
  method SearchTricolorThirds(units3: seq<Unit>, u1: Unit, u2: Unit, pool: seq<string>) returns (rs: seq<seq<Unit>>)
    ensures rs == Concat(TricolorThird(u1, u2, pool), units3)
  {
    rs := [];
    var n := 0;
    while n < |units3|
      invariant 0 <= n <= |units3|
      invariant rs == Concat(TricolorThird(u1, u2, pool), units3[..n])
    {
      var u3 := units3[n];
      ConcatStep(TricolorThird(u1, u2, pool), units3, n);
      TricolorThirdAt(u1, u2, pool, u3);
      if Within(u3.tileIdentifiers, pool) {
        rs := rs + [[u1, u2, u3]];
      }
      n := n + 1;
    }
    assert units3[..n] == units3;
  }

  /** トリコロール's middle loop over the three-member units. */
  method SearchTricolorSeconds(units3: seq<Unit>, u1: Unit, pool: seq<string>) returns (rs: seq<seq<Unit>>)
    ensures rs == Concat(TricolorSecond(units3, u1, pool), units3)
  {
    rs := [];
    var n := 0;
    while n < |units3|
      invariant 0 <= n <= |units3|
      invariant rs == Concat(TricolorSecond(units3, u1, pool), units3[..n])
    {
      var u2 := units3[n];
      ConcatStep(TricolorSecond(units3, u1, pool), units3, n);
      TricolorSecondAt(units3, u1, pool, u2);
      if Within(u2.tileIdentifiers, pool) {
        var thirds := SearchTricolorThirds(units3, u1, u2, Remove(pool, u2.tileIdentifiers));
        rs := rs + thirds;
      }
      n := n + 1;
    }
    assert units3[..n] == units3;
  }

  /** スタートダッシュ's middle loop over the two-member units. */
  method SearchStartDashSeconds(units: seq<Unit>, catalog: seq<Tile>, u1: Unit, pool: seq<string>)
    returns (rs: seq<seq<Unit>>)
    requires WellFormedUnits(units) && PoolReady(catalog, pool, 5)
    ensures rs == Concat(StartDashSecond(units, catalog, u1, pool), OfSize(units, 2))
  {
    var units2 := OfSize(units, 2);
    rs := [];
    var n := 0;
    while n < |units2|
      invariant 0 <= n <= |units2|
      invariant rs == Concat(StartDashSecond(units, catalog, u1, pool), units2[..n])
    {
      var u2 := units2[n];
      ConcatStep(StartDashSecond(units, catalog, u1, pool), units2, n);
      StartDashSecondAt(units, catalog, u1, pool, u2);
      if Within(u2.tileIdentifiers, pool) {
        RestReady(units, catalog, pool, 5, u2);
        var pairs := SearchPairs(units, catalog, [u1, u2], GroupFirst, Remove(pool, u2.tileIdentifiers));
        rs := rs + pairs;
      }
      n := n + 1;
    }
    assert units2[..n] == units2;
  }

  /** With no two-member unit in the catalog, スタートダッシュ finds nothing. */
  lemma StartDashNeedsPairs(units: seq<Unit>, catalog: seq<Tile>, hand: seq<string>, leads: seq<Unit>)
    requires |OfSize(units, 2)| == 0
    ensures Concat(LeadBody(StartDash, units, catalog, hand), leads) == []
  {
    var body := LeadBody(StartDash, units, catalog, hand);
    forall k | 0 <= k < |leads| ensures body(leads[k]) == [] {
      LeadBodyAt(StartDash, units, catalog, hand, leads[k]);
    }
    ConcatNil(body, leads);
  }

  /** The loops after the leading unit `u1`, as each pattern runs them on the tiles it leaves. */
  method SearchInner(p: Pattern, units: seq<Unit>, catalog: seq<Tile>, u1: Unit, rest: seq<string>)
    returns (found: seq<seq<Unit>>)
    requires WellFormedUnits(units) && PoolReady(catalog, rest, 9 - LeadSize(p))
    requires p == StartDash ==> |OfSize(units, 2)| > 0
    ensures found == Inner(p, units, catalog, u1, rest)
  {
    match p {
      case FiveStar =>
        found := SearchPairs(units, catalog, [u1], GroupFirst, rest);
      case Quartet =>
        found := SearchPairs(units, catalog, [u1], GroupLast, rest);
      case NormalLive =>
        found := SearchTriples(units, catalog, [u1], GroupLast, rest);
      case StartDash =>
        found := SearchStartDashSeconds(units, catalog, u1, rest);
      case Tricolor =>
        found := SearchTricolorSeconds(OfSize(units, 3), u1, rest);
    }
  }

  /**
   * One split pattern: no unit of the leading size means no result; otherwise every split the
   * loops push is collected and `Conclude` keeps one per key. スタートダッシュ gives up as
   * soon as a leading unit fits and the catalog has no two-member unit.
   */
  method CheckSplits(p: Pattern, units: seq<Unit>, catalog: seq<Tile>, hand: seq<string>)
    returns (r: Option<seq<WinResult>>)
    requires HandReady(units, catalog, hand)
    ensures r == Conclude(PatternName(p), PatternScore(p), Candidates(p, units, catalog, hand))
  {
    var units1 := OfSize(units, LeadSize(p));
    if |units1| == 0 {
      return None;
    }
    ghost var body := LeadBody(p, units, catalog, hand);
    var results: seq<seq<Unit>> := [];
    var n := 0;
    while n < |units1|
      invariant 0 <= n <= |units1|
      invariant results == Concat(body, units1[..n])
    {
      var u1 := units1[n];
      ConcatStep(body, units1, n);
      LeadBodyAt(p, units, catalog, hand, u1);
      if Within(u1.tileIdentifiers, hand) {
        var rest := Remove(hand, u1.tileIdentifiers);
        RestReady(units, catalog, hand, 9, u1);
        if p == StartDash && |OfSize(units, 2)| == 0 {
          StartDashNeedsPairs(units, catalog, hand, units1);
          return None;
        }
        var found := SearchInner(p, units, catalog, u1, rest);
        results := results + found;
      }
      n := n + 1;
    }
    assert units1[..n] == units1;
    r := Conclude(PatternName(p), PatternScore(p), results);
  }

  // ---------------------------------------------------------------------------------------
  // What the patterns find.

  /**
   * 5スター: a five-member catalog unit, a matched pair and a matched rest, listed in that
   * order, every tile of the hand in exactly one of them.
   */
  ghost predicate FiveStarSplit(units: seq<Unit>, catalog: seq<Tile>, hand: seq<string>, c: seq<Unit>)
  {
    exists u, g, last ::
      && u in units && u.numOfMembers == 5 && c == [u, g, last] && |g.tileIdentifiers| == 2
      && IsGroup(units, catalog, g) && IsGroup(units, catalog, last)
      && Partition(hand, [u.tileIdentifiers, g.tileIdentifiers, last.tileIdentifiers])
  }

  /** カルテット: a four-member catalog unit, a matched rest and a matched pair. */
  ghost predicate QuartetSplit(units: seq<Unit>, catalog: seq<Tile>, hand: seq<string>, c: seq<Unit>)
  {
    exists u, g, last ::
      && u in units && u.numOfMembers == 4 && c == [u, last, g] && |g.tileIdentifiers| == 2
      && IsGroup(units, catalog, g) && IsGroup(units, catalog, last)
      && Partition(hand, [u.tileIdentifiers, g.tileIdentifiers, last.tileIdentifiers])
  }

  /** ノーマルライブ: a three-member catalog unit, a matched rest and a matched triple. */
  ghost predicate NormalLiveSplit(units: seq<Unit>, catalog: seq<Tile>, hand: seq<string>, c: seq<Unit>)
  {
    exists u, g, last ::
      && u in units && u.numOfMembers == 3 && c == [u, last, g] && |g.tileIdentifiers| == 3
      && IsGroup(units, catalog, g) && IsGroup(units, catalog, last)
      && Partition(hand, [u.tileIdentifiers, g.tileIdentifiers, last.tileIdentifiers])
  }

  /** スタートダッシュ: a three-member and a two-member catalog unit, a matched pair and a matched rest. */
  ghost predicate StartDashSplit(units: seq<Unit>, catalog: seq<Tile>, hand: seq<string>, c: seq<Unit>)
  {
    exists u1, u2, g, last ::
      && u1 in units && u1.numOfMembers == 3 && u2 in units && u2.numOfMembers == 2
      && c == [u1, u2, g, last] && |g.tileIdentifiers| == 2
      && IsGroup(units, catalog, g) && IsGroup(units, catalog, last)
      && Partition(hand, [u1.tileIdentifiers, u2.tileIdentifiers, g.tileIdentifiers, last.tileIdentifiers])
  }

  /**
   * トリコロール: three three-member catalog units whose tiles are in the hand and pairwise
   * apart. Nothing asks that they cover the hand.
   */
  ghost predicate TricolorSplit(units: seq<Unit>, hand: seq<string>, c: seq<Unit>)
  {
    exists u1, u2, u3 ::
      && u1 in OfSize(units, 3) && u2 in OfSize(units, 3) && u3 in OfSize(units, 3)
      && c == [u1, u2, u3]
      && Separate(hand, [u1.tileIdentifiers, u2.tileIdentifiers, u3.tileIdentifiers])
  }

  /** A split that pattern `p` reports, before its groups are reordered. */
  ghost predicate PatternSplit(p: Pattern, units: seq<Unit>, catalog: seq<Tile>, hand: seq<string>, c: seq<Unit>)
  {
    match p
    case FiveStar => FiveStarSplit(units, catalog, hand, c)
    case Quartet => QuartetSplit(units, catalog, hand, c)
    case NormalLive => NormalLiveSplit(units, catalog, hand, c)
    case StartDash => StartDashSplit(units, catalog, hand, c)
    case Tricolor => TricolorSplit(units, hand, c)
  }

  lemma FiveStarSound(units: seq<Unit>, catalog: seq<Tile>, hand: seq<string>, u1: Unit, c: seq<Unit>)
    requires "" !in hand && u1 in OfSize(units, 5) && Within(u1.tileIdentifiers, hand)
    requires c in PairAll(units, catalog, [u1], GroupFirst, Remove(hand, u1.tileIdentifiers))
    ensures FiveStarSplit(units, catalog, hand, c)
  {
    var rest := Remove(hand, u1.tileIdentifiers);
    RemoveHas(hand, u1.tileIdentifiers, "");
    var g, last := PairAllWitness(units, catalog, [u1], GroupFirst, rest, c);
    PartitionLift(hand, u1.tileIdentifiers, [g.tileIdentifiers, last.tileIdentifiers]);
    assert [u1.tileIdentifiers] + [g.tileIdentifiers, last.tileIdentifiers] ==
           [u1.tileIdentifiers, g.tileIdentifiers, last.tileIdentifiers];
    assert c == [u1, g, last];
  }

  lemma QuartetSound(units: seq<Unit>, catalog: seq<Tile>, hand: seq<string>, u1: Unit, c: seq<Unit>)
    requires "" !in hand && u1 in OfSize(units, 4) && Within(u1.tileIdentifiers, hand)
    requires c in PairAll(units, catalog, [u1], GroupLast, Remove(hand, u1.tileIdentifiers))
    ensures QuartetSplit(units, catalog, hand, c)
  {
    var rest := Remove(hand, u1.tileIdentifiers);
    RemoveHas(hand, u1.tileIdentifiers, "");
    var g, last := PairAllWitness(units, catalog, [u1], GroupLast, rest, c);
    PartitionLift(hand, u1.tileIdentifiers, [g.tileIdentifiers, last.tileIdentifiers]);
    assert [u1.tileIdentifiers] + [g.tileIdentifiers, last.tileIdentifiers] ==
           [u1.tileIdentifiers, g.tileIdentifiers, last.tileIdentifiers];
    assert c == [u1, last, g];
  }

  lemma NormalLiveSound(units: seq<Unit>, catalog: seq<Tile>, hand: seq<string>, u1: Unit, c: seq<Unit>)
    requires "" !in hand && u1 in OfSize(units, 3) && Within(u1.tileIdentifiers, hand)
    requires c in TripleAll(units, catalog, [u1], GroupLast, Remove(hand, u1.tileIdentifiers))
    ensures NormalLiveSplit(units, catalog, hand, c)
  {
    var rest := Remove(hand, u1.tileIdentifiers);
    RemoveHas(hand, u1.tileIdentifiers, "");
    var g, last := TripleAllWitness(units, catalog, [u1], GroupLast, rest, c);
    PartitionLift(hand, u1.tileIdentifiers, [g.tileIdentifiers, last.tileIdentifiers]);
    assert [u1.tileIdentifiers] + [g.tileIdentifiers, last.tileIdentifiers] ==
           [u1.tileIdentifiers, g.tileIdentifiers, last.tileIdentifiers];
    assert c == [u1, last, g];
  }

  /** Taking out two parts in turn and partitioning the rest in two partitions the pool in four. */
  lemma PartitionFour(pool: seq<string>, a: seq<string>, b: seq<string>, g: seq<string>, l: seq<string>)
    requires Within(a, pool) && Within(b, Remove(pool, a))
    requires Partition(Remove(Remove(pool, a), b), [g, l])
    ensures Partition(pool, [a, b, g, l])
  {
    PartitionLift(Remove(pool, a), b, [g, l]);
    assert [b] + [g, l] == [b, g, l];
    PartitionLift(pool, a, [b, g, l]);
    assert [a] + [b, g, l] == [a, b, g, l];
  }

  /** Taking out three parts in turn, each found in what the previous ones left, keeps them apart. */
  lemma SeparateThree(pool: seq<string>, a: seq<string>, b: seq<string>, c: seq<string>)
    requires Within(a, pool) && Within(b, Remove(pool, a)) && Within(c, Remove(Remove(pool, a), b))
    ensures Separate(pool, [a, b, c])
  {
    assert Separate(Remove(Remove(pool, a), b), [c]);
    SeparateLift(Remove(pool, a), b, [c]);
    assert [b] + [c] == [b, c];
    SeparateLift(pool, a, [b, c]);
    assert [a] + [b, c] == [a, b, c];
  }

  /** Conversely, three separate parts of a pool are each found in what the previous ones leave. */
  lemma SeparateThreeWithin(pool: seq<string>, a: seq<string>, b: seq<string>, c: seq<string>)
    requires "" !in pool && Separate(pool, [a, b, c])
    ensures Within(a, pool) && Within(b, Remove(pool, a)) && Within(c, Remove(Remove(pool, a), b))
  {
    var parts := [a, b, c];
    forall t | t in a ensures Found(pool, t) {
      assert parts[0] == a;
    }
    forall t | t in b ensures Found(Remove(pool, a), t) {
      assert parts[1] == b && t !in parts[0];
      RemoveHas(pool, a, t);
    }
    forall t | t in c ensures Found(Remove(Remove(pool, a), b), t) {
      assert parts[2] == c && t !in parts[0] && t !in parts[1];
      RemoveHas(pool, a, t);
      RemoveHas(Remove(pool, a), b, t);
    }
  }

  /** The units and groups of a split the スタートダッシュ search pushes after `u1`. */
  lemma StartDashPick(units: seq<Unit>, catalog: seq<Tile>, pool: seq<string>, u1: Unit, c: seq<Unit>)
    returns (u2: Unit, g: Unit, last: Unit)
    requires "" !in pool
    requires c in Concat(StartDashSecond(units, catalog, u1, pool), OfSize(units, 2))
    ensures u2 in OfSize(units, 2) && Within(u2.tileIdentifiers, pool)
    ensures c == [u1, u2, g, last] && |g.tileIdentifiers| == 2
    ensures IsGroup(units, catalog, g) && IsGroup(units, catalog, last)
    ensures Partition(Remove(pool, u2.tileIdentifiers), [g.tileIdentifiers, last.tileIdentifiers])
  {
    var k := ConcatWitness(StartDashSecond(units, catalog, u1, pool), OfSize(units, 2), c);
    u2 := OfSize(units, 2)[k];
    StartDashSecondAt(units, catalog, u1, pool, u2);
    RemoveHas(pool, u2.tileIdentifiers, "");
    g, last := PairAllWitness(units, catalog, [u1, u2], GroupFirst, Remove(pool, u2.tileIdentifiers), c);
  }

  lemma StartDashSound(units: seq<Unit>, catalog: seq<Tile>, hand: seq<string>, u1: Unit, c: seq<Unit>)
    requires "" !in hand && u1 in OfSize(units, 3) && Within(u1.tileIdentifiers, hand)
    requires c in Concat(StartDashSecond(units, catalog, u1, Remove(hand, u1.tileIdentifiers)), OfSize(units, 2))
    ensures StartDashSplit(units, catalog, hand, c)
  {
    RemoveHas(hand, u1.tileIdentifiers, "");
    var u2, g, last := StartDashPick(units, catalog, Remove(hand, u1.tileIdentifiers), u1, c);
    PartitionFour(hand, u1.tileIdentifiers, u2.tileIdentifiers, g.tileIdentifiers, last.tileIdentifiers);
  }

  /** The second and third units of a split the トリコロール search pushes after `u1`. */
  lemma TricolorPick(units3: seq<Unit>, pool: seq<string>, u1: Unit, c: seq<Unit>) returns (u2: Unit, u3: Unit)
    requires c in Concat(TricolorSecond(units3, u1, pool), units3)
    ensures u2 in units3 && u3 in units3 && c == [u1, u2, u3]
    ensures Within(u2.tileIdentifiers, pool) && Within(u3.tileIdentifiers, Remove(pool, u2.tileIdentifiers))
  {
    var k := ConcatWitness(TricolorSecond(units3, u1, pool), units3, c);
    u2 := units3[k];
    TricolorSecondAt(units3, u1, pool, u2);
    var m := ConcatWitness(TricolorThird(u1, u2, Remove(pool, u2.tileIdentifiers)), units3, c);
    u3 := units3[m];
    TricolorThirdAt(u1, u2, Remove(pool, u2.tileIdentifiers), u3);
  }

  lemma TricolorSound(units: seq<Unit>, hand: seq<string>, u1: Unit, c: seq<Unit>)
    requires u1 in OfSize(units, 3) && Within(u1.tileIdentifiers, hand)
    requires c in Concat(TricolorSecond(OfSize(units, 3), u1, Remove(hand, u1.tileIdentifiers)), OfSize(units, 3))
    ensures TricolorSplit(units, hand, c)
  {
    var u2, u3 := TricolorPick(OfSize(units, 3), Remove(hand, u1.tileIdentifiers), u1, c);
    SeparateThree(hand, u1.tileIdentifiers, u2.tileIdentifiers, u3.tileIdentifiers);
  }

  /** The search after a fitting leading unit pushes only splits of the pattern. */
  lemma LeadSound(p: Pattern, units: seq<Unit>, catalog: seq<Tile>, hand: seq<string>, u1: Unit, c: seq<Unit>)
    requires "" !in hand && u1 in OfSize(units, LeadSize(p)) && Within(u1.tileIdentifiers, hand)
    requires c in Inner(p, units, catalog, u1, Remove(hand, u1.tileIdentifiers))
    ensures PatternSplit(p, units, catalog, hand, c)
  {
    match p {
      case FiveStar =>
        InnerFiveStar(units, catalog, u1, Remove(hand, u1.tileIdentifiers));
        FiveStarSound(units, catalog, hand, u1, c);
      case Quartet =>
        InnerQuartet(units, catalog, u1, Remove(hand, u1.tileIdentifiers));
        QuartetSound(units, catalog, hand, u1, c);
      case NormalLive =>
        InnerNormalLive(units, catalog, u1, Remove(hand, u1.tileIdentifiers));
        NormalLiveSound(units, catalog, hand, u1, c);
      case StartDash =>
        InnerStartDash(units, catalog, u1, Remove(hand, u1.tileIdentifiers));
        StartDashSound(units, catalog, hand, u1, c);
      case Tricolor =>
        InnerTricolor(units, catalog, u1, Remove(hand, u1.tileIdentifiers));
        TricolorSound(units, hand, u1, c);
    }
  }

  /** Every split a pattern's loops push is a split of that pattern. */
  lemma CandidatesSound(p: Pattern, units: seq<Unit>, catalog: seq<Tile>, hand: seq<string>)
    requires "" !in hand
    ensures forall c :: c in Candidates(p, units, catalog, hand) ==> PatternSplit(p, units, catalog, hand, c)
  {
    var leads := OfSize(units, LeadSize(p));
    var body := LeadBody(p, units, catalog, hand);
    forall c | c in Candidates(p, units, catalog, hand) ensures PatternSplit(p, units, catalog, hand, c) {
      var k := ConcatWitness(body, leads, c);
      LeadBodyAt(p, units, catalog, hand, leads[k]);
      LeadSound(p, units, catalog, hand, leads[k], c);
    }
  }

  /** What the search after a fitting leading unit pushes is among the pattern's candidates. */
  lemma LeadComplete(p: Pattern, units: seq<Unit>, catalog: seq<Tile>, hand: seq<string>, u1: Unit, c: seq<Unit>)
    requires u1 in OfSize(units, LeadSize(p)) && Within(u1.tileIdentifiers, hand)
    requires c in Inner(p, units, catalog, u1, Remove(hand, u1.tileIdentifiers))
    ensures c in Candidates(p, units, catalog, hand)
  {
    var leads := OfSize(units, LeadSize(p));
    var k :| 0 <= k < |leads| && leads[k] == u1;
    LeadBodyAt(p, units, catalog, hand, u1);
    ConcatHas(LeadBody(p, units, catalog, hand), leads, k, c);
  }

  /**
   * 5スター finds every split it can reach: a five-member unit in the hand, the pair at
   * positions `i < j` of what it leaves, and the rest after the pair, both matched.
   */
  lemma FiveStarComplete(units: seq<Unit>, catalog: seq<Tile>, hand: seq<string>, u: Unit, g: Unit, last: Unit, i: nat, j: nat)
    requires u in units && u.numOfMembers == 5 && Within(u.tileIdentifiers, hand)
    requires var rest := Remove(hand, u.tileIdentifiers);
      i < j < |rest| && g.tileIdentifiers == [rest[i], rest[j]] && last.tileIdentifiers == Remove(rest, g.tileIdentifiers)
    requires IsGroup(units, catalog, g) && IsGroup(units, catalog, last)
    ensures [u, g, last] in Candidates(FiveStar, units, catalog, hand)
  {
    PairAllHas(units, catalog, [u], GroupFirst, Remove(hand, u.tileIdentifiers), g, last, i, j);
    assert Arrange([u], GroupFirst, g, last) == [u, g, last];
    InnerFiveStar(units, catalog, u, Remove(hand, u.tileIdentifiers));
    LeadComplete(FiveStar, units, catalog, hand, u, [u, g, last]);
  }

  /** カルテット finds every split it can reach, listed as unit, rest, pair. */
  lemma QuartetComplete(units: seq<Unit>, catalog: seq<Tile>, hand: seq<string>, u: Unit, g: Unit, last: Unit, i: nat, j: nat)
    requires u in units && u.numOfMembers == 4 && Within(u.tileIdentifiers, hand)
    requires var rest := Remove(hand, u.tileIdentifiers);
      i < j < |rest| && g.tileIdentifiers == [rest[i], rest[j]] && last.tileIdentifiers == Remove(rest, g.tileIdentifiers)
    requires IsGroup(units, catalog, g) && IsGroup(units, catalog, last)
    ensures [u, last, g] in Candidates(Quartet, units, catalog, hand)
  {
    PairAllHas(units, catalog, [u], GroupLast, Remove(hand, u.tileIdentifiers), g, last, i, j);
    assert Arrange([u], GroupLast, g, last) == [u, last, g];
    InnerQuartet(units, catalog, u, Remove(hand, u.tileIdentifiers));
    LeadComplete(Quartet, units, catalog, hand, u, [u, last, g]);
  }

  /** ノーマルライブ finds every split it can reach: the triple at positions `i < j < k`. */
  lemma NormalLiveComplete(units: seq<Unit>, catalog: seq<Tile>, hand: seq<string>, u: Unit, g: Unit, last: Unit,
                           i: nat, j: nat, k: nat)
    requires u in units && u.numOfMembers == 3 && Within(u.tileIdentifiers, hand)
    requires var rest := Remove(hand, u.tileIdentifiers);
      i < j < k < |rest| && g.tileIdentifiers == [rest[i], rest[j], rest[k]] &&
      last.tileIdentifiers == Remove(rest, g.tileIdentifiers)
    requires IsGroup(units, catalog, g) && IsGroup(units, catalog, last)
    ensures [u, last, g] in Candidates(NormalLive, units, catalog, hand)
  {
    TripleAllHas(units, catalog, [u], GroupLast, Remove(hand, u.tileIdentifiers), g, last, i, j, k);
    assert Arrange([u], GroupLast, g, last) == [u, last, g];
    InnerNormalLive(units, catalog, u, Remove(hand, u.tileIdentifiers));
    LeadComplete(NormalLive, units, catalog, hand, u, [u, last, g]);
  }

  /** What the pair search after `u1` and `u2` reports is among スタートダッシュ's inner results. */
  lemma StartDashSecondHas(units: seq<Unit>, catalog: seq<Tile>, u1: Unit, pool: seq<string>, u2: Unit, c: seq<Unit>)
    requires u2 in units && u2.numOfMembers == 2 && Within(u2.tileIdentifiers, pool)
    requires c in PairAll(units, catalog, [u1, u2], GroupFirst, Remove(pool, u2.tileIdentifiers))
    ensures c in Concat(StartDashSecond(units, catalog, u1, pool), OfSize(units, 2))
  {
    var units2 := OfSize(units, 2);
    var k :| 0 <= k < |units2| && units2[k] == u2;
    StartDashSecondAt(units, catalog, u1, pool, u2);
    ConcatHas(StartDashSecond(units, catalog, u1, pool), units2, k, c);
  }

  lemma StartDashInnerHas(units: seq<Unit>, catalog: seq<Tile>, u1: Unit, pool: seq<string>, u2: Unit,
                          g: Unit, last: Unit, i: nat, j: nat)
    requires u2 in units && u2.numOfMembers == 2 && Within(u2.tileIdentifiers, pool)
    requires var rest := Remove(pool, u2.tileIdentifiers);
      i < j < |rest| && g.tileIdentifiers == [rest[i], rest[j]] && last.tileIdentifiers == Remove(rest, g.tileIdentifiers)
    requires IsGroup(units, catalog, g) && IsGroup(units, catalog, last)
    ensures [u1, u2, g, last] in Inner(StartDash, units, catalog, u1, pool)
  {
    PairAllHas(units, catalog, [u1, u2], GroupFirst, Remove(pool, u2.tileIdentifiers), g, last, i, j);
    assert Arrange([u1, u2], GroupFirst, g, last) == [u1, u2, g, last];
    StartDashSecondHas(units, catalog, u1, pool, u2, [u1, u2, g, last]);
    InnerStartDash(units, catalog, u1, pool);
  }

  /** スタートダッシュ finds every split it can reach: two units in turn, then a pair and the rest. */
  lemma StartDashComplete(units: seq<Unit>, catalog: seq<Tile>, hand: seq<string>, u1: Unit, u2: Unit,
                          g: Unit, last: Unit, i: nat, j: nat)
    requires u1 in units && u1.numOfMembers == 3 && Within(u1.tileIdentifiers, hand)
    requires u2 in units && u2.numOfMembers == 2 && Within(u2.tileIdentifiers, Remove(hand, u1.tileIdentifiers))
    requires var rest := Remove(Remove(hand, u1.tileIdentifiers), u2.tileIdentifiers);
      i < j < |rest| && g.tileIdentifiers == [rest[i], rest[j]] && last.tileIdentifiers == Remove(rest, g.tileIdentifiers)
    requires IsGroup(units, catalog, g) && IsGroup(units, catalog, last)
    ensures [u1, u2, g, last] in Candidates(StartDash, units, catalog, hand)
  {
    var c := [u1, u2, g, last];
    StartDashInnerHas(units, catalog, u1, Remove(hand, u1.tileIdentifiers), u2, g, last, i, j);
    LeadComplete(StartDash, units, catalog, hand, u1, c);
  }

  /**
   * トリコロール reports exactly the triples of three-member units whose tiles are in the hand
   * and pairwise apart.
   */
  lemma TricolorComplete(units: seq<Unit>, hand: seq<string>, catalog: seq<Tile>, u1: Unit, u2: Unit, u3: Unit)
    requires "" !in hand
    requires u1 in OfSize(units, 3) && u2 in OfSize(units, 3) && u3 in OfSize(units, 3)
    requires Separate(hand, [u1.tileIdentifiers, u2.tileIdentifiers, u3.tileIdentifiers])
    ensures [u1, u2, u3] in Candidates(Tricolor, units, catalog, hand)
  {
    var rest1 := Remove(hand, u1.tileIdentifiers);
    var rest2 := Remove(rest1, u2.tileIdentifiers);
    SeparateThreeWithin(hand, u1.tileIdentifiers, u2.tileIdentifiers, u3.tileIdentifiers);
    var units3 := OfSize(units, 3);
    var c := [u1, u2, u3];
    var m :| 0 <= m < |units3| && units3[m] == u3;
    TricolorThirdAt(u1, u2, rest2, u3);
    ConcatHas(TricolorThird(u1, u2, rest2), units3, m, c);
    var k :| 0 <= k < |units3| && units3[k] == u2;
    TricolorSecondAt(units3, u1, rest1, u2);
    ConcatHas(TricolorSecond(units3, u1, rest1), units3, k, c);
    InnerTricolor(units, catalog, u1, rest1);
    LeadComplete(Tricolor, units, catalog, hand, u1, c);
  }
}
