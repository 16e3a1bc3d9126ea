/**
 * The finish patterns that judge the whole hand at once: the two fixed rosters, アンサンブル
 * (one type and one status), シンフォニー (one type, statuses in threes) and リハーサル
 * (every type-and-status pair in threes). Each reports the hand itself when it holds.
 */
module FinishCounting {
  import opened Common
  import opened Catalog
  import opened FinishMatch
  import opened FinishResults

  /** The ten tiles of the シンデレラガール roster. */
  const CinderellaGirlRoster: seq<string> :=
    ["167", "097", "066", "115", "001", "096", "050", "131", "100", "088"]

  /** The nineteen tiles of the WONDERFUL M@GIC!! roster. */
  const WonderfulMagicRoster: seq<string> :=
    ["001", "066", "131", "140", "122", "050", "097", "011", "162", "163",
     "109", "096", "077", "084", "165", "034", "027", "008", "166"]

  /** A pattern that holds reports one result naming the whole hand. */
  function WholeHandWin(name: string, score: int, hand: seq<string>): seq<WinResult>
  {
    [WinResult(name, score, WholeHand(hand))]
  }

  /** A roster pattern holds exactly when every tile of the hand is on the roster. */
  function CheckRoster(roster: seq<string>, name: string, score: int, hand: seq<string>): (r: Option<seq<WinResult>>)
    requires "" !in roster
    ensures r.Some? <==> forall t :: t in hand ==> t in roster
    ensures r.Some? ==> r.value == WholeHandWin(name, score, hand)
  {
    if Within(hand, roster) then Some(WholeHandWin(name, score, hand)) else None
  }

  function CheckCinderellaGirls(hand: seq<string>): (r: Option<seq<WinResult>>)
    ensures r.Some? <==> forall t :: t in hand ==> t in CinderellaGirlRoster
    ensures r.Some? ==> r.value == WholeHandWin("シンデレラガール", 600000, hand)
  {
    CheckRoster(CinderellaGirlRoster, "シンデレラガール", 600000, hand)
  }

  function CheckWonderfulMagic(hand: seq<string>): (r: Option<seq<WinResult>>)
    ensures r.Some? <==> forall t :: t in hand ==> t in WonderfulMagicRoster
    ensures r.Some? ==> r.value == WholeHandWin("WONDERFUL M@GIC!!", 480000, hand)
  {
    CheckRoster(WonderfulMagicRoster, "WONDERFUL M@GIC!!", 480000, hand)
  }

  /** A hand of distinct tiles all on a roster is no larger than the roster. */
  lemma {:induction false} RosterBound(hand: seq<string>, roster: seq<string>)
    requires "" !in roster
    requires Distinct(hand) && forall t :: t in hand ==> t in roster
    ensures |hand| <= |roster|
    decreases |hand|
  {
    if hand != [] {
      var x := hand[0];
      var rest := Remove(roster, [x]);
      RemoveMembers(roster, [x]);
      assert Distinct(hand[1..]);
      assert forall t :: t in hand[1..] ==> t in rest by {
        forall t | t in hand[1..] ensures t in rest {
          assert t in hand && t != x;
        }
      }
      RosterBound(hand[1..], rest);
      RemovePresent(roster, x);
    }
  }

  /** アンサンブル: all the hand's catalog tiles share one type and one status. */
  function CheckEnsemble(catalog: seq<Tile>, hand: seq<string>): (r: Option<seq<WinResult>>)
    ensures r.Some? <==> SharedKind(KnownTiles(catalog, hand))
    ensures r.Some? ==> r.value == WholeHandWin("アンサンブル", 420000, hand)
  {
    var idols := KnownTiles(catalog, hand);
    SameAsFirstIsSharedKind(idols);
    if SameAsFirst(idols) then Some(WholeHandWin("アンサンブル", 420000, hand)) else None
  }

  /** `idols.filter(idol => idol.idolStatus === s).length`. */
  function CountStatus(idols: seq<Tile>, s: IdolStatus): (n: nat)
    ensures n <= |idols|
    ensures n == 0 <==> forall t :: t in idols ==> t.idolStatus != s
  {
    if idols == [] then 0
    else
      assert forall t :: t in idols <==> t == idols[0] || t in idols[1..];
      (if idols[0].idolStatus == s then 1 else 0) + CountStatus(idols[1..], s)
  }

  /** `idols.filter(idol => idol.idolType === t && idol.idolStatus === s).length`. */
  function CountKind(idols: seq<Tile>, t: IdolType, s: IdolStatus): (n: nat)
    ensures n <= CountStatus(idols, s)
  {
    if idols == [] then 0
    else (if idols[0].idolType == t && idols[0].idolStatus == s then 1 else 0) + CountKind(idols[1..], t, s)
  }

  /** All given tiles share one type. */
  predicate SharedType(idols: seq<Tile>)
  {
    forall a, b :: a in idols && b in idols ==> a.idolType == b.idolType
  }

  /** The source's form: every tile has the first tile's type. */
  predicate TypeAsFirst(idols: seq<Tile>)
  {
    forall i :: 0 <= i < |idols| ==> idols[i].idolType == idols[0].idolType
  }

  lemma TypeAsFirstIsSharedType(idols: seq<Tile>)
    ensures TypeAsFirst(idols) <==> SharedType(idols)
  {
    if TypeAsFirst(idols) {
      forall a, b | a in idols && b in idols ensures a.idolType == b.idolType {
        var i :| 0 <= i < |idols| && idols[i] == a;
        var j :| 0 <= j < |idols| && idols[j] == b;
      }
    }
  }

  /** The three statuses a live counts (`almighty` is never counted). */
  predicate StatusesInThrees(idols: seq<Tile>)
  {
    && CountStatus(idols, Dance) % 3 == 0
    && CountStatus(idols, Visual) % 3 == 0
    && CountStatus(idols, Vocal) % 3 == 0
  }

  /** シンフォニー: one type, and dance, visual and vocal each a multiple of three. */
  function CheckSymphony(catalog: seq<Tile>, hand: seq<string>): (r: Option<seq<WinResult>>)
    ensures r.Some? <==> StatusesInThrees(KnownTiles(catalog, hand)) && SharedType(KnownTiles(catalog, hand))
    ensures r.Some? ==> r.value == WholeHandWin("シンフォニー", 240000, hand)
  {
    var idols := KnownTiles(catalog, hand);
    TypeAsFirstIsSharedType(idols);
    if StatusesInThrees(idols) && TypeAsFirst(idols) then Some(WholeHandWin("シンフォニー", 240000, hand))
    else None
  }

  /** リハーサル's condition: every type paired with every counted status a multiple of three. */
  predicate KindsInThrees(idols: seq<Tile>)
  {
    forall t: IdolType, s: IdolStatus :: s != Almighty ==> CountKind(idols, t, s) % 3 == 0
  }

  const RehearsalTypes: seq<IdolType> := [Cute, Cool, Passion]
  const RehearsalStatuses: seq<IdolStatus> := [Visual, Vocal, Dance]

  /**
   * リハーサル: walk the types, and for each the statuses, and give up at the first pair
   * whose count is not a multiple of three.
   */
  method CheckRehearsal(catalog: seq<Tile>, hand: seq<string>) returns (r: Option<seq<WinResult>>)
    ensures r.Some? <==> KindsInThrees(KnownTiles(catalog, hand))
    ensures r.Some? ==> r.value == WholeHandWin("リハーサル", 30000, hand)
  {
    var idols := KnownTiles(catalog, hand);
    var i := 0;
    while i < |RehearsalTypes|
      invariant 0 <= i <= |RehearsalTypes|
      invariant forall a, b :: 0 <= a < i && 0 <= b < |RehearsalStatuses| ==>
                  CountKind(idols, RehearsalTypes[a], RehearsalStatuses[b]) % 3 == 0
    {
      var j := 0;
      while j < |RehearsalStatuses|
        invariant 0 <= j <= |RehearsalStatuses|
        invariant forall a, b :: 0 <= a < i && 0 <= b < |RehearsalStatuses| ==>
                    CountKind(idols, RehearsalTypes[a], RehearsalStatuses[b]) % 3 == 0
        invariant forall b :: 0 <= b < j ==> CountKind(idols, RehearsalTypes[i], RehearsalStatuses[b]) % 3 == 0
      {
        if CountKind(idols, RehearsalTypes[i], RehearsalStatuses[j]) % 3 != 0 {
          assert RehearsalStatuses[j] != Almighty;
          return None;
        }
        j := j + 1;
      }
      i := i + 1;
    }
    forall t: IdolType, s: IdolStatus | s != Almighty ensures CountKind(idols, t, s) % 3 == 0 {
      assert t == RehearsalTypes[0] || t == RehearsalTypes[1] || t == RehearsalTypes[2];
      assert s == RehearsalStatuses[0] || s == RehearsalStatuses[1] || s == RehearsalStatuses[2];
    }
    return Some(WholeHandWin("リハーサル", 30000, hand));
  }

  /** When every tile has type `t`, counting `t` with `s` is counting `s`, and other types count nothing. */
  lemma {:induction false} CountKindOfSharedType(idols: seq<Tile>, t: IdolType, s: IdolStatus)
    requires forall x :: x in idols ==> x.idolType == t
    ensures CountKind(idols, t, s) == CountStatus(idols, s)
    decreases |idols|
  {
    if idols != [] {
      assert forall x :: x in idols[1..] ==> x in idols;
      CountKindOfSharedType(idols[1..], t, s);
    }
  }

  /** No tile of type `t` means a count of zero for every status. */
  lemma {:induction false} CountKindAbsent(idols: seq<Tile>, t: IdolType, s: IdolStatus)
    requires forall x :: x in idols ==> x.idolType != t
    ensures CountKind(idols, t, s) == 0
    decreases |idols|
  {
    if idols != [] {
      assert idols[0] in idols;
      assert forall x :: x in idols[1..] ==> x in idols;
      CountKindAbsent(idols[1..], t, s);
    }
  }

  /** When every tile has status `s`, all of them count for `s`. */
  lemma {:induction false} CountStatusOfShared(idols: seq<Tile>, s: IdolStatus)
    requires forall x :: x in idols ==> x.idolStatus == s
    ensures CountStatus(idols, s) == |idols|
    decreases |idols|
  {
    if idols != [] {
      assert forall x :: x in idols[1..] ==> x in idols;
      CountStatusOfShared(idols[1..], s);
    }
  }

  /** A シンフォニー hand also satisfies リハーサル, which is why it is checked first. */
  lemma SymphonyImpliesRehearsal(idols: seq<Tile>)
    requires StatusesInThrees(idols) && SharedType(idols)
    ensures KindsInThrees(idols)
  {
    forall t: IdolType, s: IdolStatus | s != Almighty ensures CountKind(idols, t, s) % 3 == 0 {
      if idols != [] && idols[0].idolType == t {
        assert forall x :: x in idols ==> x.idolType == t by {
          assert idols[0] in idols;
        }
        CountKindOfSharedType(idols, t, s);
      } else {
        assert forall x :: x in idols ==> x.idolType != t by {
          if idols != [] {
            assert idols[0] in idols;
          }
        }
        CountKindAbsent(idols, t, s);
      }
    }
  }

  /**
   * An アンサンブル hand with a multiple of three catalog tiles (nine, for a hand of nine
   * distinct catalog tiles) also satisfies シンフォニー.
   */
  lemma EnsembleImpliesSymphony(idols: seq<Tile>)
    requires SharedKind(idols) && |idols| % 3 == 0
    ensures StatusesInThrees(idols) && SharedType(idols)
  {
    if idols != [] {
      var s := idols[0].idolStatus;
      assert idols[0] in idols;
      CountStatusOfShared(idols, s);
    }
  }
}
