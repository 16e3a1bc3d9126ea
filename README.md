# Donjara finish checker and hand navigator, modelled in Dafny

This project models the two pieces of logic at the heart of the donjerella companion app for the
Cinderella Girls donjara tile game:

* **`CgDonjaraFinishChecker`**: decides whether a hand of nine tile identifiers is a finished
  hand. It tries ten winning patterns in a fixed priority order and returns the results of the
  first one that holds:
  1. シンデレラガール and WONDERFUL M@GIC!! (the whole hand inside a fixed roster);
  2. アンサンブル (one type and status);
  3. 5スター, カルテット, トリコロール, ノーマルライブ and スタートダッシュ (the hand split into
     catalog units and "sets");
  4. シンフォニー and リハーサル (type and status counts in threes).

  A split pattern searches every choice of a leading catalog unit and of the tiles that form
  the next group. Each group is matched by `getMatchedUnit`: either a catalog unit with exactly
  those members, or a fallback group `汎用<type><status>` when all its tiles share a type and
  status. The splits found are deduplicated by `uniqueResults`, which also orders each split's
  groups largest first.
* **`NaviService`**: turns the tiles a player holds into advice:
  * `getRecommendedUnitsByHoldTiles` lists every catalog unit with at least one held member.
    Each unit is annotated with its member tiles, held ones first, and ranked by how many
    members are held and how few are missing. On request it drops units that reuse a tile.
  * `getRecommendedUnits` keeps the units that contain one selected tile.
  * `groupingHoldTiles` gives every held tile the group (colour and letter A, B, …) of the first
    recommended unit containing it, when that unit holds two or more of the hand's tiles.
  * `getGroupingColorByNumber` picks the colour of the n-th group from a palette of six.

The unit catalog and the tile catalog are parameters (`units`, `catalog`). The source loads
them from the app's database.

Modules, in dependency order:

| module | file | what it holds |
|---|---|---|
| `Common` | common.dfy | `Option`, distinctness, subsequences |
| `Sorting` | sorting.dfy | the stable sort of `Array.prototype.sort`, its permutation, order and stability lemmas, and `localeCompare` as `LabelLt` |
| `Catalog` | catalog.dfy | tiles, units, and the tile lookup of the tile database |
| `Loops` | loops.dfy | the nested `for` loops of the searches as concatenations over rows, planes and cubes |
| `FinishResults` | finish_results.dfy | result values, `uniqueResults`, and the finding below |
| `FinishMatch` | finish_match.dfy | `filter`/`find` on identifiers, and `getMatchedUnit` |
| `FinishCounting` | finish_counting.dfy | the five whole-hand patterns |
| `FinishSearch` | finish_search.dfy | the pair and triple searches shared by the split patterns |
| `FinishPatterns` | finish_patterns.dfy | the five split patterns, with soundness and completeness |
| `FinishChecker` | finish_checker.dfy | `checkFinish` |
| `NaviRecommend` | navi_recommend.dfy | `getRecommendedUnitsByHoldTiles`, `getRecommendedUnits` |
| `NaviGrouping` | navi_grouping.dfy | `groupingHoldTiles`, `getGroupingColorByNumber` |

The source's loops are Dafny methods with loop invariants. Each method is proved equal to a
function that specifies it. The lemmas state what those functions mean:
* every reported split really partitions the hand into catalog units or fallback groups of the
  pattern's sizes;
* every such partition is found;
* ranking is a stable permutation;
* deduplication keeps units that share no tile;
* a group's letter and colour come from the order in which groups are first met.

In the source, `checkFinish` returns the first truthy result of the ten `check*` calls. Here
that is `FirstWin` over the ten outcomes, in the same order.

## Model

| member | source | states |
|---|---|---|
| Catalog.FindTile | src/app/navi/services/tile-database.service.ts:47 | `tiles.find` by identifier: some tile iff one has that identifier, and it is the first such catalog entry |
| Catalog.NormalizeIdentifierStable | src/app/navi/services/tile-database.service.ts:35-50 | normalising an identifier twice gives what normalising once gives, and looking up the normalised identifier finds the same tile as looking up the original |
| Catalog.PaddedIdentifierLookup | src/app/navi/services/tile-database.service.ts:42-47 | a three-character identifier with one leading character added (`0001` for `001`) normalises back to itself and finds the same tile |
| Catalog.GetTileByIdentifier | src/app/navi/services/tile-database.service.ts:35-50 | a tile is found iff the catalog has one with the normalised identifier, and the tile found has it |
| FinishCounting.CheckRoster | src/app/shared/classes/cg-donjara-finish-checker/cg-donjara-finish-checker.ts:75-85 | a roster pattern holds iff every hand tile is in the roster, and then reports the whole hand under the pattern's name and score |
| FinishCounting.CheckCinderellaGirls | src/app/shared/classes/cg-donjara-finish-checker/cg-donjara-finish-checker.ts:59-86 | シンデレラガール (600000) holds iff every hand tile is one of the ten roster tiles |
| FinishCounting.CheckWonderfulMagic | src/app/shared/classes/cg-donjara-finish-checker/cg-donjara-finish-checker.ts:89-125 | WONDERFUL M@GIC!! (480000) holds iff every hand tile is one of the nineteen roster tiles |
| FinishCounting.RosterBound | src/app/shared/classes/cg-donjara-finish-checker/cg-donjara-finish-checker.ts:59-125 | a hand of distinct tiles all inside a roster is no larger than the roster (nine of ten, nine of nineteen) |
| FinishCounting.CheckEnsemble | src/app/shared/classes/cg-donjara-finish-checker/cg-donjara-finish-checker.ts:128-149 | アンサンブル (420000) holds iff every known hand tile has the type and status of the first |
| FinishCounting.CountStatus | src/app/shared/classes/cg-donjara-finish-checker/cg-donjara-finish-checker.ts:237-239 | the number of tiles with a status is at most the number of tiles, and zero iff none has it |
| FinishCounting.CountKind | src/app/shared/classes/cg-donjara-finish-checker/cg-donjara-finish-checker.ts:396-403 | the number of tiles of one type and status is at most the number with that status |
| FinishCounting.TypeAsFirstIsSharedType | src/app/shared/classes/cg-donjara-finish-checker/cg-donjara-finish-checker.ts:240 | "every tile has the first tile's type" is the same as "all tiles share one type" |
| FinishCounting.CheckSymphony | src/app/shared/classes/cg-donjara-finish-checker/cg-donjara-finish-checker.ts:232-252 | シンフォニー (240000) holds iff each of dance, visual and vocal counts a multiple of three and all known tiles share a type |
| FinishCounting.CheckRehearsal | src/app/shared/classes/cg-donjara-finish-checker/cg-donjara-finish-checker.ts:392-415 | the nested type and status loop returns a result iff every (type, status) count over cute/cool/passion and visual/vocal/dance is a multiple of three |
| FinishCounting.SymphonyImpliesRehearsal | src/app/shared/classes/cg-donjara-finish-checker/cg-donjara-finish-checker.ts:232-252 | every hand that is a シンフォニー also satisfies the リハーサル counts |
| FinishCounting.EnsembleImpliesSymphony | src/app/shared/classes/cg-donjara-finish-checker/cg-donjara-finish-checker.ts:128-149 | an アンサンブル hand whose size is a multiple of three is also a シンフォニー |
| FinishMatch.RemoveMembers | src/app/shared/classes/cg-donjara-finish-checker/cg-donjara-finish-checker.ts:161-163 | the remaining tiles are exactly the pool tiles not found among the unit's members; no longer than the pool; distinct if the pool is |
| FinishMatch.RemoveSize | src/app/shared/classes/cg-donjara-finish-checker/cg-donjara-finish-checker.ts:173-175 | removing a group from distinct tiles removes at most as many tiles as the group lists |
| FinishMatch.RemovePresent | src/app/shared/classes/cg-donjara-finish-checker/cg-donjara-finish-checker.ts:173-175 | removing a tile that is present shortens the pool |
| FinishMatch.RemoveCons | src/app/shared/classes/cg-donjara-finish-checker/cg-donjara-finish-checker.ts:161-163 | removing a group is removing its first member after the rest |
| FinishMatch.KnownTilesMembers | src/app/shared/classes/cg-donjara-finish-checker/cg-donjara-finish-checker.ts:129-131 | the idols of a hand are exactly the catalog tiles whose identifier is (truthily) in the hand |
| FinishMatch.SameAsFirstIsSharedKind | src/app/shared/classes/cg-donjara-finish-checker/cg-donjara-finish-checker.ts:132-137 | comparing every idol with `idols[0]` is the same as all idols sharing one type and status |
| FinishMatch.FirstFittingMeaning | src/app/shared/classes/cg-donjara-finish-checker/cg-donjara-finish-checker.ts:420-426 | the catalog search finds nothing iff no unit of the right size lists every tile, else the first unit that does |
| FinishMatch.FirstKnownIsFirst | src/app/shared/classes/cg-donjara-finish-checker/cg-donjara-finish-checker.ts:433-441 | `idols[0]` exists iff some tile is known, and is the first known one in catalog order |
| FinishMatch.GetMatchedUnit | src/app/shared/classes/cg-donjara-finish-checker/cg-donjara-finish-checker.ts:418-450 | a matched group lists exactly the given tiles and declares their number |
| FinishMatch.GetMatchedUnitMeaning | src/app/shared/classes/cg-donjara-finish-checker/cg-donjara-finish-checker.ts:418-450 | the call is safe iff a catalog unit fits or a tile is known; a fitting catalog unit lends its label, otherwise the group is `汎用<type><status>` iff the idols share type and status, otherwise none; so some group iff a unit fits or the idols share a kind |
| FinishSearch.OfSize | src/app/shared/classes/cg-donjara-finish-checker/cg-donjara-finish-checker.ts:153 | the filtered units are exactly the catalog units of the given size |
| FinishSearch.SubsetSafe | src/app/shared/classes/cg-donjara-finish-checker/cg-donjara-finish-checker.ts:166-177 | every `getMatchedUnit` call of a search is on a non-empty subset of known tiles, so it never reads a missing `idols[0]` |
| FinishSearch.RestReady | src/app/shared/classes/cg-donjara-finish-checker/cg-donjara-finish-checker.ts:161-163 | after removing a catalog unit the rest is still known, distinct and large enough for the next step |
| FinishSearch.SeparateLift | src/app/shared/classes/cg-donjara-finish-checker/cg-donjara-finish-checker.ts:267-290 | a group taken from the pool, followed by groups drawn from the rest, are pairwise disjoint groups of the pool |
| FinishSearch.PartitionLift | src/app/shared/classes/cg-donjara-finish-checker/cg-donjara-finish-checker.ts:173-182 | a group taken from the pool followed by a partition of the rest partitions the pool |
| FinishSearch.SplitCellSafe | src/app/shared/classes/cg-donjara-finish-checker/cg-donjara-finish-checker.ts:166-184 | in one loop iteration, both `getMatchedUnit` calls are safe: the one on the chosen tiles, and the one on the rest when the chosen tiles match |
| FinishSearch.SplitCellSound | src/app/shared/classes/cg-donjara-finish-checker/cg-donjara-finish-checker.ts:166-184 | a recorded split's two groups are matched groups that partition the pool, the first of the chosen size |
| FinishSearch.SplitCellComplete | src/app/shared/classes/cg-donjara-finish-checker/cg-donjara-finish-checker.ts:166-184 | choosing a matched group whose removal leaves a matched group records exactly that split |
| Loops.RowLoop | src/app/shared/classes/cg-donjara-finish-checker/cg-donjara-finish-checker.ts:165-185 | the inner `j` loop collects what every iteration `(i, j)` with `j > i` pushes, in order |
| Loops.TableLoop | src/app/shared/classes/cg-donjara-finish-checker/cg-donjara-finish-checker.ts:164-186 | the `i`/`j` loops collect what every iteration `i < j` pushes, in loop order, the outer loop stopping one index early |
| FinishSearch.SearchPairs | src/app/shared/classes/cg-donjara-finish-checker/cg-donjara-finish-checker.ts:164-186 | the `i`/`j` loops collect the splits of every pair of remaining tiles, in loop order |
| FinishSearch.PairAllSound | src/app/shared/classes/cg-donjara-finish-checker/cg-donjara-finish-checker.ts:164-186 | every split the pair search records partitions the pool into a matched pair and a matched rest |
| FinishSearch.PairAllWitness | src/app/shared/classes/cg-donjara-finish-checker/cg-donjara-finish-checker.ts:164-186 | a recorded split names its pair group and rest group, both matched, partitioning the pool |
| FinishSearch.PairAllComplete | src/app/shared/classes/cg-donjara-finish-checker/cg-donjara-finish-checker.ts:164-186 | the search records every split of every pair `i < j` |
| FinishSearch.PairAllHas | src/app/shared/classes/cg-donjara-finish-checker/cg-donjara-finish-checker.ts:164-186 | every partition of the pool into a matched pair and a matched rest is recorded |
| Loops.ColLoop | src/app/shared/classes/cg-donjara-finish-checker/cg-donjara-finish-checker.ts:310-331 | the `k` loop collects what every iteration `(i, j, k)` with `k > j` pushes, in order |
| Loops.PlaneLoop | src/app/shared/classes/cg-donjara-finish-checker/cg-donjara-finish-checker.ts:309-332 | the `j` loop collects what every iteration starting at `i` pushes, stopping one index early |
| Loops.CubeLoop | src/app/shared/classes/cg-donjara-finish-checker/cg-donjara-finish-checker.ts:308-333 | the `i`/`j`/`k` loops collect what every iteration `i < j < k` pushes, in loop order |
| FinishSearch.SearchTriples | src/app/shared/classes/cg-donjara-finish-checker/cg-donjara-finish-checker.ts:308-333 | the `i`/`j`/`k` loops collect the splits of every triple of remaining tiles, in loop order |
| FinishSearch.TripleAllSound | src/app/shared/classes/cg-donjara-finish-checker/cg-donjara-finish-checker.ts:308-333 | every split the triple search records partitions the pool into a matched triple and a matched rest |
| FinishSearch.TripleAllWitness | src/app/shared/classes/cg-donjara-finish-checker/cg-donjara-finish-checker.ts:308-333 | a recorded split names its triple group and rest group, both matched, partitioning the pool |
| FinishSearch.TripleAllComplete | src/app/shared/classes/cg-donjara-finish-checker/cg-donjara-finish-checker.ts:308-333 | the search records every split of every triple `i < j < k` |
| FinishSearch.TripleAllHas | src/app/shared/classes/cg-donjara-finish-checker/cg-donjara-finish-checker.ts:308-333 | every partition of the pool into a matched triple and a matched rest is recorded |
| FinishPatterns.SearchTricolorThirds | src/app/shared/classes/cg-donjara-finish-checker/cg-donjara-finish-checker.ts:277-289 | the `unit3` loop records `[unit1, unit2, unit3]` for every third unit inside the remaining tiles |
| FinishPatterns.SearchTricolorSeconds | src/app/shared/classes/cg-donjara-finish-checker/cg-donjara-finish-checker.ts:267-290 | the `unit2` loop skips units not inside the remaining tiles and runs the `unit3` loop on the rest |
| FinishPatterns.SearchStartDashSeconds | src/app/shared/classes/cg-donjara-finish-checker/cg-donjara-finish-checker.ts:353-386 | the `unit2` loop skips units not inside the remaining tiles and runs the pair search on the rest |
| FinishPatterns.StartDashNeedsPairs | src/app/shared/classes/cg-donjara-finish-checker/cg-donjara-finish-checker.ts:351-352 | without two-member units スタートダッシュ finds nothing (the early `return false`) |
| FinishPatterns.SearchInner | src/app/shared/classes/cg-donjara-finish-checker/cg-donjara-finish-checker.ts:164-186 | after a leading unit, the pattern's inner loops (for 5スター the `i`/`j` pair loops cited; the triple, `unit2` and `unit3` loops for the others) collect exactly that pattern's splits of the remaining tiles |
| FinishPatterns.CheckSplits | src/app/shared/classes/cg-donjara-finish-checker/cg-donjara-finish-checker.ts:152-189 | each split pattern's outer loop over leading units, then `uniqueResults`, equals the pattern's specification over all candidate splits |
| FinishPatterns.FiveStarSound | src/app/shared/classes/cg-donjara-finish-checker/cg-donjara-finish-checker.ts:152-189 | a 5スター split is a five-member catalog unit in the hand, a matched pair and a matched rest partitioning the remaining tiles |
| FinishPatterns.QuartetSound | src/app/shared/classes/cg-donjara-finish-checker/cg-donjara-finish-checker.ts:192-229 | a カルテット split is a four-member catalog unit in the hand, a matched rest and a matched pair partitioning the remaining tiles |
| FinishPatterns.NormalLiveSound | src/app/shared/classes/cg-donjara-finish-checker/cg-donjara-finish-checker.ts:296-336 | a ノーマルライブ split is a three-member catalog unit, a matched rest and a matched triple partitioning the remaining tiles |
| FinishPatterns.StartDashSound | src/app/shared/classes/cg-donjara-finish-checker/cg-donjara-finish-checker.ts:339-389 | a スタートダッシュ split is a three-member and a two-member catalog unit taken in turn, then a matched pair and a matched rest partitioning what is left |
| FinishPatterns.TricolorSound | src/app/shared/classes/cg-donjara-finish-checker/cg-donjara-finish-checker.ts:255-293 | a トリコロール split is three three-member catalog units, each inside what the earlier ones left |
| FinishPatterns.CandidatesSound | src/app/shared/classes/cg-donjara-finish-checker/cg-donjara-finish-checker.ts:152-389 | every candidate split of every pattern satisfies that pattern's description |
| FinishPatterns.LeadComplete | src/app/shared/classes/cg-donjara-finish-checker/cg-donjara-finish-checker.ts:156-163 | every split found after a leading unit inside the hand is a candidate |
| FinishPatterns.FiveStarComplete | src/app/shared/classes/cg-donjara-finish-checker/cg-donjara-finish-checker.ts:152-189 | every five-member unit in the hand with a matched pair and matched rest of the remaining tiles is found |
| FinishPatterns.QuartetComplete | src/app/shared/classes/cg-donjara-finish-checker/cg-donjara-finish-checker.ts:192-229 | every four-member unit in the hand with a matched pair and matched rest is found |
| FinishPatterns.NormalLiveComplete | src/app/shared/classes/cg-donjara-finish-checker/cg-donjara-finish-checker.ts:296-336 | every three-member unit in the hand with a matched triple and matched rest is found |
| FinishPatterns.StartDashComplete | src/app/shared/classes/cg-donjara-finish-checker/cg-donjara-finish-checker.ts:339-389 | every three-member and two-member unit taken in turn, with a matched pair and matched rest, is found |
| FinishPatterns.TricolorComplete | src/app/shared/classes/cg-donjara-finish-checker/cg-donjara-finish-checker.ts:255-293 | every three pairwise disjoint three-member units inside the hand are found |
| FinishResults.ByLabelStrictWeakOrder | src/app/shared/classes/cg-donjara-finish-checker/cg-donjara-finish-checker.ts:460 | the label comparator is a strict weak order, so the stable sort is well defined |
| FinishResults.Flatten | src/app/shared/classes/cg-donjara-finish-checker/cg-donjara-finish-checker.ts:461 | an identifier is in `flatMap(unit => unit.tileIdentifiers)` iff some group lists it |
| FinishResults.LabelOrderKeyAfterInPlaceSort | src/app/shared/classes/cg-donjara-finish-checker/cg-donjara-finish-checker.ts:458-466 | sorting a result's groups in place while computing keys does not change that result's key |
| FinishResults.FindIndex | src/app/shared/classes/cg-donjara-finish-checker/cg-donjara-finish-checker.ts:457-467 | `findIndex` returns -1 iff the key is absent, else the position of its first occurrence |
| FinishResults.FirstIndices | src/app/shared/classes/cg-donjara-finish-checker/cg-donjara-finish-checker.ts:455-468 | the kept positions are increasing and are exactly the first occurrences of their keys |
| FinishResults.FirstIndicesDiffer | src/app/shared/classes/cg-donjara-finish-checker/cg-donjara-finish-checker.ts:455-468 | two kept positions hold different keys |
| FinishResults.FirstIndicesCover | src/app/shared/classes/cg-donjara-finish-checker/cg-donjara-finish-checker.ts:455-468 | every key found has a kept position holding it |
| FinishResults.NormalizeOrders | src/app/shared/classes/cg-donjara-finish-checker/cg-donjara-finish-checker.ts:469-472 | a kept result lists the same groups, largest first, with equal sizes in label order |
| FinishResults.UniqueByKeys | src/app/shared/classes/cg-donjara-finish-checker/cg-donjara-finish-checker.ts:453-473 | no more results than found, at least one if any, each the normalised first result of its key |
| FinishResults.UniqueByKeysOnePerKey | src/app/shared/classes/cg-donjara-finish-checker/cg-donjara-finish-checker.ts:453-473 | kept results come in input order, one per key, and every key found is represented |
| FinishResults.UniqueResults | src/app/shared/classes/cg-donjara-finish-checker/cg-donjara-finish-checker.ts:453-473 | each kept result is a normalised result whose groups no earlier result lists |
| FinishResults.UniqueResultsDistinctGroups | src/app/shared/classes/cg-donjara-finish-checker/cg-donjara-finish-checker.ts:453-473 | the kept results' groups (as multisets) are pairwise distinct, and the groups of every result found are those of a kept one |
| FinishResults.LabelOrderKeyAfterLead | src/app/shared/classes/cg-donjara-finish-checker/cg-donjara-finish-checker.ts:453-467 | the key as written of `[u, g1, g2]` with `g1`, `g2` equally labelled lists `g1`'s then `g2`'s members, after `u`'s or before them as `u`'s label sorts |
| FinishResults.LabelOrderKeyKeepsDuplicate | src/app/shared/classes/cg-donjara-finish-checker/cg-donjara-finish-checker.ts:453-467 | `[u, g1, g2]` and `[u, g2, g1]` with `g1`, `g2` equally labelled list the same groups but get different keys as written, so both are kept, while the intended key keeps one |
| FinishResults.LabelOrderKeyAfterFirst | src/app/shared/classes/cg-donjara-finish-checker/cg-donjara-finish-checker.ts:453-467 | the key as written of `[u, x, y]` whose first label sorts first lists `u`'s members, then those of `x` and `y` in label order |
| FinishResults.LabelOrderKeyMergesSplits | src/app/shared/classes/cg-donjara-finish-checker/cg-donjara-finish-checker.ts:453-467 | two results listing different groups whose label-sorted members agree get one key as written, so only the first is kept, while the intended key keeps both |
| FinishResults.LabelOrderKeyMergesWitness | src/app/shared/classes/cg-donjara-finish-checker/cg-donjara-finish-checker.ts:453-467 | with labels `0`, `A`, `B`, `C`, `D`, the splits `[0, B{203,204,205}, A{201,202}]` and `[0, C{201,202,203}, D{204,205}]` share one key as written, so one is reported, while the intended key reports both |
| FinishResults.Conclude | src/app/shared/classes/cg-donjara-finish-checker/cg-donjara-finish-checker.ts:188 | nothing found is no result; otherwise a non-empty list of kept splits, each under the pattern's name and score |
| FinishChecker.FirstWinMeaning | src/app/shared/classes/cg-donjara-finish-checker/cg-donjara-finish-checker.ts:33-55 | the else-if chain returns nothing iff every check fails, else the result of the first check that holds |
| FinishChecker.FinishChain | src/app/shared/classes/cg-donjara-finish-checker/cg-donjara-finish-checker.ts:34-53 | the checks run in the order シンデレラガール, WONDERFUL M@GIC!!, アンサンブル, 5スター, カルテット, シンフォニー, トリコロール, ノーマルライブ, スタートダッシュ, リハーサル |
| FinishChecker.CheckFinish | src/app/shared/classes/cg-donjara-finish-checker/cg-donjara-finish-checker.ts:25-56 | a hand of other than nine tiles finishes nothing; a nine-tile hand yields the first pattern that holds |
| FinishChecker.SplitsJustified | src/app/shared/classes/cg-donjara-finish-checker/cg-donjara-finish-checker.ts:152-389 | every result a split pattern reports lists a normalised split satisfying that pattern |
| FinishChecker.ConcludeJustified | src/app/shared/classes/cg-donjara-finish-checker/cg-donjara-finish-checker.ts:453-473 | concluding from splits that satisfy a pattern reports only results justified by that pattern |
| FinishChecker.FinishSound | src/app/shared/classes/cg-donjara-finish-checker/cg-donjara-finish-checker.ts:25-56 | a finished hand yields a non-empty list of results, each justified by the condition of the pattern it names |
| FinishChecker.FinishNone | src/app/shared/classes/cg-donjara-finish-checker/cg-donjara-finish-checker.ts:25-56 | a hand finishes nothing iff it leaves both rosters, its idols do not share a kind, no split pattern has a candidate and the リハーサル counts fail |
| FinishChecker.FallbackPairReportedTwice | src/app/shared/classes/cg-donjara-finish-checker/cg-donjara-finish-checker.ts:152-189 | when the four tiles after a five-member unit form two equally labelled pairs, 5スター finds the split as `[unit1, g1, g2]` and as `[unit1, g2, g1]`, and the key as written reports both while the intended key reports one |
| FinishChecker.QuartetKeyMergesSplits | src/app/shared/classes/cg-donjara-finish-checker/cg-donjara-finish-checker.ts:192-229 | when the five tiles after a four-member unit split as pair 0-1 plus rest and as rest plus pair 3-4, カルテット finds both splits; with labels sorting unit, pair, rest and unit, rest, pair, the key as written reports only the first while the intended key reports both |
| FinishChecker.SplitsNamed | src/app/shared/classes/cg-donjara-finish-checker/cg-donjara-finish-checker.ts:179-188 | every entry a split pattern reports carries that pattern's name |
| FinishChecker.TricolorShadowsNormalLive | src/app/shared/classes/cg-donjara-finish-checker/cg-donjara-finish-checker.ts:34-53 | when トリコロール has a candidate split, `checkFinish` reports something, and nothing under the name ノーマルライブ, since トリコロール is tried first |
| FinishChecker.ThreeOfficialUnitsNotNormalLive | src/app/shared/classes/cg-donjara-finish-checker/cg-donjara-finish-checker.spec.ts:389-422 | the test hand of ももぺあべりー, プチ＊パフェアリー and fleeting bouquet is a トリコロール split, so `checkFinish` does not report the ノーマルライブ the test expects |
| FinishChecker.UnitType | src/app/shared/classes/cg-donjara-finish-checker/cg-donjara-finish-checker.ts:253-293 | a unit has an idol type iff its known members are non-empty and share one, and then every known member has it |
| FinishChecker.TricolorIntendedSound | src/app/shared/classes/cg-donjara-finish-checker/cg-donjara-finish-checker.ts:253-293 | the intended トリコロール reports iff some split the source finds has units of three different idol types, and each entry is such a split under トリコロール and 240000 |
| FinishChecker.MixedUnitNotTricolour | src/app/shared/classes/cg-donjara-finish-checker/cg-donjara-finish-checker.ts:253-293 | a unit with known members of two types has no type, and no split containing it is three-coloured |
| FinishChecker.ThreeOfficialUnitsNotTricolour | src/app/shared/classes/cg-donjara-finish-checker/cg-donjara-finish-checker.spec.ts:389-422 | with 橘ありす (`087`) Cool and 櫻井桃華 (`015`) Cute, the ノーマルライブ test's split is not three-coloured |
| NaviRecommend.CountHeldBounds | src/app/navi/services/navi.service.ts:51-61 | the held count is at most the number of members, zero iff no member is held (the unit is skipped), full iff all are |
| NaviRecommend.CountHoldTiles | src/app/navi/services/navi.service.ts:52-57 | the counting loop computes the number of members held |
| NaviRecommend.MembersMeaning | src/app/navi/services/navi.service.ts:64-88 | each member is the catalog tile of its normalised identifier with `isHold` iff held, or the `UNKNOWN` placeholder (not held) when the lookup fails |
| NaviRecommend.MemberTiles | src/app/navi/services/navi.service.ts:65-88 | the member loop, with its `continue` for unknown tiles, builds those members in order |
| NaviRecommend.HeldOnes | src/app/navi/services/navi.service.ts:91-99 | the held members are exactly those with `isHold` |
| NaviRecommend.UnheldOnes | src/app/navi/services/navi.service.ts:91-99 | the unheld members are exactly those without `isHold` |
| NaviRecommend.HeldFirstSplits | src/app/navi/services/navi.service.ts:91-99 | the stable held-first sort lists the held members in their order, then the others in theirs |
| NaviRecommend.HeldFirstOrders | src/app/navi/services/navi.service.ts:91-99 | the sort is a permutation and a position holds a held member iff it lies before all unheld ones |
| NaviRecommend.AnnotatedMeaning | src/app/navi/services/navi.service.ts:45-103 | every listed unit is a catalog unit with at least one held member, annotated from the hand, and every such unit is listed |
| NaviRecommend.RankBeforeStrictWeakOrder | src/app/navi/services/navi.service.ts:106-135 | the ranking order (more held first, then fewer missing) is a strict weak order |
| NaviRecommend.RankedOrders | src/app/navi/services/navi.service.ts:106-135 | the ranked list is a permutation of the annotated units, sorted by rank, with equally ranked units in catalog order |
| NaviRecommend.TileIds | src/app/navi/services/navi.service.ts:142 | a unit lists one identifier per member tile |
| NaviRecommend.DedupKeeps | src/app/navi/services/navi.service.ts:138-155 | the deduplicated list keeps units in order and no two kept units share a tile identifier |
| NaviRecommend.DedupDropsOnlyShared | src/app/navi/services/navi.service.ts:138-155 | a unit is dropped only when it shares an identifier with a kept unit |
| NaviRecommend.UsesAny | src/app/navi/services/navi.service.ts:141-146 | the first `for` loop with its `break` finds a member identifier already used iff there is one |
| NaviRecommend.UseAll | src/app/navi/services/navi.service.ts:148-151 | the second `for` loop adds exactly the unit's member identifiers to the used list |
| NaviRecommend.RemoveDuplicatedAssigns | src/app/navi/services/navi.service.ts:138-155 | the filter with its `usedTileIdentifiers` list and early `break` computes that deduplication |
| NaviRecommend.GetRecommendedUnitsByHoldTiles | src/app/navi/services/navi.service.ts:39-159 | the whole method: annotate, sort members, rank, and deduplicate on request |
| NaviRecommend.ContainingMeaning | src/app/navi/services/navi.service.ts:28-30 | the filter keeps, in order, exactly the units with a member of the selected identifier |
| NaviRecommend.GetRecommendedUnits | src/app/navi/services/navi.service.ts:23-32 | the recommendation without deduplication, filtered to the units containing the selected tile |
| NaviGrouping.GetGroupingColorByNumber | src/app/navi/services/navi.service.ts:225-247 | group n ≥ 0 gets palette colour n mod 6; a negative n gets no colour unless a multiple of six; `#000000` is never returned |
| NaviGrouping.GroupingLabel | src/app/navi/services/navi.service.ts:204 | group k gets the character with code 65 + k, a capital letter for the first 26 |
| NaviGrouping.GroupingLabelsDiffer | src/app/navi/services/navi.service.ts:203-204 | different group numbers get different letters |
| NaviGrouping.FirstContainingMeaning | src/app/navi/services/navi.service.ts:179-191 | no unit is suggested iff none contains the tile, else the first one that does |
| NaviGrouping.FindSuggestedUnit | src/app/navi/services/navi.service.ts:179-191 | the loop with `break` finds that first containing unit |
| NaviGrouping.OnlyContaining | src/app/navi/services/navi.service.ts:179-191 | among units sharing no tile, the first containing unit is the only one |
| NaviGrouping.SuggestedUnitIsOnly | src/app/navi/services/navi.service.ts:169-191 | in the deduplicated recommendation the suggested unit of a tile is the only unit containing it |
| NaviGrouping.NumberedExtend | src/app/navi/services/navi.service.ts:200-211 | a new group numbered by the count of groups so far keeps every earlier label's number |
| NaviGrouping.NumberedStep | src/app/navi/services/navi.service.ts:200-211 | adding a new group numbered by the current count keeps groups distinct and numbered in order of creation |
| NaviGrouping.GroupsNumbered | src/app/navi/services/navi.service.ts:175-220 | the k-th unit label met gets group k: colour `getGroupingColorByNumber(k)` and letter 65 + k |
| NaviGrouping.OrderFromHand | src/app/navi/services/navi.service.ts:175-220 | a group exists exactly for the suggested units (holding two or more tiles) of the hand's tiles |
| NaviGrouping.Grouped | src/app/navi/services/navi.service.ts:214-219 | one output tile per hand tile |
| NaviGrouping.GroupedAt | src/app/navi/services/navi.service.ts:177-220 | the i-th output keeps the i-th tile and gets a group iff its first containing unit holds two or more tiles, namely that unit's numbered group |
| NaviGrouping.GroupedMeaning | src/app/navi/services/navi.service.ts:177-220 | every output keeps its tile; it is grouped iff its first containing unit holds two or more tiles; the group is the numbered group of that unit's label; tiles suggesting one label share the group |
| NaviGrouping.GroupingHoldTiles | src/app/navi/services/navi.service.ts:165-223 | the whole method computes the grouped hand from the deduplicated recommendation |

## Left out

- Camera capture, tile detection and classification, the tile database's HTTP loading, and the
  Angular components and dialogs: none of them takes part in the finish or navigator logic.
- `async`/`await`: the navigator's calls become ordinary calls, and the catalogs are parameters.
- The `isDebug` flag of the finish checker only switches logging, so it is not modelled.
- `localeCompare` is modelled as lexicographic code-point order on labels (`LabelLt`). Collation
  would order some non-ASCII labels differently; a Japanese locale, for instance, sorts kanji by
  reading. The first finding below depends only on identical labels, on which both orders agree.
  The third depends on how distinct labels sort, which `LabelLt` models as code-point order; its
  witness uses the labels `0`, `A`, `B`, `C` and `D`, which every collation orders alike.
- The deduplication key is modelled as the sequence of identifiers rather than their
  comma-joined string. The two agree while no identifier contains a comma.
- FinishChecker.CheckFinish: requires a nine-tile hand to be distinct, to consist of known tiles, and to be checked against units that list no more members than they declare. Otherwise `getMatchedUnit` can read `idols[0]` of an empty list. The source does not guard against that; its own note says repeated tiles are not checked.
- FinishMatch.GetMatchedUnit: requires that a catalog unit fits or some tile is known (`NoCrash`). The source would crash on `idols[0].idolType` otherwise, which the model does not reproduce.
- FinishSearch.SplitCell: one loop iteration is a pure function that reads a `getMatchedUnit` call which would crash as "no group". `SplitCellSafe` shows that the searches never make such a call, because the pool is distinct, known and large enough there.
- Duplicate identifiers in a hand are not modelled as a separate case; see the requirement above.
- The in-place sorts of `uniqueResults` and of the navigator act on shared objects in the source.
  The model sorts values. Aliasing, such as a sorted result seen through another reference, is
  not captured. The key computed as written is proved not to change under those sorts.
- Image URLs, packs and tile scores are not modelled. The `label` property of a unit is `name`
  here.
- FinishPatterns.TricolorSound: トリコロール does not check that the three units cover the whole hand, and neither does the model; this is the source's behaviour.
- NaviRecommend.RankedOrders: the source sorts twice, the second time with a comparator that calls any two units of different hold counts equal, which is not a consistent order. The model uses one stable sort by hold count (descending), then missing count (ascending); this matches the source when the engine's sort is stable.
- NaviGrouping.GroupingLabel: `String.fromCharCode` of a code in the surrogate range (from 55231 groups on) is not a Dafny character, so the model gives U+FFFD there.
- FinishResults.Conclude: deduplicates by the multiset of groups (the intended key of the first
  and third findings below), not by the key `uniqueResults` computes, which joins the members of
  the label-sorted groups and so has no group boundaries. The two differ both ways:
  - Where the source reports one split in two group orders, the model reports it once. For
    example, a 5スター hand whose four remaining tiles form two equally labelled pairs gives
    the source two entries per such split and the model one.
  - Where the source merges two different splits whose label-sorted groups list the same tiles
    in the same order, the model reports both. For example, a カルテット hand with a unit
    labelled `0` and five tiles a–e left, where the catalog has pairs `A` = {a, b} and `D` =
    {d, e} and triples `B` = {c, d, e} and `C` = {a, b, c}, gives `[0, B, A]` and `[0, C, D]`.
    The source reports the first only; the model reports both.
- FinishPatterns.CheckSplits: returns `Conclude`'s result, so it reports one entry per set of
  groups. Where the source reports the same groups in both orders, the model reports them once.
  Where the source drops a different split that shares the joined key of an earlier one, the
  model keeps it.
- FinishChecker.CheckFinish: its split patterns report through `Conclude`, so its list of entries
  can differ from the source's in both of the ways above: fewer entries for one split, or more
  entries for different splits.
- The navigator's scenario tests and the finish checker's tests are not restated as lemmas,
  except the ノーマルライブ test of the second finding below.

## Findings

| source | as written | input that shows it | evidently intended | confidence | as-written member | corrected member |
|---|---|---|---|---|---|---|
| src/app/shared/classes/cg-donjara-finish-checker/cg-donjara-finish-checker.ts:453-467 | `uniqueResults` keys a result by its groups' members after a stable sort by label. Two groups with the same label keep the order the result lists them in, so one split listed as `[g1, g2]` and as `[g2, g1]` gets two keys. | A 5スター hand: a five-member unit plus four cute vocal tiles `101`–`104` that no two-member catalog unit covers. Pairs (101,102) and (103,104) both give the split into `汎用cutevocal` groups {101,102} and {103,104}, in opposite orders, and both are reported. | Results listing the same groups count as duplicates, whatever the order (key = multiset of groups). | not executed | FinishResults.LabelOrderKeyKeepsDuplicate | FinishResults.UniqueResultsDistinctGroups |
| src/app/shared/classes/cg-donjara-finish-checker/cg-donjara-finish-checker.ts:253-293 | `checkTricolor` accepts any three disjoint three-member units in the hand, whatever their idol types, and `checkFinish` tries it before `checkNormalLive` (lines 45-48). | The hand of the test `ノーマルライブ - 3人公式 + 3人公式 + 3人公式` (test lines 389-422): ももぺあべりー, プチ＊パフェアリー and fleeting bouquet, all three-member catalog units. It is a トリコロール split, so the answer is トリコロール, not the ノーマルライブ the test expects. | トリコロール needs one unit of each idol type (Cute, Cool, Passion), as its name and its test `3人公式(Cu) + 3人公式(Co) + 3人公式(Pa)` (test lines 280-313) suggest; the ももぺあべりー split then falls through to ノーマルライブ. | medium: the intent is inferred from the pattern's name and the two tests; not executed | FinishChecker.ThreeOfficialUnitsNotNormalLive | FinishChecker.TricolorIntendedSound |
| src/app/shared/classes/cg-donjara-finish-checker/cg-donjara-finish-checker.ts:453-467 | The key `uniqueResults` computes joins the members of a result's groups after a sort by label, with no mark where one group ends. Two different splits whose sorted groups list the same tiles in the same order get one key, and the second is dropped. | A カルテット hand: a four-member unit labelled `0` and five tiles a–e left, with catalog pairs `A` = {a, b} and `D` = {d, e} and catalog triples `B` = {c, d, e} and `C` = {a, b, c}. The search finds `[0, B, A]` and `[0, C, D]`. Sorted by label, both list 0's tiles then a, b, c, d, e, so only the first split is reported. These labels sort the same in every collation. | Different splits are different results: the key separates groups (key = multiset of groups). | not executed | FinishChecker.QuartetKeyMergesSplits | FinishResults.UniqueResultsDistinctGroups |

The model keys results by the multiset of their groups (`FinishResults.Key`), and `Conclude`,
`CheckSplits` and `CheckFinish` use that key. `FinishResults.UniqueResultsAsWritten` keeps the
key as written. `FinishChecker.FallbackPairReportedTwice` shows that 5スター finds the same split
in both orders and that only the key as written reports it twice. In the third row,
`FinishChecker.QuartetKeyMergesSplits` shows that カルテット finds two different splits that the
key as written merges, and that the intended key keeps both. `FinishResults.LabelOrderKeyMergesWitness`
checks the row's example.
The same duplication affects ノーマルライブ (two `汎用` triples of one kind) and スタートダッシュ.

In the second row, "test lines" are lines of
`src/app/shared/classes/cg-donjara-finish-checker/cg-donjara-finish-checker.spec.ts`. The
corrected トリコロール (`FinishChecker.TricolorIntended`) keeps the source's candidates whose
three units each have one idol type, all three different (`ThreeColours`).
`FinishChecker.ThreeOfficialUnitsNotTricolour` shows the ノーマルライブ test's split fails that
condition. Because this intent is inferred rather than stated in the code, `CheckFinish` keeps the
code's トリコロール, and the corrected check stands beside it.
