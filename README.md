# League custom-game matchmaking, modelled in Dafny

The repository is a Discord bot for in-house League of Legends games. This
project models its three pieces of matchmaking logic. They share one
Firestore `players` collection.

- **Result upload** (`interactions/upload_game_results.py`). The bot reads a
  screenshot of a finished game and picks the winning and losing teams. It
  pairs each winner with the first loser who played the same role. The
  winner gains `25 + min(35, max(0, diff // 100))` and that loser loses 25.
  It lists the players who played off their stored preferences. On
  confirmation it writes the new per-role ratings and a history entry for
  each player. The confirm and cancel buttons carry the confirmation id in
  their `custom_id`.
- **Per-role team builder** (`interactions/create_teams_v2.py`). Every player
  has one rating per role. New players are seeded from their stated rank
  and their role preferences. The builder enumerates all 252 ordered 5/5
  splits of the ten players, crossed with all 120 x 120 role orders. It
  keeps the first assignment with the smallest rating gap among those whose
  two teams have equal off-role counts of at most two.
- **Single-rating team builder** (`interactions/create_teams.py`). Every
  player has one rating, lowered by a penalty for a secondary or off role.
  For each of the 252 splits, each team gets the first role order with the
  best preference score (10/5/0). The sort is stable, so the three splits
  with the smallest gap are reported in split order when gaps tie.

Modules, one file each:

- `GameResults` (gameresults.dfy): the result upload.
- `TeamBuilderV2` (teambuilder_v2.dfy): the per-role builder.
- `TeamBuilder` (teambuilder.dfy): the single-rating builder.
- `Interplay` (interplay.dfy): what one command finds in a document another
  command wrote.
- Helpers:
  - `PlayerStore`: the shared collection, as a map from name to a document
    whose fields may be absent.
  - `Text`: ASCII `upper`, `lower`, `capitalize`, `split`, `strip` and
    `split(":", 1)`.
  - `Combinatorics`: the `itertools.combinations` and `permutations` orders,
    a stable sort standing in for `list.sort`, `sum`, `min` and `abs`.
  - `Wrappers`: `Option` and `Result`.

How the source is modelled:

- **The store** is passed in as a value. A command that writes returns the
  new store.
- **Loops** of the source are methods with loops. Each is proved equal to a
  recursive specification function, and the properties are lemmas about
  that function.
- **Errors.** The source raises exceptions in several places. Each of these
  becomes a `Result` error or `None`:
  - a `KeyError` on a role missing from a rating map;
  - `max()` of an empty rating map;
  - an index error on a blank rank;
  - fewer than ten players.
- **No result.** The `float("inf")` sentinel of `find_best_teams` is `None`.
  Its "no valid assignment" outcome is an error, as `run` reports it.

## Model

| member | source | states |
|---|---|---|
| GameResults.JsonFenceRemoved | interactions/upload_game_results.py:127-136 | a reply wrapped in a json code fence comes back as its stripped body |
| GameResults.UnfencedReplyKept | interactions/upload_game_results.py:127-136 | a reply without fences is only stripped |
| GameResults.SelectTeamsSpec | interactions/upload_game_results.py:165-177 | the teams are found iff the perspective team is 1 or 2; then the two numbers are 1 and 2 in some order, and the perspective team wins iff the result is "VICTORY" |
| GameResults.WinnerGain | interactions/upload_game_results.py:310-312 | the winner's gain lies between 25 and 60 |
| GameResults.WinnerGainHundreds | interactions/upload_game_results.py:310-312 | gain is 25 below a 100-point deficit, 60 from 3500 up, and otherwise adds one point per full 100 of rating difference |
| GameResults.WinnerGainMonotone | interactions/upload_game_results.py:310-312 | beating a stronger opponent never gains less |
| GameResults.FirstWithRole | interactions/upload_game_results.py:297 | the opponent is the first loser with the winner's role; None iff no loser has it |
| GameResults.AllStoredConcat | interactions/upload_game_results.py:264-272 | every player of winners + losers is stored iff every winner and every loser is |
| GameResults.LookUpPlayers | interactions/upload_game_results.py:262-272 | fails (the `(None, None)` return) iff some player is not stored; otherwise holds each player's document and `mmr_map` (empty when absent) |
| GameResults.DetectRoleSwaps | interactions/upload_game_results.py:274-289 | the loop computes the role-swap list of RoleSwaps |
| GameResults.MatchByRole | interactions/upload_game_results.py:291-333 | the loop computes the change map of Matched |
| GameResults.MatchWinner | interactions/upload_game_results.py:292-331 | one winner's pass gives the change map of one more winner |
| GameResults.CalculateMmrChanges | interactions/upload_game_results.py:250-333 | None iff some player is unstored, else the matched changes and the swaps of winners then losers |
| GameResults.MatchedEntries | interactions/upload_game_results.py:305-331 | every entry has new = old + change, a change of -25 or a gain in 25..60, and the role of some winner |
| GameResults.MatchedKeys | interactions/upload_game_results.py:292-331 | a name has an entry iff it is a winner with a same-role loser, or the first same-role loser of some winner |
| GameResults.LastTouchDecides | interactions/upload_game_results.py:315-331 | a name's entry is the one written by the last winner whose pairing involves it |
| GameResults.DistinctTeams | interactions/upload_game_results.py:264 | distinct names over both teams give distinct names within and across the teams |
| GameResults.WinnerGetsGain | interactions/upload_game_results.py:306-322 | with distinct names, a matched winner's entry is the gain computed from the two ratings for the role played |
| GameResults.UnmatchedWinnerSkipped | interactions/upload_game_results.py:297-301 | a winner with no same-role loser gets no entry |
| GameResults.OpponentLoses | interactions/upload_game_results.py:324-331 | when no later winner has the same role, the opponent's entry is the flat loss |
| GameResults.SharedRoleOverwrites | interactions/upload_game_results.py:297-331 | with two winners in one role, the single loser's entry is the second winner's, overwriting the first |
| GameResults.RoleSwapsConcat | interactions/upload_game_results.py:275 | the swaps of winners + losers are the winners' swaps followed by the losers' |
| GameResults.RoleSwapsListed | interactions/upload_game_results.py:275-289 | a player whose actual role is neither stored preference, with a primary other than "FILL" (missing ones default to "FILL"), is listed, and every listed record comes from such a player |
| GameResults.CommitEntry | interactions/upload_game_results.py:352-360 | only `mmr_map` changes; the role played now holds the new rating, and every other role is untouched |
| GameResults.Committed | interactions/upload_game_results.py:346-360 | committing keeps the set of stored names |
| GameResults.Histories | interactions/upload_game_results.py:362-385 | a history entry is written for every change whose player is still stored, and only for those |
| GameResults.CommitResults | interactions/upload_game_results.py:346-385 | the loop over the changes computes Committed and Histories |
| GameResults.CommitOne | interactions/upload_game_results.py:347-385 | one change rewrites its player's document with the new role rating and writes a history entry, only if the player is stored |
| GameResults.CommitMatched | interactions/upload_game_results.py:347-377 | after committing, the winner's rating at the role played is old + gain and the loser's is old - 25; history says WIN and LOSS (is_winner iff change > 0); unmatched players' documents are unchanged |
| GameResults.ButtonRoundTrip | interactions/upload_game_results.py:237-243 | splitting either button's `custom_id` at the first ':' gives back its action and the confirmation id, ':' included |
| GameResults.InvalidButtonIffNoColon | interactions/upload_game_results.py:490 | a `custom_id` is rejected as invalid iff it holds no ':' |
| TeamBuilderV2.MaxRatingExists | interactions/create_teams_v2.py:43 | a non-empty set of roles has a role of largest rating |
| TeamBuilderV2.BestMmr | interactions/create_teams_v2.py:43 | `max(mmr_map.values())` is one of the ratings and at least every rating |
| TeamBuilderV2.OffroleIff | interactions/create_teams_v2.py:45-47 | off-role iff some role is rated at least 500 above the assigned one; a best role is never off-role |
| TeamBuilderV2.DivisionOf | interactions/create_teams_v2.py:60-62 | the division is between 1 and 4 |
| TeamBuilderV2.RankFloors | interactions/create_teams_v2.py:12-23 | RANKS lists the table's tiers 500 apart, so `// 500` finds the tier; MASTER starts at 3500 |
| TeamBuilderV2.MmrToStringBelowMaster | interactions/create_teams_v2.py:50-63 | below 3500 the string is the tier of `mmr // 500` and a division d in 1..4; the rating lies in that tier's 125-point band for d |
| TeamBuilderV2.MmrToStringFromMaster | interactions/create_teams_v2.py:53-57 | from 3500 up the string is the bare tier, capped at CHALLENGER |
| TeamBuilderV2.NegativeRatingWraps | interactions/create_teams_v2.py:53-63 | a negative rating indexes RANKS from the end, and below -5000 the lookup fails |
| TeamBuilderV2.NegativeRatingPrintsChallenger | interactions/create_teams_v2.py:53-63 | a rating of -1 prints "CHALLENGER 1" while 0 prints "IRON 4" |
| TeamBuilderV2.TierIndex | interactions/create_teams_v2.py:53 | the corrected tier index always lies in RANKS |
| TeamBuilderV2.RankNameCorrected | interactions/create_teams_v2.py:50-63 | agrees with `mmr_to_string` on every rating from 0 up, gives "IRON 4" below 0, starts with the tier it names, and the tier never goes down as the rating rises |
| TeamBuilderV2.SeedOfTierDivision | interactions/create_teams_v2.py:83-89 | "Tier Division" seeds the upper-cased tier's value plus the division's offset |
| TeamBuilderV2.SeedOfWords | interactions/create_teams_v2.py:83-89 | a rank with at least one word seeds the first word's upper-cased tier value plus the offset of the second word, or of "3" when there is none |
| TeamBuilderV2.SeedOfTwoWords | interactions/create_teams_v2.py:83-89 | a rank that splits into exactly a tier and a division seeds the tier's value plus the division's offset |
| TeamBuilderV2.SeedOfUnknownTier | interactions/create_teams_v2.py:83-89 | a tier the table lacks seeds as SILVER's 1000 plus the division's offset |
| TeamBuilderV2.ImplicitSilver | interactions/create_teams_v2.py:87-89 | a tier the table lacks is valued at SILVER's 1000 |
| TeamBuilderV2.SeedOfTierOnly | interactions/create_teams_v2.py:83-89 | a tier alone seeds as division "3" (+100) |
| TeamBuilderV2.SeedWithoutRank | interactions/create_teams_v2.py:83-85 | a missing rank seeds as "Silver 3" (1100) |
| TeamBuilderV2.SeedOfBlankRank | interactions/create_teams_v2.py:83-84 | a rank made only of whitespace has no words, so `rank_parts[0]` raises |
| TeamBuilderV2.SeedBaseBounds | interactions/create_teams_v2.py:83-89 | every seed base lies in 0..4800 |
| TeamBuilderV2.TableBounds | interactions/create_teams_v2.py:12-25 | tier values lie in 0..4500 and division offsets in 0..300 |
| TeamBuilderV2.GoldTwoSeeds | interactions/create_teams_v2.py:83-89 | "Gold 2" seeds 1500 + 200 = 1700 |
| TeamBuilderV2.GoldTwoPrintsGoldThree | interactions/create_teams_v2.py:83-89 | "Gold 2" seeds 1700, which prints as "GOLD 3": seed and string do not round-trip |
| TeamBuilderV2.SeedRatings | interactions/create_teams_v2.py:91-99 | the loop builds the seed map over ROLES |
| TeamBuilderV2.SeedMapAt | interactions/create_teams_v2.py:91-99 | the loop's map holds exactly the roles looped over, each at base plus its penalty |
| TeamBuilderV2.SeedMapSnoc | interactions/create_teams_v2.py:92-99 | one more role adds exactly that role's entry |
| TeamBuilderV2.SeedMapSpec | interactions/create_teams_v2.py:91-99 | the seed map has exactly the five ROLES keys: base for the primary role, base - 200 for the secondary one, base - 500 otherwise, so every value lies in base - 500..base |
| TeamBuilderV2.FillSeedsEverythingOffrole | interactions/create_teams_v2.py:71-99 | "Fill" preferences match no role, so every role is seeded at base - 500 |
| TeamBuilderV2.IronFourSeedsZero | interactions/create_teams_v2.py:83-89 | "Iron 4" seeds 0 |
| TeamBuilderV2.IronOffrolePrintsChallenger | interactions/create_teams_v2.py:91-99 | an Iron 4 player's off role is seeded -500, which prints as "CHALLENGER 4" |
| TeamBuilderV2.SeedMapNotEmpty | interactions/create_teams_v2.py:91-99 | a seeded map is never empty, so a new player always has a best rating |
| TeamBuilderV2.LoadRoster | interactions/create_teams_v2.py:66-113 | the loop computes the players and store of LoadPrefix |
| TeamBuilderV2.LoadRow | interactions/create_teams_v2.py:69-111 | row i either raises, which is then the result of the whole load with the store as it stands, or gives the players and store after i + 1 rows |
| TeamBuilderV2.LoadOne | interactions/create_teams_v2.py:70-111 | one pass: a stored name gives its player with the stored `mmr_map` (an empty map fails at `max`); a new name is seeded from its rank (a blank rank fails), stored, and given that map |
| TeamBuilderV2.LoadErrorStep | interactions/create_teams_v2.py:69-111 | after a failing row, one more row changes nothing |
| TeamBuilderV2.LoadStepKeeps | interactions/create_teams_v2.py:74-109 | one more row never rewrites a document |
| TeamBuilderV2.LoadStepAdds | interactions/create_teams_v2.py:102-109 | one more row adds at most the document of its own name |
| TeamBuilderV2.LoadErrorSticks | interactions/create_teams_v2.py:69-113 | the first failing row ends loading; the writes before it remain |
| TeamBuilderV2.LoadOkPrefix | interactions/create_teams_v2.py:69-113 | when loading succeeds, every prefix loads |
| TeamBuilderV2.EntryKeepsStore | interactions/create_teams_v2.py:74-109 | one row adds at most its own name, rewrites no stored document, and gives a well-formed player whose ratings are the stored map |
| TeamBuilderV2.LoadKeepsStore | interactions/create_teams_v2.py:74-109 | no stored document is rewritten, and every new document belongs to a roster name |
| TeamBuilderV2.LoadNamesNew | interactions/create_teams_v2.py:102-109 | every document the rows add is named by one of them |
| TeamBuilderV2.LoadMonotone | interactions/create_teams_v2.py:74-109 | a document written stays as written |
| TeamBuilderV2.LoadPlayers | interactions/create_teams_v2.py:68-113 | one player per row in roster order, each well formed and rated by its stored map |
| TeamBuilderV2.LoadRosterSpec | interactions/create_teams_v2.py:66-113 | stored documents are kept and only roster names are added; on success, players come in roster order and a stored player keeps its stored map |
| TeamBuilderV2.NewPlayerSeeded | interactions/create_teams_v2.py:81-111 | the first row of an unstored name yields the seeded map for its rank and preferences, and that map is stored with the preferences |
| TeamBuilderV2.SearchSpaceSizes | interactions/create_teams_v2.py:119-125 | 252 splits and 120 role orders |
| TeamBuilderV2.SplitCount | interactions/create_teams_v2.py:119 | `combinations(range(10), 5)` yields 252 splits |
| TeamBuilderV2.SplitFacts | interactions/create_teams_v2.py:119-121 | a split picks five indices below n and leaves n - 5 for the other team |
| TeamBuilderV2.SplitsBelow | interactions/create_teams_v2.py:119-121 | every split indexes players 0..9 |
| TeamBuilderV2.SplitBlockAt | interactions/create_teams_v2.py:124-126 | one split yields 14400 tuples, tuple a*120+b using orders a and b |
| TeamBuilderV2.BlockListUniform | interactions/create_teams_v2.py:119-126 | every split's block has 14400 tuples |
| TeamBuilderV2.BlocksAt | interactions/create_teams_v2.py:119-126 | the blocks of 252 splits make 3628800 tuples; tuple ci*14400+a*120+b is split ci with orders a and b |
| TeamBuilderV2.AssignmentAt | interactions/create_teams_v2.py:116-126 | for a role list with 120 orders, the generator yields 3628800 tuples in nested loop order: tuple ci*14400+a*120+b is split ci with role orders a and b |
| TeamBuilderV2.TupleAt | interactions/create_teams_v2.py:116-126 | every tuple is made of one split, its two teams, and two of the role orders |
| TeamBuilderV2.AssignmentShape | interactions/create_teams_v2.py:116-126 | in every tuple team 1 is the five players of a split and team 2 the five of its complement, and every player index lies in exactly one of the two; both role tuples reorder the role list |
| TeamBuilderV2.PositionOf | interactions/create_teams_v2.py:119-126 | every tuple index is of the form ci*14400+a*120+b |
| TeamBuilderV2.TallyMissingIff | interactions/create_teams_v2.py:140-144 | a team's tally fails (KeyError) iff some assigned role is missing from its player's map |
| TeamBuilderV2.TallyCounts | interactions/create_teams_v2.py:140-144 | the off-role counter counts the off-role positions, at most the team size |
| TeamBuilderV2.OnRoleTeam | interactions/create_teams_v2.py:140-144 | a team played on best roles has no off-role player |
| TeamBuilderV2.TallyTeam | interactions/create_teams_v2.py:134-151 | the loop over one team computes its tally |
| TeamBuilderV2.EvaluateAssignment | interactions/create_teams_v2.py:129-161 | the two loops and checks compute Evaluate |
| TeamBuilderV2.EvaluateSpec | interactions/create_teams_v2.py:129-161 | KeyError iff some role is missing; valid iff the off-role counts are equal and at most 2; then totals are each team's rating sum and delta is their distance |
| TeamBuilderV2.EvaluateSwap | interactions/create_teams_v2.py:129-161 | swapping the teams swaps the totals and keeps validity and delta |
| TeamBuilderV2.OnRoleIsValid | interactions/create_teams_v2.py:153-161 | an assignment of everyone to a best role is valid |
| TeamBuilderV2.ScanError | interactions/create_teams_v2.py:171-174 | the search fails iff some tuple raises KeyError |
| TeamBuilderV2.ScanErrorStep | interactions/create_teams_v2.py:170-174 | one more tuple raises exactly when the search so far raised or that tuple lacks a role |
| TeamBuilderV2.ScanNothing | interactions/create_teams_v2.py:166-186 | no assignment is found iff every tuple is invalid |
| TeamBuilderV2.ScanNothingStep | interactions/create_teams_v2.py:170-179 | one more tuple still leaves nothing found exactly when nothing was found before and that tuple is invalid |
| TeamBuilderV2.ScanNotInvalid | interactions/create_teams_v2.py:176-179 | a found assignment comes from a valid tuple |
| TeamBuilderV2.FirstBestFirst | interactions/create_teams_v2.py:176-179 | the first valid tuple is the best so far |
| TeamBuilderV2.FirstBestReplaced | interactions/create_teams_v2.py:176-179 | a strictly smaller delta takes over |
| TeamBuilderV2.FirstBestKept | interactions/create_teams_v2.py:176-179 | an equal or larger delta leaves the best unchanged |
| TeamBuilderV2.ScanBest | interactions/create_teams_v2.py:166-186 | the found assignment is valid, its delta is at most every valid delta, and it is the earliest tuple with that delta |
| TeamBuilderV2.Search | interactions/create_teams_v2.py:166-186 | the loop computes Scan |
| TeamBuilderV2.SearchStep | interactions/create_teams_v2.py:170-179 | one tuple either raises, which ends the whole search with KeyError, or gives the best of one more tuple |
| TeamBuilderV2.FindBestTeams | interactions/create_teams_v2.py:164-186 | `find_best_teams` is the scan over the generator's tuples |
| TeamBuilderV2.SearchTeams | interactions/create_teams_v2.py:229-232 | KeyError iff some tuple lacks a role; no valid assignment iff all are invalid; otherwise the first best tuple |
| TeamBuilderV2.BuildTeams | interactions/create_teams_v2.py:223-232 | the store is what loading wrote; a loading error is reported; a roster of other than ten fails; ten players are searched |
| TeamBuilder.SeedRating | interactions/create_teams.py:10-21 | a rank's default lies in 600..3600, and an unknown rank gets 1200 |
| TeamBuilder.BaseMmrChoice | interactions/create_teams.py:40 | a stored non-zero rating wins; no rating and a stored 0 both fall back to the rank default (1200 if unknown) |
| TeamBuilder.EffectiveStatsSpec | interactions/create_teams.py:42-49 | penalty 0 iff primary, -150 iff secondary and not primary, -350 otherwise; effective = base + penalty |
| TeamBuilder.AdcNeverPreferred | interactions/create_teams.py:33-37 | `capitalize()` turns "ADC" into "Adc", so no player prefers "ADC" (line 30): it is always off-role and scores 0 |
| TeamBuilder.SyncedPlayers | interactions/create_teams.py:52-77 | one player per processed row |
| TeamBuilder.SyncedPlayerAt | interactions/create_teams.py:52-77 | row i's player is built from the store as rows before i left it |
| TeamBuilder.SyncedPlayerLast | interactions/create_teams.py:52-77 | the last row's player is built from the store before it |
| TeamBuilder.SyncedPlayerKept | interactions/create_teams.py:52-77 | later rows do not change earlier players |
| TeamBuilder.SyncedPlayerMmr | interactions/create_teams.py:59-76 | a stored name starts from its stored rating or the rank fallback; a new one from its rank default |
| TeamBuilder.SyncRowFinds | interactions/create_teams.py:55-59 | a row whose name no earlier row carries finds the store's document, or none |
| TeamBuilder.SyncRowStored | interactions/create_teams.py:59-75 | after row i its name is stored: with the document found, or with the new seed |
| TeamBuilder.SyncPlayers | interactions/create_teams.py:52-77 | the loop computes SyncedPlayers and SyncStore |
| TeamBuilder.SyncKeepsStore | interactions/create_teams.py:59-73 | no stored document is rewritten; every new document belongs to a roster name |
| TeamBuilder.SyncMonotone | interactions/create_teams.py:59-73 | a document written stays as written |
| TeamBuilder.SyncSeeds | interactions/create_teams.py:59-76 | a new name is stored with its rank default and the rank as given, and starts from it; a stored name keeps its document and starts from its stored rating or the fallback |
| TeamBuilder.ScoreBounds | interactions/create_teams.py:92-93 | a preference score lies in 0..10 per player |
| TeamBuilder.EntryOfOrder | interactions/create_teams.py:88-102 | each entry of an order is its player's entry for its role, and the player is one of the team's five |
| TeamBuilder.ArgMax | interactions/create_teams.py:82-106 | the kept order is one of the orders tried |
| TeamBuilder.ArgMaxSpec | interactions/create_teams.py:82-106 | the kept order has the highest score of all orders, and every earlier order scores strictly less (first maximiser) |
| TeamBuilder.RoleIndexOfRoles | interactions/create_teams.py:108 | `ROLES.index` maps ROLES to 0..4, and only role r of ROLES has index r |
| TeamBuilder.IndexedIsRoles | interactions/create_teams.py:108 | ROLES is the only five-role list that `ROLES.index` numbers 0..4 in order |
| TeamBuilder.RoleOrders | interactions/create_teams.py:85 | 120 orders, each a reordering of the roles |
| TeamBuilder.EntryKeys | interactions/create_teams.py:88-108 | the sort keys of an order's entries are its roles' indices |
| TeamBuilder.SortedIntoRoles | interactions/create_teams.py:108 | sorting an order's entries by `ROLES.index` puts role r of ROLES at position r |
| TeamBuilder.SortedEntries | interactions/create_teams.py:108-109 | sorting keeps each entry's stats and player and does not change the total |
| TeamBuilder.RoleAssignmentSpec | interactions/create_teams.py:80-110 | 5 entries, one per role in ROLES order, each with its player's stats for that role and a player of the team; they are the entries of the first maximal order, and the total is that order's sum of effective ratings |
| TeamBuilder.BestEntries | interactions/create_teams.py:82-106 | the two loops keep the entries of the first order of highest score, and none with no orders |
| TeamBuilder.CalculateBestRolesForTeam | interactions/create_teams.py:80-110 | computes RoleAssignment over the 120 role orders |
| TeamBuilder.ScoreMatchup | interactions/create_teams.py:124-139 | one split's matchup: both teams' best roles and the gap |
| TeamBuilder.SplitMatchup | interactions/create_teams.py:123-139 | one pass over split ci gives matchup ci |
| TeamBuilder.Matchups | interactions/create_teams.py:121-139 | one matchup per split |
| TeamBuilder.AllMatchups | interactions/create_teams.py:121-139 | the loop over the splits computes Matchups |
| TeamBuilder.MatchupCount | interactions/create_teams.py:122-123 | ten players give 252 matchups |
| TeamBuilder.SplitTeams | interactions/create_teams.py:123-125 | each split's teams have five players each, share nobody and together hold all ten |
| TeamBuilder.TeamRoles | interactions/create_teams.py:80-110 | a team's entries come in ROLES order and name players of the team |
| TeamBuilder.MatchupRoles | interactions/create_teams.py:127-139 | the gap is the distance between the totals; both teams' entries come in ROLES order with players of that team |
| TeamBuilder.MatchupAt | interactions/create_teams.py:123-139 | matchup ci is the matchup of split ci |
| TeamBuilder.TopThreeSpec | interactions/create_teams.py:141-143 | the first min(3, n) matchups by increasing gap, drawn from all; none left out has a smaller gap than one kept; equal gaps keep split order |
| TeamBuilder.ThreeReported | interactions/create_teams.py:123-143 | ten players always give three options |
| TeamBuilder.Run | interactions/create_teams.py:113-143 | syncs the roster first; fewer than ten players fail (after the writes); otherwise the top three matchups of the first ten players |
| Interplay.UploadMissesSeededRoles | interactions/upload_game_results.py:306-307 | a map seeded by the per-role builder (keys "Top", ..., per create_teams_v2.py:34) has no "TOP", "JUNGLE", "MID" or "SUPPORT" key, so the upload reads 1500 there; only "ADC" is found |
| Interplay.PlayingOwnRoleIsSwap | interactions/upload_game_results.py:275-289 | a player the per-role builder stored as preferring a role is a role swap for playing its upper-case spelling, for every role but "ADC" |
| Interplay.SeededOwnRole | interactions/upload_game_results.py:275-289 | a document with one role as both preferences is a role swap exactly for other roles, unless that role is "FILL" |
| Interplay.FillIsNotNoPreference | interactions/upload_game_results.py:279-282 | the per-role builder's "Fill" is not the upload's "FILL": such a player is a role swap in every role |
| Interplay.SingleRatingDocHasNoRatings | interactions/create_teams_v2.py:77-80 | a document written by the single-rating builder has no `mmr_map`, so the per-role builder fails on that player |
| Interplay.RoleDocFallsBackToRank | interactions/create_teams.py:59-68 | a document written by the per-role builder has no `mmr`, so the single-rating builder uses the rank default |

## Left out

- Firestore access is replaced by a store passed in and returned:
  - the `pending_confirmations` lifecycle and the `games` document id;
  - the game-history `game_id` and `timestamp` fields;
  - the order in which `mmr_changes.items()` is committed. Entries touch
    distinct names, so the order does not matter.
- The Gemini vision call, the image download and `json.loads` are left out
  as foreign services and library parsing. So are the missing-key errors of
  the parsed JSON.
- TeamBuilderV2.RosterEntry, TeamBuilderV2.LoadEntry: a roster row
  without "ign" is not modelled; the name is a plain string. In the
  source, `p.get("ign")` gives None (interactions/create_teams_v2.py:70).
  `document(None)` then names a fresh auto-generated id, so that row is
  always seeded, written under a key that is never read again, and
  turned into a player named None. Modelling it would make the name
  optional in every player and assignment.
- Fuzzy name matching is left out: its scorer is an opaque library.
- `generate_confirmation_id` is left out: it depends on MD5 and the clock.
- Discord output is left out: every webhook request, the button JSON, and
  message and summary formatting, including `format_output` and the message
  built in `run`.
- The progress prints and the `checked` counter of `find_best_teams` are
  left out.
- `float("inf")` is represented as `None`.
- Text functions cover ASCII only. Unicode case mapping and Unicode
  whitespace in `upper`, `capitalize`, `split` and `strip` are left out.
- `list.sort` sorts in place. It is modelled by its result: a stable
  insertion sort, which gives the same list as Python's stable sort.
- TeamBuilderV2.FindBestTeams takes the role list as a parameter. So do
  TeamBuilderV2.SearchTeams, TeamBuilderV2.SeedRatings, TeamBuilderV2.SeedMap,
  TeamBuilder.CalculateBestRolesForTeam,
  TeamBuilder.AllMatchups and TeamBuilder.Run. The source reads the
  module's ROLES; callers pass ROLES. The split generator likewise takes
  the number of players, which is always 10. With constant arguments the
  verifier would expand the 252 splits and 120 orders.
- TeamBuilder.Matchups accepts any list of at least ten players and splits
  all of them. TeamBuilder.Run passes exactly the first ten, as
  `range(10)` does.
- TeamBuilder.RoleIndex gives 5 to a role outside ROLES, where
  `ROLES.index` raises. That branch cannot be reached: every sorted role
  comes from a reordering of ROLES.
- TeamBuilder.Run reports any roster under ten players as TooFewPlayers.
  The source's message is the text of the IndexError; the message is left
  out.
- Calls with teams of other than five players are out of scope:
  `calculate_best_roles_for_team` and `evaluate_assignment` are only
  reached with five-player teams. The model handles longer teams as
  `zip` and indexing do, and requires at least five players in
  TeamBuilder.CalculateBestRolesForTeam.

## Findings

| source | as written | input that shows it | evidently intended | confidence | as-written member | corrected member |
|---|---|---|---|---|---|---|
| interactions/create_teams_v2.py:53-63 | `mmr // 500` is negative for a negative rating, and Python's negative list index wraps to the end of RANKS | rating -1, or -500 for an Iron 4 player's off role (seeded 0 - 500) | the lowest tier, "IRON 4" | not executed | TeamBuilderV2.NegativeRatingPrintsChallenger, TeamBuilderV2.IronOffrolePrintsChallenger | TeamBuilderV2.RankName, TeamBuilderV2.RankNameCorrected |

Two further behaviours look unintended but are kept in the model as the
program behaves, with no corrected member; each lemma below states the
behaviour as written:

- TeamBuilder.AdcNeverPreferred: `capitalize()` turns a stored "ADC"
  preference into "Adc", which never equals the role "ADC"
  (interactions/create_teams.py:30, 36-37, 92), so a player who prefers
  ADC, as primary or secondary, always takes the -350 penalty and scores 0
  when placed at ADC.
- TeamBuilderV2.GoldTwoPrintsGoldThree: "Gold 2" seeds 1700, and
  `mmr_to_string` prints 1700 as "GOLD 3"
  (interactions/create_teams_v2.py:24, 61-62): the division table and the
  printed division are offset by one band.
