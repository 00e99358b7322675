/** What happens when one command reads a player document another command
    wrote: the three commands share the `players` collection but spell
    roles differently and keep different fields. */
module Interplay {
  import opened Wrappers
  import opened Text
  import opened PlayerStore
  import GameResults
  import TeamBuilderV2
  import TeamBuilder

  /** The per-role builder stores ratings under "Top", "Jungle", "Mid",
      "ADC" and "Support", while the screenshot reading names roles "TOP",
      "JUNGLE", "MID", "ADC" and "SUPPORT": the result upload finds only
      the "ADC" rating of a seeded map and reads 1500 for every other role. */
  lemma UploadMissesSeededRoles(base: int, primary: string, secondary: string)
    ensures var seed := TeamBuilderV2.SeedMap(base, primary, secondary, TeamBuilderV2.ROLES);
      && GameResults.RatingFor(seed, "TOP") == GameResults.DEFAULT_RATING
      && GameResults.RatingFor(seed, "JUNGLE") == GameResults.DEFAULT_RATING
      && GameResults.RatingFor(seed, "MID") == GameResults.DEFAULT_RATING
      && GameResults.RatingFor(seed, "SUPPORT") == GameResults.DEFAULT_RATING
      && "ADC" in seed && GameResults.RatingFor(seed, "ADC") == seed["ADC"]
  {
    TeamBuilderV2.SeedMapSpec(base, primary, secondary);
    var seed := TeamBuilderV2.SeedMap(base, primary, secondary, TeamBuilderV2.ROLES);
    assert "ADC" in TeamBuilderV2.ROLES;
    assert "TOP" !in seed && "JUNGLE" !in seed && "MID" !in seed && "SUPPORT" !in seed;
  }

  /** A player the per-role builder stored as playing a role (say "Top")
      is reported as a role swap for playing it, since the upload compares
      against the upper-case spelling; only "ADC" is spelt alike. */
  lemma PlayingOwnRoleIsSwap(name: string, ratings: map<string, int>, r: nat)
    requires r < |TeamBuilderV2.ROLES|
    ensures var role := TeamBuilderV2.ROLES[r];
      GameResults.IsRoleSwap(RoleSeededDoc(name, role, role, ratings), Upper(role)) <==> role != "ADC"
  {
    var role := TeamBuilderV2.ROLES[r];
    var upper := Upper(role);
    SeededOwnRole(name, role, ratings, upper);
    assert |upper| == |role|;
    if r == 0 {
      assert upper[0] == 'T';
    } else if r == 1 {
      assert upper[0] == 'J';
    } else if r == 2 {
      assert upper[1] == 'I';
    } else if r == 3 {
      assert upper == "ADC";
    } else {
      assert upper[1] == 'U';
    }
  }

  /** A player stored with one role as both preferences is a role swap in
      exactly the other roles, unless that role is the upload's "FILL". */
  lemma SeededOwnRole(name: string, role: string, ratings: map<string, int>, actual: string)
    ensures GameResults.IsRoleSwap(RoleSeededDoc(name, role, role, ratings), actual) <==>
      actual != role && role != GameResults.NO_PREFERENCE
  {
  }

  /** The per-role builder stores a missing preference as "Fill", which the
      upload does not read as "no preference": such a player is a role swap
      in every role the screenshot can report. */
  lemma FillIsNotNoPreference(name: string, ratings: map<string, int>, actual: string)
    requires actual != TeamBuilderV2.NO_PREFERENCE
    ensures GameResults.IsRoleSwap(
      RoleSeededDoc(name, TeamBuilderV2.NO_PREFERENCE, TeamBuilderV2.NO_PREFERENCE, ratings), actual)
  {
  }

  /** A document written by the single-rating builder holds no `mmr_map`,
      so the per-role builder fails on it (the `max` of no ratings). */
  lemma SingleRatingDocHasNoRatings(store: Store, e: TeamBuilderV2.RosterEntry, mmr: int, rank: string)
    requires e.ign in store && store[e.ign] == RatingSeededDoc(e.ign, mmr, rank)
    ensures TeamBuilderV2.LoadEntry(store, e) == Err(TeamBuilderV2.EmptyRatings(e.ign))
  {
  }

  /** A document written by the per-role builder holds no `mmr`, so the
      single-rating builder starts its player from the rank table. */
  lemma RoleDocFallsBackToRank(store: Store, row: TeamBuilder.RosterRow, primary: string, secondary: string, ratings: map<string, int>)
    requires row.name in store && store[row.name] == RoleSeededDoc(row.name, primary, secondary, ratings)
    ensures TeamBuilder.SyncedPlayer(store, row).baseMmr == TeamBuilder.SeedRating(Upper(row.rank))
  {
  }
}
