/** The per-role team builder: every player has one rating per role, new
    players are seeded from their stated rank, and the two teams are chosen
    by trying every 5/5 split together with every role order for both teams,
    keeping the smallest rating gap whose off-role counts are equal and at
    most two. */
module TeamBuilderV2 {
  import opened Wrappers
  import opened Text
  import opened PlayerStore
  import opened Combinatorics

  /** The tier names in table order, which is also the order of their
      ratings. */
  const RANKS: seq<string> :=
    ["IRON", "BRONZE", "SILVER", "GOLD", "PLATINUM", "EMERALD", "DIAMOND", "MASTER", "GRANDMASTER", "CHALLENGER"]

  /** `RANK_MMR_DEFAULTS`: starting rating of each tier, a linear scale of
      500 per tier. */
  const RANK_MMR_DEFAULTS: map<string, int> :=
    map["IRON" := 0, "BRONZE" := 500, "SILVER" := 1000, "GOLD" := 1500, "PLATINUM" := 2000,
        "EMERALD" := 2500, "DIAMOND" := 3000, "MASTER" := 3500, "GRANDMASTER" := 4000, "CHALLENGER" := 4500]

  /** `DIVISION_OFFSET`: rating added for the division within a tier. */
  const DIVISION_OFFSET: map<string, int> := map["1" := 300, "2" := 200, "3" := 100, "4" := 0]

  /** `RANK_MMR_DEFAULTS[tier]`, None for a name the table lacks. */
  function TierDefault(tier: string): Option<int> {
    if tier in RANK_MMR_DEFAULTS then Some(RANK_MMR_DEFAULTS[tier]) else None
  }

  /** `DIVISION_OFFSET[division]`, None for a name the table lacks. */
  function DivisionOffset(division: string): Option<int> {
    if division in DIVISION_OFFSET then Some(DIVISION_OFFSET[division]) else None
  }

  const PRIMARY_PENALTY := 0
  const SECONDARY_PENALTY := -200
  const OFFROLE_PENALTY := -500

  /** A player whose best role is this far above the assigned role is
      off-role there. */
  const OFFROLE_GAP := 500

  const ROLES: seq<string> := ["Top", "Jungle", "Mid", "ADC", "Support"]

  /** Preference that the roster leaves out. It is compared like any other
      role name and matches none of ROLES. */
  const NO_PREFERENCE := "Fill"

  /** Rank assumed for a new player whom the roster gives no rank: "Silver 3". */
  const DEFAULT_RANK := "Silver" + " " + DEFAULT_DIVISION

  /** Division assumed when the rank names only a tier. */
  const DEFAULT_DIVISION := "3"

  /** The tiers from MASTER up have no divisions. */
  const MASTER_FLOOR := 3500

  /** Why building the teams stops with an error. */
  datatype BuildError =
    | EmptyRatings(player: string)       // a stored player without ratings: `max` of nothing
    | BlankRank(player: string)          // a rank with no words: `split()[0]` fails
    | WrongRosterSize(size: nat)
    | MissingRole                        // a stored rating map without an assigned role
    | NoValidAssignment

  // ---------------------------------------------------------------------
  // Players

  datatype Player = Player(name: string, primary: string, secondary: string, mmrMap: map<string, int>, bestMmr: int)

  /** Among the non-empty set of roles ks some role holds the largest
      rating. */
  lemma {:induction false} MaxRatingExists(m: map<string, int>, ks: set<string>)
    requires ks != {} && ks <= m.Keys
    ensures exists k :: k in ks && forall j :: j in ks ==> m[j] <= m[k]
    decreases |ks|
  {
    var k :| k in ks;
    if ks == {k} {
      assert forall j :: j in ks ==> m[j] <= m[k];
    } else {
      var rest := ks - {k};
      assert rest != {} by {
        var j :| j in ks && j != k;
        assert j in rest;
      }
      MaxRatingExists(m, rest);
      var b :| b in rest && forall j :: j in rest ==> m[j] <= m[b];
      if m[k] <= m[b] {
        assert forall j :: j in ks ==> m[j] <= m[b];
      } else {
        assert forall j :: j in ks ==> m[j] <= m[k];
      }
    }
  }

  /** `max(mmr_map.values())` */
  function BestMmr(m: map<string, int>): (r: int)
    requires m != map[]
    ensures r in m.Values
    ensures forall k :: k in m ==> m[k] <= r
  {
    MaxRatingExists(m, m.Keys);
    var k :| k in m && forall j :: j in m ==> m[j] <= m[k];
    m[k]
  }

  /** `Player(name, primary, secondary, mmr_map)`, which fails on an empty
      map; the caller checks that. */
  function NewPlayer(name: string, primary: string, secondary: string, m: map<string, int>): Player
    requires m != map[]
  {
    Player(name, primary, secondary, m, BestMmr(m))
  }

  /** A player as the constructor leaves it. */
  predicate WellFormed(p: Player) {
    p.mmrMap != map[] && p.bestMmr == BestMmr(p.mmrMap)
  }

  /** `is_offrole`: the rating at the role is at least 500 below the best. */
  predicate IsOffrole(p: Player, role: string)
    requires role in p.mmrMap
  {
    p.bestMmr - p.mmrMap[role] >= OFFROLE_GAP
  }

  /** Off-role means some other role of the player is rated at least 500
      higher, and a role holding the best rating is never off-role. */
  lemma OffroleIff(p: Player, role: string)
    requires WellFormed(p) && role in p.mmrMap
    ensures IsOffrole(p, role) <==> exists r :: r in p.mmrMap && p.mmrMap[r] - p.mmrMap[role] >= OFFROLE_GAP
    ensures p.mmrMap[role] == p.bestMmr ==> !IsOffrole(p, role)
  {
    var m := p.mmrMap;
    if IsOffrole(p, role) {
      var r :| r in m && m[r] == p.bestMmr;
      assert m[r] - m[role] >= OFFROLE_GAP;
    }
  }

  // ---------------------------------------------------------------------
  // Rank strings

  /** `s[i]` on a Python list: a negative index counts from the end, and an
      index outside -|s| .. |s| - 1 is an IndexError (None). */
  function PyIndex<T>(s: seq<T>, i: int): (r: Option<T>)
    ensures 0 <= i < |s| ==> r == Some(s[i])
    ensures -|s| <= i < 0 ==> r == Some(s[|s| + i])
    ensures r.None? <==> i < -|s| || |s| <= i
  {
    if 0 <= i < |s| then Some(s[i])
    else if -|s| <= i < 0 then Some(s[|s| + i])
    else None
  }

  /** The decimal text of a single digit. */
  function Digit(d: nat): (r: string)
    requires d <= 9
    ensures |r| == 1 && '0' <= r[0] <= '9'
  {
    [('0' as int + d) as char]
  }

  /** Division 1 .. 4 inside a tier below MASTER: 125-rating bands counted
      down from 4 at the bottom of the tier. */
  function DivisionOf(mmr: int): (d: nat)
    ensures 1 <= d <= 4
  {
    4 - Min((mmr % 500) / 125, 3)
  }

  /** `mmr_to_string` as written: the tier index is `mmr // 500` capped at
      the top tier, with Python's list indexing, so a negative rating wraps
      round to the top of the list. None is the IndexError it raises below
      -5000. */
  function MmrToString(mmr: int): Option<string> {
    var idx := Min(mmr / 500, |RANKS| - 1);
    if mmr >= MASTER_FLOOR then PyIndex(RANKS, idx)
    else
      match PyIndex(RANKS, idx)
      case None => None
      case Some(tier) => Some(tier + " " + Digit(DivisionOf(mmr)))
  }

  /** The tier table lists the tiers in RANKS order, 500 apart, and MASTER
      starts at MASTER_FLOOR; this is what lets the rating be turned back
      into a tier by `// 500`. */
  lemma RankFloors(tier: string)
    ensures |RANKS| == 10
    ensures forall i :: 0 <= i < |RANKS| ==> TierDefault(RANKS[i]) == Some(500 * i)
    ensures TierDefault(tier).Some? <==> tier in RANKS
    ensures TierDefault("MASTER") == Some(MASTER_FLOOR)
  {
  }

  /** Below MASTER, a non-negative rating prints as the tier whose floor is
      at most the rating, followed by the 125-wide band inside the tier
      (4 at the bottom, 1 for the top 125 and above). */
  lemma MmrToStringBelowMaster(mmr: int)
    requires 0 <= mmr < MASTER_FLOOR
    ensures var t := mmr / 500; var d := DivisionOf(mmr);
      && t < 7
      && MmrToString(mmr) == Some(RANKS[t] + " " + Digit(d))
      && TierDefault(RANKS[t]).Some?
      && TierDefault(RANKS[t]).value <= mmr < TierDefault(RANKS[t]).value + 500
      && TierDefault(RANKS[t]).value + 125 * (4 - d) <= mmr
      && (d > 1 ==> mmr < TierDefault(RANKS[t]).value + 125 * (5 - d))
  {
    RankFloors("");
  }

  /** From MASTER up the tier is printed alone, and every rating from the
      CHALLENGER floor up is CHALLENGER. */
  lemma MmrToStringFromMaster(mmr: int)
    requires mmr >= MASTER_FLOOR
    ensures 3500 <= mmr < 4000 ==> MmrToString(mmr) == Some("MASTER")
    ensures 4000 <= mmr < 4500 ==> MmrToString(mmr) == Some("GRANDMASTER")
    ensures 4500 <= mmr ==> MmrToString(mmr) == Some("CHALLENGER")
  {
  }

  /** A negative rating reads a tier counted from the top of the list: a
      rating just below zero prints as CHALLENGER. */
  lemma NegativeRatingWraps(mmr: int)
    requires mmr < 0
    ensures -5000 <= mmr ==> MmrToString(mmr) == Some(RANKS[10 + mmr / 500] + " " + Digit(DivisionOf(mmr)))
    ensures -500 <= mmr ==> MmrToString(mmr) == Some("CHALLENGER" + " " + Digit(DivisionOf(mmr)))
    ensures mmr < -5000 ==> MmrToString(mmr).None?
  {
  }

  /** `mmr_to_string` with negative ratings shown as the bottom of the
      lowest tier, as the comment "0-3 maps to divisions 4-1" and the
      ascending tier table intend. */
  function RankName(mmr: int): string {
    if mmr < 0 then RANKS[0] + " " + Digit(4)
    else if mmr >= MASTER_FLOOR then RANKS[Min(mmr / 500, |RANKS| - 1)]
    else RANKS[mmr / 500] + " " + Digit(DivisionOf(mmr))
  }

  /** Index in RANKS of the tier RankName names. */
  function TierIndex(mmr: int): (t: nat)
    ensures t < |RANKS|
  {
    if mmr < 0 then 0 else Min(mmr / 500, |RANKS| - 1)
  }

  /** The corrected function agrees with `mmr_to_string` wherever the rating
      is not negative, always names a tier, and never shows a lower rating
      in a higher tier. */
  lemma RankNameCorrected(mmr: int, other: int)
    ensures mmr >= 0 ==> MmrToString(mmr) == Some(RankName(mmr))
    ensures mmr < 0 ==> RankName(mmr) == "IRON 4"
    ensures StartsWith(RankName(mmr), RANKS[TierIndex(mmr)])
    ensures mmr <= other ==> TierIndex(mmr) <= TierIndex(other)
  {
    assert Digit(4) == "4";
  }

  /** As written the printed tier is not monotone: -1 prints as a higher
      tier than 0. */
  lemma NegativeRatingPrintsChallenger()
    ensures MmrToString(-1) == Some("CHALLENGER 1")
    ensures MmrToString(0) == Some("IRON 4")
  {
    assert DivisionOf(-1) == 1 && Digit(1) == "1";
    assert "CHALLENGER" + " " + "1" == "CHALLENGER 1";
    assert DivisionOf(0) == 4 && Digit(4) == "4";
    assert "IRON" + " " + "4" == "IRON 4";
  }

  // ---------------------------------------------------------------------
  // Seeding a new player

  /** `RANK_MMR_DEFAULTS.get(tier, RANK_MMR_DEFAULTS["SILVER"])` */
  function TierRating(tier: string): int {
    TierDefault(tier).GetOr(1000)
  }

  /** `DIVISION_OFFSET.get(division, 0)` */
  function DivisionRating(division: string): int {
    DivisionOffset(division).GetOr(0)
  }

  /** The base rating of a new player from the roster's `rank` field (None
      when the field is absent): tier value plus division offset. None is
      the IndexError of a rank with no words. */
  function SeedBase(rank: Option<string>): Option<int> {
    match rank
    case None => SeedOfRank(DEFAULT_RANK)
    case Some(text) => SeedOfRank(text)
  }

  /** The seed base of a rank string. */
  function SeedOfRank(text: string): Option<int> {
    var parts := Words(text);
    if |parts| == 0 then None
    else
      var tier := Upper(parts[0]);
      var division := if |parts| > 1 then parts[1] else DEFAULT_DIVISION;
      Some(TierRating(tier) + DivisionRating(division))
  }

  /** "Tier Division" seeds the tier's value plus the division's offset, an
      unknown tier counting as SILVER and an unknown division as 0. */
  lemma SeedOfTierDivision(tier: string, division: string)
    requires IsWord(tier) && IsWord(division)
    ensures SeedBase(Some(tier + " " + division)) == Some(TierRating(Upper(tier)) + DivisionRating(division))
  {
    TwoWords(tier, division);
    SeedOfTwoWords(tier + " " + division, tier, division);
  }

  /** The seed base of a rank of two words. */
  lemma SeedOfTwoWords(rank: string, tier: string, division: string)
    requires Words(rank) == [tier, division]
    ensures SeedBase(Some(rank)) == Some(TierRating(Upper(tier)) + DivisionRating(division))
  {
    SeedOfWords(rank, [tier, division]);
  }

  /** An unknown tier seeds SILVER's value plus the division's offset. */
  lemma SeedOfUnknownTier(tier: string, division: string)
    requires IsWord(tier) && IsWord(division) && TierDefault(Upper(tier)).None?
    ensures SeedBase(Some(tier + " " + division)) == Some(1000 + DivisionRating(division))
  {
    SeedOfTierDivision(tier, division);
    ImplicitSilver(Upper(tier));
  }

  /** A tier the table lacks counts as SILVER. */
  lemma ImplicitSilver(tier: string)
    ensures TierDefault(tier).None? ==> TierRating(tier) == 1000
  {
  }

  /** A rank naming only a tier is read as division 3. */
  lemma SeedOfTierOnly(tier: string)
    requires IsWord(tier)
    ensures SeedBase(Some(tier)) == Some(TierRating(Upper(tier)) + 100)
  {
    OneWord(tier);
    SeedOfWords(tier, [tier]);
  }

  /** The seed base of a rank whose words are known. */
  lemma SeedOfWords(rank: string, parts: seq<string>)
    requires Words(rank) == parts && |parts| > 0
    ensures SeedBase(Some(rank)) == Some(TierRating(Upper(parts[0])) + DivisionRating(if |parts| > 1 then parts[1] else DEFAULT_DIVISION))
  {
  }

  /** No rank at all is read as "Silver 3". */
  lemma SeedWithoutRank()
    ensures SeedBase(None) == Some(1100)
  {
    var tier := "Silver";
    assert Upper(tier) == [UpperChar('S')] + Upper("ilver");
    assert Upper(tier) == "SILVER";
    SeedOfTierDivision(tier, DEFAULT_DIVISION);
  }

  /** A blank rank has no tier word: the IndexError. */
  lemma SeedOfBlankRank(blank: string)
    requires forall i :: 0 <= i < |blank| ==> IsSpace(blank[i])
    ensures SeedBase(Some(blank)) == None
  {
    BlankHasNoWords(blank);
  }

  /** Every seed base lies between IRON 4 and CHALLENGER 1. */
  lemma SeedBaseBounds(rank: Option<string>)
    ensures SeedBase(rank).Some? ==> 0 <= SeedBase(rank).value <= 4800
  {
    var parts := Words(if rank.Some? then rank.value else DEFAULT_RANK);
    if |parts| > 0 {
      var division := if |parts| > 1 then parts[1] else DEFAULT_DIVISION;
      TableBounds(Upper(parts[0]), division);
    }
  }

  lemma TableBounds(tier: string, division: string)
    ensures 0 <= TierRating(tier) <= 4500 && 0 <= DivisionRating(division) <= 300
  {
  }

  /** "Gold 2" seeds GOLD's 1500 plus 200. */
  lemma GoldTwoSeeds()
    ensures SeedBase(Some("Gold" + " " + "2")) == Some(1700)
  {
    SeedOfTierDivision("Gold", "2");
    assert Upper("Gold") == "GOLD";
  }

  /** Seed and rank string do not round-trip: "Gold 2" seeds 1700, which
      prints as GOLD 3. */
  lemma GoldTwoPrintsGoldThree()
    ensures SeedBase(Some("Gold" + " " + "2")) == Some(1700)
    ensures MmrToString(1700) == Some("GOLD 3")
  {
    GoldTwoSeeds();
    assert MmrToString(1700) == Some("GOLD 3") by {
      assert DivisionOf(1700) == 3 && Digit(3) == "3";
      assert "GOLD" + " " + "3" == "GOLD 3";
    }
  }

  /** The seeding penalty of a role: the primary wins over the secondary,
      and only literal equality counts. */
  function Penalty(role: string, primary: string, secondary: string): int {
    if role == primary then PRIMARY_PENALTY
    else if role == secondary then SECONDARY_PENALTY
    else OFFROLE_PENALTY
  }

  /** The seeded rating map, as a map over the roles seeded so far. */
  function SeedMap(base: int, primary: string, secondary: string, roles: seq<string>): map<string, int>
    decreases |roles|
  {
    if |roles| == 0 then map[]
    else
      var last := roles[|roles| - 1];
      SeedMap(base, primary, secondary, roles[..|roles| - 1])[last := base + Penalty(last, primary, secondary)]
  }

  /** The seeded map holds exactly the given roles, each at its penalty. */
  lemma {:induction false} SeedMapAt(base: int, primary: string, secondary: string, roles: seq<string>)
    ensures forall r :: r in SeedMap(base, primary, secondary, roles) <==> r in roles
    ensures forall r :: r in roles ==> SeedMap(base, primary, secondary, roles)[r] == base + Penalty(r, primary, secondary)
    decreases |roles|
  {
    if |roles| > 0 {
      var init := roles[..|roles| - 1];
      SeedMapAt(base, primary, secondary, init);
      assert roles == init + [roles[|roles| - 1]];
    }
  }

  /** The `seed_mmr` loop of `load_roster`. */
  method SeedRatings(base: int, primary: string, secondary: string, roles: seq<string>)
    returns (seed: map<string, int>)
    ensures seed == SeedMap(base, primary, secondary, roles)
  {
    seed := map[];
    for i := 0 to |roles|
      invariant seed == SeedMap(base, primary, secondary, roles[..i])
    {
      var role := roles[i];
      var penalty;
      if role == primary {
        penalty := PRIMARY_PENALTY;
      } else if role == secondary {
        penalty := SECONDARY_PENALTY;
      } else {
        penalty := OFFROLE_PENALTY;
      }
      assert roles[..i + 1] == roles[..i] + [role];
      SeedMapSnoc(base, primary, secondary, roles[..i], role);
      seed := seed[role := base + penalty];
    }
    assert roles[..|roles|] == roles;
  }

  /** Seeding one more role adds that role's entry. */
  lemma SeedMapSnoc(base: int, primary: string, secondary: string, roles: seq<string>, role: string)
    ensures SeedMap(base, primary, secondary, roles + [role])
      == SeedMap(base, primary, secondary, roles)[role := base + Penalty(role, primary, secondary)]
  {
    assert (roles + [role])[..|roles|] == roles;
  }

  /** The seeded map has exactly the five roles; the primary gets the base,
      otherwise the secondary gets 200 less and every other role 500 less. */
  lemma SeedMapSpec(base: int, primary: string, secondary: string)
    ensures SeedMap(base, primary, secondary, ROLES).Keys == set r | r in ROLES
    ensures forall r :: r in ROLES ==>
      var v := SeedMap(base, primary, secondary, ROLES)[r];
      && (r == primary ==> v == base)
      && (r != primary && r == secondary ==> v == base - 200)
      && (r != primary && r != secondary ==> v == base - 500)
      && base - 500 <= v <= base
  {
    SeedMapAt(base, primary, secondary, ROLES);
  }

  /** "Fill" is no role: a player with no preferences is seeded 500 below
      the base everywhere. */
  lemma FillSeedsEverythingOffrole(base: int)
    ensures forall r :: r in ROLES ==>
      r in SeedMap(base, NO_PREFERENCE, NO_PREFERENCE, ROLES) && SeedMap(base, NO_PREFERENCE, NO_PREFERENCE, ROLES)[r] == base - 500
  {
    SeedMapAt(base, NO_PREFERENCE, NO_PREFERENCE, ROLES);
  }

  /** "Iron 4" seeds base 0. */
  lemma IronFourSeedsZero()
    ensures SeedBase(Some("Iron" + " " + "4")) == Some(0)
  {
    SeedOfTierDivision("Iron", "4");
    assert Upper("Iron") == "IRON";
  }

  /** A brand-new IRON 4 player gets base 0 and therefore -500 at a role
      that is neither preference, which prints as CHALLENGER 4. */
  lemma IronOffrolePrintsChallenger(role: string, primary: string, secondary: string)
    requires role in ROLES && role != primary && role != secondary
    ensures SeedBase(Some("Iron" + " " + "4")) == Some(0)
    ensures role in SeedMap(0, primary, secondary, ROLES) && SeedMap(0, primary, secondary, ROLES)[role] == -500
    ensures MmrToString(-500) == Some("CHALLENGER 4")
  {
    IronFourSeedsZero();
    SeedMapAt(0, primary, secondary, ROLES);
    assert DivisionOf(-500) == 4 && Digit(4) == "4";
    assert "CHALLENGER" + " " + "4" == "CHALLENGER 4";
  }

  // ---------------------------------------------------------------------
  // Loading the roster

  /** One roster row: `ign` and the optional `primary role`,
      `secondary role` and `rank` fields. */
  datatype RosterEntry = RosterEntry(ign: string, primary: Option<string>, secondary: Option<string>, rank: Option<string>)

  function PrimaryOf(e: RosterEntry): string { e.primary.GetOr(NO_PREFERENCE) }
  function SecondaryOf(e: RosterEntry): string { e.secondary.GetOr(NO_PREFERENCE) }

  lemma SeedMapNotEmpty(base: int, primary: string, secondary: string)
    ensures "Top" in SeedMap(base, primary, secondary, ROLES)
  {
    SeedMapAt(base, primary, secondary, ROLES);
    assert ROLES[0] == "Top";
  }

  /** One pass of the `load_roster` loop: a stored player keeps the stored
      ratings; a new one is seeded and written to the store. */
  function LoadEntry(store: Store, e: RosterEntry): Result<(Player, Store), BuildError> {
    var primary, secondary := PrimaryOf(e), SecondaryOf(e);
    if e.ign in store then
      var m := RatingMap(store[e.ign]);
      if m == map[] then Err(EmptyRatings(e.ign))
      else Ok((NewPlayer(e.ign, primary, secondary, m), store))
    else
      match SeedBase(e.rank)
      case None => Err(BlankRank(e.ign))
      case Some(base) =>
        var seed := SeedMap(base, primary, secondary, ROLES);
        SeedMapNotEmpty(base, primary, secondary);
        Ok((NewPlayer(e.ign, primary, secondary, seed), store[e.ign := RoleSeededDoc(e.ign, primary, secondary, seed)]))
  }

  /** The players loaded so far (or the error that ended the loop) and the
      store as it stands. */
  type LoadState = (Result<seq<Player>, BuildError>, Store)

  /** The players and the store after the first n roster rows. The first
      failure ends the loop; documents written before it stay written. */
  function LoadPrefix(store: Store, roster: seq<RosterEntry>, n: nat): LoadState
    requires n <= |roster|
  {
    if n == 0 then (Ok([]), store)
    else
      var prev := LoadPrefix(store, roster, n - 1);
      if prev.0.Err? then prev
      else
        var step := LoadEntry(prev.1, roster[n - 1]);
        if step.Err? then (Err(step.error), prev.1)
        else (Ok(prev.0.value + [step.value.0]), step.value.1)
  }

  /** One pass of the `load_roster` loop, on the store as it stands. */
  method LoadOne(store: Store, e: RosterEntry) returns (r: Result<(Player, Store), BuildError>)
    ensures r == LoadEntry(store, e)
  {
    var primary, secondary := PrimaryOf(e), SecondaryOf(e);
    if e.ign in store {
      var m := RatingMap(store[e.ign]);
      if m == map[] {
        return Err(EmptyRatings(e.ign));
      }
      r := Ok((NewPlayer(e.ign, primary, secondary, m), store));
    } else {
      var base := SeedBase(e.rank);
      if base.None? {
        return Err(BlankRank(e.ign));
      }
      var seed := SeedRatings(base.value, primary, secondary, ROLES);
      SeedMapNotEmpty(base.value, primary, secondary);
      r := Ok((NewPlayer(e.ign, primary, secondary, seed), store[e.ign := RoleSeededDoc(e.ign, primary, secondary, seed)]));
    }
  }

  /** `load_roster` */
  method LoadRoster(store: Store, roster: seq<RosterEntry>) returns (r: Result<seq<Player>, BuildError>, newStore: Store)
    ensures (r, newStore) == LoadPrefix(store, roster, |roster|)
  {
    var players: seq<Player> := [];
    newStore := store;
    for i := 0 to |roster|
      invariant LoadPrefix(store, roster, i) == (Ok(players), newStore)
    {
      var failed;
      failed, players, newStore := LoadRow(store, roster, i, players, newStore);
      if failed.Some? {
        r := Err(failed.value);
        return;
      }
    }
    r := Ok(players);
  }

  /** Row i of the `load_roster` loop: the error that ends the whole load, or the
      players and store with row i loaded. */
  method LoadRow(store: Store, roster: seq<RosterEntry>, i: nat, players: seq<Player>, current: Store)
    returns (failed: Option<BuildError>, newPlayers: seq<Player>, newStore: Store)
    requires i < |roster| && LoadPrefix(store, roster, i) == (Ok(players), current)
    ensures failed.Some? ==> LoadPrefix(store, roster, |roster|) == (Err(failed.value), newStore)
    ensures failed.None? ==> LoadPrefix(store, roster, i + 1) == (Ok(newPlayers), newStore)
  {
    var step := LoadOne(current, roster[i]);
    LoadPrefixNext(store, roster, i);
    newPlayers, newStore := players, current;
    if step.Err? {
      failed := Some(step.error);
      LoadErrorSticks(store, roster, i + 1);
      return;
    }
    failed := None;
    newPlayers := players + [step.value.0];
    newStore := step.value.1;
  }

  /** One more row, after rows that all loaded. */
  lemma LoadPrefixNext(store: Store, roster: seq<RosterEntry>, i: nat)
    requires i < |roster| && LoadPrefix(store, roster, i).0.Ok?
    ensures var prev := LoadPrefix(store, roster, i);
      var step := LoadEntry(prev.1, roster[i]);
      LoadPrefix(store, roster, i + 1) ==
        if step.Err? then (Err(step.error), prev.1) else (Ok(prev.0.value + [step.value.0]), step.value.1)
  {
  }

  /** Once a row fails, the rest of the roster changes nothing. */
  lemma {:induction false} LoadErrorSticks(store: Store, roster: seq<RosterEntry>, n: nat)
    requires n <= |roster| && LoadPrefix(store, roster, n).0.Err?
    ensures LoadPrefix(store, roster, |roster|) == LoadPrefix(store, roster, n)
  {
    var chain := LoadStates(store, roster);
    ErrorChain(chain, n, |roster|);
  }

  /** A row after a failure changes nothing. */
  lemma LoadErrorStep(store: Store, roster: seq<RosterEntry>, i: nat, before: LoadState, after: LoadState)
    requires i < |roster|
    requires before == LoadPrefix(store, roster, i) && after == LoadPrefix(store, roster, i + 1)
    requires before.0.Err?
    ensures after == before
  {
  }

  /** States that stay put after an error are all equal from the first
      error on. */
  lemma {:induction false} ErrorChain(chain: seq<LoadState>, n: nat, m: nat)
    requires n <= m < |chain| && chain[n].0.Err?
    requires forall i :: 0 <= i < |chain| - 1 && chain[i].0.Err? ==> chain[i + 1] == chain[i]
    ensures chain[m] == chain[n]
    decreases m
  {
    if n < m {
      ErrorChain(chain, n, m - 1);
    }
  }

  /** A finished load got through every earlier prefix as well. */
  lemma {:induction false} LoadOkPrefix(store: Store, roster: seq<RosterEntry>, n: nat)
    requires n <= |roster| && LoadPrefix(store, roster, |roster|).0.Ok?
    ensures LoadPrefix(store, roster, n).0.Ok?
  {
    if LoadPrefix(store, roster, n).0.Err? {
      LoadErrorSticks(store, roster, n);
    }
  }

  /** One row never rewrites a stored document and adds at most its own. */
  lemma EntryKeepsStore(store: Store, e: RosterEntry)
    requires LoadEntry(store, e).Ok?
    ensures var p, s := LoadEntry(store, e).value.0, LoadEntry(store, e).value.1;
      && store.Keys <= s.Keys <= store.Keys + {e.ign}
      && (forall k :: k in store ==> s[k] == store[k])
      && e.ign in s
      && p.name == e.ign && p.primary == PrimaryOf(e) && p.secondary == SecondaryOf(e)
      && WellFormed(p)
      && p.mmrMap == RatingMap(s[e.ign])
  {
  }

  /** The documents after n rows: every stored one unchanged, the others
      named in the first n rows. */
  lemma {:induction false} LoadKeepsStore(store: Store, roster: seq<RosterEntry>, n: nat)
    requires n <= |roster|
    ensures var s := LoadPrefix(store, roster, n).1;
      && (forall k :: k in store ==> k in s && s[k] == store[k])
      && (forall k :: k in s ==> k in store || exists j :: 0 <= j < n && roster[j].ign == k)
  {
    LoadMonotone(store, roster, 0, n);
    LoadNamesNew(store, roster, n);
  }

  /** A document the first n rows add belongs to one of their names. */
  lemma {:induction false} LoadNamesNew(store: Store, roster: seq<RosterEntry>, n: nat)
    requires n <= |roster|
    ensures forall k :: k in LoadPrefix(store, roster, n).1 ==>
      k in store || exists j :: 0 <= j < n && roster[j].ign == k
  {
    if n > 0 {
      LoadNamesNew(store, roster, n - 1);
      LoadStepAdds(store, roster, n - 1);
      forall k | k in LoadPrefix(store, roster, n).1 && k !in store
        ensures exists j :: 0 <= j < n && roster[j].ign == k
      {
        if k == roster[n - 1].ign {
          assert roster[n - 1].ign == k;
        }
      }
    }
  }

  /** `later` holds every document of `earlier`, unchanged. */
  ghost predicate Extends(earlier: Store, later: Store) {
    forall k :: k in earlier ==> k in later && later[k] == earlier[k]
  }

  lemma ExtendsTransitive(a: Store, b: Store, c: Store)
    requires Extends(a, b) && Extends(b, c)
    ensures Extends(a, c)
  {
  }

  /** One more row adds at most the row's own document. */
  lemma LoadStepAdds(store: Store, roster: seq<RosterEntry>, i: nat)
    requires i < |roster|
    ensures forall k :: k in LoadPrefix(store, roster, i + 1).1 ==>
      k in LoadPrefix(store, roster, i).1 || k == roster[i].ign
  {
    var prev := LoadPrefix(store, roster, i);
    if prev.0.Ok? && LoadEntry(prev.1, roster[i]).Ok? {
      EntryKeepsStore(prev.1, roster[i]);
    }
  }

  /** Later rows never rewrite a document written by earlier ones. */
  lemma {:induction false} LoadMonotone(store: Store, roster: seq<RosterEntry>, n: nat, m: nat)
    requires n <= m <= |roster|
    ensures Extends(LoadPrefix(store, roster, n).1, LoadPrefix(store, roster, m).1)
  {
    var chain := LoadStates(store, roster);
    ExtendsChain(chain, n, m);
  }

  /** The state after each prefix of the roster: each store extends the one
      before, and a failed state stays as it is. */
  lemma LoadStates(store: Store, roster: seq<RosterEntry>) returns (chain: seq<LoadState>)
    ensures |chain| == |roster| + 1
    ensures forall i :: 0 <= i <= |roster| ==> chain[i] == LoadPrefix(store, roster, i)
    ensures forall i :: 0 <= i < |chain| - 1 ==> Extends(chain[i].1, chain[i + 1].1)
    ensures forall i :: 0 <= i < |chain| - 1 && chain[i].0.Err? ==> chain[i + 1] == chain[i]
  {
    chain := seq(|roster| + 1, i requires 0 <= i <= |roster| => LoadPrefix(store, roster, i));
    forall i | 0 <= i < |chain| - 1 ensures Extends(chain[i].1, chain[i + 1].1) {
      LoadStepKeeps(store, roster, i, chain[i].1, chain[i + 1].1);
    }
    forall i | 0 <= i < |chain| - 1 && chain[i].0.Err? ensures chain[i + 1] == chain[i] {
      LoadErrorStep(store, roster, i, chain[i], chain[i + 1]);
    }
  }

  /** One more row keeps every document. */
  lemma LoadStepKeeps(store: Store, roster: seq<RosterEntry>, i: nat, before: Store, after: Store)
    requires i < |roster|
    requires before == LoadPrefix(store, roster, i).1 && after == LoadPrefix(store, roster, i + 1).1
    ensures Extends(before, after)
  {
    var prev := LoadPrefix(store, roster, i);
    if prev.0.Ok? && LoadEntry(prev.1, roster[i]).Ok? {
      EntryKeepsStore(prev.1, roster[i]);
    }
  }

  /** Stores that each extend the one before extend every earlier one. */
  lemma {:induction false} ExtendsChain(chain: seq<LoadState>, n: nat, m: nat)
    requires n <= m < |chain|
    requires forall i :: 0 <= i < |chain| - 1 ==> Extends(chain[i].1, chain[i + 1].1)
    ensures Extends(chain[n].1, chain[m].1)
    decreases m - n
  {
    if n < m {
      ExtendsChain(chain, n, m - 1);
      ExtendsTransitive(chain[n].1, chain[m - 1].1, chain[m].1);
    }
  }

  /** After n successful rows there is one player per row, in roster order,
      each holding the rating map its document now holds. */
  lemma {:induction false} LoadPlayers(store: Store, roster: seq<RosterEntry>, n: nat)
    requires n <= |roster|
    ensures var r, s := LoadPrefix(store, roster, n).0, LoadPrefix(store, roster, n).1;
      r.Ok? ==>
        && |r.value| == n
        && forall i :: 0 <= i < n ==>
          var p, e := r.value[i], roster[i];
          && p.name == e.ign && p.primary == PrimaryOf(e) && p.secondary == SecondaryOf(e)
          && WellFormed(p)
          && e.ign in s && p.mmrMap == RatingMap(s[e.ign])
  {
    if n > 0 {
      LoadPlayers(store, roster, n - 1);
      var prev := LoadPrefix(store, roster, n - 1);
      if prev.0.Ok? && LoadEntry(prev.1, roster[n - 1]).Ok? {
        var step := LoadEntry(prev.1, roster[n - 1]).value;
        EntryKeepsStore(prev.1, roster[n - 1]);
        var r := LoadPrefix(store, roster, n).0.value;
        assert r == prev.0.value + [step.0];
        forall i | 0 <= i < n - 1
          ensures roster[i].ign in step.1 && r[i].mmrMap == RatingMap(step.1[roster[i].ign])
        {
          assert r[i] == prev.0.value[i];
        }
      }
    }
  }

  /** What `load_roster` promises: players in roster order; a stored player
      keeps the stored ratings and document; a new player (the first row with
      that name) is seeded from the rank and stored. */
  lemma LoadRosterSpec(store: Store, roster: seq<RosterEntry>)
    ensures var r, s := LoadPrefix(store, roster, |roster|).0, LoadPrefix(store, roster, |roster|).1;
      && (forall k :: k in store ==> k in s && s[k] == store[k])
      && (forall k :: k in s ==> k in store || exists j :: 0 <= j < |roster| && roster[j].ign == k)
      && (r.Ok? ==>
        && |r.value| == |roster|
        && (forall i :: 0 <= i < |roster| ==> r.value[i].name == roster[i].ign && WellFormed(r.value[i]))
        && (forall i :: 0 <= i < |roster| && roster[i].ign in store ==>
              r.value[i].mmrMap == RatingMap(store[roster[i].ign])))
  {
    LoadKeepsStore(store, roster, |roster|);
    LoadPlayers(store, roster, |roster|);
  }

  /** A name that is new to the store is seeded at its first row: its
      ratings and its new document hold the seed map of that row. */
  lemma NewPlayerSeeded(store: Store, roster: seq<RosterEntry>, i: nat)
    requires i < |roster| && roster[i].ign !in store
    requires forall j :: 0 <= j < i ==> roster[j].ign != roster[i].ign
    requires LoadPrefix(store, roster, |roster|).0.Ok?
    ensures var (r, s) := LoadPrefix(store, roster, |roster|); var e := roster[i];
      && SeedBase(e.rank).Some?
      && var seed := SeedMap(SeedBase(e.rank).value, PrimaryOf(e), SecondaryOf(e), ROLES);
      && i < |r.value| && r.value[i].mmrMap == seed
      && e.ign in s && s[e.ign] == RoleSeededDoc(e.ign, PrimaryOf(e), SecondaryOf(e), seed)
  {
    var e := roster[i];
    LoadOkPrefix(store, roster, i + 1);
    LoadOkPrefix(store, roster, i);
    LoadKeepsStore(store, roster, i);
    var si := LoadPrefix(store, roster, i).1;
    assert e.ign !in si;
    assert LoadEntry(si, e).Ok?;
    var base := SeedBase(e.rank).value;
    var seed := SeedMap(base, PrimaryOf(e), SecondaryOf(e), ROLES);
    var doc := RoleSeededDoc(e.ign, PrimaryOf(e), SecondaryOf(e), seed);
    assert LoadPrefix(store, roster, i + 1).1 == si[e.ign := doc];
    LoadMonotone(store, roster, i + 1, |roster|);
    var (r, s) := LoadPrefix(store, roster, |roster|);
    assert s[e.ign] == doc;
    LoadPlayers(store, roster, |roster|);
    assert r.value[i].mmrMap == RatingMap(s[e.ign]);
  }

  // ---------------------------------------------------------------------
  // The search space

  lemma SearchSpaceSizes(n: nat, roles: seq<string>)
    requires n == 10 && |roles| == 5
    ensures |Splits(n)| == 252 && |Permutations(roles)| == 120
  {
    SplitCount(n);
    FivePermutations(roles);
  }

  /** `combinations(range(10), 5)` has 252 elements. */
  lemma SplitCount(n: nat)
    requires n == 10
    ensures |Splits(n)| == 252
  {
    TenChooseFive();
  }

  /** One tuple of `generate_team_assignments`: team 1 plays roles1[i] for
      its i-th player, team 2 likewise. */
  datatype Assignment = Assignment(team1: seq<Player>, roles1: seq<string>, team2: seq<Player>, roles2: seq<string>)

  /** `[players[i] for i in team1_indices]` */
  function TeamOne(players: seq<Player>, c: seq<nat>): seq<Player>
    requires Below(c, |players|)
  {
    Pick(players, c)
  }

  /** `[players[i] for i in range(10) if i not in team1_indices]` */
  function TeamTwo(players: seq<Player>, c: seq<nat>): seq<Player>
    requires |players| == 10
  {
    Pick(players, Complement(c, 0, |players|))
  }

  /** Every split is an increasing choice of five of the n indices; the
      rest are team 2's five. */
  lemma SplitsBelow(n: nat)
    requires n == 10
    ensures forall ci :: 0 <= ci < |Splits(n)| ==> Below(Splits(n)[ci], n)
  {
    forall ci | 0 <= ci < |Splits(n)| ensures Below(Splits(n)[ci], n) {
      TeamSplit(Splits(n)[ci], n, 5);
    }
  }

  /** For each role order a of team 1, the row of tuples pairing it with
      every role order of team 2. */
  function Rows(team1: seq<Player>, team2: seq<Player>, orders: seq<seq<string>>): (r: seq<seq<Assignment>>)
    ensures |r| == |orders|
    ensures forall a :: 0 <= a < |orders| ==> |r[a]| == |orders|
    ensures forall a, b :: 0 <= a < |orders| && 0 <= b < |orders| ==> r[a][b] == Assignment(team1, orders[a], team2, orders[b])
  {
    seq(|orders|, a requires 0 <= a < |orders| =>
      seq(|orders|, b requires 0 <= b < |orders| => Assignment(team1, orders[a], team2, orders[b])))
  }

  /** The tuples for one split: every role order of team 1, and inside it
      every role order of team 2. */
  function SplitBlock(team1: seq<Player>, team2: seq<Player>, orders: seq<seq<string>>): seq<Assignment> {
    Flatten(Rows(team1, team2, orders))
  }

  /** The block of every split in `splits`, in order. */
  function BlockList(players: seq<Player>, splits: seq<seq<nat>>, orders: seq<seq<string>>): (r: seq<seq<Assignment>>)
    requires |players| == 10 && forall ci :: 0 <= ci < |splits| ==> Below(splits[ci], |players|)
    ensures |r| == |splits|
    ensures forall ci :: 0 <= ci < |splits| ==> r[ci] == SplitBlock(TeamOne(players, splits[ci]), TeamTwo(players, splits[ci]), orders)
  {
    seq(|splits|, ci requires 0 <= ci < |splits| =>
      SplitBlock(TeamOne(players, splits[ci]), TeamTwo(players, splits[ci]), orders))
  }

  /** `generate_team_assignments(players)`, in the order it yields: the
      blocks of all the splits, one after another. */
  function Assignments(players: seq<Player>, roles: seq<string>): seq<Assignment>
    requires |players| == 10
  {
    SplitsBelow(|players|);
    Flatten(BlockList(players, Splits(|players|), Permutations(roles)))
  }

  lemma SplitBlockAt(team1: seq<Player>, team2: seq<Player>, orders: seq<seq<string>>, a: nat, b: nat)
    requires |orders| == 120 && a < 120 && b < 120
    ensures && |SplitBlock(team1, team2, orders)| == 14400
            && SplitBlock(team1, team2, orders)[a * 120 + b] == Assignment(team1, orders[a], team2, orders[b])
  {
    FlattenLength(Rows(team1, team2, orders), 120);
    FlattenAt(Rows(team1, team2, orders), 120, a, b);
  }

  /** Every split's block holds 120 * 120 tuples. */
  lemma BlockListUniform(players: seq<Player>, splits: seq<seq<nat>>, orders: seq<seq<string>>)
    requires |players| == 10 && forall i :: 0 <= i < |splits| ==> Below(splits[i], |players|)
    requires |orders| == 120
    ensures forall i :: 0 <= i < |splits| ==> |BlockList(players, splits, orders)[i]| == 14400
  {
    var blocks := BlockList(players, splits, orders);
    forall i | 0 <= i < |blocks| ensures |blocks[i]| == 14400 {
      SplitBlockAt(TeamOne(players, splits[i]), TeamTwo(players, splits[i]), orders, 0, 0);
    }
  }

  /** Where the tuple for split ci, team-1 order a and team-2 order b
      sits. */
  function Position(ci: nat, a: nat, b: nat): (k: nat)
    requires ci < 252 && a < 120 && b < 120
    ensures k < 3628800
  {
    assert a * 120 <= 119 * 120 && ci * 14400 <= 251 * 14400;
    ci * 14400 + a * 120 + b
  }

  lemma BlocksAt(players: seq<Player>, splits: seq<seq<nat>>, orders: seq<seq<string>>, ci: nat, a: nat, b: nat)
    requires |players| == 10 && forall i :: 0 <= i < |splits| ==> Below(splits[i], |players|)
    requires |splits| == 252 && |orders| == 120 && ci < 252 && a < 120 && b < 120
    ensures && |Flatten(BlockList(players, splits, orders))| == 3628800
            && Flatten(BlockList(players, splits, orders))[Position(ci, a, b)]
               == Assignment(TeamOne(players, splits[ci]), orders[a], TeamTwo(players, splits[ci]), orders[b])
  {
    var blocks := BlockList(players, splits, orders);
    BlockListUniform(players, splits, orders);
    FlattenLength(blocks, 14400);
    FlattenAtIndex(blocks, 14400, ci, a * 120 + b, Position(ci, a, b));
    SplitBlockAt(TeamOne(players, splits[ci]), TeamTwo(players, splits[ci]), orders, a, b);
  }

  /** There are 252 * 120 * 120 tuples, and the tuple for split ci, team-1
      order a and team-2 order b sits at ci * 14400 + a * 120 + b: splits
      outermost, team 2's order innermost. */
  lemma AssignmentAt(players: seq<Player>, roles: seq<string>, ci: nat, a: nat, b: nat)
    requires |players| == 10 && |Permutations(roles)| == 120 && ci < 252 && a < 120 && b < 120
    ensures && |Splits(|players|)| == 252
            && Below(Splits(|players|)[ci], |players|)
            && |Assignments(players, roles)| == 3628800
            && Position(ci, a, b) < |Assignments(players, roles)|
            && Assignments(players, roles)[Position(ci, a, b)]
               == Assignment(TeamOne(players, Splits(|players|)[ci]), Permutations(roles)[a], TeamTwo(players, Splits(|players|)[ci]), Permutations(roles)[b])
  {
    var splits, orders := Splits(|players|), Permutations(roles);
    SplitCount(|players|);
    SplitsBelow(|players|);
    assert Assignments(players, roles) == Flatten(BlockList(players, splits, orders));
    BlocksAt(players, splits, orders, ci, a, b);
  }

  /** Every tuple splits the ten players into two teams of five along a
      partition of the indices 0 .. 9, and gives each team an ordering of
      the role list (any list of five roles has the 120 orderings asked
      for, FivePermutations). */
  lemma AssignmentShape(players: seq<Player>, roles: seq<string>, k: nat)
    requires |players| == 10 && |Permutations(roles)| == 120 && k < 3628800
    ensures && k < |Assignments(players, roles)|
            && var t := Assignments(players, roles)[k];
      && IsPermutationOf(t.roles1, roles) && IsPermutationOf(t.roles2, roles)
      && (exists c :: c in Splits(|players|) && SplitAlong(players, c, t))
  {
    var c, order1, order2 := TupleAt(players, roles, k);
    SplitAlongSplit(players, c, Assignments(players, roles)[k]);
    PermutationsArePermutations(roles, order1);
    PermutationsArePermutations(roles, order2);
  }

  /** Tuple k is made of some split and two role orders. */
  lemma TupleAt(players: seq<Player>, roles: seq<string>, k: nat) returns (c: seq<nat>, order1: seq<string>, order2: seq<string>)
    requires |players| == 10 && |Permutations(roles)| == 120 && k < 3628800
    ensures && c in Splits(|players|) && Below(c, |players|)
            && order1 in Permutations(roles) && order2 in Permutations(roles)
            && k < |Assignments(players, roles)|
            && Assignments(players, roles)[k] == Assignment(TeamOne(players, c), order1, TeamTwo(players, c), order2)
  {
    var ci, a, b := PositionOf(k);
    AssignmentAt(players, roles, ci, a, b);
    c, order1, order2 := Splits(|players|)[ci], Permutations(roles)[a], Permutations(roles)[b];
  }

  /** A split picks five of the n indices and leaves the other n - 5. */
  lemma SplitFacts(n: nat, c: seq<nat>)
    requires c in Splits(n)
    ensures Below(c, n) && |c| == 5 && |Complement(c, 0, n)| == n - 5
    ensures Partitions(c, n)
  {
    TeamSplit(c, n, 5);
  }

  /** Every index below n is in exactly one of c and its complement. */
  ghost predicate Partitions(c: seq<nat>, n: nat) {
    forall x: nat :: x < n ==> (x in c <==> x !in Complement(c, 0, n))
  }

  /** A tuple built from split c runs along it. */
  lemma SplitAlongSplit(players: seq<Player>, c: seq<nat>, t: Assignment)
    requires |players| == 10 && c in Splits(|players|) && Below(c, |players|)
    requires t.team1 == TeamOne(players, c) && t.team2 == TeamTwo(players, c)
    ensures SplitAlong(players, c, t)
  {
    SplitFacts(|players|, c);
  }

  /** Tuple t puts the five players c picks in team 1 and the other five,
      in index order, in team 2: every player index is in exactly one team. */
  ghost predicate SplitAlong(players: seq<Player>, c: seq<nat>, t: Assignment) {
    && Below(c, |players|) && |c| == 5 && |Complement(c, 0, |players|)| == 5
    && Partitions(c, |players|)
    && t.team1 == Pick(players, c) && t.team2 == Pick(players, Complement(c, 0, |players|))
  }

  /** The split, team-1 order and team-2 order of position k. */
  lemma PositionOf(k: nat) returns (ci: nat, a: nat, b: nat)
    requires k < 3628800
    ensures ci < 252 && a < 120 && b < 120 && k == Position(ci, a, b)
  {
    ci, a, b := k / 14400, (k % 14400) / 120, k % 120;
    assert k % 14400 == a * 120 + b;
  }

  // ---------------------------------------------------------------------
  // Evaluating one tuple

  /** A team's running sums in `evaluate_assignment`: its total rating and
      how many of its players are off their role. */
  datatype Tally = Tally(total: int, offroles: nat)

  /** The loop over the first n pairs of `zip(team, roles)`. None once a
      player's map lacks the assigned role: Python's `mmr_map[role]` raises
      KeyError there. */
  function TallyOf(team: seq<Player>, roles: seq<string>, n: nat): Option<Tally>
    requires n <= |team| && n <= |roles|
  {
    if n == 0 then Some(Tally(0, 0))
    else
      match TallyOf(team, roles, n - 1)
      case None => None
      case Some(t) =>
        var p, role := team[n - 1], roles[n - 1];
        if role !in p.mmrMap then None
        else Some(Tally(t.total + p.mmrMap[role], t.offroles + if IsOffrole(p, role) then 1 else 0))
  }

  /** The positions among the first n pairs whose player is off-role. */
  function Offroles(team: seq<Player>, roles: seq<string>, n: nat): set<nat>
    requires n <= |team| && n <= |roles|
  {
    set i: nat | i < n && roles[i] in team[i].mmrMap && IsOffrole(team[i], roles[i])
  }

  /** The loop fails exactly when some pair's role is missing from its
      player's map. */
  lemma {:induction false} TallyMissingIff(team: seq<Player>, roles: seq<string>, n: nat)
    requires n <= |team| && n <= |roles|
    ensures TallyOf(team, roles, n).None? <==> exists i :: 0 <= i < n && roles[i] !in team[i].mmrMap
  {
    if n > 0 {
      TallyMissingIff(team, roles, n - 1);
      if roles[n - 1] !in team[n - 1].mmrMap {
        assert exists i :: 0 <= i < n && roles[i] !in team[i].mmrMap;
      }
    }
  }

  /** The off-role counter counts exactly the off-role players, so it never
      exceeds the number of pairs. */
  lemma {:induction false} TallyCounts(team: seq<Player>, roles: seq<string>, n: nat)
    requires n <= |team| && n <= |roles| && TallyOf(team, roles, n).Some?
    ensures TallyOf(team, roles, n).value.offroles == |Offroles(team, roles, n)| <= n
  {
    if n > 0 {
      TallyCounts(team, roles, n - 1);
      OffrolesStep(team, roles, n);
    } else {
      assert Offroles(team, roles, 0) == {};
    }
  }

  /** One more pair adds its position to the off-role set exactly when its
      player is off-role there. */
  lemma OffrolesStep(team: seq<Player>, roles: seq<string>, n: nat)
    requires 0 < n <= |team| && n <= |roles| && roles[n - 1] in team[n - 1].mmrMap
    ensures var prev, off := Offroles(team, roles, n - 1), IsOffrole(team[n - 1], roles[n - 1]);
      && n - 1 !in prev
      && Offroles(team, roles, n) == if off then prev + {n - 1} else prev
  {
  }

  /** A team whose every player plays a role holding their best rating has
      nobody off-role. */
  lemma OnRoleTeam(team: seq<Player>, roles: seq<string>, n: nat)
    requires n <= |team| && n <= |roles|
    requires forall i :: 0 <= i < n ==> WellFormed(team[i]) && roles[i] in team[i].mmrMap && team[i].mmrMap[roles[i]] == team[i].bestMmr
    ensures TallyOf(team, roles, n).Some? && TallyOf(team, roles, n).value.offroles == 0
  {
    TallyMissingIff(team, roles, n);
    TallyCounts(team, roles, n);
    forall i | 0 <= i < n ensures !IsOffrole(team[i], roles[i]) {
      OffroleIff(team[i], roles[i]);
    }
    assert Offroles(team, roles, n) == {};
  }

  /** One team's loop: `zip` stops at the shorter of the two. */
  function TeamTally(team: seq<Player>, roles: seq<string>): Option<Tally> {
    TallyOf(team, roles, Min(|team|, |roles|))
  }

  /** What `evaluate_assignment` returns: Invalid for `(False, inf, 0, 0)`. */
  datatype Evaluation = Invalid | Valid(delta: nat, total1: int, total2: int)

  /** `evaluate_assignment`; None when it raises KeyError. */
  function Evaluate(a: Assignment): Option<Evaluation> {
    match (TeamTally(a.team1, a.roles1), TeamTally(a.team2, a.roles2))
    case (Some(t1), Some(t2)) =>
      if t1.offroles > 2 || t2.offroles > 2 then Some(Invalid)
      else if t1.offroles != t2.offroles then Some(Invalid)
      else Some(Valid(Abs(t1.total - t2.total), t1.total, t2.total))
    case _ => None
  }

  /** The loop of one team in `evaluate_assignment`. */
  method TallyTeam(team: seq<Player>, roles: seq<string>) returns (r: Option<Tally>)
    ensures r == TeamTally(team, roles)
  {
    var n := Min(|team|, |roles|);
    var total, offroles := 0, 0;
    for i := 0 to n
      invariant TallyOf(team, roles, i) == Some(Tally(total, offroles))
    {
      var p, role := team[i], roles[i];
      if role !in p.mmrMap {
        TallyMissingIff(team, roles, n);
        return None;
      }
      total := total + p.mmrMap[role];
      if IsOffrole(p, role) {
        offroles := offroles + 1;
      }
    }
    r := Some(Tally(total, offroles));
  }

  method EvaluateAssignment(a: Assignment) returns (r: Option<Evaluation>)
    ensures r == Evaluate(a)
  {
    var t1 := TallyTeam(a.team1, a.roles1);
    if t1.None? {
      return None;
    }
    var t2 := TallyTeam(a.team2, a.roles2);
    if t2.None? {
      return None;
    }
    var o1, o2 := t1.value.offroles, t2.value.offroles;
    if o1 > 2 || o2 > 2 {
      return Some(Invalid);
    }
    if o1 != o2 {
      return Some(Invalid);
    }
    r := Some(Valid(Abs(t1.value.total - t2.value.total), t1.value.total, t2.value.total));
  }

  /** The verdict in terms of the players: no verdict when a role is
      missing; otherwise valid exactly when both teams have the same number
      of off-role players and at most two, and then the gap is the
      difference of the teams' totals. */
  lemma EvaluateSpec(a: Assignment)
    ensures var n1, n2 := Min(|a.team1|, |a.roles1|), Min(|a.team2|, |a.roles2|);
      && (Evaluate(a).None? <==>
            ((exists i :: 0 <= i < n1 && a.roles1[i] !in a.team1[i].mmrMap)
             || (exists i :: 0 <= i < n2 && a.roles2[i] !in a.team2[i].mmrMap)))
      && (Evaluate(a).Some? ==>
            && (Evaluate(a).value.Valid? <==>
                 |Offroles(a.team1, a.roles1, n1)| == |Offroles(a.team2, a.roles2, n2)| <= 2)
            && (Evaluate(a).value.Valid? ==>
                 var e := Evaluate(a).value;
                 && e.total1 == TeamTally(a.team1, a.roles1).value.total
                 && e.total2 == TeamTally(a.team2, a.roles2).value.total
                 && e.delta == Abs(e.total1 - e.total2)))
  {
    var n1, n2 := Min(|a.team1|, |a.roles1|), Min(|a.team2|, |a.roles2|);
    TallyMissingIff(a.team1, a.roles1, n1);
    TallyMissingIff(a.team2, a.roles2, n2);
    if TeamTally(a.team1, a.roles1).Some? && TeamTally(a.team2, a.roles2).Some? {
      TallyCounts(a.team1, a.roles1, n1);
      TallyCounts(a.team2, a.roles2, n2);
    }
  }

  /** Swapping the two teams changes no verdict and no gap; only the totals
      change places. */
  lemma EvaluateSwap(a: Assignment)
    ensures var b := Assignment(a.team2, a.roles2, a.team1, a.roles1);
      && (Evaluate(a).None? <==> Evaluate(b).None?)
      && (Evaluate(a) == Some(Invalid) <==> Evaluate(b) == Some(Invalid))
      && (Evaluate(a).Some? && Evaluate(a).value.Valid? ==>
            Evaluate(b) == Some(Valid(Evaluate(a).value.delta, Evaluate(a).value.total2, Evaluate(a).value.total1)))
  {
  }

  /** Two teams with everybody on a best role are always a valid split. */
  lemma OnRoleIsValid(a: Assignment)
    requires |a.team1| == |a.roles1| && |a.team2| == |a.roles2|
    requires forall i :: 0 <= i < |a.team1| ==> WellFormed(a.team1[i]) && a.roles1[i] in a.team1[i].mmrMap && a.team1[i].mmrMap[a.roles1[i]] == a.team1[i].bestMmr
    requires forall i :: 0 <= i < |a.team2| ==> WellFormed(a.team2[i]) && a.roles2[i] in a.team2[i].mmrMap && a.team2[i].mmrMap[a.roles2[i]] == a.team2[i].bestMmr
    ensures Evaluate(a).Some? && Evaluate(a).value.Valid?
  {
    OnRoleTeam(a.team1, a.roles1, |a.team1|);
    OnRoleTeam(a.team2, a.roles2, |a.team2|);
  }

  // ---------------------------------------------------------------------
  // The search

  /** What `find_best_teams` keeps for the best tuple so far. */
  datatype Best = Best(assignment: Assignment, delta: nat, total1: int, total2: int)

  /** A tuple as a candidate: present exactly when it is valid. */
  function Candidate(a: Assignment): (r: Option<Best>)
    ensures r.Some? <==> Evaluate(a).Some? && Evaluate(a).value.Valid?
    ensures r.Some? ==> r.value.assignment == a && r.value.delta == Evaluate(a).value.delta
  {
    match Evaluate(a)
    case Some(Valid(d, t1, t2)) => Some(Best(a, d, t1, t2))
    case _ => None
  }

  /** `find_best_teams` after the first n tuples: the first tuple with no
      verdict raises; a valid tuple replaces the best so far only when its
      gap is strictly smaller. */
  function Scan(all: seq<Assignment>, n: nat): Result<Option<Best>, BuildError>
    requires n <= |all|
  {
    if n == 0 then Ok(None)
    else
      match Scan(all, n - 1)
      case Err(e) => Err(e)
      case Ok(best) =>
        if Evaluate(all[n - 1]).None? then Err(MissingRole)
        else
          match Candidate(all[n - 1])
          case None => Ok(best)
          case Some(c) => if best.None? || c.delta < best.value.delta then Ok(Some(c)) else Ok(best)
  }

  /** Tuple k is the first of the first n tuples with the smallest gap. */
  predicate FirstBest(all: seq<Assignment>, n: nat, k: nat)
    requires n <= |all|
  {
    && k < n && Candidate(all[k]).Some?
    && (forall j :: 0 <= j < n && Candidate(all[j]).Some? ==> Candidate(all[k]).value.delta <= Candidate(all[j]).value.delta)
    && (forall j :: 0 <= j < k && Candidate(all[j]).Some? ==> Candidate(all[k]).value.delta < Candidate(all[j]).value.delta)
  }

  /** The search raises exactly when some tuple has no verdict. */
  lemma {:induction false} ScanError(all: seq<Assignment>, n: nat)
    requires n <= |all|
    ensures Scan(all, n).Err? <==> exists k :: 0 <= k < n && Evaluate(all[k]).None?
    ensures Scan(all, n).Err? ==> Scan(all, n).error == MissingRole
  {
    if n > 0 {
      ScanError(all, n - 1);
      ScanErrorStep(all, n);
      if Evaluate(all[n - 1]).None? {
        assert exists k :: 0 <= k < n && Evaluate(all[k]).None?;
      }
    }
  }

  /** One step of the search raises exactly when the search so far has
      raised or the next tuple has no verdict. */
  lemma ScanErrorStep(all: seq<Assignment>, n: nat)
    requires 0 < n <= |all|
    ensures Scan(all, n).Err? <==> Scan(all, n - 1).Err? || Evaluate(all[n - 1]).None?
    ensures Scan(all, n).Err? ==> Scan(all, n).error == MissingRole || Scan(all, n) == Scan(all, n - 1)
  {
  }

  /** It finds nothing exactly when every tuple is invalid. */
  lemma ScanNothing(all: seq<Assignment>, n: nat)
    requires n <= |all|
    ensures Scan(all, n) == Ok(None) <==> forall k :: 0 <= k < n ==> Evaluate(all[k]) == Some(Invalid)
  {
    var chain := ScanStates(all);
    if Scan(all, n) == Ok(None) {
      NothingMeansInvalid(all, chain, n);
    }
    if forall k :: 0 <= k < n ==> Evaluate(all[k]) == Some(Invalid) {
      InvalidMeansNothing(all, chain, n);
    }
  }

  /** The search state after each prefix of the tuples: each step still has
      nothing exactly when it had nothing before and the next tuple is
      invalid. */
  lemma ScanStates(all: seq<Assignment>) returns (chain: seq<Result<Option<Best>, BuildError>>)
    ensures |chain| == |all| + 1
    ensures forall i :: 0 <= i <= |all| ==> chain[i] == Scan(all, i)
    ensures forall i :: 0 <= i < |all| ==>
      (chain[i + 1] == Ok(None) <==> chain[i] == Ok(None) && Evaluate(all[i]) == Some(Invalid))
  {
    chain := seq(|all| + 1, i requires 0 <= i <= |all| => Scan(all, i));
    forall i | 0 <= i < |all|
      ensures chain[i + 1] == Ok(None) <==> chain[i] == Ok(None) && Evaluate(all[i]) == Some(Invalid)
    {
      ScanNothingStep(all, i, chain[i], chain[i + 1]);
    }
  }

  /** One step of the search still has nothing exactly when it had nothing
      before and the next tuple is invalid. */
  lemma ScanNothingStep(all: seq<Assignment>, i: nat, before: Result<Option<Best>, BuildError>, after: Result<Option<Best>, BuildError>)
    requires i < |all| && before == Scan(all, i) && after == Scan(all, i + 1)
    ensures after == Ok(None) <==> before == Ok(None) && Evaluate(all[i]) == Some(Invalid)
  {
  }

  lemma {:induction false} NothingMeansInvalid(all: seq<Assignment>, chain: seq<Result<Option<Best>, BuildError>>, n: nat)
    requires |chain| == |all| + 1 && n <= |all| && chain[n] == Ok(None)
    requires forall i :: 0 <= i < |all| ==>
      (chain[i + 1] == Ok(None) <==> chain[i] == Ok(None) && Evaluate(all[i]) == Some(Invalid))
    ensures forall k :: 0 <= k < n ==> Evaluate(all[k]) == Some(Invalid)
  {
    if n > 0 {
      NothingMeansInvalid(all, chain, n - 1);
    }
  }

  lemma {:induction false} InvalidMeansNothing(all: seq<Assignment>, chain: seq<Result<Option<Best>, BuildError>>, n: nat)
    requires |chain| == |all| + 1 && n <= |all| && chain[0] == Ok(None)
    requires forall i :: 0 <= i < |all| ==>
      (chain[i + 1] == Ok(None) <==> chain[i] == Ok(None) && Evaluate(all[i]) == Some(Invalid))
    requires forall k :: 0 <= k < n ==> Evaluate(all[k]) == Some(Invalid)
    ensures chain[n] == Ok(None)
  {
    if n > 0 {
      InvalidMeansNothing(all, chain, n - 1);
    }
  }

  /** A search that has found something has met a valid tuple. */
  lemma {:induction false} ScanNotInvalid(all: seq<Assignment>, n: nat)
    requires n <= |all| && Scan(all, n).Ok? && Scan(all, n).value.Some?
    ensures exists k :: 0 <= k < n && Candidate(all[k]).Some?
  {
    if Scan(all, n - 1).Ok? && Scan(all, n - 1).value.Some? {
      ScanNotInvalid(all, n - 1);
    } else {
      assert Candidate(all[n - 1]).Some?;
    }
  }

  /** The first valid tuple is the best among those so far. */
  lemma FirstBestFirst(all: seq<Assignment>, n: nat)
    requires 0 < n <= |all| && Candidate(all[n - 1]).Some?
    requires forall j :: 0 <= j < n - 1 ==> Candidate(all[j]).None?
    ensures FirstBest(all, n, n - 1)
  {
  }

  /** A strictly smaller gap takes over. */
  lemma FirstBestReplaced(all: seq<Assignment>, n: nat, k: nat)
    requires 0 < n <= |all| && FirstBest(all, n - 1, k) && Candidate(all[n - 1]).Some?
    requires Candidate(all[n - 1]).value.delta < Candidate(all[k]).value.delta
    ensures FirstBest(all, n, n - 1)
  {
  }

  /** An invalid tuple, or one whose gap is not smaller, changes nothing. */
  lemma FirstBestKept(all: seq<Assignment>, n: nat, k: nat)
    requires 0 < n <= |all| && FirstBest(all, n - 1, k)
    requires Candidate(all[n - 1]).Some? ==> Candidate(all[k]).value.delta <= Candidate(all[n - 1]).value.delta
    ensures FirstBest(all, n, k)
  {
  }

  /** Otherwise it returns the first tuple with the smallest gap. */
  lemma {:induction false} ScanBest(all: seq<Assignment>, n: nat)
    requires n <= |all|
    ensures Scan(all, n).Ok? && Scan(all, n).value.Some? ==>
      exists k: nat :: FirstBest(all, n, k) && Scan(all, n).value.value == Candidate(all[k]).value
  {
    if n > 0 {
      ScanBest(all, n - 1);
      var prev := Scan(all, n - 1);
      var c := Candidate(all[n - 1]);
      if prev.Ok? && Evaluate(all[n - 1]).Some? {
        if prev.value.None? {
          if c.Some? {
            ScanNothing(all, n - 1);
            FirstBestFirst(all, n);
          }
        } else {
          var k: nat :| FirstBest(all, n - 1, k) && prev.value.value == Candidate(all[k]).value;
          if c.Some? && c.value.delta < prev.value.value.delta {
            FirstBestReplaced(all, n, k);
          } else {
            FirstBestKept(all, n, k);
          }
        }
      }
    }
  }

  /** The loop of `find_best_teams` over the tuples the generator yields. */
  method Search(all: seq<Assignment>) returns (r: Result<Option<Best>, BuildError>)
    ensures r == Scan(all, |all|)
  {
    var best: Option<Best> := None;
    for k := 0 to |all|
      invariant Scan(all, k) == Ok(best)
    {
      var failed;
      failed, best := SearchStep(all, k, best);
      if failed {
        return Err(MissingRole);
      }
    }
    r := Ok(best);
  }

  /** Tuple k of the search loop: whether it raises, which ends the whole
      search, or the best tuple among the first k + 1. */
  method SearchStep(all: seq<Assignment>, k: nat, best: Option<Best>) returns (failed: bool, newBest: Option<Best>)
    requires k < |all| && Scan(all, k) == Ok(best)
    ensures failed ==> Scan(all, |all|) == Err(MissingRole)
    ensures !failed ==> Scan(all, k + 1) == Ok(newBest)
  {
    newBest := best;
    var e := EvaluateAssignment(all[k]);
    if e.None? {
      ScanError(all, |all|);
      return true, best;
    }
    failed := false;
    if e.value.Valid? {
      var d := e.value.delta;
      if best.None? || d < best.value.delta {
        newBest := Some(Best(all[k], d, e.value.total1, e.value.total2));
      }
    }
  }

  /** `find_best_teams(players)`; `roles` is the module's ROLES. */
  method FindBestTeams(players: seq<Player>, roles: seq<string>) returns (r: Result<Option<Best>, BuildError>)
    requires |players| == 10
    ensures r == Scan(Assignments(players, roles), |Assignments(players, roles)|)
  {
    r := Search(Assignments(players, roles));
  }

  // ---------------------------------------------------------------------
  // The command

  /** What the command reports for ten loaded players: MissingRole
      exactly when some tuple has no verdict, NoValidAssignment exactly when
      every tuple is invalid, and otherwise the first tuple with the smallest
      gap. */
  ghost predicate Reported(players: seq<Player>, roles: seq<string>, r: Result<Best, BuildError>)
    requires |players| == 10
  {
    var all := Assignments(players, roles);
    && (r == Err(MissingRole) <==> exists k :: 0 <= k < |all| && Evaluate(all[k]).None?)
    && (r == Err(NoValidAssignment) <==> forall k :: 0 <= k < |all| ==> Evaluate(all[k]) == Some(Invalid))
    && (r.Ok? ==> exists k: nat :: FirstBest(all, |all|, k) && r.value == Candidate(all[k]).value)
  }

  /** The search and its two failure messages in `run`. */
  method SearchTeams(players: seq<Player>, roles: seq<string>) returns (r: Result<Best, BuildError>)
    requires |players| == 10
    ensures Reported(players, roles, r)
  {
    var found := FindBestTeams(players, roles);
    var all := Assignments(players, roles);
    ScanError(all, |all|);
    ScanNothing(all, |all|);
    ScanBest(all, |all|);
    if found.Err? {
      return Err(found.error);
    }
    if found.value.None? {
      return Err(NoValidAssignment);
    }
    r := Ok(found.value.value);
  }

  /** `run`: load the roster, insist on ten players, search, and report the
      best tuple. The documents `load_roster` wrote stay written whatever
      happens after it. */
  method BuildTeams(store: Store, roster: seq<RosterEntry>) returns (r: Result<Best, BuildError>, newStore: Store)
    ensures newStore == LoadPrefix(store, roster, |roster|).1
    ensures var loaded := LoadPrefix(store, roster, |roster|).0;
      && (loaded.Err? ==> r == Err(loaded.error))
      && (loaded.Ok? ==> |loaded.value| == |roster|)
      && (loaded.Ok? && |loaded.value| != 10 ==> r == Err(WrongRosterSize(|roster|)))
      && (loaded.Ok? && |loaded.value| == 10 ==> Reported(loaded.value, ROLES, r))
  {
    var loaded;
    loaded, newStore := LoadRoster(store, roster);
    if loaded.Err? {
      return Err(loaded.error), newStore;
    }
    LoadPlayers(store, roster, |roster|);
    if |loaded.value| != 10 {
      return Err(WrongRosterSize(|loaded.value|)), newStore;
    }
    r := SearchTeams(loaded.value, ROLES);
  }
}
