/** The older single-rating team builder: every player has one rating,
    adjusted by a penalty for the role they are given; each of the 252
    splits of the first ten players is scored after choosing, for each team,
    the role order that best honours preferences, and the three most even
    splits are reported. */
module TeamBuilder {
  import opened Wrappers
  import opened Text
  import opened PlayerStore
  import opened Combinatorics

  // ---------------------------------------------------------------------
  // Constants

  /** The rating a tier is seeded with, weighted towards the top tiers. */
  const RANK_MMR_DEFAULTS: map<string, int> := map[
    "IRON" := 600, "BRONZE" := 900, "SILVER" := 1200, "GOLD" := 1500, "PLATINUM" := 1800,
    "EMERALD" := 2100, "DIAMOND" := 2550, "MASTER" := 3000, "GRANDMASTER" := 3300, "CHALLENGER" := 3600]

  function RankDefault(tier: string): Option<int> {
    if tier in RANK_MMR_DEFAULTS then Some(RANK_MMR_DEFAULTS[tier]) else None
  }

  /** The rating of a rank missing from the table. */
  const FALLBACK_MMR := 1200

  const PRIMARY_PENALTY := 0
  const SECONDARY_PENALTY := -150
  const OFFROLE_PENALTY := -350

  const ROLES: seq<string> := ["Top", "Jungle", "Mid", "ADC", "Support"]

  /** The sentinel `best_pref_score` starts from. */
  const NO_SCORE := -9999

  /** `RANK_MMR_DEFAULTS.get(rank, 1200)` */
  function SeedRating(rank: string): (r: int)
    ensures 600 <= r <= 3600
    ensures RankDefault(rank).None? ==> r == FALLBACK_MMR
  {
    RankDefault(rank).GetOr(FALLBACK_MMR)
  }

  // ---------------------------------------------------------------------
  // Players

  datatype Player = Player(name: string, primary: string, secondary: string, rankStr: string, baseMmr: int)

  /** `db_mmr if db_mmr else RANK_MMR_DEFAULTS.get(rank_str, 1200)`: an
      absent stored rating and a stored 0 both fall back to the rank. */
  function BaseMmr(rankStr: string, dbMmr: Option<int>): int {
    if dbMmr.Some? && dbMmr.value != 0 then dbMmr.value else SeedRating(rankStr)
  }

  /** `Player.__init__` */
  function NewPlayer(name: string, primary: string, secondary: string, rank: string, dbMmr: Option<int>): Player {
    var rankStr := Upper(rank);
    Player(name, Capitalize(primary), Capitalize(secondary), rankStr, BaseMmr(rankStr, dbMmr))
  }

  /** A stored non-zero rating wins; otherwise (nothing stored, or 0) the
      rank's table value, and 1200 for a rank the table lacks. */
  lemma BaseMmrChoice(rankStr: string, dbMmr: Option<int>)
    ensures dbMmr.Some? && dbMmr.value != 0 ==> BaseMmr(rankStr, dbMmr) == dbMmr.value
    ensures dbMmr.None? || dbMmr.value == 0 ==> 600 <= BaseMmr(rankStr, dbMmr) <= 3600
    ensures dbMmr == Some(0) ==> BaseMmr(rankStr, dbMmr) == BaseMmr(rankStr, None)
    ensures RankDefault(rankStr).None? && (dbMmr.None? || dbMmr.value == 0) ==> BaseMmr(rankStr, dbMmr) == 1200
  {
  }

  /** `get_effective_stats`: (base, penalty, base + penalty). */
  function EffectiveStats(p: Player, role: string): (int, int, int) {
    var penalty :=
      if role == p.primary then PRIMARY_PENALTY
      else if role == p.secondary then SECONDARY_PENALTY
      else OFFROLE_PENALTY;
    (p.baseMmr, penalty, p.baseMmr + penalty)
  }

  /** The penalty is 0 for the primary role, -150 for the secondary one
      and -350 for any other, and the effective rating is the base plus the
      penalty, so it lies between base - 350 and base. */
  lemma EffectiveStatsSpec(p: Player, role: string)
    ensures var (base, penalty, effective) := EffectiveStats(p, role);
      && base == p.baseMmr && effective == base + penalty
      && (penalty == 0 <==> role == p.primary)
      && (penalty == -150 <==> role != p.primary && role == p.secondary)
      && (penalty == -350 <==> role != p.primary && role != p.secondary)
      && base - 350 <= effective <= base
  {
  }

  /** `capitalize` lowers every letter after the first, so no preference
      ever equals "ADC": a player given ADC always takes the off-role
      penalty and scores nothing for it. */
  lemma AdcNeverPreferred(name: string, primary: string, secondary: string, rank: string, dbMmr: Option<int>)
    ensures var p := NewPlayer(name, primary, secondary, rank, dbMmr);
      && p.primary != "ADC" && p.secondary != "ADC"
      && EffectiveStats(p, "ADC").1 == OFFROLE_PENALTY
      && PrefScore(p, "ADC") == 0
  {
    var p := NewPlayer(name, primary, secondary, rank, dbMmr);
    if |primary| == 3 {
      assert !IsUpperLetter(p.primary[1]);
    }
    if |secondary| == 3 {
      assert !IsUpperLetter(p.secondary[1]);
    }
  }

  // ---------------------------------------------------------------------
  // Loading

  /** One row of the roster JSON. */
  datatype RosterRow = RosterRow(name: string, primary: string, secondary: string, rank: string)

  /** The store after the first n rows of `sync_players`: a name already
      stored is left alone; a new name is stored with its seed rating and
      the rank as written. */
  function SyncStore(store: Store, rows: seq<RosterRow>, n: nat): Store
    requires n <= |rows|
  {
    if n == 0 then store
    else
      var s := SyncStore(store, rows, n - 1);
      var row := rows[n - 1];
      if row.name in s then s
      else s[row.name := RatingSeededDoc(row.name, SeedRating(Upper(row.rank)), row.rank)]
  }

  /** The player a row becomes, given the store as the loop finds it: a
      stored player starts from the stored rating (or its absence), a new
      one from its seed. */
  function SyncedPlayer(s: Store, row: RosterRow): Player {
    if row.name in s then NewPlayer(row.name, row.primary, row.secondary, row.rank, s[row.name].mmr)
    else NewPlayer(row.name, row.primary, row.secondary, row.rank, Some(SeedRating(Upper(row.rank))))
  }

  /** The players of the first n rows, one per row in roster order. */
  function SyncedPlayers(store: Store, rows: seq<RosterRow>, n: nat): (ps: seq<Player>)
    requires n <= |rows|
    ensures |ps| == n
  {
    if n == 0 then [] else SyncedPlayers(store, rows, n - 1) + [SyncedPlayer(SyncStore(store, rows, n - 1), rows[n - 1])]
  }

  /** Row i's player is made from the store as the first i rows left it. */
  lemma {:induction false} SyncedPlayerAt(store: Store, rows: seq<RosterRow>, n: nat, i: nat)
    requires i < n <= |rows|
    ensures SyncedPlayers(store, rows, n)[i] == SyncedPlayer(SyncStore(store, rows, i), rows[i])
  {
    if i < n - 1 {
      SyncedPlayerAt(store, rows, n - 1, i);
      SyncedPlayerKept(store, rows, n, i);
    } else {
      SyncedPlayerLast(store, rows, n);
    }
  }

  lemma SyncedPlayerLast(store: Store, rows: seq<RosterRow>, n: nat)
    requires 0 < n <= |rows|
    ensures SyncedPlayers(store, rows, n)[n - 1] == SyncedPlayer(SyncStore(store, rows, n - 1), rows[n - 1])
  {
    var prev := SyncedPlayers(store, rows, n - 1);
    assert SyncedPlayers(store, rows, n) == prev + [SyncedPlayer(SyncStore(store, rows, n - 1), rows[n - 1])];
  }

  lemma SyncedPlayerKept(store: Store, rows: seq<RosterRow>, n: nat, i: nat)
    requires i < n - 1 && n <= |rows|
    ensures SyncedPlayers(store, rows, n)[i] == SyncedPlayers(store, rows, n - 1)[i]
  {
  }

  /** `sync_players` */
  method SyncPlayers(store: Store, rows: seq<RosterRow>) returns (players: seq<Player>, newStore: Store)
    ensures players == SyncedPlayers(store, rows, |rows|)
    ensures newStore == SyncStore(store, rows, |rows|)
  {
    players, newStore := [], store;
    for i := 0 to |rows|
      invariant players == SyncedPlayers(store, rows, i)
      invariant newStore == SyncStore(store, rows, i)
    {
      var row := rows[i];
      var p;
      if row.name in newStore {
        p := NewPlayer(row.name, row.primary, row.secondary, row.rank, newStore[row.name].mmr);
      } else {
        var seed := SeedRating(Upper(row.rank));
        newStore := newStore[row.name := RatingSeededDoc(row.name, seed, row.rank)];
        p := NewPlayer(row.name, row.primary, row.secondary, row.rank, Some(seed));
      }
      players := players + [p];
    }
  }

  /** Every name stays; every stored document is untouched; every other
      document was written for one of the rows. */
  lemma {:induction false} SyncKeepsStore(store: Store, rows: seq<RosterRow>, n: nat)
    requires n <= |rows|
    ensures var s := SyncStore(store, rows, n);
      && (forall k :: k in store ==> k in s && s[k] == store[k])
      && (forall k :: k in s ==> k in store || exists j :: 0 <= j < n && rows[j].name == k)
  {
    if n > 0 {
      SyncKeepsStore(store, rows, n - 1);
    }
  }

  /** Later rows never rewrite a document an earlier row wrote. */
  lemma {:induction false} SyncMonotone(store: Store, rows: seq<RosterRow>, n: nat, m: nat)
    requires n <= m <= |rows|
    ensures var sn, sm := SyncStore(store, rows, n), SyncStore(store, rows, m);
      forall k :: k in sn ==> k in sm && sm[k] == sn[k]
    decreases m - n
  {
    if n < m {
      SyncMonotone(store, rows, n, m - 1);
    }
  }

  /** The first row with a new name stores that name with the rank's
      table rating (1200 for an unknown rank) and the rank as written, and
      the player starts from that rating; a stored name is never
      rewritten and its player starts from the stored rating. */
  lemma SyncSeeds(store: Store, rows: seq<RosterRow>, i: nat)
    requires i < |rows|
    requires forall j :: 0 <= j < i ==> rows[j].name != rows[i].name
    ensures var ps, s, r := SyncedPlayers(store, rows, |rows|), SyncStore(store, rows, |rows|), rows[i];
      && r.name in s
      && (r.name !in store ==>
            && s[r.name] == RatingSeededDoc(r.name, SeedRating(Upper(r.rank)), r.rank)
            && ps[i].baseMmr == SeedRating(Upper(r.rank)))
      && (r.name in store ==>
            && s[r.name] == store[r.name]
            && ps[i].baseMmr == BaseMmr(Upper(r.rank), store[r.name].mmr))
  {
    var r := rows[i];
    var si, s1, s := SyncStore(store, rows, i), SyncStore(store, rows, i + 1), SyncStore(store, rows, |rows|);
    SyncRowFinds(store, rows, i);
    SyncRowStored(store, rows, i);
    SyncKept(store, rows, i + 1, |rows|, r.name);
    var ps := SyncedPlayers(store, rows, |rows|);
    SyncedPlayerAt(store, rows, |rows|, i);
    assert ps[i] == SyncedPlayer(si, r);
    SyncedPlayerMmr(si, r);
  }

  /** One document of SyncMonotone. */
  lemma SyncKept(store: Store, rows: seq<RosterRow>, n: nat, m: nat, k: string)
    requires n <= m <= |rows| && k in SyncStore(store, rows, n)
    ensures k in SyncStore(store, rows, m) && SyncStore(store, rows, m)[k] == SyncStore(store, rows, n)[k]
  {
    SyncMonotone(store, rows, n, m);
  }

  /** Row i leaves its name stored: the document found, or a new seed. */
  lemma SyncRowStored(store: Store, rows: seq<RosterRow>, i: nat)
    requires i < |rows|
    ensures var si, s1, r := SyncStore(store, rows, i), SyncStore(store, rows, i + 1), rows[i];
      && r.name in s1
      && s1[r.name] == if r.name in si then si[r.name] else RatingSeededDoc(r.name, SeedRating(Upper(r.rank)), r.rank)
  {
  }

  /** The player of a row starts from the stored document's rating, or
      from the seed of a new name. */
  lemma SyncedPlayerMmr(s: Store, row: RosterRow)
    ensures row.name in s ==> SyncedPlayer(s, row).baseMmr == BaseMmr(Upper(row.rank), s[row.name].mmr)
    ensures row.name !in s ==> SyncedPlayer(s, row).baseMmr == SeedRating(Upper(row.rank))
  {
  }

  /** A row whose name no earlier row carries finds the store's document
      for it, or none. */
  lemma SyncRowFinds(store: Store, rows: seq<RosterRow>, i: nat)
    requires i < |rows|
    requires forall j :: 0 <= j < i ==> rows[j].name != rows[i].name
    ensures var si, k := SyncStore(store, rows, i), rows[i].name;
      && (k in store ==> k in si && si[k] == store[k])
      && (k !in store ==> k !in si)
  {
    SyncKeepsStore(store, rows, i);
  }

  // ---------------------------------------------------------------------
  // Roles within one team

  /** The preference weighting: 10 for the primary role, 5 for the
      secondary one, 0 otherwise. */
  function PrefScore(p: Player, role: string): nat {
    if role == p.primary then 10 else if role == p.secondary then 5 else 0
  }

  /** One line of an assignment: the role, its player and the player's
      stats for it. */
  datatype Entry = Entry(role: string, player: Player, base: int, penalty: int, effective: int)

  function EntryFor(p: Player, role: string): Entry {
    var (base, penalty, effective) := EffectiveStats(p, role);
    Entry(role, p, base, penalty, effective)
  }

  /** The preference score of the first n players under a role order. */
  function Score(team: seq<Player>, order: seq<string>, n: nat): int
    requires n <= |team| && n <= |order|
  {
    if n == 0 then 0 else Score(team, order, n - 1) + PrefScore(team[n - 1], order[n - 1])
  }

  lemma {:induction false} ScoreBounds(team: seq<Player>, order: seq<string>, n: nat)
    requires n <= |team| && n <= |order|
    ensures 0 <= Score(team, order, n) <= 10 * n
  {
    if n > 0 {
      ScoreBounds(team, order, n - 1);
    }
  }

  /** The entries the inner loop appends for the first n players. */
  function EntriesOf(team: seq<Player>, order: seq<string>, n: nat): (r: seq<Entry>)
    requires n <= |team| && n <= |order|
    ensures |r| == n
    ensures forall i :: 0 <= i < n ==> r[i] == EntryFor(team[i], order[i])
  {
    seq(n, i requires 0 <= i < n => EntryFor(team[i], order[i]))
  }

  /** `best_pref_score` and `best_assignment` after the first n orders:
      an order replaces the best so far only with a strictly larger
      score. */
  function ArgMax(team: seq<Player>, orders: seq<seq<string>>, n: nat): (r: (int, nat))
    requires n <= |orders| && |team| >= 5
    requires forall k :: 0 <= k < |orders| ==> |orders[k]| == 5
    ensures n > 0 ==> r.1 < n
  {
    if n == 0 then (NO_SCORE, 0)
    else
      var (best, at) := ArgMax(team, orders, n - 1);
      var score := Score(team, orders[n - 1], 5);
      if score > best then (score, n - 1) else (best, at)
  }

  /** Order k is the first of the first n orders with the largest score. */
  predicate FirstMax(team: seq<Player>, orders: seq<seq<string>>, n: nat, k: nat)
    requires n <= |orders| && |team| >= 5
    requires forall k :: 0 <= k < |orders| ==> |orders[k]| == 5
  {
    && k < n
    && (forall j :: 0 <= j < n ==> Score(team, orders[j], 5) <= Score(team, orders[k], 5))
    && (forall j :: 0 <= j < k ==> Score(team, orders[j], 5) < Score(team, orders[k], 5))
  }

  /** Since every score is at least 0, the first order already beats the
      sentinel; from then on the kept order is the first maximiser. */
  lemma {:induction false} ArgMaxSpec(team: seq<Player>, orders: seq<seq<string>>, n: nat)
    requires 0 < n <= |orders| && |team| >= 5
    requires forall k :: 0 <= k < |orders| ==> |orders[k]| == 5
    ensures var (best, at) := ArgMax(team, orders, n);
      && FirstMax(team, orders, n, at) && best == Score(team, orders[at], 5)
  {
    ScoreBounds(team, orders[n - 1], 5);
    if n > 1 {
      ArgMaxSpec(team, orders, n - 1);
    }
  }

  /** `ROLES.index(role)`. Every role sorted here comes from a reordering
      of ROLES, so the fallback value 5 (where Python raises) is never
      used. */
  function RoleIndex(role: string): int {
    if role == "Top" then 0
    else if role == "Jungle" then 1
    else if role == "Mid" then 2
    else if role == "ADC" then 3
    else if role == "Support" then 4
    else 5
  }

  function RoleKey(e: Entry): int {
    RoleIndex(e.role)
  }

  function Effective(e: Entry): int {
    e.effective
  }

  /** `ROLES.index` numbers the list 0, 1, ..., 4 in order. */
  predicate Indexed(roles: seq<string>) {
    Keys(roles, RoleIndex) == Iota(5)
  }

  /** The index of a listed role is its position in ROLES, and only the
      listed roles have an index below 5. */
  lemma RoleIndexOfRoles()
    ensures Indexed(ROLES)
    ensures forall role, r :: 0 <= r < 5 && RoleIndex(role) == r ==> role == ROLES[r]
  {
  }

  /** ROLES is the only list `ROLES.index` numbers in order. */
  lemma IndexedIsRoles(roles: seq<string>)
    requires Indexed(roles)
    ensures roles == ROLES
  {
    RoleIndexOfRoles();
    forall r | 0 <= r < 5 ensures roles[r] == ROLES[r] {
      assert RoleIndex(roles[r]) == Keys(roles, RoleIndex)[r] == r;
    }
  }

  /** What `calculate_best_roles_for_team` returns for the role orders it
      tries: the entries of the first order with the highest preference
      score, sorted into ROLES order, with their total effective rating.
      With no orders to try the assignment stays empty. */
  function RoleAssignment(team: seq<Player>, orders: seq<seq<string>>): (seq<Entry>, int)
    requires |team| >= 5
    requires forall k :: 0 <= k < |orders| ==> |orders[k]| == 5
  {
    if |orders| == 0 then ([], 0)
    else
      var chosen := EntriesOf(team, orders[ArgMax(team, orders, |orders|).1], 5);
      var sorted := SortByKey(chosen, RoleKey);
      (sorted, Sum(Keys(sorted, Effective)))
  }

  /** Every order `itertools.permutations(roles)` yields reorders roles. */
  lemma RoleOrders(roles: seq<string>)
    requires |roles| == 5
    ensures |Permutations(roles)| == 120
    ensures forall k :: 0 <= k < |Permutations(roles)| ==> IsPermutationOf(Permutations(roles)[k], roles)
  {
    FivePermutations(roles);
    forall k | 0 <= k < |Permutations(roles)|
      ensures IsPermutationOf(Permutations(roles)[k], roles)
    {
      PermutationsArePermutations(roles, Permutations(roles)[k]);
    }
  }

  /** The entries of an order carry the order's roles, so their role
      keys are the order's role indices. */
  lemma EntryKeys(team: seq<Player>, order: seq<string>)
    requires |team| >= 5 && |order| == 5
    ensures Keys(EntriesOf(team, order, 5), RoleKey) == Keys(order, RoleIndex)
  {
  }

  /** Sorting the entries of a reordering of ROLES (`roles`, see
      IndexedIsRoles) by `ROLES.index` puts role r of ROLES at position r. */
  lemma {:induction false} SortedIntoRoles(team: seq<Player>, order: seq<string>, roles: seq<string>)
    requires |team| >= 5 && Indexed(roles) && IsPermutationOf(order, roles)
    ensures var sorted := SortByKey(EntriesOf(team, order, 5), RoleKey);
      |sorted| == 5 && forall r :: 0 <= r < 5 ==> sorted[r].role == roles[r]
  {
    var chosen := EntriesOf(team, order, 5);
    var sorted := SortByKey(chosen, RoleKey);
    SortByKeyStable(chosen, RoleKey);
    KeysPermuted(sorted, chosen, RoleKey);
    EntryKeys(team, order);
    KeysPermuted(order, roles, RoleIndex);
    var keys := Keys(sorted, RoleKey);
    assert forall i, j :: 0 <= i < j < |keys| ==> keys[i] <= keys[j];
    SortedIota(keys, 5);
    forall r | 0 <= r < 5 ensures sorted[r].role == roles[r] {
      assert RoleIndex(sorted[r].role) == keys[r] == r;
      assert sorted[r] in multiset(chosen);
      var i :| 0 <= i < 5 && chosen[i] == sorted[r];
      assert order[i] in multiset(roles);
      var j :| 0 <= j < 5 && roles[j] == order[i];
      assert RoleIndex(roles[j]) == Keys(roles, RoleIndex)[j] == j;
    }
  }

  /** Sorting the entries of one order keeps each entry's stats and
      player and does not change their total. */
  lemma {:induction false} SortedEntries(team: seq<Player>, order: seq<string>, roles: seq<string>)
    requires |team| >= 5 && Indexed(roles) && IsPermutationOf(order, roles)
    ensures var sorted := SortByKey(EntriesOf(team, order, 5), RoleKey);
      && |sorted| == 5
      && (forall r :: 0 <= r < 5 ==> sorted[r] == EntryFor(sorted[r].player, roles[r]))
      && (forall r :: 0 <= r < 5 ==> sorted[r].player in team[..5])
      && Sum(Keys(sorted, Effective)) == Sum(Keys(EntriesOf(team, order, 5), Effective))
  {
    var chosen := EntriesOf(team, order, 5);
    var sorted := SortByKey(chosen, RoleKey);
    SortedIntoRoles(team, order, roles);
    KeysPermuted(sorted, chosen, Effective);
    SumPermuted(Keys(sorted, Effective), Keys(chosen, Effective));
    forall r | 0 <= r < 5
      ensures sorted[r] == EntryFor(sorted[r].player, roles[r]) && sorted[r].player in team[..5]
    {
      assert sorted[r] in multiset(chosen);
      EntryOfOrder(team, order, sorted[r]);
    }
  }

  /** An entry of an order is its player's entry for its role, and the
      player is one of the team's first five. */
  lemma EntryOfOrder(team: seq<Player>, order: seq<string>, e: Entry)
    requires |team| >= 5 && |order| == 5 && e in EntriesOf(team, order, 5)
    ensures e == EntryFor(e.player, e.role) && e.player in team[..5]
  {
    var i :| 0 <= i < 5 && EntriesOf(team, order, 5)[i] == e;
    assert team[..5][i] == team[i];
  }

  /** The result of `calculate_best_roles_for_team` when every order it
      tries reorders ROLES: one entry per role, in ROLES order, each with
      the stats of the player it names for that role; they are the entries
      of the first order with the highest preference score, and the total
      is that order's sum of effective ratings. */
  lemma RoleAssignmentSpec(team: seq<Player>, orders: seq<seq<string>>, roles: seq<string>)
    requires |team| >= 5 && |orders| > 0 && Indexed(roles)
    requires forall k :: 0 <= k < |orders| ==> |orders[k]| == 5 && IsPermutationOf(orders[k], roles)
    ensures && |RoleAssignment(team, orders).0| == 5
            && (forall r :: 0 <= r < 5 ==> RoleAssignment(team, orders).0[r].role == roles[r])
            && (forall r :: 0 <= r < 5 ==>
                  RoleAssignment(team, orders).0[r] == EntryFor(RoleAssignment(team, orders).0[r].player, roles[r]))
            && (forall r :: 0 <= r < 5 ==> RoleAssignment(team, orders).0[r].player in team[..5])
    ensures exists k: nat ::
      (&& k < |orders|
       && FirstMax(team, orders, |orders|, k)
       && multiset(RoleAssignment(team, orders).0) == multiset(EntriesOf(team, orders[k], 5))
       && RoleAssignment(team, orders).1 == Sum(Keys(EntriesOf(team, orders[k], 5), Effective)))
  {
    var k := ArgMax(team, orders, |orders|).1;
    ArgMaxSpec(team, orders, |orders|);
    SortedIntoRoles(team, orders[k], roles);
    SortedEntries(team, orders[k], roles);
    assert RoleAssignment(team, orders).0 == SortByKey(EntriesOf(team, orders[k], 5), RoleKey);
  }

  /** The two loops of `calculate_best_roles_for_team`: every order is
      scored, and `best_assignment` keeps the entries of the first order
      with the highest score. */
  method BestEntries(team: seq<Player>, orders: seq<seq<string>>) returns (best: seq<Entry>)
    requires |team| >= 5
    requires forall k :: 0 <= k < |orders| ==> |orders[k]| == 5
    ensures |orders| == 0 ==> best == []
    ensures |orders| > 0 ==> best == EntriesOf(team, orders[ArgMax(team, orders, |orders|).1], 5)
  {
    best := [];
    var bestScore := NO_SCORE;
    ghost var at: nat := 0;
    for k := 0 to |orders|
      invariant (bestScore, at) == ArgMax(team, orders, k)
      invariant k == 0 ==> best == []
      invariant k > 0 ==> at < k && best == EntriesOf(team, orders[at], 5)
    {
      var perm := orders[k];
      var score := 0;
      var current: seq<Entry> := [];
      for i := 0 to 5
        invariant score == Score(team, perm, i)
        invariant current == EntriesOf(team, perm, i)
      {
        var p := team[i];
        var (base, penalty, effective) := EffectiveStats(p, perm[i]);
        var pref := if perm[i] == p.primary then 10 else if perm[i] == p.secondary then 5 else 0;
        score := score + pref;
        current := current + [Entry(perm[i], p, base, penalty, effective)];
      }
      if score > bestScore {
        bestScore := score;
        best := current;
        at := k;
      }
    }
  }

  /** `calculate_best_roles_for_team(team_players)`; `roles` is the
      module's ROLES, whose orders the function tries. */
  method CalculateBestRolesForTeam(team: seq<Player>, roles: seq<string>) returns (assignment: seq<Entry>, total: int)
    requires |team| >= 5 && |roles| == 5
    ensures |Permutations(roles)| == 120
    ensures forall k :: 0 <= k < 120 ==> |Permutations(roles)[k]| == 5 && IsPermutationOf(Permutations(roles)[k], roles)
    ensures (assignment, total) == RoleAssignment(team, Permutations(roles))
  {
    RoleOrders(roles);
    var best := BestEntries(team, Permutations(roles));
    assignment := SortByKey(best, RoleKey);
    total := Sum(Keys(assignment, Effective));
  }

  // ---------------------------------------------------------------------
  // Matchups

  /** One split of the ten players: each team's assignment and total, and
      the gap between the totals. */
  datatype Matchup = Matchup(gap: nat, a: seq<Entry>, totalA: int, b: seq<Entry>, totalB: int)

  function GapKey(m: Matchup): int {
    m.gap
  }

  /** The matchup of two teams of (at least) five. */
  function MatchupOf(teamA: seq<Player>, teamB: seq<Player>, roles: seq<string>): Matchup
    requires |teamA| >= 5 && |teamB| >= 5 && |roles| == 5
  {
    RoleOrders(roles);
    var a := RoleAssignment(teamA, Permutations(roles));
    var b := RoleAssignment(teamB, Permutations(roles));
    Matchup(Abs(a.1 - b.1), a.0, a.1, b.0, b.1)
  }

  /** The body of the loop over the splits: both teams' best roles and
      the gap between their totals. */
  method ScoreMatchup(teamA: seq<Player>, teamB: seq<Player>, roles: seq<string>) returns (m: Matchup)
    requires |teamA| >= 5 && |teamB| >= 5 && |roles| == 5
    ensures m == MatchupOf(teamA, teamB, roles)
  {
    var assignA, totalA := CalculateBestRolesForTeam(teamA, roles);
    var assignB, totalB := CalculateBestRolesForTeam(teamB, roles);
    var gap := Abs(totalA - totalB);
    m := Matchup(gap, assignA, totalA, assignB, totalB);
  }

  /** `all_matchups` before sorting: one matchup per split of the ten
      players, in split order. */
  function Matchups(ten: seq<Player>, roles: seq<string>): (ms: seq<Matchup>)
    requires |ten| >= 10 && |roles| == 5
    ensures |ms| == |Splits(|ten|)|
  {
    SplitShapes(|ten|);
    var splits := Splits(|ten|);
    seq(|splits|, ci requires 0 <= ci < |splits| =>
      MatchupOf(Pick(ten, splits[ci]), Pick(ten, Complement(splits[ci], 0, |ten|)), roles))
  }

  /** The loop of `run` over the splits. */
  method AllMatchups(ten: seq<Player>, roles: seq<string>) returns (all: seq<Matchup>)
    requires |ten| >= 10 && |roles| == 5
    ensures all == Matchups(ten, roles)
  {
    var count := |Splits(|ten|)|;
    all := [];
    for ci := 0 to count
      invariant all == Matchups(ten, roles)[..ci]
    {
      var m := SplitMatchup(ten, roles, ci);
      PrefixSnoc(Matchups(ten, roles), ci);
      all := all + [m];
    }
  }

  /** One pass of that loop: split ci into its two teams and score them. */
  method SplitMatchup(ten: seq<Player>, roles: seq<string>, ci: nat) returns (m: Matchup)
    requires |ten| >= 10 && |roles| == 5 && ci < |Splits(|ten|)|
    ensures m == Matchups(ten, roles)[ci]
  {
    MatchupAt(ten, roles, ci);
    var c := Splits(|ten|)[ci];
    var teamA := Pick(ten, c);
    var teamB := Pick(ten, Complement(c, 0, |ten|));
    m := ScoreMatchup(teamA, teamB, roles);
  }

  /** `all_matchups.sort(key=gap)` followed by `[:3]`. */
  function TopThree(all: seq<Matchup>): seq<Matchup> {
    SortByKey(all, GapKey)[..Min(3, |all|)]
  }

  /** Ten players give the 252 splits the search checks. */
  lemma MatchupCount(ten: seq<Player>, roles: seq<string>)
    requires |ten| == 10 && |roles| == 5
    ensures |Matchups(ten, roles)| == 252
  {
    TenChooseFive();
  }

  /** Split ci gives two teams of five that share nobody and together
      hold everybody. */
  lemma SplitTeams(n: nat, ci: nat)
    requires ci < |Splits(n)|
    ensures var c := Splits(n)[ci];
      && |c| == 5 <= n && |Complement(c, 0, n)| == n - 5
      && (forall x: nat :: x < n ==> (x in c <==> x !in Complement(c, 0, n)))
  {
    TeamSplit(Splits(n)[ci], n, 5);
  }

  /** With ROLES as the role list (see IndexedIsRoles), a team's entries
      come in ROLES order and name players of the team. */
  lemma TeamRoles(team: seq<Player>, roles: seq<string>)
    requires |team| >= 5 && |roles| == 5 && Indexed(roles)
    ensures |Permutations(roles)| == 120
    ensures forall k :: 0 <= k < 120 ==> |Permutations(roles)[k]| == 5
    ensures var entries := RoleAssignment(team, Permutations(roles)).0;
      && |entries| == 5
      && (forall r :: 0 <= r < 5 ==> entries[r].role == roles[r] && entries[r].player in team[..5])
  {
    RoleOrders(roles);
    RoleAssignmentSpec(team, Permutations(roles), roles);
  }

  /** Both teams' entries come in ROLES order and name players of that
      team, and the gap is the difference of the two totals. */
  lemma MatchupRoles(teamA: seq<Player>, teamB: seq<Player>, roles: seq<string>)
    requires |teamA| >= 5 && |teamB| >= 5 && |roles| == 5 && Indexed(roles)
    ensures var m := MatchupOf(teamA, teamB, roles);
      && m.gap == Abs(m.totalA - m.totalB)
      && |m.a| == 5 && |m.b| == 5
      && (forall r :: 0 <= r < 5 ==> m.a[r].role == roles[r] && m.b[r].role == roles[r])
      && (forall r :: 0 <= r < 5 ==> m.a[r].player in teamA[..5] && m.b[r].player in teamB[..5])
  {
    TeamRoles(teamA, roles);
    TeamRoles(teamB, roles);
  }

  /** Matchup ci is the matchup of split ci. */
  lemma MatchupAt(ten: seq<Player>, roles: seq<string>, ci: nat)
    requires |ten| >= 10 && |roles| == 5 && ci < |Splits(|ten|)|
    ensures var c := Splits(|ten|)[ci];
      && Below(c, |ten|) && |c| == 5 && |Complement(c, 0, |ten|)| == |ten| - 5
      && Matchups(ten, roles)[ci] == MatchupOf(Pick(ten, c), Pick(ten, Complement(c, 0, |ten|)), roles)
  {
    SplitShapes(|ten|);
  }

  /** The three reported matchups are the most even ones: they come from
      the matchups, in order of increasing gap, no left-out matchup has a
      smaller gap than a reported one, and among equal gaps the earlier
      split is reported first. */
  lemma {:induction false} TopThreeSpec(all: seq<Matchup>)
    ensures |TopThree(all)| == Min(3, |all|)
    ensures multiset(TopThree(all)) <= multiset(all)
    ensures forall i, j :: 0 <= i < j < |TopThree(all)| ==> TopThree(all)[i].gap <= TopThree(all)[j].gap
    ensures forall t, m :: t in TopThree(all) && m in multiset(all) - multiset(TopThree(all)) ==> t.gap <= m.gap
    ensures forall g :: WithKey(TopThree(all), GapKey, g) <= WithKey(all, GapKey, g)
  {
    var sorted := SortByKey(all, GapKey);
    SortByKeyStable(all, GapKey);
    SortedPrefix(all, GapKey, Min(3, |all|));
    forall g ensures WithKey(TopThree(all), GapKey, g) <= WithKey(all, GapKey, g) {
      WithKeyPrefix(sorted, Min(3, |all|), GapKey, g);
    }
  }

  /** With ten players there are always three matchups to report. */
  lemma ThreeReported(ten: seq<Player>, roles: seq<string>)
    requires |ten| == 10 && |roles| == 5
    ensures |TopThree(Matchups(ten, roles))| == 3
  {
    MatchupCount(ten, roles);
    TopThreeSpec(Matchups(ten, roles));
  }

  // ---------------------------------------------------------------------
  // The command

  /** `run` fails with an index error when fewer than ten players are
      given. */
  datatype RunError = TooFewPlayers(count: nat)

  /** `run`: the roster is synced with the store first (new players are
      stored even when the command then fails), and the first ten players
      are split; `roles` is the module's ROLES. */
  method Run(store: Store, rows: seq<RosterRow>, roles: seq<string>) returns (r: Result<seq<Matchup>, RunError>, newStore: Store)
    requires |roles| == 5
    ensures newStore == SyncStore(store, rows, |rows|)
    ensures |rows| < 10 ==> r == Err(TooFewPlayers(|rows|))
    ensures |rows| >= 10 ==> r == Ok(TopThree(Matchups(SyncedPlayers(store, rows, |rows|)[..10], roles)))
  {
    var players;
    players, newStore := SyncPlayers(store, rows);
    if |players| < 10 {
      r := Err(TooFewPlayers(|players|));
    } else {
      var all := AllMatchups(players[..10], roles);
      r := Ok(TopThree(all));
    }
  }
}
