/** Post-match rating update for the result-upload command: choosing the
    winning and losing teams from the screenshot reading, pairing every winner
    with the first loser in the same role, the gains and losses that follow,
    the role-swap report, committing the new ratings to the player store, and
    the confirm/cancel button ids. */
module GameResults {
  import opened Wrappers
  import opened Text
  import opened PlayerStore

  /** One row of a team as read from the screenshot: the player's name and
      the role actually played (upper case: "TOP", "JUNGLE", ...). */
  datatype Slot = Slot(ign: string, role: string)

  /** Everything the screenshot reading returns that the rating update uses. */
  datatype GameReport = GameReport(result: string, perspective: int, team1: seq<Slot>, team2: seq<Slot>)

  /** One entry of `mmr_changes`. */
  datatype MmrChange = MmrChange(
    role: string, change: int, oldMmr: int, newMmr: int, opponent: string, opponentMmr: int)

  /** One entry of `role_swaps`. */
  datatype RoleSwap = RoleSwap(player: string, expected: string, actual: string)

  /** One `game_history` document, without the game id and the time stamp. */
  datatype HistoryEntry = HistoryEntry(
    playerName: string, rolePlayed: string, wasRoleSwap: bool, result: string,
    mmrBefore: int, mmrAfter: int, mmrChange: int, opponent: string, opponentMmr: int)

  /** What a click on one of the confirmation buttons asks for. */
  datatype ButtonAction =
    | NoButtonData          // no `custom_id` at all: the handler fails and reports the error
    | InvalidButton         // a `custom_id` without ':'
    | CancelResults(id: string)
    | ConfirmResults(id: string)
    | OtherAction           // some other action before the ':': nothing happens

  const DEFAULT_RATING := 1500
  const BASE_GAIN := 25
  const MAX_BONUS := 35
  const LOSS := -25
  const NO_PREFERENCE := "FILL"
  const CONFIRM_ACTION := "confirm_results"
  const CANCEL_ACTION := "cancel_results"

  // ---------------------------------------------------------------------
  // Reading the screenshot result

  /** The markdown fence clean-up applied to the model's reply before it is
      parsed as JSON. */
  function StripFences(text: string): string {
    var t0 := Strip(text);
    var t1 := if StartsWith(t0, "```json") then t0[7..] else t0;
    var t2 := if StartsWith(t1, "```") then t1[3..] else t1;
    var t3 := if EndsWith(t2, "```") then t2[..|t2| - 3] else t2;
    Strip(t3)
  }

  /** A reply wrapped in a json code fence comes back as its stripped body. */
  lemma JsonFenceRemoved(body: string)
    requires |body| == 0 || body[0] != '`'
    ensures StripFences("```json" + body + "```") == Strip(body)
  {
    var text := "```json" + body + "```";
    StripUnchanged(text);
    assert text[..7] == "```json";
    var t1 := text[7..];
    assert t1 == body + "```";
    if |body| == 0 {
      assert StartsWith(t1, "```");
      assert t1[3..] == "";
    } else {
      assert t1[0] == body[0];
      assert !StartsWith(t1, "```");
      assert t1[|t1| - 3..] == "```";
      assert t1[..|t1| - 3] == body;
    }
  }

  /** A reply without fences is only stripped of surrounding whitespace. */
  lemma UnfencedReplyKept(text: string)
    requires !StartsWith(Strip(text), "```") && !EndsWith(Strip(text), "```")
    ensures StripFences(text) == Strip(text)
  {
    var t0 := Strip(text);
    if |t0| >= 7 {
      assert t0[..7][..3] == t0[..3];
    }
    assert !StartsWith(t0, "```json");
    StripUnchanged(t0);
  }

  /** The team number the `f"team{n}"` lookups use for the winners. */
  function WinningNumber(g: GameReport): int {
    if g.result == "VICTORY" then g.perspective else if g.perspective == 1 then 2 else 1
  }

  function LosingNumber(g: GameReport): int {
    if g.result == "VICTORY" then (if g.perspective == 1 then 2 else 1) else g.perspective
  }

  /** `game_data[f"team{n}"]`; any other number is a KeyError. */
  function TeamByNumber(g: GameReport, n: int): Option<seq<Slot>> {
    if n == 1 then Some(g.team1) else if n == 2 then Some(g.team2) else None
  }

  /** The (winning team, losing team) pair, or None when the lookup fails and
      the analysis reports an error. */
  function SelectTeams(g: GameReport): (r: Option<(seq<Slot>, seq<Slot>)>) {
    match (TeamByNumber(g, WinningNumber(g)), TeamByNumber(g, LosingNumber(g)))
    case (Some(w), Some(l)) => Some((w, l))
    case _ => None
  }

  /** The teams are found exactly when the perspective team is 1 or 2; then
      the two numbers differ, and the perspective team is the winner exactly
      when the screenshot says "VICTORY". */
  lemma SelectTeamsSpec(g: GameReport)
    ensures SelectTeams(g).Some? <==> g.perspective == 1 || g.perspective == 2
    ensures SelectTeams(g).Some? ==>
      {WinningNumber(g), LosingNumber(g)} == {1, 2} &&
      (WinningNumber(g) == g.perspective <==> g.result == "VICTORY") &&
      SelectTeams(g).value.0 == TeamByNumber(g, WinningNumber(g)).value &&
      SelectTeams(g).value.1 == TeamByNumber(g, LosingNumber(g)).value
  {
  }

  // ---------------------------------------------------------------------
  // Rating changes

  /** `player_mmrs[name].get(role, 1500)` */
  function RatingFor(ratings: map<string, int>, role: string): int {
    if role in ratings then ratings[role] else DEFAULT_RATING
  }

  /** `25 + min(35, max(0, diff // 100))` with diff the opponent's rating minus
      the winner's. */
  function WinnerGain(winnerMmr: int, opponentMmr: int): (gain: int)
    ensures BASE_GAIN <= gain <= BASE_GAIN + MAX_BONUS
  {
    var bonus := (opponentMmr - winnerMmr) / 100;
    BASE_GAIN + (if bonus < 0 then 0 else if bonus > MAX_BONUS then MAX_BONUS else bonus)
  }

  /** The bonus counts the whole hundreds by which the opponent out-rates the
      winner, capped at 35: no bonus against a weaker or equal opponent, the
      full 60 once the gap reaches 3500. */
  lemma WinnerGainHundreds(winnerMmr: int, opponentMmr: int)
    ensures var gain, diff := WinnerGain(winnerMmr, opponentMmr), opponentMmr - winnerMmr;
      (diff < 100 ==> gain == BASE_GAIN) &&
      (diff >= 3500 ==> gain == BASE_GAIN + MAX_BONUS) &&
      (0 <= diff < 3600 ==> 100 * (gain - BASE_GAIN) <= diff < 100 * (gain - BASE_GAIN + 1))
  {
  }

  /** Beating a stronger opponent never gains less. */
  lemma WinnerGainMonotone(winnerMmr: int, opponentMmr: int, strongerMmr: int)
    requires opponentMmr <= strongerMmr
    ensures WinnerGain(winnerMmr, opponentMmr) <= WinnerGain(winnerMmr, strongerMmr)
  {
  }

  /** Position of the first slot with the given role. */
  function FirstWithRole(team: seq<Slot>, role: string): (r: Option<nat>)
    ensures r.Some? ==>
      r.value < |team| && team[r.value].role == role &&
      forall j :: 0 <= j < r.value ==> team[j].role != role
    ensures r.None? ==> forall j :: 0 <= j < |team| ==> team[j].role != role
  {
    if |team| == 0 then None
    else if team[0].role == role then Some(0)
    else match FirstWithRole(team[1..], role)
      case None => None
      case Some(i) => Some(i + 1)
  }

  /** `next((p for p in losing_team if p["role"] == role), None)` */
  function Opponent(losers: seq<Slot>, role: string): Option<Slot> {
    match FirstWithRole(losers, role)
    case None => None
    case Some(i) => Some(losers[i])
  }

  predicate AllStored(store: Store, team: seq<Slot>) {
    forall i :: 0 <= i < |team| ==> team[i].ign in store
  }

  function WinnerEntry(store: Store, w: Slot, o: Slot): MmrChange
    requires w.ign in store && o.ign in store
  {
    var wm := RatingFor(RatingMap(store[w.ign]), w.role);
    var om := RatingFor(RatingMap(store[o.ign]), w.role);
    var gain := WinnerGain(wm, om);
    MmrChange(w.role, gain, wm, wm + gain, o.ign, om)
  }

  function LoserEntry(store: Store, w: Slot, o: Slot): MmrChange
    requires w.ign in store && o.ign in store
  {
    var wm := RatingFor(RatingMap(store[w.ign]), w.role);
    var om := RatingFor(RatingMap(store[o.ign]), w.role);
    MmrChange(w.role, LOSS, om, om + LOSS, w.ign, wm)
  }

  /** The `mmr_changes` dictionary after the matching loop has handled the
      given winners, in order: a winner without a same-role opponent is
      skipped; otherwise the winner's entry and then the opponent's entry are
      written, replacing whatever either name held before. */
  function Matched(store: Store, winners: seq<Slot>, losers: seq<Slot>): map<string, MmrChange>
    requires AllStored(store, winners) && AllStored(store, losers)
  {
    if |winners| == 0 then map[]
    else
      var init, w := winners[..|winners| - 1], winners[|winners| - 1];
      var acc := Matched(store, init, losers);
      match FirstWithRole(losers, w.role)
      case None => acc
      case Some(i) =>
        var o := losers[i];
        acc[w.ign := WinnerEntry(store, w, o)][o.ign := LoserEntry(store, w, o)]
  }

  /** Whether the store's preferences make the role actually played a swap.
      Missing preferences read as "FILL", and a "FILL" primary never swaps. */
  predicate IsRoleSwap(d: PlayerDoc, actual: string) {
    var primary, secondary := d.primary.GetOr(NO_PREFERENCE), d.secondary.GetOr(NO_PREFERENCE);
    actual != primary && actual != secondary && primary != NO_PREFERENCE
  }

  function SwapRecord(d: PlayerDoc, p: Slot): RoleSwap {
    RoleSwap(p.ign, d.primary.GetOr(NO_PREFERENCE) + "/" + d.secondary.GetOr(NO_PREFERENCE), p.role)
  }

  /** The role-swap list for the given slots, in their order. */
  function RoleSwaps(store: Store, players: seq<Slot>): seq<RoleSwap>
    requires AllStored(store, players)
  {
    if |players| == 0 then []
    else
      var init, p := players[..|players| - 1], players[|players| - 1];
      RoleSwaps(store, init) + (if IsRoleSwap(store[p.ign], p.role) then [SwapRecord(store[p.ign], p)] else [])
  }

  lemma AllStoredConcat(store: Store, winners: seq<Slot>, losers: seq<Slot>)
    ensures AllStored(store, winners + losers) <==> AllStored(store, winners) && AllStored(store, losers)
  {
    var everyone := winners + losers;
    if AllStored(store, winners) && AllStored(store, losers) {
      forall i | 0 <= i < |everyone| ensures everyone[i].ign in store {
        if i >= |winners| { assert everyone[i] == losers[i - |winners|]; }
      }
    }
    if AllStored(store, everyone) {
      forall i | 0 <= i < |winners| ensures winners[i].ign in store {
        assert everyone[i] == winners[i];
      }
      forall i | 0 <= i < |losers| ensures losers[i].ign in store {
        assert everyone[|winners| + i] == losers[i];
      }
    }
  }

  /** The first loop of `calculate_mmr_changes`: every player's document and
      rating map (`player_data`, `player_mmrs`), or None as soon as a player
      is missing from the store. */
  method LookUpPlayers(store: Store, everyone: seq<Slot>)
    returns (r: Option<(map<string, PlayerDoc>, map<string, map<string, int>>)>)
    ensures r.None? <==> !AllStored(store, everyone)
    ensures r.Some? ==>
      (forall name :: name in r.value.0 ==> name in store && r.value.0[name] == store[name]) &&
      (forall i :: 0 <= i < |everyone| ==> everyone[i].ign in r.value.0) &&
      (forall name :: name in r.value.1 <==> name in r.value.0) &&
      (forall name :: name in r.value.1 ==> r.value.1[name] == RatingMap(store[name]))
  {
    var docs: map<string, PlayerDoc> := map[];
    var ratings: map<string, map<string, int>> := map[];
    for i := 0 to |everyone|
      invariant forall name :: name in docs ==> name in store && docs[name] == store[name]
      invariant forall j :: 0 <= j < i ==> everyone[j].ign in docs
      invariant forall name :: name in ratings <==> name in docs
      invariant forall name :: name in ratings ==> ratings[name] == RatingMap(store[name])
    {
      var name := everyone[i].ign;
      if name in store {
        docs := docs[name := store[name]];
        ratings := ratings[name := RatingMap(store[name])];
      } else {
        return None;
      }
    }
    return Some((docs, ratings));
  }

  /** The second loop: the role-swap list, in slot order. */
  method DetectRoleSwaps(store: Store, docs: map<string, PlayerDoc>, everyone: seq<Slot>)
    returns (swaps: seq<RoleSwap>)
    requires AllStored(store, everyone)
    requires forall i :: 0 <= i < |everyone| ==> everyone[i].ign in docs && docs[everyone[i].ign] == store[everyone[i].ign]
    ensures swaps == RoleSwaps(store, everyone)
  {
    swaps := [];
    for i := 0 to |everyone|
      invariant swaps == RoleSwaps(store, everyone[..i])
    {
      var player := everyone[i];
      var data := docs[player.ign];
      var primary := data.primary.GetOr(NO_PREFERENCE);
      var secondary := data.secondary.GetOr(NO_PREFERENCE);
      if player.role != primary && player.role != secondary && primary != NO_PREFERENCE {
        swaps := swaps + [RoleSwap(player.ign, primary + "/" + secondary, player.role)];
      }
      assert everyone[..i + 1][..i] == everyone[..i];
    }
    assert everyone[..|everyone|] == everyone;
  }

  /** The third loop: pairs every winner with the first same-role loser and
      writes both entries. */
  method MatchByRole(store: Store, ratings: map<string, map<string, int>>, winners: seq<Slot>, losers: seq<Slot>)
    returns (changes: map<string, MmrChange>)
    requires AllStored(store, winners) && AllStored(store, losers)
    requires forall i :: 0 <= i < |winners| ==> winners[i].ign in ratings && ratings[winners[i].ign] == RatingMap(store[winners[i].ign])
    requires forall i :: 0 <= i < |losers| ==> losers[i].ign in ratings && ratings[losers[i].ign] == RatingMap(store[losers[i].ign])
    ensures changes == Matched(store, winners, losers)
  {
    changes := map[];
    for i := 0 to |winners|
      invariant changes == Matched(store, winners[..i], losers)
    {
      changes := MatchWinner(store, ratings, winners, losers, i, changes);
    }
    assert winners[..|winners|] == winners;
  }

  /** One pass of the matching loop: winner i and the first loser in the
      same role, if any, get their entries. */
  method MatchWinner(store: Store, ratings: map<string, map<string, int>>, winners: seq<Slot>, losers: seq<Slot>,
                     i: nat, changes: map<string, MmrChange>)
    returns (newChanges: map<string, MmrChange>)
    requires AllStored(store, winners) && AllStored(store, losers) && i < |winners|
    requires winners[i].ign in ratings && ratings[winners[i].ign] == RatingMap(store[winners[i].ign])
    requires forall i :: 0 <= i < |losers| ==> losers[i].ign in ratings && ratings[losers[i].ign] == RatingMap(store[losers[i].ign])
    requires changes == Matched(store, winners[..i], losers)
    ensures newChanges == Matched(store, winners[..i + 1], losers)
  {
    var winner := winners[i];
    MatchedSnoc(store, winners, losers, i);
    newChanges := changes;
    var found := FirstWithRole(losers, winner.role);
    if found.None? {
      return;
    }
    var o := losers[found.value];
    var winnerMmr := RatingFor(ratings[winner.ign], winner.role);
    var opponentMmr := RatingFor(ratings[o.ign], winner.role);
    var diff := opponentMmr - winnerMmr;
    var bonus := diff / 100;
    bonus := if bonus < 0 then 0 else bonus;
    bonus := if bonus > MAX_BONUS then MAX_BONUS else bonus;
    var gain := BASE_GAIN + bonus;
    newChanges := newChanges[winner.ign := MmrChange(winner.role, gain, winnerMmr, winnerMmr + gain, o.ign, opponentMmr)];
    newChanges := newChanges[o.ign := MmrChange(winner.role, LOSS, opponentMmr, opponentMmr + LOSS, winner.ign, winnerMmr)];
  }

  /** The matching after one more winner. */
  lemma MatchedSnoc(store: Store, winners: seq<Slot>, losers: seq<Slot>, i: nat)
    requires AllStored(store, winners) && AllStored(store, losers) && i < |winners|
    ensures AllStored(store, winners[..i]) && AllStored(store, winners[..i + 1])
    ensures var w := winners[i]; var acc := Matched(store, winners[..i], losers);
      Matched(store, winners[..i + 1], losers) ==
        match FirstWithRole(losers, w.role)
        case None => acc
        case Some(k) => acc[w.ign := WinnerEntry(store, w, losers[k])][losers[k].ign := LoserEntry(store, w, losers[k])]
  {
    assert winners[..i + 1][..i] == winners[..i];
  }

  /** `calculate_mmr_changes(winning_team, losing_team)`, with the store
      lookups reading the given player store: None when a player is not
      registered, otherwise the rating changes and the role swaps. */
  method CalculateMmrChanges(store: Store, winners: seq<Slot>, losers: seq<Slot>)
    returns (r: Option<(map<string, MmrChange>, seq<RoleSwap>)>)
    ensures r.None? <==> !(AllStored(store, winners) && AllStored(store, losers))
    ensures r.Some? ==>
      AllStored(store, winners) && AllStored(store, losers) &&
      r.value == (Matched(store, winners, losers), RoleSwaps(store, winners + losers))
  {
    var everyone := winners + losers;
    AllStoredConcat(store, winners, losers);
    var found := LookUpPlayers(store, everyone);
    if found.None? {
      return None;
    }
    var (docs, ratings) := found.value;
    var swaps := DetectRoleSwaps(store, docs, everyone);
    assert forall i :: 0 <= i < |winners| ==> winners[i] == everyone[i];
    assert forall i :: 0 <= i < |losers| ==> losers[i] == everyone[|winners| + i];
    var changes := MatchByRole(store, ratings, winners, losers);
    return Some((changes, swaps));
  }

  // ---------------------------------------------------------------------
  // What the matching loop produces

  /** Whether handling winner w writes an entry under name n: w has a
      same-role opponent and n is w's name or the opponent's. */
  predicate Touches(losers: seq<Slot>, w: Slot, n: string) {
    var found := FirstWithRole(losers, w.role);
    found.Some? && (w.ign == n || losers[found.value].ign == n)
  }

  /** Every entry records its new rating as old rating plus change, the change
      is the flat loss or a gain between 25 and 60, and the role is one that
      some winner played. */
  lemma {:induction false} MatchedEntries(store: Store, winners: seq<Slot>, losers: seq<Slot>, n: string)
    requires AllStored(store, winners) && AllStored(store, losers)
    requires n in Matched(store, winners, losers)
    ensures var c := Matched(store, winners, losers)[n];
      c.newMmr == c.oldMmr + c.change &&
      (c.change == LOSS || BASE_GAIN <= c.change <= BASE_GAIN + MAX_BONUS) &&
      exists i :: 0 <= i < |winners| && winners[i].role == c.role
  {
    var init, w := winners[..|winners| - 1], winners[|winners| - 1];
    var acc := Matched(store, init, losers);
    assert AllStored(store, init) by {
      forall i | 0 <= i < |init| ensures init[i].ign in store { assert init[i] == winners[i]; }
    }
    var found := FirstWithRole(losers, w.role);
    if found.Some? && (n == w.ign || n == losers[found.value].ign) {
      assert winners[|winners| - 1].role == w.role;
    } else {
      assert n in acc;
      MatchedEntries(store, init, losers, n);
      var c := acc[n];
      var i :| 0 <= i < |init| && init[i].role == c.role;
      assert winners[i] == init[i];
    }
  }

  /** A name has an entry exactly when some winner's handling touched it. */
  lemma {:induction false} MatchedKeys(store: Store, winners: seq<Slot>, losers: seq<Slot>, n: string)
    requires AllStored(store, winners) && AllStored(store, losers)
    ensures n in Matched(store, winners, losers) <==> exists i :: 0 <= i < |winners| && Touches(losers, winners[i], n)
  {
    if |winners| > 0 {
      var init := winners[..|winners| - 1];
      MatchedKeysStep(store, winners, losers, n);
      MatchedKeys(store, init, losers, n);
      TouchedSnoc(winners, init, losers, n);
    }
  }

  /** The last winner adds exactly the names it touches. */
  lemma MatchedKeysStep(store: Store, winners: seq<Slot>, losers: seq<Slot>, n: string)
    requires AllStored(store, winners) && AllStored(store, losers) && |winners| > 0
    ensures AllStored(store, winners[..|winners| - 1])
    ensures n in Matched(store, winners, losers) <==>
      n in Matched(store, winners[..|winners| - 1], losers) || Touches(losers, winners[|winners| - 1], n)
  {
    var init := winners[..|winners| - 1];
    assert AllStored(store, init) by {
      forall i | 0 <= i < |init| ensures init[i].ign in store { assert init[i] == winners[i]; }
    }
  }

  /** Some winner touches the name when some earlier one or the last does. */
  lemma TouchedSnoc(winners: seq<Slot>, init: seq<Slot>, losers: seq<Slot>, n: string)
    requires |winners| > 0 && init == winners[..|winners| - 1]
    ensures (exists i :: 0 <= i < |winners| && Touches(losers, winners[i], n)) <==>
      (exists i :: 0 <= i < |init| && Touches(losers, init[i], n)) || Touches(losers, winners[|winners| - 1], n)
  {
    if exists i :: 0 <= i < |init| && Touches(losers, init[i], n) {
      var i :| 0 <= i < |init| && Touches(losers, init[i], n);
      assert winners[i] == init[i];
    }
    if exists i :: 0 <= i < |winners| && Touches(losers, winners[i], n) {
      var i :| 0 <= i < |winners| && Touches(losers, winners[i], n);
      if i < |init| { assert init[i] == winners[i]; }
    }
  }

  /** The entry under a name is the one written by the last winner whose
      handling touched that name: the opponent's entry when the name is the
      opponent's (it is written second), the winner's entry otherwise. */
  lemma {:induction false} LastTouchDecides(store: Store, winners: seq<Slot>, losers: seq<Slot>, j: nat, n: string)
    requires AllStored(store, winners) && AllStored(store, losers)
    requires j < |winners| && Touches(losers, winners[j], n)
    requires forall k :: j < k < |winners| ==> !Touches(losers, winners[k], n)
    ensures var w, o := winners[j], losers[FirstWithRole(losers, winners[j].role).value];
      n in Matched(store, winners, losers) &&
      Matched(store, winners, losers)[n] == (if o.ign == n then LoserEntry(store, w, o) else WinnerEntry(store, w, o))
  {
    var init, w := winners[..|winners| - 1], winners[|winners| - 1];
    assert AllStored(store, init) by {
      forall i | 0 <= i < |init| ensures init[i].ign in store { assert init[i] == winners[i]; }
    }
    if j < |winners| - 1 {
      assert init[j] == winners[j];
      forall k | j < k < |init| ensures !Touches(losers, init[k], n) {
        assert init[k] == winners[k];
      }
      LastTouchDecides(store, init, losers, j, n);
      assert !Touches(losers, w, n);
    }
  }

  /** No name appears twice across the two teams. */
  predicate DistinctNames(players: seq<Slot>) {
    forall i, j :: 0 <= i < j < |players| ==> players[i].ign != players[j].ign
  }

  lemma DistinctTeams(winners: seq<Slot>, losers: seq<Slot>)
    requires DistinctNames(winners + losers)
    ensures forall i, k :: 0 <= i < |winners| && 0 <= k < |losers| ==> winners[i].ign != losers[k].ign
    ensures DistinctNames(winners) && DistinctNames(losers)
  {
    var everyone := winners + losers;
    forall i, k | 0 <= i < |winners| && 0 <= k < |losers| ensures winners[i].ign != losers[k].ign {
      assert everyone[i] == winners[i] && everyone[|winners| + k] == losers[k];
    }
    forall i, j | 0 <= i < j < |winners| ensures winners[i].ign != winners[j].ign {
      assert everyone[i] == winners[i] && everyone[j] == winners[j];
    }
    forall i, j | 0 <= i < j < |losers| ensures losers[i].ign != losers[j].ign {
      assert everyone[|winners| + i] == losers[i] && everyone[|winners| + j] == losers[j];
    }
  }

  /** With distinct names, a winner who has a same-role opponent ends with
      the winner's entry: gain against that opponent's rating in that role. */
  lemma WinnerGetsGain(store: Store, winners: seq<Slot>, losers: seq<Slot>, i: nat)
    requires AllStored(store, winners) && AllStored(store, losers)
    requires DistinctNames(winners + losers)
    requires i < |winners| && FirstWithRole(losers, winners[i].role).Some?
    ensures var w := winners[i];
      var o := losers[FirstWithRole(losers, w.role).value];
      w.ign in Matched(store, winners, losers) &&
      Matched(store, winners, losers)[w.ign] == WinnerEntry(store, w, o)
  {
    DistinctTeams(winners, losers);
    var n := winners[i].ign;
    forall k | i < k < |winners| ensures !Touches(losers, winners[k], n) {
    }
    LastTouchDecides(store, winners, losers, i, n);
  }

  /** With distinct names, a winner with no same-role opponent gets no entry:
      the loop moves on to the next winner. */
  lemma UnmatchedWinnerSkipped(store: Store, winners: seq<Slot>, losers: seq<Slot>, i: nat)
    requires AllStored(store, winners) && AllStored(store, losers)
    requires DistinctNames(winners + losers)
    requires i < |winners| && FirstWithRole(losers, winners[i].role).None?
    ensures winners[i].ign !in Matched(store, winners, losers)
  {
    DistinctTeams(winners, losers);
    MatchedKeys(store, winners, losers, winners[i].ign);
  }

  /** With distinct names, the first loser in a winner's role loses 25 against
      that winner, provided no later winner played the same role. */
  lemma OpponentLoses(store: Store, winners: seq<Slot>, losers: seq<Slot>, j: nat)
    requires AllStored(store, winners) && AllStored(store, losers)
    requires DistinctNames(winners + losers)
    requires j < |winners| && FirstWithRole(losers, winners[j].role).Some?
    requires forall k :: j < k < |winners| ==> winners[k].role != winners[j].role
    ensures var w := winners[j];
      var o := losers[FirstWithRole(losers, w.role).value];
      o.ign in Matched(store, winners, losers) &&
      Matched(store, winners, losers)[o.ign] == LoserEntry(store, w, o)
  {
    DistinctTeams(winners, losers);
    var idx := FirstWithRole(losers, winners[j].role).value;
    var n := losers[idx].ign;
    forall k | j < k < |winners| ensures !Touches(losers, winners[k], n) {
      var found := FirstWithRole(losers, winners[k].role);
      if found.Some? && found.value != idx {
        assert losers[found.value].ign != n;
      }
    }
    LastTouchDecides(store, winners, losers, j, n);
  }

  /** Two winners in the same role are both paired with the same loser, whose
      entry then names the later winner as its opponent. */
  lemma SharedRoleOverwrites(store: Store, a: Slot, b: Slot, o: Slot)
    requires a.ign in store && b.ign in store && o.ign in store
    requires a.role == b.role == o.role
    requires a.ign != o.ign && b.ign != o.ign
    ensures var changes := Matched(store, [a, b], [o]);
      o.ign in changes && changes[o.ign].opponent == b.ign &&
      changes[o.ign] == LoserEntry(store, b, o)
  {
    var winners := [a, b];
    assert winners[..1] == [a];
    assert [a][..0] == [];
  }

  /** The role-swap list of two teams is the first team's list followed by
      the second's. */
  lemma {:induction false} RoleSwapsConcat(store: Store, first: seq<Slot>, second: seq<Slot>)
    requires AllStored(store, first) && AllStored(store, second)
    ensures AllStored(store, first + second)
    ensures RoleSwaps(store, first + second) == RoleSwaps(store, first) + RoleSwaps(store, second)
    decreases |second|
  {
    AllStoredConcat(store, first, second);
    if |second| > 0 {
      var init := second[..|second| - 1];
      assert (first + second)[..|first + second| - 1] == first + init;
      assert AllStored(store, init) by {
        forall i | 0 <= i < |init| ensures init[i].ign in store { assert init[i] == second[i]; }
      }
      RoleSwapsConcat(store, first, init);
    } else {
      assert first + second == first;
    }
  }

  /** s is the swap record of slot p, and p's stored preferences make it a swap. */
  predicate SwapOf(store: Store, p: Slot, s: RoleSwap)
    requires p.ign in store
  {
    IsRoleSwap(store[p.ign], p.role) && s == SwapRecord(store[p.ign], p)
  }

  /** A slot is listed exactly when its stored preferences make it a swap, and
      every listed record describes such a slot. */
  lemma {:induction false} RoleSwapsListed(store: Store, players: seq<Slot>)
    requires AllStored(store, players)
    ensures forall i :: 0 <= i < |players| && IsRoleSwap(store[players[i].ign], players[i].role) ==>
      SwapRecord(store[players[i].ign], players[i]) in RoleSwaps(store, players)
    ensures forall s :: s in RoleSwaps(store, players) ==>
      exists i :: 0 <= i < |players| && SwapOf(store, players[i], s)
  {
    if |players| > 0 {
      var init, p := players[..|players| - 1], players[|players| - 1];
      assert AllStored(store, init) by {
        forall i | 0 <= i < |init| ensures init[i].ign in store { assert init[i] == players[i]; }
      }
      RoleSwapsListed(store, init);
      forall i | 0 <= i < |players| - 1 ensures players[i] == init[i] { }
      forall s | s in RoleSwaps(store, players)
        ensures exists i :: 0 <= i < |players| && SwapOf(store, players[i], s)
      {
        if s in RoleSwaps(store, init) {
          var i :| 0 <= i < |init| && SwapOf(store, init[i], s);
          assert players[i] == init[i];
        } else {
          assert players[|players| - 1] == p;
        }
      }
    }
  }

  // ---------------------------------------------------------------------
  // Committing the changes

  /** `mmr_map[role] = new_mmr` followed by `update({"mmr_map": mmr_map})`:
      only the played role's rating is replaced (or added) and no other field
      of the document changes. */
  function CommitEntry(d: PlayerDoc, c: MmrChange): (r: PlayerDoc)
    ensures r == d.(mmrMap := r.mmrMap)
    ensures RatingMap(r).Keys == RatingMap(d).Keys + {c.role}
    ensures RatingMap(r)[c.role] == c.newMmr
    ensures forall role :: role in RatingMap(d) && role != c.role ==> RatingMap(r)[role] == RatingMap(d)[role]
  {
    d.(mmrMap := Some(RatingMap(d)[c.role := c.newMmr]))
  }

  /** `any(swap["player"] == name for swap in role_swaps)` */
  predicate SwappedIn(swaps: seq<RoleSwap>, name: string) {
    exists i :: 0 <= i < |swaps| && swaps[i].player == name
  }

  function HistoryFor(name: string, c: MmrChange, swaps: seq<RoleSwap>): HistoryEntry {
    HistoryEntry(name, c.role, SwappedIn(swaps, name), if c.change > 0 then "WIN" else "LOSS",
                 c.oldMmr, c.newMmr, c.change, c.opponent, c.opponentMmr)
  }

  /** The player store after every change whose player is still registered
      has been written. */
  function Committed(store: Store, changes: map<string, MmrChange>): (r: Store)
    ensures r.Keys == store.Keys
  {
    map n | n in store :: if n in changes then CommitEntry(store[n], changes[n]) else store[n]
  }

  /** The history documents written, one per changed registered player. */
  function Histories(store: Store, changes: map<string, MmrChange>, swaps: seq<RoleSwap>): (r: map<string, HistoryEntry>)
    ensures r.Keys == changes.Keys * store.Keys
  {
    map n | n in changes && n in store :: HistoryFor(n, changes[n], swaps)
  }

  /** `commit_results_to_firestore`: for each change whose player document
      still exists, update that player's rating in the played role and write
      a history document. Entries are handled one name at a time, and each
      name has one entry, so the order of the dictionary does not matter. */
  method CommitResults(store: Store, changes: map<string, MmrChange>, swaps: seq<RoleSwap>)
    returns (newStore: Store, history: map<string, HistoryEntry>)
    ensures newStore == Committed(store, changes)
    ensures history == Histories(store, changes, swaps)
  {
    newStore := store;
    history := map[];
    var pending := changes.Keys;
    CommitStarts(store, changes, swaps);
    while pending != {}
      invariant CommittedBut(store, changes, swaps, pending, newStore, history)
      decreases |pending|
    {
      var name :| name in pending;
      CommitAdvances(store, changes, swaps, pending, newStore, history, name);
      newStore, history := CommitOne(newStore, history, name, changes[name], swaps);
      pending := pending - {name};
    }
    CommitFinishes(store, changes, swaps, newStore, history);
  }

  /** The loop's state: every change but those pending is written, to the
      store and to the history. */
  ghost predicate CommittedBut(store: Store, changes: map<string, MmrChange>, swaps: seq<RoleSwap>,
                               pending: set<string>, newStore: Store, history: map<string, HistoryEntry>) {
    && pending <= changes.Keys
    && StoreCommittedBut(store, changes, pending, newStore)
    && HistoryCommittedBut(store, changes, swaps, pending, history)
  }

  ghost predicate StoreCommittedBut(store: Store, changes: map<string, MmrChange>, pending: set<string>, newStore: Store) {
    && newStore.Keys == store.Keys
    && forall n :: n in store ==>
         newStore[n] == (if n in changes && n !in pending then CommitEntry(store[n], changes[n]) else store[n])
  }

  ghost predicate HistoryCommittedBut(store: Store, changes: map<string, MmrChange>, swaps: seq<RoleSwap>,
                                      pending: set<string>, history: map<string, HistoryEntry>) {
    && history.Keys == (changes.Keys - pending) * store.Keys
    && forall n :: n in history ==> n in changes && history[n] == HistoryFor(n, changes[n], swaps)
  }

  lemma CommitStarts(store: Store, changes: map<string, MmrChange>, swaps: seq<RoleSwap>)
    ensures CommittedBut(store, changes, swaps, changes.Keys, store, map[])
  {
  }

  /** Handling one pending name keeps the loop's state. */
  lemma CommitAdvances(store: Store, changes: map<string, MmrChange>, swaps: seq<RoleSwap>,
                       pending: set<string>, newStore: Store, history: map<string, HistoryEntry>, name: string)
    requires CommittedBut(store, changes, swaps, pending, newStore, history) && name in pending
    ensures CommittedBut(store, changes, swaps, pending - {name},
      if name in newStore then newStore[name := CommitEntry(newStore[name], changes[name])] else newStore,
      if name in newStore then history[name := HistoryFor(name, changes[name], swaps)] else history)
  {
    StoreAdvances(store, changes, pending, newStore, name);
    HistoryAdvances(store, changes, swaps, pending, history, name, name in newStore);
  }

  lemma StoreAdvances(store: Store, changes: map<string, MmrChange>, pending: set<string>, newStore: Store, name: string)
    requires StoreCommittedBut(store, changes, pending, newStore) && name in pending && name in changes
    ensures StoreCommittedBut(store, changes, pending - {name},
      if name in newStore then newStore[name := CommitEntry(newStore[name], changes[name])] else newStore)
  {
  }

  lemma HistoryAdvances(store: Store, changes: map<string, MmrChange>, swaps: seq<RoleSwap>,
                        pending: set<string>, history: map<string, HistoryEntry>, name: string, stored: bool)
    requires HistoryCommittedBut(store, changes, swaps, pending, history) && name in pending && name in changes
    requires stored <==> name in store
    ensures HistoryCommittedBut(store, changes, swaps, pending - {name},
      if stored then history[name := HistoryFor(name, changes[name], swaps)] else history)
  {
  }

  /** With nothing pending, the store and the history are the committed ones. */
  lemma CommitFinishes(store: Store, changes: map<string, MmrChange>, swaps: seq<RoleSwap>,
                       newStore: Store, history: map<string, HistoryEntry>)
    requires CommittedBut(store, changes, swaps, {}, newStore, history)
    ensures newStore == Committed(store, changes)
    ensures history == Histories(store, changes, swaps)
  {
  }

  /** One pass of the commit loop: the player's document gets the new rating
      in the played role and a history entry is written, when the player is
      still registered. */
  method CommitOne(store: Store, history: map<string, HistoryEntry>, name: string, change: MmrChange, swaps: seq<RoleSwap>)
    returns (newStore: Store, newHistory: map<string, HistoryEntry>)
    ensures newStore == if name in store then store[name := CommitEntry(store[name], change)] else store
    ensures newHistory == if name in store then history[name := HistoryFor(name, change, swaps)] else history
  {
    newStore, newHistory := store, history;
    if name in store {
      var doc := store[name];
      var ratings := RatingMap(doc)[change.role := change.newMmr];
      newStore := store[name := doc.(mmrMap := Some(ratings))];
      var isWinner := change.change > 0;
      var wasRoleSwap := SwappedIn(swaps, name);
      newHistory := history[name := HistoryEntry(name, change.role, wasRoleSwap, if isWinner then "WIN" else "LOSS",
                                                 change.oldMmr, change.newMmr, change.change, change.opponent, change.opponentMmr)];
    }
  }

  /** Committing the matched changes of distinct players raises a paired
      winner's rating in the played role by the gain, lowers the paired
      opponent's by 25 (when no later winner shares the role), records "WIN"
      and "LOSS" accordingly, and leaves every other player's document alone. */
  lemma CommitMatched(store: Store, winners: seq<Slot>, losers: seq<Slot>, swaps: seq<RoleSwap>, j: nat)
    requires AllStored(store, winners) && AllStored(store, losers)
    requires DistinctNames(winners + losers)
    requires j < |winners| && FirstWithRole(losers, winners[j].role).Some?
    requires forall k :: j < k < |winners| ==> winners[k].role != winners[j].role
    ensures var w := winners[j];
      var o := losers[FirstWithRole(losers, w.role).value];
      var changes := Matched(store, winners, losers);
      var after := Committed(store, changes);
      var log := Histories(store, changes, swaps);
      var wm := RatingFor(RatingMap(store[w.ign]), w.role);
      var om := RatingFor(RatingMap(store[o.ign]), w.role);
      RatingFor(RatingMap(after[w.ign]), w.role) == wm + WinnerGain(wm, om) &&
      RatingFor(RatingMap(after[o.ign]), w.role) == om + LOSS &&
      log[w.ign].result == "WIN" && log[o.ign].result == "LOSS"
    ensures forall n :: n in store && n !in Matched(store, winners, losers) ==>
      Committed(store, Matched(store, winners, losers))[n] == store[n]
  {
    WinnerGetsGain(store, winners, losers, j);
    OpponentLoses(store, winners, losers, j);
  }

  // ---------------------------------------------------------------------
  // Confirmation buttons

  /** The `custom_id` of a confirmation button: `f"{action}:{id}"`. */
  function ButtonId(action: string, confirmationId: string): string {
    action + ":" + confirmationId
  }

  /** How `handle_confirmation` reads a button's `custom_id`. */
  function DecodeButton(customId: Option<string>): ButtonAction {
    match customId
    case None => NoButtonData
    case Some(s) =>
      match SplitOnce(s, ':')
      case None => InvalidButton
      case Some(parts) =>
        if parts.0 == CANCEL_ACTION then CancelResults(parts.1)
        else if parts.0 == CONFIRM_ACTION then ConfirmResults(parts.1)
        else OtherAction
  }

  /** Both buttons decode to their action and give back the confirmation id
      unchanged, whatever characters (':' included) the id holds. */
  lemma ButtonRoundTrip(confirmationId: string)
    ensures DecodeButton(Some(ButtonId(CONFIRM_ACTION, confirmationId))) == ConfirmResults(confirmationId)
    ensures DecodeButton(Some(ButtonId(CANCEL_ACTION, confirmationId))) == CancelResults(confirmationId)
  {
    assert ButtonId(CONFIRM_ACTION, confirmationId) == CONFIRM_ACTION + [':'] + confirmationId;
    assert ButtonId(CANCEL_ACTION, confirmationId) == CANCEL_ACTION + [':'] + confirmationId;
    SplitOnceJoin(CONFIRM_ACTION, ':', confirmationId);
    SplitOnceJoin(CANCEL_ACTION, ':', confirmationId);
  }

  /** A `custom_id` is rejected as invalid exactly when it holds no ':'. */
  lemma InvalidButtonIffNoColon(s: string)
    ensures DecodeButton(Some(s)) == InvalidButton <==> ':' !in s
  {
  }
}
