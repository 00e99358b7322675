/** The Firestore `players` collection that all three commands share, as a
    map from document id (the player's name) to the fields the commands read
    and write. A field a document does not hold is None, as `dict.get`
    would find it missing. */
module PlayerStore {
  import opened Wrappers

  /** One `players/<name>` document. The per-role builder writes `name`,
      `primary`, `secondary` and `mmr_map`; the single-rating builder writes
      `name`, `mmr` and `rank`; the result upload rewrites `mmr_map` only. */
  datatype PlayerDoc = PlayerDoc(
    name: Option<string>,
    primary: Option<string>,
    secondary: Option<string>,
    mmrMap: Option<map<string, int>>,
    mmr: Option<int>,
    rank: Option<string>)

  type Store = map<string, PlayerDoc>

  /** `data.get("mmr_map", {})` */
  function RatingMap(d: PlayerDoc): (m: map<string, int>)
    ensures d.mmrMap.Some? ==> m == d.mmrMap.value
    ensures d.mmrMap.None? ==> m == map[]
  {
    d.mmrMap.GetOr(map[])
  }

  /** `doc_ref.set({...})` of the per-role builder: the whole document is
      replaced by these four fields. */
  function RoleSeededDoc(name: string, primary: string, secondary: string, ratings: map<string, int>): (d: PlayerDoc)
    ensures RatingMap(d) == ratings
    ensures d.mmr.None? && d.rank.None?
    ensures d.primary == Some(primary) && d.secondary == Some(secondary)
  {
    PlayerDoc(Some(name), Some(primary), Some(secondary), Some(ratings), None, None)
  }

  /** `doc_ref.set({...})` of the single-rating builder. */
  function RatingSeededDoc(name: string, mmr: int, rank: string): (d: PlayerDoc)
    ensures RatingMap(d) == map[]
    ensures d.mmr == Some(mmr) && d.rank == Some(rank)
    ensures d.primary.None? && d.secondary.None?
  {
    PlayerDoc(Some(name), None, None, None, Some(mmr), Some(rank))
  }
}
