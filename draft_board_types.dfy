/** The records and constants shared by the client (client/src/lib/draftBoardTypes.ts). */
module DraftBoardTypes {
  import opened Wrappers
  import Text
  import Seqs

  /** A ranked prospect. `order` is the player's rank on the board. The notes
      are optional: a player created without them has none (not even ""). */
  datatype Player = Player(
    id: int,
    name: string,
    position: string,
    school: string,
    grade: int,
    tier: int,
    notes: Option<string>,
    order: int)

  /** One entry of a reorder request: give player `id` the rank `order`. */
  datatype ReorderPlayerItem = ReorderPlayerItem(id: int, order: int)

  /** The fields of the add-player form. */
  datatype PlayerFormData = PlayerFormData(
    name: string,
    position: string,
    school: string,
    grade: int,
    tier: int,
    notes: string)

  /** Board filters: `position` and `tier` hold "all" or a value, `search` free text. */
  datatype FilterOptions = FilterOptions(position: string, tier: string, search: string)

  datatype SortField = Rank | Name | Position | School | Grade | Tier

  datatype SortDirection = Asc | Desc

  datatype SortOption = SortOption(field: SortField, direction: SortDirection)

  datatype TierInfo = TierInfo(id: int, name: string)

  const Positions: seq<string> := ["QB", "RB", "WR", "TE", "OL", "DL", "LB", "CB", "S", "K", "P", "DEF"]

  const Tiers: seq<TierInfo> := [
    TierInfo(1, "Tier 1"),
    TierInfo(2, "Tier 2"),
    TierInfo(3, "Tier 3"),
    TierInfo(4, "Tier 4"),
    TierInfo(5, "Tier 5")
  ]

  const TierColors: map<int, string> := map[1 := "tier-1", 2 := "tier-2", 3 := "tier-3", 4 := "tier-4", 5 := "tier-5"]

  const DefaultPlayer: PlayerFormData := PlayerFormData("", "", "", 75, 3, "")

  /** The position list has twelve different entries. */
  lemma PositionsDistinct()
    ensures |Positions| == 12
    ensures forall i, j :: 0 <= i < j < |Positions| ==> Positions[i] != Positions[j]
  {
  }

  /** Tier ids are 1..5 in order and tier `k` is called "Tier k". */
  lemma TiersNumbered()
    ensures |Tiers| == 5
    ensures forall k :: 0 <= k < |Tiers| ==> Tiers[k].id == k + 1 && Tiers[k].name == "Tier " + Text.IntToString(k + 1)
  {
    forall k | 0 <= k < |Tiers|
      ensures Tiers[k].name == "Tier " + Text.IntToString(k + 1)
    {
      assert Text.IntToString(k + 1) == [Text.DigitChar(k + 1)];
    }
  }

  /** Every tier id has a colour and nothing else has one. */
  lemma TierColorsCoverTiers()
    ensures TierColors.Keys == set k | 0 <= k < |Tiers| :: Tiers[k].id
  {
    var ids := set k | 0 <= k < |Tiers| :: Tiers[k].id;
    assert Tiers[0].id == 1 && Tiers[1].id == 2 && Tiers[2].id == 3 && Tiers[3].id == 4 && Tiers[4].id == 5;
    assert 1 in ids && 2 in ids && 3 in ids && 4 in ids && 5 in ids;
  }

  /** The comparator `(a, b) => a.order - b.order`, read as "a may come before b". */
  function ByOrder(a: Player, b: Player): bool
  {
    a.order <= b.order
  }

  lemma ByOrderIsTotalPreorder()
    ensures Seqs.TotalPreorder(ByOrder)
  {
  }

  /** The search both player lists apply: an empty search keeps everyone,
      any other keeps the players whose lower-cased name or school contains
      the lower-cased search text. */
  function MatchesSearch(p: Player, search: string): (r: bool)
    ensures search == "" ==> r
    ensures search != "" ==> (r <==> Text.Includes(Text.ToLower(p.name), Text.ToLower(search)) || Text.Includes(Text.ToLower(p.school), Text.ToLower(search)))
  {
    if search == "" then true
    else
      var searchLower := Text.ToLower(search);
      Text.Includes(Text.ToLower(p.name), searchLower) || Text.Includes(Text.ToLower(p.school), searchLower)
  }
}
