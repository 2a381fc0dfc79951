/** The pure part of the league import (client/src/lib/sleeperApi.ts): the
    default grade and tier tables, the rookie filter and order, and the
    mapping of already-fetched league data into the app's records. */
module SleeperApi {
  import opened Wrappers
  import opened DraftBoardTypes
  import Text
  import Seqs
  import Schema

  /** The fields of a fetched player the import reads. */
  datatype SleeperPlayer = SleeperPlayer(
    playerId: string,
    firstName: string,
    lastName: string,
    position: string,
    college: string,
    yearsExp: int)

  datatype SleeperUser = SleeperUser(userId: string, displayName: string)

  datatype SleeperRoster = SleeperRoster(rosterId: int, ownerId: string)

  datatype SleeperDraftPick = SleeperDraftPick(playerId: string, pickNo: int, round: int, rosterId: int)

  /** The fields of a fetched draft the import reads: its status, the user
      id to draft slot table, and the round count. */
  datatype SleeperDraft = SleeperDraft(status: string, draftOrder: map<string, int>, rounds: int)

  /** A mapped team; `draftPosition` decides the team order. */
  datatype MappedTeam = MappedTeam(id: int, name: string, userId: string, draftPosition: int)

  /** A mapped rookie, remembering the league's id for it. */
  datatype MappedPlayer = MappedPlayer(player: Player, sleeperPlayerId: string)

  datatype MappedPick = MappedPick(id: int, pickNumber: int, round: int, teamId: int, player: MappedPlayer)

  datatype SleeperData = SleeperData(
    teams: seq<MappedTeam>,
    players: seq<MappedPlayer>,
    draftHistory: seq<MappedPick>,
    numberOfRounds: int)

  // ---------------------------------------------------------------- defaults

  const KeyPositions: seq<string> := ["QB", "RB", "WR", "TE"]

  /** The grade a rookie starts with: quarterbacks highest, then running
      backs, receivers, any other position, and tight ends lowest. */
  function DetermineDefaultGrade(position: string): (g: int)
    ensures Schema.ValidGrade(g)
  {
    match position
      case "QB" => 80
      case "RB" => 78
      case "WR" => 76
      case "TE" => 72
      case _ => 75
  }

  /** Every position starts in the middle tier. */
  function DetermineDefaultTier(position: string): (t: int)
    ensures Schema.ValidTier(t) && t == 3
  {
    3
  }

  /** The grade table: QB 80, RB 78, WR 76, TE 72 and 75 for any other
      position, so the key positions rank QB > RB > WR > TE, with any other
      position between WR and TE. */
  lemma DefaultGradeOrder(other: string)
    requires other !in KeyPositions
    ensures DetermineDefaultGrade("QB") == 80 && DetermineDefaultGrade("RB") == 78
    ensures DetermineDefaultGrade("WR") == 76 && DetermineDefaultGrade("TE") == 72
    ensures DetermineDefaultGrade("QB") > DetermineDefaultGrade("RB") > DetermineDefaultGrade("WR")
    ensures DetermineDefaultGrade("WR") > DetermineDefaultGrade(other) > DetermineDefaultGrade("TE")
    ensures DetermineDefaultGrade(other) == 75
  {
    assert other != "QB" && other != "RB" && other != "WR" && other != "TE" by {
      assert KeyPositions[0] == "QB" && KeyPositions[1] == "RB" && KeyPositions[2] == "WR" && KeyPositions[3] == "TE";
    }
  }

  // ---------------------------------------------------------------- rookies

  /** A rookie: no years of experience, at one of the four key positions. */
  predicate IsRookie(p: SleeperPlayer)
  {
    p.yearsExp == 0 && p.position != "" && p.position in KeyPositions
  }

  /** The position's rank in the rookie order; any other position ranks 999. */
  function PositionRank(position: string): int
  {
    match position
      case "QB" => 1
      case "RB" => 2
      case "WR" => 3
      case "TE" => 4
      case _ => 999
  }

  function FullNameLower(p: SleeperPlayer): string
  {
    Text.ToLower(p.firstName + " " + p.lastName)
  }

  /** The rookie comparator: position rank first, then the lower-cased full name. */
  function RookieLe(a: SleeperPlayer, b: SleeperPlayer): bool
  {
    PositionRank(a.position) < PositionRank(b.position)
    || (PositionRank(a.position) == PositionRank(b.position) && Text.LexLe(FullNameLower(a), FullNameLower(b)))
  }

  lemma RookieLeIsTotalPreorder()
    ensures Seqs.TotalPreorder(RookieLe)
  {
    forall a, b ensures RookieLe(a, b) || RookieLe(b, a) {
      Text.LexLeTotal(FullNameLower(a), FullNameLower(b));
    }
    forall a, b, c | RookieLe(a, b) && RookieLe(b, c) ensures RookieLe(a, c) {
      if PositionRank(a.position) == PositionRank(b.position) == PositionRank(c.position) {
        Text.LexLeTransitive(FullNameLower(a), FullNameLower(b), FullNameLower(c));
      }
    }
  }

  /** `fetchRookies` on the fetched players, taken in the order their values
      are listed: exactly the fetched rookies, each as often as fetched,
      ordered by position rank and then by name; rookies with the same rank
      and name keep the order they were fetched in. */
  function FetchRookies(all: seq<SleeperPlayer>): (r: seq<SleeperPlayer>)
    ensures forall p :: multiset(r)[p] == if IsRookie(p) then multiset(all)[p] else 0
    ensures Seqs.SortedBy(r, RookieLe)
    ensures forall a :: Seqs.Filter(r, Seqs.Tied(RookieLe, a)) == Seqs.Filter(Seqs.Filter(all, IsRookie), Seqs.Tied(RookieLe, a))
  {
    var rookies := Seqs.Filter(all, IsRookie);
    RookieLeIsTotalPreorder();
    Seqs.SortSorted(rookies, RookieLe);
    Seqs.SortKeepsEveryTie(rookies, RookieLe);
    Seqs.Sort(rookies, RookieLe)
  }

  // ---------------------------------------------------------------- players

  /** The rookie at index `i` as a board player: id and rank `i + 1`. */
  function MapRookie(rookie: SleeperPlayer, i: int): MappedPlayer
  {
    MappedPlayer(
      Player(i + 1, rookie.firstName + " " + rookie.lastName, rookie.position,
             if rookie.college == "" then "Unknown" else rookie.college,
             DetermineDefaultGrade(rookie.position), DetermineDefaultTier(rookie.position), Some(""), i + 1),
      rookie.playerId)
  }

  /** The mapped players are numbered 1..n in list order, with id equal to
      rank. Each has its rookie's full name and position, its college as
      school or "Unknown" when there is none, the position's default grade,
      tier 3, empty notes, and remembers the rookie's league id. */
  function MapPlayers(rookies: seq<SleeperPlayer>): (r: seq<MappedPlayer>)
    ensures |r| == |rookies|
    ensures forall i :: 0 <= i < |rookies| ==> r[i] == MapRookie(rookies[i], i)
    ensures forall i :: 0 <= i < |r| ==>
        && r[i].player.id == i + 1 && r[i].player.order == i + 1
        && r[i].player.name == rookies[i].firstName + " " + rookies[i].lastName
        && r[i].player.position == rookies[i].position
        && (rookies[i].college != "" ==> r[i].player.school == rookies[i].college)
        && (rookies[i].college == "" ==> r[i].player.school == "Unknown")
        && r[i].player.grade == DetermineDefaultGrade(rookies[i].position)
        && r[i].player.tier == 3
        && r[i].player.notes == Some("")
        && r[i].sleeperPlayerId == rookies[i].playerId
  {
    seq(|rookies|, i requires 0 <= i < |rookies| => MapRookie(rookies[i], i))
  }

  /** The body the import sends when it adds a mapped player to the store. */
  function AddBody(p: Player): Schema.PlayerBody
  {
    Schema.PlayerBody(None, Some(p.name), Some(p.position), Some(p.school), Some(p.grade), Some(p.tier), p.notes, Some(p.order))
  }

  /** Every mapped rookie passes the create schema. */
  lemma MappedRookiesPassSchema(rookies: seq<SleeperPlayer>)
    requires forall i :: 0 <= i < |rookies| ==> IsRookie(rookies[i])
    ensures forall i :: 0 <= i < |rookies| ==> Schema.ParseNewPlayer(AddBody(MapPlayers(rookies)[i].player)).Success?
  {
    forall i | 0 <= i < |rookies| ensures Schema.ParseNewPlayer(AddBody(MapPlayers(rookies)[i].player)).Success? {
      var p := MapPlayers(rookies)[i].player;
      assert |p.name| >= 1;
      assert |p.position| >= 1;
    }
  }

  // ---------------------------------------------------------------- picks

  /** `players.find(p => p.sleeperPlayerId === id)`. */
  function FindBySleeperId(players: seq<MappedPlayer>, id: string): (r: Option<MappedPlayer>)
    ensures r.Some? ==> r.value in players && r.value.sleeperPlayerId == id
    ensures r.Some? ==> exists k :: 0 <= k < |players| && players[k] == r.value && forall j :: 0 <= j < k ==> players[j].sleeperPlayerId != id
    ensures r.None? <==> forall j :: 0 <= j < |players| ==> players[j].sleeperPlayerId != id
  {
    if |players| == 0 then None
    else if players[0].sleeperPlayerId == id then Some(players[0])
    else
      var r := FindBySleeperId(players[1..], id);
      assert r.Some? ==> exists k :: 0 <= k < |players| && players[k] == r.value && forall j :: 0 <= j < k ==> players[j].sleeperPlayerId != id by {
        if r.Some? {
          var k :| 0 <= k < |players[1..]| && players[1..][k] == r.value && forall j :: 0 <= j < k ==> players[1..][j].sleeperPlayerId != id;
          assert players[k + 1] == r.value;
          forall j | 0 <= j < k + 1 ensures players[j].sleeperPlayerId != id {
            if j > 0 { assert players[j] == players[1..][j - 1]; }
          }
        }
      }
      r
  }

  /** The record a pick becomes when its player is among the mapped rookies:
      id and pick number are the pick's number, the team is the pick's roster. */
  function MapPick(pick: SleeperDraftPick, players: seq<MappedPlayer>): (r: Option<MappedPick>)
    ensures r.Some? <==> FindBySleeperId(players, pick.playerId).Some?
    ensures r.Some? ==> && r.value.id == pick.pickNo && r.value.pickNumber == pick.pickNo
                        && r.value.round == pick.round && r.value.teamId == pick.rosterId
                        && r.value.player in players && r.value.player.sleeperPlayerId == pick.playerId
  {
    match FindBySleeperId(players, pick.playerId)
      case None => None
      case Some(p) => Some(MappedPick(pick.pickNo, pick.pickNo, pick.round, pick.rosterId, p))
  }

  /** The draft history: the picks whose player is a mapped rookie, in pick
      list order; the other picks are dropped. */
  function MapDraftHistory(picks: seq<SleeperDraftPick>, players: seq<MappedPlayer>): (r: seq<MappedPick>)
    ensures |r| <= |picks|
  {
    if |picks| == 0 then []
    else
      var rest := MapDraftHistory(picks[..|picks| - 1], players);
      match MapPick(picks[|picks| - 1], players)
        case None => rest
        case Some(m) => rest + [m]
  }

  /** Whether a pick's player is among the mapped rookies. */
  function HasRookie(players: seq<MappedPlayer>): SleeperDraftPick -> bool
  {
    (pick: SleeperDraftPick) => FindBySleeperId(players, pick.playerId).Some?
  }

  /** The record of each pick, every pick having a mapped rookie. */
  function RecordsOf(picks: seq<SleeperDraftPick>, players: seq<MappedPlayer>): (r: seq<MappedPick>)
    requires forall k :: 0 <= k < |picks| ==> FindBySleeperId(players, picks[k].playerId).Some?
    ensures |r| == |picks|
    ensures forall k :: 0 <= k < |picks| ==> r[k] == MapPick(picks[k], players).value
  {
    seq(|picks|, k requires 0 <= k < |picks| => MapPick(picks[k], players).value)
  }

  /** The history is the record of every pick with a matching rookie, each
      once and in pick-list order, so the last pick made is the last record. */
  lemma {:induction false} DraftHistoryInPickOrder(picks: seq<SleeperDraftPick>, players: seq<MappedPlayer>)
    ensures MapDraftHistory(picks, players) == RecordsOf(Seqs.Filter(picks, HasRookie(players)), players)
  {
    if |picks| > 0 {
      var init, last := picks[..|picks| - 1], picks[|picks| - 1];
      var keep := HasRookie(players);
      DraftHistoryInPickOrder(init, players);
      var f := Seqs.Filter(init, keep);
      assert Seqs.Filter(picks, keep) == if keep(last) then f + [last] else f;
      if keep(last) {
        RecordsOfSnoc(f, last, players);
      }
    }
  }

  lemma RecordsOfSnoc(f: seq<SleeperDraftPick>, last: SleeperDraftPick, players: seq<MappedPlayer>)
    requires forall k :: 0 <= k < |f| ==> FindBySleeperId(players, f[k].playerId).Some?
    requires FindBySleeperId(players, last.playerId).Some?
    ensures RecordsOf(f + [last], players) == RecordsOf(f, players) + [MapPick(last, players).value]
  {
  }

  /** A pick of a player outside the rookie list is dropped, so the history
      can skip pick numbers: pick 1 of a veteran and pick 2 of a rookie give
      one record, numbered 2. */
  lemma DroppedPickLeavesGap()
    ensures var players := MapPlayers([SleeperPlayer("r", "A", "B", "QB", "", 0)]);
      var h := MapDraftHistory([SleeperDraftPick("v", 1, 1, 1), SleeperDraftPick("r", 2, 1, 2)], players);
      |h| == 1 && h[0].pickNumber == 2
  {
    var players := MapPlayers([SleeperPlayer("r", "A", "B", "QB", "", 0)]);
    var picks := [SleeperDraftPick("v", 1, 1, 1), SleeperDraftPick("r", 2, 1, 2)];
    assert FindBySleeperId(players, "v").None?;
    assert FindBySleeperId(players, "r").Some?;
    assert picks[..1] == [picks[0]] && picks[..1][..0] == [];
  }

  /** Each kept record is a fetched pick with a matching rookie, with id and
      pick number the pick's number and team the pick's roster; every pick
      with a matching rookie is kept. */
  lemma {:induction false} DraftHistorySpec(picks: seq<SleeperDraftPick>, players: seq<MappedPlayer>)
    ensures var r := MapDraftHistory(picks, players);
      && (forall e :: e in r ==> exists k :: 0 <= k < |picks| && MapPick(picks[k], players) == Some(e))
      && (forall e :: e in r ==> e.id == e.pickNumber && e.player in players)
      && (forall k :: 0 <= k < |picks| && FindBySleeperId(players, picks[k].playerId).Some? ==>
            MapPick(picks[k], players).value in r)
  {
    if |picks| > 0 {
      var init := picks[..|picks| - 1];
      DraftHistorySpec(init, players);
      var r := MapDraftHistory(picks, players);
      var rest := MapDraftHistory(init, players);
      forall e | e in r ensures exists k :: 0 <= k < |picks| && MapPick(picks[k], players) == Some(e) {
        if e in rest {
          var k :| 0 <= k < |init| && MapPick(init[k], players) == Some(e);
          assert picks[k] == init[k];
        } else {
          assert MapPick(picks[|picks| - 1], players) == Some(e);
        }
      }
      forall k | 0 <= k < |picks| && FindBySleeperId(players, picks[k].playerId).Some?
        ensures MapPick(picks[k], players).value in r
      {
        if k < |init| {
          assert picks[k] == init[k];
        }
      }
    }
  }

  // ---------------------------------------------------------------- teams

  /** `users.find(u => u.user_id === id)`. */
  function FindUser(users: seq<SleeperUser>, id: string): (r: Option<SleeperUser>)
    ensures r.Some? ==> r.value in users && r.value.userId == id
    ensures r.Some? ==> exists k :: 0 <= k < |users| && users[k] == r.value && forall j :: 0 <= j < k ==> users[j].userId != id
    ensures r.None? <==> forall j :: 0 <= j < |users| ==> users[j].userId != id
  {
    if |users| == 0 then None
    else if users[0].userId == id then Some(users[0])
    else
      var r := FindUser(users[1..], id);
      assert r.Some? ==> exists k :: 0 <= k < |users| && users[k] == r.value && forall j :: 0 <= j < k ==> users[j].userId != id by {
        if r.Some? {
          var k :| 0 <= k < |users[1..]| && users[1..][k] == r.value && forall j :: 0 <= j < k ==> users[1..][j].userId != id;
          assert users[k + 1] == r.value;
          forall j | 0 <= j < k + 1 ensures users[j].userId != id {
            if j > 0 { assert users[j] == users[1..][j - 1]; }
          }
        }
      }
      r
  }

  /** Whether the roster's owner is a known user with a non-zero slot in the draft order. */
  predicate HasSlot(roster: SleeperRoster, users: seq<SleeperUser>, draftOrder: map<string, int>)
  {
    && FindUser(users, roster.ownerId).Some? && roster.ownerId != ""
    && roster.ownerId in draftOrder && draftOrder[roster.ownerId] != 0
  }

  /** A roster as a team: named after its owner's display name (or `Team
      <roster id>`), placed at the owner's draft slot, falling back to the
      roster id when the owner has no slot or the slot is 0. */
  function MapTeam(roster: SleeperRoster, users: seq<SleeperUser>, draftOrder: map<string, int>): (t: MappedTeam)
    ensures t.id == roster.rosterId && t.userId == roster.ownerId
    ensures var user := FindUser(users, roster.ownerId);
      && (user.Some? && user.value.displayName != "" ==> t.name == user.value.displayName)
      && (user.None? || user.value.displayName == "" ==> t.name == "Team " + Text.IntToString(roster.rosterId))
    ensures t.name != ""
    ensures HasSlot(roster, users, draftOrder) ==> t.draftPosition == draftOrder[roster.ownerId]
    ensures !HasSlot(roster, users, draftOrder) ==> t.draftPosition == roster.rosterId
  {
    var user := FindUser(users, roster.ownerId);
    var draftPosition :=
      if user.Some? && user.value.userId != "" && user.value.userId in draftOrder then draftOrder[user.value.userId] else 0;
    MappedTeam(
      roster.rosterId,
      if user.Some? && user.value.displayName != "" then user.value.displayName else "Team " + Text.IntToString(roster.rosterId),
      roster.ownerId,
      if draftPosition != 0 then draftPosition else roster.rosterId)
  }

  /** `a.draftPosition || 999`: a team without a position sorts last. */
  function SortKey(t: MappedTeam): int
  {
    if t.draftPosition != 0 then t.draftPosition else 999
  }

  function ByDraftPosition(a: MappedTeam, b: MappedTeam): bool
  {
    SortKey(a) <= SortKey(b)
  }

  /** One team per roster, in roster order. */
  function TeamsOf(rosters: seq<SleeperRoster>, users: seq<SleeperUser>, draftOrder: map<string, int>): (r: seq<MappedTeam>)
    ensures |r| == |rosters|
    ensures forall i :: 0 <= i < |rosters| ==> r[i] == MapTeam(rosters[i], users, draftOrder)
  {
    seq(|rosters|, i requires 0 <= i < |rosters| => MapTeam(rosters[i], users, draftOrder))
  }

  /** The teams are the rosters, one team each, in draft order; teams with
      the same sort key keep the order of their rosters. */
  function MapTeams(rosters: seq<SleeperRoster>, users: seq<SleeperUser>, draftOrder: map<string, int>): (ts: seq<MappedTeam>)
    ensures |ts| == |rosters|
    ensures multiset(ts) == multiset(TeamsOf(rosters, users, draftOrder))
    ensures Seqs.SortedBy(ts, ByDraftPosition)
    ensures forall a :: Seqs.Filter(ts, Seqs.Tied(ByDraftPosition, a)) == Seqs.Filter(TeamsOf(rosters, users, draftOrder), Seqs.Tied(ByDraftPosition, a))
  {
    var mapped := TeamsOf(rosters, users, draftOrder);
    assert Seqs.TotalPreorder(ByDraftPosition);
    Seqs.SortSorted(mapped, ByDraftPosition);
    Seqs.SortKeepsEveryTie(mapped, ByDraftPosition);
    Seqs.Sort(mapped, ByDraftPosition)
  }

  // ---------------------------------------------------------------- the whole mapping

  /** The draft's picks count only once the draft has started. */
  function PicksInUse(draft: Option<SleeperDraft>, fetched: seq<SleeperDraftPick>): seq<SleeperDraftPick>
  {
    if draft.Some? && draft.value.status != "pre_draft" then fetched else []
  }

  /** The draft's round count, or 4 when there is no draft or it says 0. */
  function NumberOfRounds(draft: Option<SleeperDraft>): (n: int)
    ensures draft.None? ==> n == 4
    ensures draft.Some? ==> n == (if draft.value.rounds != 0 then draft.value.rounds else 4)
    ensures n != 0
  {
    if draft.Some? && draft.value.rounds != 0 then draft.value.rounds else 4
  }

  /** `mapSleeperDataToAppFormat` on already-fetched users, rosters, players,
      draft and picks. The players are the rookies, numbered in rookie order;
      there is one team per roster, in draft order; before the draft starts
      there is no history, and after it the history is the record of every
      pick with a matching rookie, in pick order; the round count is not 0. */
  function MapSleeperData(users: seq<SleeperUser>, rosters: seq<SleeperRoster>, all: seq<SleeperPlayer>,
                          draft: Option<SleeperDraft>, fetchedPicks: seq<SleeperDraftPick>): (d: SleeperData)
    ensures d.players == MapPlayers(FetchRookies(all))
    ensures |d.players| == |FetchRookies(all)|
    ensures forall i :: 0 <= i < |d.players| ==> d.players[i].player.order == i + 1
    ensures d.teams == MapTeams(rosters, users, if draft.Some? then draft.value.draftOrder else map[])
    ensures |d.teams| == |rosters| && Seqs.SortedBy(d.teams, ByDraftPosition)
    ensures multiset(d.teams) == multiset(TeamsOf(rosters, users, if draft.Some? then draft.value.draftOrder else map[]))
    ensures draft.None? || draft.value.status == "pre_draft" ==> d.draftHistory == []
    ensures draft.Some? && draft.value.status != "pre_draft" ==>
      d.draftHistory == RecordsOf(Seqs.Filter(fetchedPicks, HasRookie(d.players)), d.players)
    ensures d.numberOfRounds == NumberOfRounds(draft) && d.numberOfRounds != 0
  {
    var players := MapPlayers(FetchRookies(all));
    var draftOrder := if draft.Some? then draft.value.draftOrder else map[];
    DraftHistoryInPickOrder(PicksInUse(draft, fetchedPicks), players);
    SleeperData(
      MapTeams(rosters, users, draftOrder),
      players,
      MapDraftHistory(PicksInUse(draft, fetchedPicks), players),
      NumberOfRounds(draft))
  }
}
