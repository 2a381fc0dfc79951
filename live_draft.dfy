/** The live draft page (client/src/pages/LiveDraft.tsx) without its React
    shell. Each piece of `useState` is a field of `LiveDraft`, each setter
    an assignment. The effect that keeps `selectedTeamId` on the clock runs
    after every change of `pickCounter` or of the number of teams; here the
    methods that make such a change end by doing the same assignment. The
    draft is linear: pick `p` of a draft with `n` teams belongs to slot
    `((p - 1) mod n) + 1` in every round. */
module LiveDraftPage {
  import opened Wrappers
  import opened DraftBoardTypes
  import Text
  import Seqs
  import SleeperApi

  datatype Team = Team(id: int, name: string)

  /** One entry of `draftHistory`. */
  datatype PickRecord = PickRecord(id: int, player: Player, teamId: int, pickNumber: int)

  /** One cell of the board grid. */
  datatype BoardPick = BoardPick(
    round: int,
    pick: int,
    originalTeamId: int,
    teamId: int,
    teamName: string,
    originalTeamName: string,
    player: Option<Player>,
    isActive: bool,
    isTraded: bool,
    isSelected: bool)

  datatype BoardRound = BoardRound(round: int, picks: seq<BoardPick>)

  /** The `status` strings of an owned pick: 'owned', 'traded-away', 'traded-for', 'trading-for'. */
  datatype PickStatus = Owned | TradedAway | TradedFor | TradingFor

  datatype OwnedPick = OwnedPick(round: int, pick: int, status: PickStatus)

  /** The five pieces of trade-dialog state, read together. */
  datatype TradeDialog = TradeDialog(
    isOpen: bool,
    fromTeamId: Option<int>,
    toTeamId: Option<int>,
    fromPicks: seq<int>,
    toPicks: seq<int>)

  // ---------------------------------------------------------------- on the clock

  lemma MulAtLeast(d: int, n: int)
    requires d >= 1 && n > 0
    ensures d * n >= n
  {
    assert d * n == (d - 1) * n + n;
    assert (d - 1) * n >= 0;
  }

  /** Division is unique: the quotient and remainder of `a` by `n` are the only pair with `0 <= r < n`. */
  lemma DivModUnique(a: int, n: int, q: int, r: int)
    requires n > 0 && 0 <= r < n && a == q * n + r
    ensures a / n == q && a % n == r
  {
    var q', r' := a / n, a % n;
    assert a == q' * n + r';
    assert (q - q') * n == r' - r by {
      assert q * n - q' * n == (q - q') * n;
    }
    if q > q' {
      MulAtLeast(q - q', n);
    } else if q < q' {
      MulAtLeast(q' - q, n);
    }
  }

  /** `Math.ceil(p / n)` for a positive `n`. */
  function Ceil(p: int, n: int): (c: int)
    requires n > 0
    ensures (c - 1) * n < p <= c * n
  {
    var q := (-p) / n;
    assert -p == q * n + (-p) % n;
    -q
  }

  /** `pickCounter - (Math.ceil(pickCounter / n) - 1) * n`: the slot on the
      clock. It lies in 1..n and is the linear slot `((p - 1) mod n) + 1`. */
  function OnClockSlot(p: int, n: int): (slot: int)
    requires n > 0
    ensures 1 <= slot <= n
    ensures slot == (p - 1) % n + 1
  {
    var c := Ceil(p, n);
    var slot := p - (c - 1) * n;
    DivModUnique(p - 1, n, c - 1, slot - 1);
    slot
  }

  /** Pick `i` of round `r` is numbered `(r - 1) * n + i`, and that pick is on the clock for slot `i`. */
  lemma SlotOfBoardPick(r: int, i: int, n: int)
    requires n > 0 && 1 <= i <= n
    ensures OnClockSlot((r - 1) * n + i, n) == i
  {
    DivModUnique((r - 1) * n + i - 1, n, r - 1, i - 1);
  }

  // ---------------------------------------------------------------- history

  /** Every record carries its position in the history as id and pick number. */
  ghost predicate SequentialPicks(history: seq<PickRecord>)
  {
    forall i :: 0 <= i < |history| ==> history[i].id == i + 1 && history[i].pickNumber == i + 1
  }

  /** `draftHistory.some(d => d.pickNumber === pick)`. */
  predicate PickMade(history: seq<PickRecord>, pick: int)
  {
    exists i :: 0 <= i < |history| && history[i].pickNumber == pick
  }

  /** When the history holds picks 1..k in order, a pick has been made exactly when it is among 1..k. */
  lemma PickMadeSequential(history: seq<PickRecord>, pick: int)
    requires SequentialPicks(history)
    ensures PickMade(history, pick) <==> 1 <= pick <= |history|
  {
    if 1 <= pick <= |history| {
      assert history[pick - 1].pickNumber == pick;
    }
  }

  /** The counter the import should continue from: one past the highest pick
      number in the imported history, or 1 when it is empty. */
  function NextPickAfter(history: seq<PickRecord>): (n: int)
    ensures n >= 1
    ensures forall i :: 0 <= i < |history| ==> history[i].pickNumber < n
    ensures n == 1 || exists i :: 0 <= i < |history| && history[i].pickNumber == n - 1
  {
    if |history| == 0 then 1
    else
      var rest := NextPickAfter(history[..|history| - 1]);
      var last := history[|history| - 1].pickNumber;
      if last + 1 > rest then last + 1 else rest
  }

  /** With no pick dropped, the corrected counter is the counter the page
      sets: history length + 1. */
  lemma {:induction false} NextPickAfterSequential(history: seq<PickRecord>)
    requires SequentialPicks(history)
    ensures NextPickAfter(history) == |history| + 1
  {
    if |history| > 0 {
      var init := history[..|history| - 1];
      assert SequentialPicks(init) by {
        forall i | 0 <= i < |init| ensures init[i].id == i + 1 && init[i].pickNumber == i + 1 {
          assert init[i] == history[i];
        }
      }
      NextPickAfterSequential(init);
    }
  }

  /** A pick made at the corrected counter never repeats a pick number. */
  lemma NextPickIsNew(history: seq<PickRecord>, d: PickRecord)
    requires d.pickNumber == NextPickAfter(history)
    ensures !PickMade(history, d.pickNumber)
    ensures forall i :: 0 <= i < |history| ==> history[i].pickNumber != (history + [d])[|history|].pickNumber
  {
  }

  /** `draftHistory.find(d => d.pickNumber === pick)`. */
  function FindPickRecord(history: seq<PickRecord>, pick: int): (r: Option<PickRecord>)
    ensures r.Some? ==> r.value in history && r.value.pickNumber == pick
    ensures r.Some? ==> exists k :: 0 <= k < |history| && history[k] == r.value && forall j :: 0 <= j < k ==> history[j].pickNumber != pick
    ensures r.None? <==> !PickMade(history, pick)
  {
    if |history| == 0 then None
    else if history[0].pickNumber == pick then Some(history[0])
    else
      var r := FindPickRecord(history[1..], pick);
      assert r.Some? ==> exists k :: 0 <= k < |history| && history[k] == r.value && forall j :: 0 <= j < k ==> history[j].pickNumber != pick by {
        if r.Some? {
          var k :| 0 <= k < |history[1..]| && history[1..][k] == r.value && forall j :: 0 <= j < k ==> history[1..][j].pickNumber != pick;
          assert history[k + 1] == r.value;
          forall j | 0 <= j < k + 1 ensures history[j].pickNumber != pick {
            if j > 0 { assert history[j] == history[1..][j - 1]; }
          }
        }
      }
      assert PickMade(history[1..], pick) ==> PickMade(history, pick) by {
        if PickMade(history[1..], pick) {
          var i :| 0 <= i < |history[1..]| && history[1..][i].pickNumber == pick;
          assert history[i + 1].pickNumber == pick;
        }
      }
      r
  }

  /** The comparator `(a, b) => a.pickNumber - b.pickNumber`. */
  function ByPickNumber(a: PickRecord, b: PickRecord): bool
  {
    a.pickNumber <= b.pickNumber
  }

  /** `getTeamPlayers(teamId)`: that team's picks, in pick order. */
  function TeamPlayers(history: seq<PickRecord>, teamId: int): (r: seq<PickRecord>)
    ensures forall d :: multiset(r)[d] == if d.teamId == teamId then multiset(history)[d] else 0
    ensures Seqs.SortedBy(r, ByPickNumber)
  {
    var mine := Seqs.Filter(history, OnTeam(teamId));
    Seqs.SortSorted(mine, ByPickNumber);
    Seqs.Sort(mine, ByPickNumber)
  }

  function OnTeam(teamId: int): PickRecord -> bool
  {
    (d: PickRecord) => d.teamId == teamId
  }

  /** The sort is stable: a team's records with the same pick number keep the order of the history. */
  lemma TeamPlayersKeepTies(history: seq<PickRecord>, teamId: int)
    ensures forall a :: Seqs.Filter(TeamPlayers(history, teamId), Seqs.Tied(ByPickNumber, a))
                     == Seqs.Filter(Seqs.Filter(history, OnTeam(teamId)), Seqs.Tied(ByPickNumber, a))
  {
    forall a ensures Seqs.Filter(TeamPlayers(history, teamId), Seqs.Tied(ByPickNumber, a))
                  == Seqs.Filter(Seqs.Filter(history, OnTeam(teamId)), Seqs.Tied(ByPickNumber, a)) {
      Seqs.SortKeepsTies(Seqs.Filter(history, OnTeam(teamId)), ByPickNumber, a);
    }
  }

  // ---------------------------------------------------------------- available players

  /** `draftHistory.some(pick => pick.player.id === p.id)`. */
  predicate Drafted(history: seq<PickRecord>, p: Player)
  {
    exists i :: 0 <= i < |history| && history[i].player.id == p.id
  }

  /** What the available list keeps: undrafted, matching the search and the position filter. */
  predicate Available(history: seq<PickRecord>, searchTerm: string, filterPosition: string, p: Player)
  {
    !Drafted(history, p) && MatchesSearch(p, searchTerm) && (filterPosition == "all" || p.position == filterPosition)
  }

  /** `availablePlayers`: the players not yet drafted that pass the search and
      the position filter, by ascending order; none while the list has not loaded. */
  function AvailablePlayers(data: Option<seq<Player>>, history: seq<PickRecord>, searchTerm: string, filterPosition: string): (r: seq<Player>)
    ensures data.None? ==> r == []
    ensures data.Some? ==> forall p :: multiset(r)[p] == if Available(history, searchTerm, filterPosition, p) then multiset(data.value)[p] else 0
    ensures Seqs.SortedBy(r, ByOrder)
  {
    match data
      case None => []
      case Some(players) =>
        var shown := Shown(players, history, searchTerm, filterPosition);
        ByOrderIsTotalPreorder();
        Seqs.SortSorted(shown, ByOrder);
        Seqs.Sort(shown, ByOrder)
  }

  function Undrafted(history: seq<PickRecord>): Player -> bool
  {
    (p: Player) => !Drafted(history, p)
  }

  function Found(searchTerm: string): Player -> bool
  {
    (p: Player) => MatchesSearch(p, searchTerm)
  }

  function AtPosition(filterPosition: string): Player -> bool
  {
    (p: Player) => filterPosition == "all" || p.position == filterPosition
  }

  function AvailableTo(history: seq<PickRecord>, searchTerm: string, filterPosition: string): Player -> bool
  {
    (p: Player) => Available(history, searchTerm, filterPosition, p)
  }

  /** The three filter steps of the available list, before sorting. */
  function Shown(players: seq<Player>, history: seq<PickRecord>, searchTerm: string, filterPosition: string): seq<Player>
  {
    Seqs.Filter(Seqs.Filter(Seqs.Filter(players, Undrafted(history)), Found(searchTerm)), AtPosition(filterPosition))
  }

  /** The three filters are one filter by `Available`, and the sort is stable:
      available players sharing an order keep the order of the loaded list. */
  lemma AvailableKeepTies(players: seq<Player>, history: seq<PickRecord>, searchTerm: string, filterPosition: string)
    ensures Shown(players, history, searchTerm, filterPosition) == Seqs.Filter(players, AvailableTo(history, searchTerm, filterPosition))
    ensures forall a :: Seqs.Filter(AvailablePlayers(Some(players), history, searchTerm, filterPosition), Seqs.Tied(ByOrder, a))
                     == Seqs.Filter(Seqs.Filter(players, AvailableTo(history, searchTerm, filterPosition)), Seqs.Tied(ByOrder, a))
  {
    var both := (p: Player) => Undrafted(history)(p) && Found(searchTerm)(p);
    Seqs.FilterTwice(players, Undrafted(history), Found(searchTerm), both);
    Seqs.FilterTwice(players, both, AtPosition(filterPosition), AvailableTo(history, searchTerm, filterPosition));
    ByOrderIsTotalPreorder();
    var shown := Shown(players, history, searchTerm, filterPosition);
    forall a ensures Seqs.Filter(AvailablePlayers(Some(players), history, searchTerm, filterPosition), Seqs.Tied(ByOrder, a))
                  == Seqs.Filter(shown, Seqs.Tied(ByOrder, a)) {
      Seqs.SortKeepsTies(shown, ByOrder, a);
    }
  }

  /** No drafted player is ever offered, and every offered player is in the list. */
  lemma AvailableAreUndrafted(data: seq<Player>, history: seq<PickRecord>, searchTerm: string, filterPosition: string, p: Player)
    requires p in AvailablePlayers(Some(data), history, searchTerm, filterPosition)
    ensures p in data && !Drafted(history, p)
  {
    var r := AvailablePlayers(Some(data), history, searchTerm, filterPosition);
    assert multiset(r)[p] > 0;
  }

  // ---------------------------------------------------------------- trades

  /** `Map.get(k) || fallback` on a number map: the entry when it is present and non-zero. */
  function Owner(m: map<int, int>, pick: int, slot: int): int
  {
    if pick in m && m[pick] != 0 then m[pick] else slot
  }

  /** `keys.forEach(k => m.set(k, v))` on a copy of `m`. */
  function SetAll(m: map<int, int>, keys: seq<int>, v: int): (r: map<int, int>)
    ensures forall k :: k in r <==> k in m || k in keys
    ensures forall k :: k in r ==> r[k] == if k in keys then v else m[k]
  {
    if |keys| == 0 then m
    else
      assert keys == keys[..|keys| - 1] + [keys[|keys| - 1]];
      SetAll(m, keys[..|keys| - 1], v)[keys[|keys| - 1] := v]
  }

  /** The map a trade leaves: the from-side picks to `toTeam`, then the to-side picks to `fromTeam`. */
  function TradeMap(m: map<int, int>, fromTeam: int, toTeam: int, fromPicks: seq<int>, toPicks: seq<int>): map<int, int>
  {
    SetAll(SetAll(m, fromPicks, toTeam), toPicks, fromTeam)
  }

  /** After a trade every to-side pick belongs to the from team, every other
      from-side pick to the to team (the to side wins on a pick listed by
      both), and every other entry is as before. */
  lemma TradeMapEffect(m: map<int, int>, fromTeam: int, toTeam: int, fromPicks: seq<int>, toPicks: seq<int>)
    ensures var r := TradeMap(m, fromTeam, toTeam, fromPicks, toPicks);
      && (forall k :: k in toPicks ==> k in r && r[k] == fromTeam)
      && (forall k :: k in fromPicks && k !in toPicks ==> k in r && r[k] == toTeam)
      && (forall k :: k !in fromPicks && k !in toPicks ==> (k in r <==> k in m) && (k in m ==> r[k] == m[k]))
  {
  }

  /** `!x` on a `number | null`: null and 0 are falsy. */
  predicate Truthy(x: Option<int>)
  {
    x.Some? && x.value != 0
  }

  /** The board's map: the made trades, plus the dialog's tentative trade while it is open with both teams chosen. */
  function DisplayMap(m: map<int, int>, d: TradeDialog): map<int, int>
  {
    if d.isOpen && Truthy(d.fromTeamId) && Truthy(d.toTeamId)
    then TradeMap(m, d.fromTeamId.value, d.toTeamId.value, d.fromPicks, d.toPicks)
    else m
  }

  /** `prev.includes(x) ? prev.filter(p => p !== x) : [...prev, x]`. */
  function Toggle(l: seq<int>, x: int): seq<int>
  {
    if x in l then Seqs.Filter(l, (p: int) => p != x) else l + [x]
  }

  /** Toggling flips whether `x` is listed and leaves every other pick as it was. */
  lemma ToggleMembership(l: seq<int>, x: int)
    ensures x in Toggle(l, x) <==> x !in l
    ensures forall y :: y != x ==> (y in Toggle(l, x) <==> y in l)
  {
    if x in l {
      var r := Toggle(l, x);
      assert multiset(r)[x] == 0;
      forall y | y != x ensures y in r <==> y in l {
        assert multiset(r)[y] == multiset(l)[y];
      }
    }
  }

  /** Selecting a pick and deselecting it again restores the list exactly. */
  lemma ToggleTwiceAbsent(l: seq<int>, x: int)
    requires x !in l
    ensures Toggle(Toggle(l, x), x) == l
  {
    var t := l + [x];
    assert t[..|t| - 1] == l;
    Seqs.FilterKeepsAll(l, (p: int) => p != x);
  }

  /** Deselecting a listed pick and selecting it again keeps the same picks,
      but the pick moves to the end, so the list itself may differ. */
  lemma ToggleTwicePresent(l: seq<int>, x: int)
    requires x in l && Seqs.NoDuplicates(l)
    ensures multiset(Toggle(Toggle(l, x), x)) == multiset(l)
  {
    var f := Seqs.Filter(l, (p: int) => p != x);
    assert multiset(f)[x] == 0;
    Seqs.NoDuplicatesCount(l);
    assert multiset(l)[x] == 1;
    assert multiset(f + [x]) == multiset(l) by {
      forall y ensures multiset(f + [x])[y] == multiset(l)[y] {
      }
    }
  }

  lemma ToggleTwiceReorders()
    ensures Toggle(Toggle([1, 2], 1), 1) == [2, 1]
  {
    assert [1, 2][..1] == [1];
    assert [1, 2][..1][..0] == [];
  }

  // ---------------------------------------------------------------- the board

  /** `teams.find(t => t.id === id)`. */
  function FindTeam(teams: seq<Team>, id: int): (r: Option<Team>)
    ensures r.Some? ==> r.value in teams && r.value.id == id
    ensures r.Some? ==> exists k :: 0 <= k < |teams| && teams[k] == r.value && forall j :: 0 <= j < k ==> teams[j].id != id
    ensures r.None? <==> forall j :: 0 <= j < |teams| ==> teams[j].id != id
  {
    if |teams| == 0 then None
    else if teams[0].id == id then Some(teams[0])
    else
      var r := FindTeam(teams[1..], id);
      assert r.Some? ==> exists k :: 0 <= k < |teams| && teams[k] == r.value && forall j :: 0 <= j < k ==> teams[j].id != id by {
        if r.Some? {
          var k :| 0 <= k < |teams[1..]| && teams[1..][k] == r.value && forall j :: 0 <= j < k ==> teams[1..][j].id != id;
          assert teams[k + 1] == r.value;
          forall j | 0 <= j < k + 1 ensures teams[j].id != id {
            if j > 0 { assert teams[j] == teams[1..][j - 1]; }
          }
        }
      }
      r
  }

  /** A team's name, or `Team <id>` when no team has that id. */
  function TeamName(teams: seq<Team>, id: int): string
  {
    match FindTeam(teams, id)
      case Some(t) => t.name
      case None => "Team " + Text.IntToString(id)
  }
  /** The imported teams as the page keeps them: id (the roster id) and name. */
  function PageTeams(ts: seq<SleeperApi.MappedTeam>): (r: seq<Team>)
    ensures |r| == |ts| && forall i :: 0 <= i < |ts| ==> r[i] == Team(ts[i].id, ts[i].name)
  {
    seq(|ts|, i requires 0 <= i < |ts| => Team(ts[i].id, ts[i].name))
  }

  /** A two-team league whose draft order is not the roster order: roster 1
      (Ann) drafts second and roster 2 (Bob) drafts first. */
  function SwappedUsers(): seq<SleeperApi.SleeperUser>
  {
    [SleeperApi.SleeperUser("u1", "Ann"), SleeperApi.SleeperUser("u2", "Bob")]
  }

  function SwappedRosters(): seq<SleeperApi.SleeperRoster>
  {
    [SleeperApi.SleeperRoster(1, "u1"), SleeperApi.SleeperRoster(2, "u2")]
  }

  function SwappedOrder(): map<string, int>
  {
    map["u1" := 2, "u2" := 1]
  }

  /** The swapped league's teams after the import: Bob, who drafts first,
      then Ann. */
  lemma SwappedLeagueTeams()
    ensures SleeperApi.MapTeams(SwappedRosters(), SwappedUsers(), SwappedOrder())
         == [SleeperApi.MappedTeam(2, "Bob", "u2", 1), SleeperApi.MappedTeam(1, "Ann", "u1", 2)]
  {
    var ann := SleeperApi.MappedTeam(1, "Ann", "u1", 2);
    var bob := SleeperApi.MappedTeam(2, "Bob", "u2", 1);
    assert SleeperApi.FindUser(SwappedUsers(), "u1") == Some(SwappedUsers()[0]);
    assert SleeperApi.FindUser(SwappedUsers(), "u2") == Some(SwappedUsers()[1]);
    assert SleeperApi.MapTeam(SwappedRosters()[0], SwappedUsers(), SwappedOrder()) == ann;
    assert SleeperApi.MapTeam(SwappedRosters()[1], SwappedUsers(), SwappedOrder()) == bob;
    assert SleeperApi.TeamsOf(SwappedRosters(), SwappedUsers(), SwappedOrder()) == [ann, bob];
    assert [ann, bob][1..] == [bob];
    assert Seqs.Sort([bob], SleeperApi.ByDraftPosition) == [bob] by {
      assert [bob][1..] == [];
    }
    assert !SleeperApi.ByDraftPosition(ann, bob);
    assert Seqs.Insert(ann, [bob], SleeperApi.ByDraftPosition) == [bob, ann] by {
      assert [bob][1..] == [];
    }
  }

  /** The page as written looks the slot up as a team id, which is a roster
      id: the imported teams put Bob first, in draft slot 1, but slot 1 of the
      board and the on-the-clock badge show Ann. */
  lemma SlotShowsRosterNotDrafter()
    ensures var mapped := SleeperApi.MapTeams(SwappedRosters(), SwappedUsers(), SwappedOrder());
      && |mapped| == 2
      && mapped[0].name == "Bob" && mapped[0].draftPosition == 1
      && OnClockSlot(1, |mapped|) == 1
      && TeamName(PageTeams(mapped), 1) == "Ann"
  {
    SwappedLeagueTeams();
    var mapped := SleeperApi.MapTeams(SwappedRosters(), SwappedUsers(), SwappedOrder());
    assert mapped[0] == SleeperApi.MappedTeam(2, "Bob", "u2", 1);
    var page := PageTeams(mapped);
    assert page == [Team(2, "Bob"), Team(1, "Ann")];
    assert FindTeam(page, 1) == Some(Team(1, "Ann")) by {
      assert page[1..] == [Team(1, "Ann")];
    }
    assert TeamName(page, 1) == "Ann";
  }

  /** Looking the slot up by draft position instead finds Bob for slot 1. */
  lemma SlotShowsDrafter()
    ensures var mapped := SleeperApi.MapTeams(SwappedRosters(), SwappedUsers(), SwappedOrder());
      DrafterInSlot(mapped, 1).Some? && DrafterInSlot(mapped, 1).value.name == "Bob"
  {
    SwappedLeagueTeams();
  }

  /** The team drafting in a slot: the first imported team whose draft
      position is that slot. */
  function DrafterInSlot(ts: seq<SleeperApi.MappedTeam>, slot: int): (r: Option<SleeperApi.MappedTeam>)
    ensures r.Some? ==> r.value in ts && r.value.draftPosition == slot
    ensures r.Some? ==> exists k :: 0 <= k < |ts| && ts[k] == r.value && forall j :: 0 <= j < k ==> ts[j].draftPosition != slot
    ensures r.None? <==> forall j :: 0 <= j < |ts| ==> ts[j].draftPosition != slot
  {
    if |ts| == 0 then None
    else if ts[0].draftPosition == slot then Some(ts[0])
    else
      var r := DrafterInSlot(ts[1..], slot);
      assert r.Some? ==> exists k :: 0 <= k < |ts| && ts[k] == r.value && forall j :: 0 <= j < k ==> ts[j].draftPosition != slot by {
        if r.Some? {
          var k :| 0 <= k < |ts[1..]| && ts[1..][k] == r.value && forall j :: 0 <= j < k ==> ts[1..][j].draftPosition != slot;
          assert ts[k + 1] == r.value;
          forall j | 0 <= j < k + 1 ensures ts[j].draftPosition != slot {
            if j > 0 { assert ts[j] == ts[1..][j - 1]; }
          }
        }
      }
      r
  }


  /** The cell for pick `i` of round `round`. */
  function BoardPickAt(teams: seq<Team>, history: seq<PickRecord>, pickCounter: int, traded: map<int, int>,
                       display: map<int, int>, d: TradeDialog, round: int, i: int): BoardPick
  {
    var pickNumber := (round - 1) * |teams| + i;
    var actualTeamId := Owner(traded, pickNumber, i);
    var displayTeamId := Owner(display, pickNumber, i);
    BoardPick(
      round,
      pickNumber,
      i,
      if pickNumber == pickCounter then actualTeamId else displayTeamId,
      TeamName(teams, displayTeamId),
      TeamName(teams, i),
      match FindPickRecord(history, pickNumber) case Some(r) => Some(r.player) case None => None,
      pickNumber == pickCounter,
      displayTeamId != i,
      (d.fromTeamId == Some(displayTeamId) && pickNumber in d.fromPicks) ||
      (d.toTeamId == Some(displayTeamId) && pickNumber in d.toPicks))
  }

  /** The row of `round`: one cell per team. */
  function RoundPicks(teams: seq<Team>, history: seq<PickRecord>, pickCounter: int, traded: map<int, int>,
                      display: map<int, int>, d: TradeDialog, round: int): (r: seq<BoardPick>)
    ensures |r| == |teams|
    ensures forall i :: 0 <= i < |teams| ==> r[i] == BoardPickAt(teams, history, pickCounter, traded, display, d, round, i + 1)
  {
    seq(|teams|, i requires 0 <= i < |teams| => BoardPickAt(teams, history, pickCounter, traded, display, d, round, i + 1))
  }

  /** `getDraftBoardData()`: `numberOfRounds` rows of one cell per team. */
  function Board(teams: seq<Team>, history: seq<PickRecord>, pickCounter: int, numberOfRounds: int,
                 traded: map<int, int>, d: TradeDialog): (b: seq<BoardRound>)
    ensures |b| == if numberOfRounds > 0 then numberOfRounds else 0
    ensures forall r :: 0 <= r < |b| ==>
      b[r] == BoardRound(r + 1, RoundPicks(teams, history, pickCounter, traded, DisplayMap(traded, d), d, r + 1))
  {
    var display := DisplayMap(traded, d);
    seq(if numberOfRounds > 0 then numberOfRounds else 0,
        r requires 0 <= r => BoardRound(r + 1, RoundPicks(teams, history, pickCounter, traded, display, d, r + 1)))
  }

  /** The cells of all rows, row after row. */
  function Flatten(rs: seq<BoardRound>): seq<BoardPick>
  {
    if |rs| == 0 then [] else Flatten(rs[..|rs| - 1]) + rs[|rs| - 1].picks
  }

  /** Row `r` (from 0) holds `n` cells numbered `r * n + 1` .. `r * n + n`. */
  ghost predicate NumberedBoard(rs: seq<BoardRound>, n: nat)
  {
    forall r :: 0 <= r < |rs| ==> |rs[r].picks| == n && forall i :: 0 <= i < n ==> rs[r].picks[i].pick == r * n + i + 1
  }

  /** A numbered board lists the picks 1..R*n, each once, in order. */
  lemma {:induction false} FlattenNumbered(rs: seq<BoardRound>, n: nat)
    requires NumberedBoard(rs, n)
    ensures |Flatten(rs)| == |rs| * n
    ensures forall k :: 0 <= k < |Flatten(rs)| ==> Flatten(rs)[k].pick == k + 1
  {
    if |rs| > 0 {
      var init := rs[..|rs| - 1];
      assert NumberedBoard(init, n) by {
        forall r | 0 <= r < |init| ensures |init[r].picks| == n && forall i :: 0 <= i < n ==> init[r].picks[i].pick == r * n + i + 1 {
          assert init[r] == rs[r];
        }
      }
      FlattenNumbered(init, n);
      var last := rs[|rs| - 1].picks;
      var base := (|rs| - 1) * n;
      assert |Flatten(init)| == base;
      assert base + n == |rs| * n;
      forall k | 0 <= k < |Flatten(rs)| ensures Flatten(rs)[k].pick == k + 1 {
        if k >= base {
          assert Flatten(rs)[k] == last[k - base];
        }
      }
    }
  }

  /** The board is numbered: cell `i` (from 1) of round `r` is pick `(r - 1) * n + i`. */
  lemma BoardIsNumbered(teams: seq<Team>, history: seq<PickRecord>, pickCounter: int, numberOfRounds: int,
                        traded: map<int, int>, d: TradeDialog)
    ensures NumberedBoard(Board(teams, history, pickCounter, numberOfRounds, traded, d), |teams|)
  {
  }

  /** The board's picks are 1..R*n, each exactly once, in ascending order. */
  lemma BoardEnumeratesPicks(teams: seq<Team>, history: seq<PickRecord>, pickCounter: int, numberOfRounds: int,
                             traded: map<int, int>, d: TradeDialog)
    requires numberOfRounds >= 0
    ensures var cells := Flatten(Board(teams, history, pickCounter, numberOfRounds, traded, d));
      && |cells| == numberOfRounds * |teams|
      && forall k :: 0 <= k < |cells| ==> cells[k].pick == k + 1
  {
    BoardIsNumbered(teams, history, pickCounter, numberOfRounds, traded, d);
    FlattenNumbered(Board(teams, history, pickCounter, numberOfRounds, traded, d), |teams|);
  }

  /** Every cell's original team is the team on the clock at that pick; the
      displayed owner is the traded one when there is one, and the cell is
      marked traded exactly when that owner is not the original team. */
  lemma BoardCellOwners(teams: seq<Team>, history: seq<PickRecord>, pickCounter: int, numberOfRounds: int,
                        traded: map<int, int>, d: TradeDialog, r: int, i: int)
    requires |teams| > 0
    requires var b := Board(teams, history, pickCounter, numberOfRounds, traded, d); 0 <= r < |b| && 0 <= i < |teams|
    ensures var c := Board(teams, history, pickCounter, numberOfRounds, traded, d)[r].picks[i];
      var shown := Owner(DisplayMap(traded, d), c.pick, c.originalTeamId);
      && OnClockSlot(c.pick, |teams|) == c.originalTeamId
      && (c.isTraded <==> shown != c.originalTeamId)
      && (c.isActive <==> c.pick == pickCounter)
      && c.teamId == (if c.isActive then Owner(traded, c.pick, c.originalTeamId) else shown)
  {
    SlotOfBoardPick(r + 1, i + 1, |teams|);
  }

  // ---------------------------------------------------------------- owned picks

  /** The status `getTeamOwnedPicks(teamId)` gives a cell, or None when the cell is skipped. */
  function PickStatusFor(c: BoardPick, teamId: int, history: seq<PickRecord>, d: TradeDialog): Option<PickStatus>
  {
    if PickMade(history, c.pick) then None
    else
      var isOriginallyOwned := c.originalTeamId == teamId;
      var isActuallyOwned := c.teamId == teamId;
      var isBeingTradedAway := d.fromTeamId == Some(teamId) && c.pick in d.fromPicks;
      var isBeingTradedFor := d.toTeamId == Some(teamId) && c.pick in d.toPicks;
      if isOriginallyOwned && isActuallyOwned then Some(if isBeingTradedAway then TradedAway else Owned)
      else if !isOriginallyOwned && isActuallyOwned then Some(if isBeingTradedAway then TradedAway else TradedFor)
      else if isBeingTradedFor then Some(TradingFor)
      else None
  }

  /** The entry a cell contributes, if any. */
  function Entry(c: BoardPick, teamId: int, history: seq<PickRecord>, d: TradeDialog): seq<OwnedPick>
  {
    match PickStatusFor(c, teamId, history, d)
      case Some(s) => [OwnedPick(c.round, c.pick, s)]
      case None => []
  }

  /** The entries of `cells`, in the order of the cells. */
  function Collect(cells: seq<BoardPick>, teamId: int, history: seq<PickRecord>, d: TradeDialog): seq<OwnedPick>
  {
    if |cells| == 0 then []
    else Collect(cells[..|cells| - 1], teamId, history, d) + Entry(cells[|cells| - 1], teamId, history, d)
  }

  ghost predicate AscendingCells(cells: seq<BoardPick>)
  {
    forall a, b :: 0 <= a < b < |cells| ==> cells[a].pick < cells[b].pick
  }

  ghost predicate AscendingPicks(ps: seq<OwnedPick>)
  {
    forall a, b :: 0 <= a < b < |ps| ==> ps[a].pick < ps[b].pick
  }

  /** Collecting over cells in pick order gives entries in strictly ascending
      pick order; each entry comes from a cell with that round, pick and
      status, and each cell with a status gives an entry. */
  lemma {:induction false} CollectFacts(cells: seq<BoardPick>, teamId: int, history: seq<PickRecord>, d: TradeDialog)
    requires AscendingCells(cells)
    ensures AscendingPicks(Collect(cells, teamId, history, d))
    ensures forall e :: e in Collect(cells, teamId, history, d) ==>
      exists k :: 0 <= k < |cells| && cells[k].pick == e.pick && cells[k].round == e.round && PickStatusFor(cells[k], teamId, history, d) == Some(e.status)
    ensures forall k :: 0 <= k < |cells| && PickStatusFor(cells[k], teamId, history, d).Some? ==>
      OwnedPick(cells[k].round, cells[k].pick, PickStatusFor(cells[k], teamId, history, d).value) in Collect(cells, teamId, history, d)
  {
    if |cells| > 0 {
      var init := cells[..|cells| - 1];
      var last := cells[|cells| - 1];
      CollectFacts(init, teamId, history, d);
      var pre := Collect(init, teamId, history, d);
      var r := Collect(cells, teamId, history, d);
      assert r == pre + Entry(last, teamId, history, d);
      forall e | e in pre ensures e.pick < last.pick {
        var k :| 0 <= k < |init| && init[k].pick == e.pick && init[k].round == e.round && PickStatusFor(init[k], teamId, history, d) == Some(e.status);
        assert cells[k] == init[k];
      }
      forall a, b | 0 <= a < b < |r| ensures r[a].pick < r[b].pick {
        if b >= |pre| {
          assert r[a] in pre;
        }
      }
      forall e | e in r
        ensures exists k :: 0 <= k < |cells| && cells[k].pick == e.pick && cells[k].round == e.round && PickStatusFor(cells[k], teamId, history, d) == Some(e.status)
      {
        if e in pre {
          var k :| 0 <= k < |init| && init[k].pick == e.pick && init[k].round == e.round && PickStatusFor(init[k], teamId, history, d) == Some(e.status);
          assert cells[k] == init[k];
        } else {
          assert cells[|cells| - 1] == last;
        }
      }
      forall k | 0 <= k < |cells| && PickStatusFor(cells[k], teamId, history, d).Some?
        ensures OwnedPick(cells[k].round, cells[k].pick, PickStatusFor(cells[k], teamId, history, d).value) in r
      {
        if k < |init| {
          assert cells[k] == init[k];
        }
      }
    }
  }

  /** The comparator `(a, b) => a.pick - b.pick`. */
  function ByPick(a: OwnedPick, b: OwnedPick): bool
  {
    a.pick <= b.pick
  }

  /** The owned-picks list of a board: in strictly ascending pick order and
      already sorted, each entry a cell with that round, pick and status, and
      each undrafted cell with a status listed. */
  lemma OwnedPicksFacts(teams: seq<Team>, history: seq<PickRecord>, pickCounter: int, numberOfRounds: int,
                        traded: map<int, int>, d: TradeDialog, teamId: int)
    ensures var cells := Flatten(Board(teams, history, pickCounter, numberOfRounds, traded, d));
      var ps := Collect(cells, teamId, history, d);
      && AscendingPicks(ps)
      && Seqs.Sort(ps, ByPick) == ps
      && (forall e :: e in ps ==>
            exists k :: 0 <= k < |cells| && cells[k].pick == e.pick && cells[k].round == e.round && PickStatusFor(cells[k], teamId, history, d) == Some(e.status))
      && (forall k :: 0 <= k < |cells| && PickStatusFor(cells[k], teamId, history, d).Some? ==>
            OwnedPick(cells[k].round, cells[k].pick, PickStatusFor(cells[k], teamId, history, d).value) in ps)
  {
    var cells := Flatten(Board(teams, history, pickCounter, numberOfRounds, traded, d));
    if numberOfRounds >= 0 {
      BoardEnumeratesPicks(teams, history, pickCounter, numberOfRounds, traded, d);
    }
    CollectFacts(cells, teamId, history, d);
    Seqs.SortOfSorted(Collect(cells, teamId, history, d), ByPick);
  }

  /** The twelve teams a new page starts with. */
  function DefaultTeams(): (ts: seq<Team>)
    ensures |ts| == 12
    ensures forall i :: 0 <= i < 12 ==> ts[i] == Team(i + 1, "Team " + Text.IntToString(i + 1))
  {
    seq(12, i requires 0 <= i < 12 => Team(i + 1, "Team " + Text.IntToString(i + 1)))
  }

  class LiveDraft {
    var teams: seq<Team>
    var selectedTeamId: int
    var draftHistory: seq<PickRecord>
    var pickCounter: int
    var numberOfRounds: int
    var isTradeDialogOpen: bool
    var fromTeamId: Option<int>
    var toTeamId: Option<int>
    var fromPickNumbers: seq<int>
    var toPickNumbers: seq<int>
    /** Pick number to the team that now owns it. */
    var tradedPicks: map<int, int>

    /** There is a team, the counter is the next pick, and the selected team is the one on the clock. */
    ghost predicate Valid()
      reads this
    {
      && |teams| >= 1
      && pickCounter == |draftHistory| + 1
      && selectedTeamId == OnClockSlot(pickCounter, |teams|)
    }

    function Dialog(): TradeDialog
      reads this
    {
      TradeDialog(isTradeDialogOpen, fromTeamId, toTeamId, fromPickNumbers, toPickNumbers)
    }

    constructor ()
      ensures Valid()
      ensures teams == DefaultTeams() && selectedTeamId == 1
      ensures draftHistory == [] && pickCounter == 1 && numberOfRounds == 4
      ensures !isTradeDialogOpen && fromTeamId == None && toTeamId == None
      ensures fromPickNumbers == [] && toPickNumbers == [] && tradedPicks == map[]
    {
      teams := DefaultTeams();
      draftHistory := [];
      pickCounter := 1;
      numberOfRounds := 4;
      isTradeDialogOpen := false;
      fromTeamId := None;
      toTeamId := None;
      fromPickNumbers := [];
      toPickNumbers := [];
      tradedPicks := map[];
      selectedTeamId := OnClockSlot(1, 12);
    }

    /** Records `player` as the current pick, made by the selected team: the
        slot on the clock, whatever `tradedPicks` says about this pick. */
    method DraftPlayer(player: Player)
      requires Valid()
      modifies this`draftHistory, this`pickCounter, this`selectedTeamId
      ensures Valid()
      ensures draftHistory == old(draftHistory) + [PickRecord(old(pickCounter), player, old(selectedTeamId), old(pickCounter))]
      ensures draftHistory[|draftHistory| - 1].teamId == OnClockSlot(old(pickCounter), |teams|)
      ensures pickCounter == old(pickCounter) + 1
      ensures SequentialPicks(old(draftHistory)) ==> SequentialPicks(draftHistory)
    {
      draftHistory := draftHistory + [PickRecord(pickCounter, player, selectedTeamId, pickCounter)];
      pickCounter := pickCounter + 1;
      selectedTeamId := OnClockSlot(pickCounter, |teams|);
    }

    /** Takes back the last pick; with no pick made it does nothing. */
    method UndoLastPick()
      requires Valid()
      modifies this`draftHistory, this`pickCounter, this`selectedTeamId
      ensures Valid()
      ensures old(draftHistory) == [] ==> draftHistory == [] && pickCounter == old(pickCounter) && selectedTeamId == old(selectedTeamId)
      ensures old(draftHistory) != [] ==>
        draftHistory == old(draftHistory)[..|old(draftHistory)| - 1] && pickCounter == old(pickCounter) - 1
      ensures SequentialPicks(old(draftHistory)) ==> SequentialPicks(draftHistory)
    {
      if |draftHistory| == 0 {
        return;
      }
      draftHistory := draftHistory[..|draftHistory| - 1];
      pickCounter := pickCounter - 1;
      selectedTeamId := OnClockSlot(pickCounter, |teams|);
    }

    /** Drafting a player and undoing the pick restores the page. */
    method DraftThenUndo(player: Player)
      requires Valid()
      modifies this`draftHistory, this`pickCounter, this`selectedTeamId
      ensures Valid()
      ensures draftHistory == old(draftHistory) && pickCounter == old(pickCounter) && selectedTeamId == old(selectedTeamId)
    {
      DraftPlayer(player);
      UndoLastPick();
    }

    /** The effect that takes over the league data once it has loaded: the
        teams when there are any, the round count when it is not 0, and the
        history, with the counter after it, when it is not empty. */
    method ApplySleeperData(sleeperTeams: seq<Team>, rounds: int, sleeperHistory: seq<PickRecord>)
      requires Valid()
      modifies this`teams, this`numberOfRounds, this`draftHistory, this`pickCounter, this`selectedTeamId
      ensures Valid()
      ensures teams == if |sleeperTeams| > 0 then sleeperTeams else old(teams)
      ensures numberOfRounds == if rounds != 0 then rounds else old(numberOfRounds)
      ensures draftHistory == if |sleeperHistory| > 0 then sleeperHistory else old(draftHistory)
    {
      if |sleeperTeams| > 0 {
        teams := sleeperTeams;
      }
      if rounds != 0 {
        numberOfRounds := rounds;
      }
      if |sleeperHistory| > 0 {
        draftHistory := sleeperHistory;
        pickCounter := |sleeperHistory| + 1;
      }
      selectedTeamId := OnClockSlot(pickCounter, |teams|);
    }

    /** Opens the trade dialog with `teamId` on the giving side and nothing chosen. */
    method OpenTradeDialog(teamId: int)
      modifies this`isTradeDialogOpen, this`fromTeamId, this`toTeamId, this`fromPickNumbers, this`toPickNumbers
      ensures Dialog() == TradeDialog(true, Some(teamId), None, [], [])
    {
      fromTeamId := Some(teamId);
      toTeamId := None;
      fromPickNumbers := [];
      toPickNumbers := [];
      isTradeDialogOpen := true;
    }

    /** The giving team's select; chosen picks are kept. */
    method SetFromTeam(teamId: int)
      modifies this`fromTeamId
      ensures fromTeamId == Some(teamId)
    {
      fromTeamId := Some(teamId);
    }

    /** The receiving team's select; chosen picks are kept. */
    method SetToTeam(teamId: int)
      modifies this`toTeamId
      ensures toTeamId == Some(teamId)
    {
      toTeamId := Some(teamId);
    }

    /** Closing the dialog without trading keeps its selections. */
    method SetTradeDialogOpen(open: bool)
      modifies this`isTradeDialogOpen
      ensures isTradeDialogOpen == open
    {
      isTradeDialogOpen := open;
    }

    /** Selects or deselects `pickNumber` on the side whose team is `teamId`;
        the giving side is checked first and a team on neither side changes nothing. */
    method TogglePickSelection(teamId: int, pickNumber: int)
      modifies this`fromPickNumbers, this`toPickNumbers
      ensures fromTeamId == Some(teamId) ==>
        fromPickNumbers == Toggle(old(fromPickNumbers), pickNumber) && toPickNumbers == old(toPickNumbers)
      ensures fromTeamId != Some(teamId) && toTeamId == Some(teamId) ==>
        toPickNumbers == Toggle(old(toPickNumbers), pickNumber) && fromPickNumbers == old(fromPickNumbers)
      ensures fromTeamId != Some(teamId) && toTeamId != Some(teamId) ==>
        fromPickNumbers == old(fromPickNumbers) && toPickNumbers == old(toPickNumbers)
    {
      if Some(teamId) == fromTeamId {
        fromPickNumbers := Toggle(fromPickNumbers, pickNumber);
      } else if Some(teamId) == toTeamId {
        toPickNumbers := Toggle(toPickNumbers, pickNumber);
      }
    }

    /** Carries out the trade set up in the dialog. Without both teams or
        with an empty side it reports an invalid trade and changes nothing;
        otherwise the picks change hands and the dialog closes and resets. */
    method ExecuteTrade() returns (executed: bool)
      modifies this`tradedPicks, this`isTradeDialogOpen, this`fromTeamId, this`toTeamId, this`fromPickNumbers, this`toPickNumbers
      ensures executed <==> Truthy(old(fromTeamId)) && Truthy(old(toTeamId)) && old(fromPickNumbers) != [] && old(toPickNumbers) != []
      ensures !executed ==> tradedPicks == old(tradedPicks) && Dialog() == old(Dialog())
      ensures executed ==>
        && tradedPicks == TradeMap(old(tradedPicks), old(fromTeamId).value, old(toTeamId).value, old(fromPickNumbers), old(toPickNumbers))
        && Dialog() == TradeDialog(false, None, None, [], [])
    {
      if !Truthy(fromTeamId) || !Truthy(toTeamId) || |fromPickNumbers| == 0 || |toPickNumbers| == 0 {
        return false;
      }
      var fromTeam, toTeam := fromTeamId.value, toTeamId.value;
      var newTradedPicks := tradedPicks;
      for j := 0 to |fromPickNumbers|
        invariant newTradedPicks == SetAll(tradedPicks, fromPickNumbers[..j], toTeam)
      {
        assert fromPickNumbers[..j + 1][..j] == fromPickNumbers[..j];
        newTradedPicks := newTradedPicks[fromPickNumbers[j] := toTeam];
      }
      assert fromPickNumbers[..|fromPickNumbers|] == fromPickNumbers;
      var afterFrom := newTradedPicks;
      for j := 0 to |toPickNumbers|
        invariant newTradedPicks == SetAll(afterFrom, toPickNumbers[..j], fromTeam)
      {
        assert toPickNumbers[..j + 1][..j] == toPickNumbers[..j];
        newTradedPicks := newTradedPicks[toPickNumbers[j] := fromTeam];
      }
      assert toPickNumbers[..|toPickNumbers|] == toPickNumbers;
      tradedPicks := newTradedPicks;
      isTradeDialogOpen := false;
      fromTeamId := None;
      toTeamId := None;
      fromPickNumbers := [];
      toPickNumbers := [];
      executed := true;
    }
  
    /** The map the board shows: the made trades plus, while the dialog is
        open with both teams chosen, its tentative trade. */
    method DisplayTradedPicks() returns (display: map<int, int>)
      ensures display == DisplayMap(tradedPicks, Dialog())
    {
      display := tradedPicks;
      if isTradeDialogOpen && Truthy(fromTeamId) && Truthy(toTeamId) {
        for j := 0 to |fromPickNumbers|
          invariant display == SetAll(tradedPicks, fromPickNumbers[..j], toTeamId.value)
        {
          assert fromPickNumbers[..j + 1][..j] == fromPickNumbers[..j];
          display := display[fromPickNumbers[j] := toTeamId.value];
        }
        assert fromPickNumbers[..|fromPickNumbers|] == fromPickNumbers;
        var afterFrom := display;
        for j := 0 to |toPickNumbers|
          invariant display == SetAll(afterFrom, toPickNumbers[..j], fromTeamId.value)
        {
          assert toPickNumbers[..j + 1][..j] == toPickNumbers[..j];
          display := display[toPickNumbers[j] := fromTeamId.value];
        }
        assert toPickNumbers[..|toPickNumbers|] == toPickNumbers;
      }
    }

    /** One board row: a cell per team, team `i` holding pick `(round - 1) * n + i`. */
    method RoundRow(displayTradedPicks: map<int, int>, round: int) returns (picks: seq<BoardPick>)
      ensures picks == RoundPicks(teams, draftHistory, pickCounter, tradedPicks, displayTradedPicks, Dialog(), round)
    {
      picks := [];
      for i := 1 to |teams| + 1
        invariant |picks| == i - 1
        invariant forall j :: 0 <= j < |picks| ==>
          picks[j] == BoardPickAt(teams, draftHistory, pickCounter, tradedPicks, displayTradedPicks, Dialog(), round, j + 1)
      {
        var cell := BoardCell(displayTradedPicks, round, i);
        picks := picks + [cell];
      }
    }

    /** The cell of team `teamIndex` in a round: its pick number, who drafts
        it, who shows as owner, the pick made with it, and its highlights. */
    method BoardCell(displayTradedPicks: map<int, int>, round: int, teamIndex: int) returns (cell: BoardPick)
      ensures cell == BoardPickAt(teams, draftHistory, pickCounter, tradedPicks, displayTradedPicks, Dialog(), round, teamIndex)
    {
      var pickNumber := (round - 1) * |teams| + teamIndex;
      var draftPick := FindPickRecord(draftHistory, pickNumber);
      var actualTeamId := Owner(tradedPicks, pickNumber, teamIndex);
      var displayTeamId := Owner(displayTradedPicks, pickNumber, teamIndex);
      var teamForDrafting := if pickNumber == pickCounter then actualTeamId else displayTeamId;
      cell := BoardPick(
        round, pickNumber, teamIndex, teamForDrafting,
        TeamName(teams, displayTeamId), TeamName(teams, teamIndex),
        match draftPick case Some(r) => Some(r.player) case None => None,
        pickNumber == pickCounter,
        displayTeamId != teamIndex,
        (fromTeamId == Some(displayTeamId) && pickNumber in fromPickNumbers) ||
        (toTeamId == Some(displayTeamId) && pickNumber in toPickNumbers));
    }

    /** The board: one row per round, one cell per team. */
    method GetDraftBoardData() returns (rounds: seq<BoardRound>)
      ensures rounds == Board(teams, draftHistory, pickCounter, numberOfRounds, tradedPicks, Dialog())
    {
      var displayTradedPicks := DisplayTradedPicks();
      rounds := [];
      var round := 1;
      while round <= numberOfRounds
        invariant round >= 1 && |rounds| == round - 1
        invariant round <= (if numberOfRounds > 0 then numberOfRounds + 1 else 1)
        invariant forall r :: 0 <= r < |rounds| ==>
          rounds[r] == BoardRound(r + 1, RoundPicks(teams, draftHistory, pickCounter, tradedPicks, displayTradedPicks, Dialog(), r + 1))
        decreases numberOfRounds - round
      {
        var picks := RoundRow(displayTradedPicks, round);
        rounds := rounds + [BoardRound(round, picks)];
        round := round + 1;
      }
      ghost var b := Board(teams, draftHistory, pickCounter, numberOfRounds, tradedPicks, Dialog());
      assert |rounds| == |b|;
      assert forall r :: 0 <= r < |b| ==> rounds[r] == b[r];
    }

    /** Appends the entries of one row's cells to `acc`. */
    method CollectRow(acc: seq<OwnedPick>, done: seq<BoardPick>, cells: seq<BoardPick>, teamId: int)
      returns (picks: seq<OwnedPick>)
      requires acc == Collect(done, teamId, draftHistory, Dialog())
      ensures picks == Collect(done + cells, teamId, draftHistory, Dialog())
    {
      picks := acc;
      assert done + cells[..0] == done;
      for i := 0 to |cells|
        invariant picks == Collect(done + cells[..i], teamId, draftHistory, Dialog())
      {
        assert (done + cells[..i + 1])[..|done + cells[..i + 1]| - 1] == done + cells[..i];
        match PickStatusFor(cells[i], teamId, draftHistory, Dialog())
        case Some(status) =>
          picks := picks + [OwnedPick(cells[i].round, cells[i].pick, status)];
        case None =>
      }
      assert cells[..|cells|] == cells;
    }

    /** The picks `teamId` holds or is trading for, in pick order: every
        undrafted board cell the team owns (marked traded-away when it is on
        the dialog's giving side) or is about to receive. */
    method GetTeamOwnedPicks(teamId: int) returns (picks: seq<OwnedPick>)
      ensures picks == Collect(Flatten(Board(teams, draftHistory, pickCounter, numberOfRounds, tradedPicks, Dialog())), teamId, draftHistory, Dialog())
      ensures AscendingPicks(picks)
      ensures var cells := Flatten(Board(teams, draftHistory, pickCounter, numberOfRounds, tradedPicks, Dialog()));
        && (forall e :: e in picks ==>
              exists k :: 0 <= k < |cells| && cells[k].pick == e.pick && cells[k].round == e.round && PickStatusFor(cells[k], teamId, draftHistory, Dialog()) == Some(e.status))
        && (forall k :: 0 <= k < |cells| && PickStatusFor(cells[k], teamId, draftHistory, Dialog()).Some? ==>
              OwnedPick(cells[k].round, cells[k].pick, PickStatusFor(cells[k], teamId, draftHistory, Dialog()).value) in picks)
    {
      var board := GetDraftBoardData();
      picks := [];
      for r := 0 to |board|
        invariant picks == Collect(Flatten(board[..r]), teamId, draftHistory, Dialog())
      {
        assert Flatten(board[..r + 1]) == Flatten(board[..r]) + board[r].picks by {
          assert board[..r + 1][..r] == board[..r];
        }
        picks := CollectRow(picks, Flatten(board[..r]), board[r].picks, teamId);
      }
      assert board[..|board|] == board;
      OwnedPicksFacts(teams, draftHistory, pickCounter, numberOfRounds, tradedPicks, Dialog(), teamId);
      picks := Seqs.Sort(picks, ByPick);
    }
  }

  /** The page as written, on an import whose history skips pick 1 (a pick
      of a player outside the rookie list is dropped by the import): the
      counter becomes history length + 1 = 2, so the next pick is numbered 2
      again and the page then holds two records for pick 2. */
  method ImportThenDraftRepeatsPick() returns (h: seq<PickRecord>)
    ensures |h| == 2 && h[0].pickNumber == 2 && h[1].pickNumber == 2 && h[0] != h[1]
  {
    var a := Player(1, "A", "QB", "X", 80, 3, Some(""), 1);
    var b := Player(2, "B", "RB", "Y", 78, 3, Some(""), 2);
    var page := new LiveDraft();
    page.ApplySleeperData([], 0, [PickRecord(2, a, 2, 2)]);
    page.DraftPlayer(b);
    h := page.draftHistory;
  }
}
