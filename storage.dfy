/** The server's in-memory player store (server/storage.ts, class MemStorage):
    a map from id to player and an id counter that only grows. The async
    wrappers of the source never wait on anything and are modelled as plain
    methods. */
module Storage {
  import opened Wrappers
  import opened DraftBoardTypes
  import opened Schema
  import Seqs

  /** The board invariant: orders lie in 1..N and no two players share one. */
  ghost predicate Dense(m: map<int, Player>)
  {
    && (forall k :: k in m ==> 1 <= m[k].order <= |m|)
    && (forall k1, k2 :: k1 in m && k2 in m && k1 != k2 ==> m[k1].order != m[k2].order)
  }

  ghost function Orders(m: map<int, Player>): set<int>
  {
    set k | k in m :: m[k].order
  }

  /** The set {1..n}. */
  ghost function OneTo(n: int): (r: set<int>)
    ensures forall i :: i in r <==> 1 <= i <= n
  {
    if n <= 0 then {} else OneTo(n - 1) + {n}
  }

  lemma {:induction false} OneToCardinality(n: nat)
    ensures |OneTo(n)| == n
  {
    if n > 0 {
      OneToCardinality(n - 1);
      assert n !in OneTo(n - 1);
    }
  }

  lemma {:induction false} DistinctOrdersCardinality(m: map<int, Player>)
    requires forall k1, k2 :: k1 in m && k2 in m && k1 != k2 ==> m[k1].order != m[k2].order
    ensures |Orders(m)| == |m|
    decreases |m|
  {
    if |m| > 0 {
      var k :| k in m;
      var rest := m - {k};
      assert |rest| == |m| - 1 by {
        assert rest.Keys == m.Keys - {k};
      }
      DistinctOrdersCardinality(rest);
      OrdersWithout(m, k);
    }
  }

  /** Taking one player out of a store with distinct orders removes exactly that player's order. */
  lemma OrdersWithout(m: map<int, Player>, k: int)
    requires k in m
    requires forall k1, k2 :: k1 in m && k2 in m && k1 != k2 ==> m[k1].order != m[k2].order
    ensures Orders(m) == Orders(m - {k}) + {m[k].order}
    ensures m[k].order !in Orders(m - {k})
  {
    var rest := m - {k};
    forall o | o in Orders(m) ensures o in Orders(rest) + {m[k].order} {
      var k' :| k' in m && m[k'].order == o;
      if k' != k {
        assert k' in rest;
      }
    }
  }

  /** Under the invariant the set of orders is exactly {1..N}. */
  lemma DenseOrdersAreOneToN(m: map<int, Player>)
    requires Dense(m)
    ensures Orders(m) == OneTo(|m|)
  {
    DistinctOrdersCardinality(m);
    OneToCardinality(|m|);
    assert Orders(m) <= OneTo(|m|);
    assert |OneTo(|m|) - Orders(m)| == 0;
  }

  /** The player `createPlayer` stores: the insert's fields with `id` and `order`. */
  function WithId(p: InsertPlayer, id: int, order: int): Player
  {
    Player(id, p.name, p.position, p.school, p.grade, p.tier, p.notes, order)
  }

  /** `o` is one more than the greatest order in `m`, or 1 when `m` is empty. */
  ghost predicate NextOrder(m: map<int, Player>, o: int)
  {
    if |m| == 0 then o == 1
    else (forall k :: k in m ==> m[k].order < o) && exists k :: k in m && m[k].order == o - 1
  }

  /** Appending at the end takes {1..N} to {1..N+1}. */
  lemma CreateAtEndKeepsDense(m: map<int, Player>, p: Player)
    requires Dense(m) && p.id !in m && NextOrder(m, p.order)
    ensures Dense(m[p.id := p])
  {
    assert |m[p.id := p]| == |m| + 1 by {
      assert m[p.id := p].Keys == m.Keys + {p.id};
    }
  }

  /** `{ ...player, ...data }`: the fields present in `data` replace the player's. */
  function Merge(p: Player, u: PlayerUpdate): (r: Player)
    ensures r.id == p.id && r.order == p.order
    ensures r.name == u.name.GetOr(p.name) && r.position == u.position.GetOr(p.position)
    ensures r.school == u.school.GetOr(p.school) && r.grade == u.grade.GetOr(p.grade)
    ensures r.tier == u.tier.GetOr(p.tier) && r.notes == (if u.notes.Some? then u.notes else p.notes)
  {
    p.(name := u.name.GetOr(p.name), position := u.position.GetOr(p.position),
       school := u.school.GetOr(p.school), grade := u.grade.GetOr(p.grade),
       tier := u.tier.GetOr(p.tier), notes := if u.notes.Some? then u.notes else p.notes)
  }

  /** An update with no field present changes nothing. */
  lemma MergeEmptyIsIdentity(p: Player)
    ensures Merge(p, PlayerUpdate(None, None, None, None, None, None)) == p
  {
  }

  /** The store after `deletePlayer(id)`: `id` is gone and every order above
      the deleted one has moved down by one. */
  function AfterDelete(m: map<int, Player>, id: int): map<int, Player>
    requires id in m
  {
    map k | k in m && k != id :: if m[k].order > m[id].order then m[k].(order := m[k].order - 1) else m[k]
  }

  /** Closing the gap takes {1..N} to {1..N-1}. */
  lemma DeleteKeepsDense(m: map<int, Player>, id: int)
    requires Dense(m) && id in m
    ensures Dense(AfterDelete(m, id))
  {
    var r := AfterDelete(m, id);
    assert r.Keys == m.Keys - {id};
    assert |r| == |m| - 1;
  }

  /** Setting one listed player's order as `reorderPlayers` does; unknown ids are skipped. */
  function ApplyReorderItem(m: map<int, Player>, u: ReorderPlayerItem): map<int, Player>
  {
    if u.id in m then m[u.id := m[u.id].(order := u.order)] else m
  }

  /** The store after `reorderPlayers(us)`: the items applied in list order. */
  function ApplyReorder(m: map<int, Player>, us: seq<ReorderPlayerItem>): map<int, Player>
  {
    if |us| == 0 then m else ApplyReorderItem(ApplyReorder(m, us[..|us| - 1]), us[|us| - 1])
  }

  /** The order the last item for `id` asks for, if any. */
  function LastOrderFor(us: seq<ReorderPlayerItem>, id: int): Option<int>
  {
    if |us| == 0 then None
    else if us[|us| - 1].id == id then Some(us[|us| - 1].order)
    else LastOrderFor(us[..|us| - 1], id)
  }

  /** Reordering keeps the set of players and every field but `order`; a
      listed player takes the order of the LAST item naming it, an unlisted
      one keeps its order, and ids that are not stored change nothing. No
      check is made that the new orders are distinct or dense. */
  lemma {:induction false} ReorderEffect(m: map<int, Player>, us: seq<ReorderPlayerItem>)
    ensures ApplyReorder(m, us).Keys == m.Keys
    ensures forall k :: k in m ==>
      ApplyReorder(m, us)[k] == match LastOrderFor(us, k) case Some(o) => m[k].(order := o) case None => m[k]
  {
    if |us| > 0 {
      ReorderEffect(m, us[..|us| - 1]);
    }
  }

  /** Every player of `m` is named exactly once and given its position in the list plus one. */
  ghost predicate RenumbersAll(m: map<int, Player>, us: seq<ReorderPlayerItem>)
  {
    && |us| == |m|
    && (forall i :: 0 <= i < |us| ==> us[i].id in m && us[i].order == i + 1)
    && (forall i, j :: 0 <= i < j < |us| ==> us[i].id != us[j].id)
  }

  lemma {:induction false} LastOrderForDistinct(us: seq<ReorderPlayerItem>, i: int)
    requires 0 <= i < |us|
    requires forall a, b :: 0 <= a < b < |us| ==> us[a].id != us[b].id
    ensures LastOrderFor(us, us[i].id) == Some(us[i].order)
  {
    if i < |us| - 1 {
      LastOrderForDistinct(us[..|us| - 1], i);
    }
  }

  /** A request that renumbers every stored player 1..N in some order leaves
      the store dense, whatever the orders were before. */
  lemma RenumberingAllKeepsDense(m: map<int, Player>, us: seq<ReorderPlayerItem>)
    requires RenumbersAll(m, us)
    ensures Dense(ApplyReorder(m, us))
  {
    RenumberCoversKeys(m, us);
    ReorderEffect(m, us);
    var r := ApplyReorder(m, us);
    assert |r| == |m| by {
      assert r.Keys == m.Keys;
    }
    forall i | 0 <= i < |us|
      ensures r[us[i].id].order == i + 1
    {
      LastOrderForDistinct(us, i);
    }
    forall k | k in r
      ensures 1 <= r[k].order <= |r|
    {
      var i :| 0 <= i < |us| && us[i].id == k;
    }
    forall k1, k2 | k1 in r && k2 in r && k1 != k2
      ensures r[k1].order != r[k2].order
    {
      var i1 :| 0 <= i1 < |us| && us[i1].id == k1;
      var i2 :| 0 <= i2 < |us| && us[i2].id == k2;
    }
  }

  /** A duplicate-free listing of N stored ids, N being the store's size, names every stored id. */
  lemma RenumberCoversKeys(m: map<int, Player>, us: seq<ReorderPlayerItem>)
    requires RenumbersAll(m, us)
    ensures forall k :: k in m ==> exists i :: 0 <= i < |us| && us[i].id == k
  {
    var ids := seq(|us|, i requires 0 <= i < |us| => us[i].id);
    assert Seqs.NoDuplicates(ids);
    Seqs.NoDuplicatesCardinality(ids);
    var named := set x | x in ids;
    assert named <= m.Keys;
    assert |m.Keys - named| == 0;
    forall k | k in m
      ensures exists i :: 0 <= i < |us| && us[i].id == k
    {
      assert k in named;
      var i :| 0 <= i < |ids| && ids[i] == k;
    }
  }

  /* The eight players a new store starts with, one method per record so
     that each record's text stays out of the other proofs. */
  method Sample1() returns (p: InsertPlayer)
    ensures p.order == 1
  {
    p := InsertPlayer("Caleb Williams", "QB", "USC", 95, 1, Some("Outstanding arm talent with mobility to extend plays. Natural leader with high football IQ."), 1);
  }

  method Sample2() returns (p: InsertPlayer)
    ensures p.order == 2
  {
    p := InsertPlayer("Marvin Harrison Jr.", "WR", "Ohio State", 94, 1, Some("Elite size-speed combination with exceptional route-running skills."), 2);
  }

  method Sample3() returns (p: InsertPlayer)
    ensures p.order == 3
  {
    p := InsertPlayer("Jayden Daniels", "QB", "LSU", 91, 2, Some("Dynamic dual-threat QB with improved passing accuracy."), 3);
  }

  method Sample4() returns (p: InsertPlayer)
    ensures p.order == 4
  {
    p := InsertPlayer("Malik Nabers", "WR", "LSU", 89, 2, Some("Explosive playmaker with excellent after-the-catch ability."), 4);
  }

  method Sample5() returns (p: InsertPlayer)
    ensures p.order == 5
  {
    p := InsertPlayer("Brock Bowers", "TE", "Georgia", 86, 3, Some("Athletic tight end with receiver-like skills."), 5);
  }

  method Sample6() returns (p: InsertPlayer)
    ensures p.order == 6
  {
    p := InsertPlayer("Rome Odunze", "WR", "Washington", 83, 3, Some("Great size and reliable hands. Polished route-runner."), 6);
  }

  method Sample7() returns (p: InsertPlayer)
    ensures p.order == 7
  {
    p := InsertPlayer("Drake Maye", "QB", "North Carolina", 79, 4, Some("Good arm talent but needs more consistency."), 7);
  }

  method Sample8() returns (p: InsertPlayer)
    ensures p.order == 8
  {
    p := InsertPlayer("Jonathon Brooks", "RB", "Texas", 72, 5, Some("Solid all-around back with good vision."), 8);
  }

  /** A store whose ids are 1..n, each player ranked by its id, is dense. */
  lemma IdentityOrdersDense(m: map<int, Player>, n: nat)
    requires m.Keys == OneTo(n)
    requires forall k :: k in m ==> m[k].order == k
    ensures Dense(m)
  {
    OneToCardinality(n);
  }

  /** Strictly ascending ids. */
  function IdBefore(a: Player, b: Player): bool
  {
    a.id < b.id
  }

  /** A listing in strictly ascending id of stored players, naming every key,
      has one entry per stored player. */
  lemma AscendingListingCount(m: map<int, Player>, values: seq<Player>)
    requires forall i :: 0 <= i < |values| ==> values[i].id in m
    requires forall k :: k in m ==> exists i :: 0 <= i < |values| && values[i].id == k
    requires Seqs.SortedBy(values, IdBefore)
    ensures |values| == |m|
    ensures Seqs.NoDuplicates(values)
  {
    var ids := seq(|values|, i requires 0 <= i < |values| => values[i].id);
    assert Seqs.NoDuplicates(ids) by {
      forall i, j | 0 <= i < j < |ids| ensures ids[i] != ids[j] {
        assert IdBefore(values[i], values[j]);
      }
    }
    Seqs.NoDuplicatesCardinality(ids);
    var named := set x | x in ids;
    assert named == m.Keys by {
      forall k | k in m ensures k in named {
        var i :| 0 <= i < |values| && values[i].id == k;
        assert ids[i] == k;
      }
    }
    assert Seqs.NoDuplicates(values) by {
      forall i, j | 0 <= i < j < |values| ensures values[i] != values[j] {
        assert IdBefore(values[i], values[j]);
      }
    }
  }

  class MemStorage {
    var players: map<int, Player>
    var currentId: int

    /** Each player is stored under its own id, and every id handed out so far is below the counter. */
    ghost predicate Valid()
      reads this
    {
      currentId >= 1 && forall k :: k in players ==> players[k].id == k && 1 <= k < currentId
    }

    /** A new store holds the eight sample players with ids 1..8 and orders 1..8. */
    constructor ()
      ensures Valid() && Dense(players)
      ensures currentId == 9
      ensures players.Keys == OneTo(8)
      ensures forall k :: k in players ==> players[k].order == k
    {
      players := map[];
      currentId := 1;
      new;
      InitializeSampleData();
      IdentityOrdersDense(players, 8);
    }

    /** Creates the eight sample players in list order, each keeping its explicit order. */
    method InitializeSampleData()
      requires Valid() && players == map[] && currentId == 1
      modifies this
      ensures Valid()
      ensures currentId == 9
      ensures players.Keys == OneTo(8)
      ensures forall k :: k in players ==> players[k].order == k
    {
      var p1 := Sample1();
      var p2 := Sample2();
      var p3 := Sample3();
      var p4 := Sample4();
      var p5 := Sample5();
      var p6 := Sample6();
      var p7 := Sample7();
      var p8 := Sample8();
      var samples := [p1, p2, p3, p4, p5, p6, p7, p8];
      forall j | 0 <= j < |samples|
        ensures samples[j].order == j + 1
      {
        if j < 4 {
          assert j == 0 || j == 1 || j == 2 || j == 3;
        } else {
          assert j == 4 || j == 5 || j == 6 || j == 7;
        }
      }
      CreateInOrder(samples);
    }

    /** Creates `samples` one after another in an empty store, where each is
        ranked by its place in the list: player `k` is the `k`-th sample. */
    method CreateInOrder(samples: seq<InsertPlayer>)
      requires Valid() && players == map[] && currentId == 1
      requires forall j :: 0 <= j < |samples| ==> samples[j].order == j + 1
      modifies this
      ensures Valid()
      ensures currentId == |samples| + 1
      ensures players.Keys == OneTo(|samples|)
      ensures forall k :: k in players ==> players[k] == WithId(samples[k - 1], k, k) && players[k].order == k
    {
      for i := 0 to |samples|
        invariant Valid()
        invariant currentId == i + 1
        invariant players.Keys == OneTo(i)
        invariant forall k :: k in players ==> players[k] == WithId(samples[k - 1], k, k)
      {
        var _ := CreatePlayer(samples[i]);
      }
    }

    /** All stored players, sorted by ascending order; the sort is stable,
        so players sharing an order are listed by ascending id. */
    method GetPlayers() returns (list: seq<Player>)
      requires Valid()
      ensures |list| == |players|
      ensures forall i :: 0 <= i < |list| ==> list[i].id in players && players[list[i].id] == list[i]
      ensures forall k :: k in players ==> players[k] in list
      ensures Seqs.NoDuplicates(list)
      ensures Seqs.SortedBy(list, ByOrder)
      ensures forall i, j :: 0 <= i < j < |list| && list[i].order == list[j].order ==> list[i].id < list[j].id
    {
      var values := StoredValues();
      ByOrderIsTotalPreorder();
      Seqs.SortSorted(values, ByOrder);
      Seqs.SortTiesFollowInput(values, ByOrder, IdBefore);
      list := Seqs.Sort(values, ByOrder);
      Seqs.NoDuplicatesPermutation(values, list);
      forall i | 0 <= i < |list|
        ensures list[i].id in players && players[list[i].id] == list[i]
      {
        assert list[i] in multiset(values);
      }
      forall k | k in players ensures players[k] in list {
        assert players[k] in multiset(values);
      }
    }

    /** `Array.from(this.players.values())`: each stored player once, in the
        map's insertion order. Ids are handed out in increasing order, a
        deleted id is never handed out again, and setting a key that is
        already stored keeps its place, so that order is ascending id. */
    method StoredValues() returns (values: seq<Player>)
      requires Valid()
      ensures |values| == |players|
      ensures forall i :: 0 <= i < |values| ==> values[i].id in players && players[values[i].id] == values[i]
      ensures forall k :: k in players ==> players[k] in values
      ensures Seqs.SortedBy(values, IdBefore)
      ensures Seqs.NoDuplicates(values)
    {
      values := [];
      for id := 1 to currentId
        invariant forall i :: 0 <= i < |values| ==> values[i].id in players && players[values[i].id] == values[i] && values[i].id < id
        invariant forall k :: k in players && k < id ==> players[k] in values
        invariant Seqs.SortedBy(values, IdBefore)
      {
        if id in players {
          values := values + [players[id]];
        }
      }
      AscendingListingCount(players, values);
    }

    /** `players.get(id)`. */
    method GetPlayer(id: int) returns (r: Option<Player>)
      ensures id in players ==> r == Some(players[id])
      ensures id !in players ==> r == None
    {
      r := if id in players then Some(players[id]) else None;
    }

    /** `Math.max(...players.map(p => p.order))` on a non-empty store. */
    method MaxOrder() returns (mx: int)
      requires |players| > 0
      ensures forall k :: k in players ==> players[k].order <= mx
      ensures exists k :: k in players && players[k].order == mx
    {
      var keys := players.Keys;
      Seqs.NonEmptySetHasElement(keys);
      var k0 :| k0 in keys;
      mx := players[k0].order;
      keys := keys - {k0};
      while keys != {}
        invariant keys <= players.Keys
        invariant forall k :: k in players && k !in keys ==> players[k].order <= mx
        invariant exists k :: k in players && players[k].order == mx
        decreases |keys|
      {
        Seqs.NonEmptySetHasElement(keys);
        var k :| k in keys;
        if players[k].order > mx {
          mx := players[k].order;
        }
        keys := keys - {k};
      }
    }

    /** Stores a new player under the next id. An order of 0 means "none
        given" and the player goes after the current last one; any other
        order is kept as given. */
    method CreatePlayer(insert: InsertPlayer) returns (player: Player)
      requires Valid()
      modifies this
      ensures Valid()
      ensures currentId == old(currentId) + 1
      ensures player.id == old(currentId) && player.id !in old(players)
      ensures insert.order != 0 ==> player == WithId(insert, player.id, insert.order)
      ensures insert.order == 0 ==> player == WithId(insert, player.id, player.order) && NextOrder(old(players), player.order)
      ensures players == old(players)[player.id := player]
    {
      var id := currentId;
      currentId := currentId + 1;
      var order := insert.order;
      if order == 0 {
        var maxOrder := 0;
        if |players| > 0 {
          maxOrder := MaxOrder();
        }
        order := maxOrder + 1;
      }
      player := WithId(insert, id, order);
      players := players[id := player];
    }

    /** Merges the present fields of `data` into player `id`; an unknown id changes nothing. */
    method UpdatePlayer(id: int, data: PlayerUpdate) returns (r: Option<Player>)
      requires Valid()
      modifies this`players
      ensures Valid()
      ensures id !in old(players) ==> r == None && players == old(players)
      ensures id in old(players) ==> r == Some(Merge(old(players)[id], data)) && players == old(players)[id := r.value]
    {
      if id !in players {
        return None;
      }
      var updated := Merge(players[id], data);
      players := players[id := updated];
      r := Some(updated);
    }

    /** Removes player `id` and closes the gap it leaves in the orders. */
    method DeletePlayer(id: int) returns (deleted: bool)
      requires Valid()
      modifies this`players
      ensures Valid()
      ensures deleted == (id in old(players))
      ensures deleted ==> players == AfterDelete(old(players), id)
      ensures !deleted ==> players == old(players)
    {
      if id !in players {
        return false;
      }
      ghost var before := players;
      var deletedPlayer := players[id];
      players := players - {id};
      ShiftOrdersDown(deletedPlayer.order);
      assert players == AfterDelete(before, id);
      deleted := true;
    }

    /** The loop that closes the gap: every player ranked below `o` moves up one place. */
    method ShiftOrdersDown(o: int)
      requires forall k :: k in players ==> players[k].id == k
      modifies this`players
      ensures forall k :: k in players ==> players[k].id == k
      ensures players == map k | k in old(players) :: if old(players)[k].order > o then old(players)[k].(order := old(players)[k].order - 1) else old(players)[k]
    {
      ghost var expected := map k | k in players :: if players[k].order > o then players[k].(order := players[k].order - 1) else players[k];
      var remaining := players;
      var keys := remaining.Keys;
      while keys != {}
        invariant keys <= remaining.Keys
        invariant players.Keys == remaining.Keys
        invariant forall k :: k in remaining && k !in keys ==> players[k] == expected[k]
        invariant forall k :: k in keys ==> players[k] == remaining[k]
        invariant forall k :: k in players ==> players[k].id == k
        decreases |keys|
      {
        Seqs.NonEmptySetHasElement(keys);
        var k :| k in keys;
        var p := remaining[k];
        if p.order > o {
          players := players[p.id := p.(order := p.order - 1)];
        }
        keys := keys - {k};
      }
      assert players == expected;
    }

    /** Applies every item whose id is stored, in list order; always succeeds. */
    method ReorderPlayers(updates: seq<ReorderPlayerItem>) returns (ok: bool)
      requires Valid()
      modifies this`players
      ensures Valid()
      ensures ok
      ensures players == ApplyReorder(old(players), updates)
    {
      for i := 0 to |updates|
        invariant Valid()
        invariant players == ApplyReorder(old(players), updates[..i])
      {
        assert updates[..i + 1][..i] == updates[..i];
        var update := updates[i];
        if update.id in players {
          var player := players[update.id];
          players := players[player.id := player.(order := update.order)];
        }
      }
      assert updates[..|updates|] == updates;
      ok := true;
    }
  }
}
