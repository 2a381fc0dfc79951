/** The ranking table of the board (client/src/components/PlayerTable.tsx):
    drag-and-drop re-ranking, which moves one row and renumbers every row
    1..k, and the inline grade editor, which only sends a grade in 0..100.
    The component's refs and state become the fields of a class; the
    callbacks it is given (`onReorderPlayers`, `onUpdateGrade`) become the
    values its methods return. */
module PlayerTable {
  import opened Wrappers
  import opened DraftBoardTypes
  import Text
  import Storage
  import Seqs

  /** `players.findIndex(p => p.order === o)`: the first index holding order `o`. */
  function FindIndexByOrder(s: seq<Player>, o: int): (r: Option<nat>)
    ensures r.Some? ==> r.value < |s| && s[r.value].order == o
    ensures r.Some? ==> forall j :: 0 <= j < r.value ==> s[j].order != o
    ensures r.None? <==> forall j :: 0 <= j < |s| ==> s[j].order != o
  {
    if |s| == 0 then None
    else if s[0].order == o then Some(0)
    else match FindIndexByOrder(s[1..], o)
      case None => None
      case Some(i) => Some(i + 1)
  }

  /** `players.find(p => p.id === id)`: the first player with that id. */
  function FindById(s: seq<Player>, id: int): (r: Option<Player>)
    ensures r.Some? ==> r.value in s && r.value.id == id
    ensures r.Some? ==> exists k :: 0 <= k < |s| && s[k] == r.value && forall j :: 0 <= j < k ==> s[j].id != id
    ensures r.None? <==> forall j :: 0 <= j < |s| ==> s[j].id != id
  {
    if |s| == 0 then None
    else if s[0].id == id then Some(s[0])
    else
      var r := FindById(s[1..], id);
      assert r.Some? ==> exists k :: 0 <= k < |s| && s[k] == r.value && forall j :: 0 <= j < k ==> s[j].id != id by {
        if r.Some? {
          var k :| 0 <= k < |s[1..]| && s[1..][k] == r.value && forall j :: 0 <= j < k ==> s[1..][j].id != id;
          assert s[k + 1] == r.value;
          forall j | 0 <= j < k + 1 ensures s[j].id != id {
            if j > 0 { assert s[j] == s[1..][j - 1]; }
          }
        }
      }
      r
  }

  /** `a.splice(i, 1)`. */
  function RemoveAt<T>(s: seq<T>, i: nat): seq<T>
    requires i < |s|
  {
    s[..i] + s[i + 1..]
  }

  /** `a.splice(i, 0, x)`. */
  function InsertAt<T>(s: seq<T>, i: nat, x: T): seq<T>
    requires i <= |s|
  {
    s[..i] + [x] + s[i..]
  }

  /** The copy `handleDragEnd` builds: the row at `from` taken out and put back at `to`. */
  function MoveItem<T>(s: seq<T>, from: nat, to: nat): seq<T>
    requires from < |s| && to < |s|
  {
    InsertAt(RemoveAt(s, from), to, s[from])
  }

  /** The index of the input row that a move places at index `i`. */
  function MoveSource(from: nat, to: nat, i: nat): nat
  {
    if i == to then from
    else if from < to && from <= i < to then i + 1
    else if to < from && to < i <= from then i - 1
    else i
  }

  /** The moved row lands at `to`; the rows between the two indices shift
      by one towards `from`; every row outside that range keeps its index. */
  lemma MoveItemPointwise<T>(s: seq<T>, from: nat, to: nat)
    requires from < |s| && to < |s|
    ensures |MoveItem(s, from, to)| == |s|
    ensures forall i :: 0 <= i < |s| ==> MoveSource(from, to, i) < |s| && MoveItem(s, from, to)[i] == s[MoveSource(from, to, i)]
  {
    var t := RemoveAt(s, from);
    assert forall j :: 0 <= j < |t| ==> t[j] == if j < from then s[j] else s[j + 1];
    var r := MoveItem(s, from, to);
    assert forall i :: 0 <= i < |r| ==> r[i] == if i < to then t[i] else if i == to then s[from] else t[i - 1];
  }

  /** Distinct target indices come from distinct input rows. */
  lemma MoveSourceInjective(n: nat, from: nat, to: nat, i: nat, j: nat)
    requires from < n && to < n && i < n && j < n && i != j
    ensures MoveSource(from, to, i) != MoveSource(from, to, j)
  {
  }

  /** A move only rearranges the rows. */
  lemma MoveItemPermutes<T>(s: seq<T>, from: nat, to: nat)
    requires from < |s| && to < |s|
    ensures multiset(MoveItem(s, from, to)) == multiset(s)
  {
    var t := RemoveAt(s, from);
    assert s == s[..from] + [s[from]] + s[from + 1..];
    assert multiset(t) + multiset{s[from]} == multiset(s);
    assert t == t[..to] + t[to..];
  }

  /** The updates `handleDragEnd` emits: every row, in array order, renumbered 1..k. */
  function Renumber(s: seq<Player>): (r: seq<ReorderPlayerItem>)
    ensures |r| == |s|
    ensures forall i :: 0 <= i < |s| ==> r[i].id == s[i].id && r[i].order == i + 1
  {
    seq(|s|, i requires 0 <= i < |s| => ReorderPlayerItem(s[i].id, i + 1))
  }

  /** `s` lists each stored player once: N rows, stored ids, no id twice. */
  ghost predicate ListsStore(m: map<int, Player>, s: seq<Player>)
  {
    && |s| == |m|
    && (forall i :: 0 <= i < |s| ==> s[i].id in m)
    && (forall i, j :: 0 <= i < j < |s| ==> s[i].id != s[j].id)
  }

  /** What `getPlayers` returns is a full listing of the store. */
  lemma StoreListingIsFull(m: map<int, Player>, s: seq<Player>)
    requires |s| == |m|
    requires forall i :: 0 <= i < |s| ==> s[i].id in m && m[s[i].id] == s[i]
    requires Seqs.NoDuplicates(s)
    ensures ListsStore(m, s)
  {
  }

  /** Moving a row of a full listing yields a full listing. */
  lemma MoveKeepsListing(m: map<int, Player>, s: seq<Player>, from: nat, to: nat)
    requires ListsStore(m, s) && from < |s| && to < |s|
    ensures ListsStore(m, MoveItem(s, from, to))
  {
    MoveItemPointwise(s, from, to);
    var r := MoveItem(s, from, to);
    forall i, j | 0 <= i < j < |r|
      ensures r[i].id != r[j].id
    {
      MoveSourceInjective(|s|, from, to, i, j);
      var a, b := MoveSource(from, to, i), MoveSource(from, to, j);
      if a < b {
        assert s[a].id != s[b].id;
      } else {
        assert s[b].id != s[a].id;
      }
    }
  }

  /** Renumbering a full listing names every stored player once with its new rank. */
  lemma RenumberListing(m: map<int, Player>, s: seq<Player>)
    requires ListsStore(m, s)
    ensures Storage.RenumbersAll(m, Renumber(s))
  {
  }

  /** On the full, dense board, a drag followed by `reorderPlayers` keeps the
      orders exactly 1..N. */
  lemma DragOnFullListingKeepsDense(m: map<int, Player>, s: seq<Player>, from: nat, to: nat)
    requires ListsStore(m, s) && from < |s| && to < |s|
    ensures Storage.Dense(Storage.ApplyReorder(m, Renumber(MoveItem(s, from, to))))
  {
    MoveKeepsListing(m, s, from, to);
    RenumberListing(m, MoveItem(s, from, to));
    Storage.RenumberingAllKeepsDense(m, Renumber(MoveItem(s, from, to)));
  }

  /** The board hands the table its FILTERED rows. Three players at orders
      1..3; the position filter shows the two quarterbacks; dragging the one
      at order 3 onto the one at order 1 renumbers just those two as 1 and
      2, and the hidden receiver at order 2 now shares its order. */
  lemma FilteredDragBreaksDense()
    ensures
      var p1 := Player(1, "A", "QB", "", 75, 3, Some(""), 1);
      var p2 := Player(2, "B", "WR", "", 75, 3, Some(""), 2);
      var p3 := Player(3, "C", "QB", "", 75, 3, Some(""), 3);
      var m := map[1 := p1, 2 := p2, 3 := p3];
      var shown := [p1, p3];
      && Storage.Dense(m)
      && FindIndexByOrder(shown, 3) == Some(1)
      && FindIndexByOrder(shown, 1) == Some(0)
      && !Storage.Dense(Storage.ApplyReorder(m, Renumber(MoveItem(shown, 1, 0))))
  {
    var p1 := Player(1, "A", "QB", "", 75, 3, Some(""), 1);
    var p2 := Player(2, "B", "WR", "", 75, 3, Some(""), 2);
    var p3 := Player(3, "C", "QB", "", 75, 3, Some(""), 3);
    var m := map[1 := p1, 2 := p2, 3 := p3];
    var shown := [p1, p3];
    assert MoveItem(shown, 1, 0) == [p3, p1];
    var us := Renumber([p3, p1]);
    assert us == [ReorderPlayerItem(3, 1), ReorderPlayerItem(1, 2)];
    assert us[..1] == [ReorderPlayerItem(3, 1)];
    assert us[..1][..0] == [];
    assert Storage.ApplyReorder(m, us[..1][..0]) == m;
    var r1 := m[3 := p3.(order := 1)];
    assert Storage.ApplyReorder(m, us[..1]) == r1;
    var r := r1[1 := p1.(order := 2)];
    assert Storage.ApplyReorder(m, us) == r;
    assert r[1].order == r[2].order;
  }

  /** `parseInt(gradeValue)` is a number in 0..100. */
  function GradeAccepted(text: string): (r: bool)
    ensures r <==> Text.ParseInt(text).Some? && 0 <= Text.ParseInt(text).value <= 100
  {
    match Text.ParseInt(text)
      case None => false
      case Some(g) => 0 <= g <= 100
  }

  /** Opening the editor on a grade in range and leaving it untouched sends
      that same grade back. */
  lemma EditedGradeRoundTrips(g: int)
    requires 0 <= g <= 100
    ensures GradeAccepted(Text.IntToString(g))
    ensures Text.ParseInt(Text.IntToString(g)) == Some(g)
  {
    Text.ParseIntToString(g);
  }

  class PlayerTable {
    /** `dragItem.current`: the order of the row being dragged. */
    var dragItem: Option<int>
    /** `dragOverItem.current`: the order of the row under the pointer. */
    var dragOverItem: Option<int>
    var editingGradeId: Option<int>
    var gradeValue: string

    constructor ()
      ensures dragItem == None && dragOverItem == None
      ensures editingGradeId == None && gradeValue == ""
    {
      dragItem := None;
      dragOverItem := None;
      editingGradeId := None;
      gradeValue := "";
    }

    method HandleDragStart(position: int)
      modifies this`dragItem
      ensures dragItem == Some(position)
    {
      dragItem := Some(position);
    }

    method HandleDragEnter(position: int)
      modifies this`dragOverItem
      ensures dragOverItem == Some(position)
    {
      dragOverItem := Some(position);
    }

    /** Ends a drag over `players`, the rows on screen. Returns the updates
        handed to `onReorderPlayers`, or None when nothing is sent: a ref is
        unset, both refs name the same order, or an order is not on screen;
        in those cases the refs stay as they were. After a completed drag both
        refs are cleared, whatever the outcome of the request. */
    method HandleDragEnd(players: seq<Player>) returns (updates: Option<seq<ReorderPlayerItem>>)
      modifies this`dragItem, this`dragOverItem
      ensures old(dragItem).None? || old(dragOverItem).None? || old(dragItem) == old(dragOverItem) ==>
        updates.None? && dragItem == old(dragItem) && dragOverItem == old(dragOverItem)
      ensures old(dragItem).Some? && old(dragOverItem).Some? && old(dragItem) != old(dragOverItem) ==>
        var f := FindIndexByOrder(players, old(dragItem).value);
        var t := FindIndexByOrder(players, old(dragOverItem).value);
        if f.None? || t.None? then
          updates.None? && dragItem == old(dragItem) && dragOverItem == old(dragOverItem)
        else
          updates == Some(Renumber(MoveItem(players, f.value, t.value))) && dragItem.None? && dragOverItem.None?
    {
      if dragItem.None? || dragOverItem.None? {
        return None;
      }
      if dragItem == dragOverItem {
        return None;
      }
      var draggedItemIndex := FindIndexByOrder(players, dragItem.value);
      var dragOverItemIndex := FindIndexByOrder(players, dragOverItem.value);
      if draggedItemIndex.None? || dragOverItemIndex.None? {
        return None;
      }
      var from, to := draggedItemIndex.value, dragOverItemIndex.value;
      var playersCopy := players;
      var draggedItem := playersCopy[from];
      playersCopy := playersCopy[..from] + playersCopy[from + 1..];
      playersCopy := playersCopy[..to] + [draggedItem] + playersCopy[to..];
      updates := Some(Renumber(playersCopy));
      dragItem := None;
      dragOverItem := None;
    }

    /** Opens the grade editor on `player`, showing its grade. */
    method HandleGradeEdit(player: Player)
      modifies this`editingGradeId, this`gradeValue
      ensures editingGradeId == Some(player.id)
      ensures gradeValue == Text.IntToString(player.grade)
    {
      editingGradeId := Some(player.id);
      gradeValue := Text.IntToString(player.grade);
    }

    /** The text typed into the editor. */
    method SetGradeValue(text: string)
      modifies this`gradeValue
      ensures gradeValue == text
    {
      gradeValue := text;
    }

    /** Leaves the editor. Returns the `(id, grade)` handed to
        `onUpdateGrade`, sent only when the text parses to a grade in
        0..100; otherwise the text reverts to the player's grade when the
        player is on screen. The editor is closed either way. */
    method HandleGradeBlur(players: seq<Player>) returns (sent: Option<(int, int)>)
      modifies this`editingGradeId, this`gradeValue
      ensures old(editingGradeId).None? ==>
        sent.None? && editingGradeId == old(editingGradeId) && gradeValue == old(gradeValue)
      ensures old(editingGradeId).Some? && GradeAccepted(old(gradeValue)) ==>
        && sent == Some((old(editingGradeId).value, Text.ParseInt(old(gradeValue)).value))
        && editingGradeId.None? && gradeValue == old(gradeValue)
      ensures old(editingGradeId).Some? && !GradeAccepted(old(gradeValue)) ==>
        && sent.None? && editingGradeId.None?
        && gradeValue == match FindById(players, old(editingGradeId).value)
             case Some(p) => Text.IntToString(p.grade)
             case None => old(gradeValue)
    {
      if editingGradeId.None? {
        return None;
      }
      var id := editingGradeId.value;
      var grade := Text.ParseInt(gradeValue);
      if grade.None? || grade.value < 0 || grade.value > 100 {
        sent := None;
        var player := FindById(players, id);
        if player.Some? {
          gradeValue := Text.IntToString(player.value.grade);
        }
      } else {
        sent := Some((id, grade.value));
      }
      editingGradeId := None;
    }
  }
}
