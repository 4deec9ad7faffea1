/** What the operations on a collection do to the sequence of its items. */
module Items {
  import opened Grids
  import opened Orders

  datatype Item = Item(data: nat, viewData: nat, selected: bool)

  datatype Signal = Gain | Lose | Changed

  type Compare = (nat, nat) -> int

  function CountSelected(s: seq<Item>): nat {
    if s == [] then 0
    else CountSelected(s[..|s| - 1]) + if s[|s| - 1].selected then 1 else 0
  }

  function With(item: Item, selected: bool): Item {
    item.(selected := selected)
  }

  lemma {:induction false} CountUpdate(s: seq<Item>, i: nat, x: Item)
    requires i < |s|
    ensures CountSelected(s[i := x]) ==
      CountSelected(s) - (if s[i].selected then 1 else 0) + (if x.selected then 1 else 0)
  {
    var front := s[..|s| - 1];
    if i == |s| - 1 {
      assert s[i := x][..|s| - 1] == front;
    } else {
      assert s[i := x][..|s| - 1] == front[i := x];
      CountUpdate(front, i, x);
    }
  }

  /** Nothing but `item` selected. */
  lemma {:induction false} CountExcept(s: seq<Item>, item: int)
    requires forall j :: 0 <= j < |s| && j != item ==> !s[j].selected
    ensures CountSelected(s) == if 0 <= item < |s| && s[item].selected then 1 else 0
  {
    if s != [] {
      CountExcept(s[..|s| - 1], item);
    }
  }

  lemma {:induction false} CountBound(s: seq<Item>)
    ensures CountSelected(s) <= |s|
    ensures CountSelected(s) == |s| <==> forall j :: 0 <= j < |s| ==> s[j].selected
  {
    if s != [] {
      CountBound(s[..|s| - 1]);
      var front := s[..|s| - 1];
      assert forall j :: 0 <= j < |front| ==> front[j] == s[j];
    }
  }

  lemma {:induction false} CountNone(s: seq<Item>)
    requires CountSelected(s) == 0
    ensures forall j :: 0 <= j < |s| ==> !s[j].selected
  {
    if s != [] {
      CountNone(s[..|s| - 1]);
      var front := s[..|s| - 1];
      assert forall j :: 0 <= j < |front| ==> front[j] == s[j];
    }
  }

  lemma CountOne(s: seq<Item>, item: nat)
    requires item < |s| && s[item].selected
    ensures CountSelected(s) >= 1
    ensures CountSelected(s) == 1 ==> forall j :: 0 <= j < |s| && j != item ==> !s[j].selected
  {
    var without := s[item := With(s[item], false)];
    CountUpdate(s, item, With(s[item], false));
    if CountSelected(s) == 1 {
      CountNone(without);
      assert forall j :: 0 <= j < |s| && j != item ==> without[j] == s[j];
    }
  }

  /** Which items are to be selected in the end. */
  datatype Goal = All | Only(item: int)

  predicate Wants(goal: Goal, j: int) {
    goal.All? || j == goal.item
  }

  /** The items before i have been given the flag they should have; the others are as they were. */
  ghost predicate SetUpTo(was: seq<Item>, now: seq<Item>, i: nat, goal: Goal) {
    && |now| == |was| && i <= |now|
    && (forall j :: 0 <= j < i ==> now[j] == With(was[j], Wants(goal, j)))
    && (forall j :: i <= j < |now| ==> now[j] == was[j])
  }

  /** Every item has exactly the flag it should have, and is otherwise as it was. */
  ghost predicate AllSet(was: seq<Item>, now: seq<Item>, goal: Goal) {
    SetUpTo(was, now, |now|, goal)
  }

  lemma SetNext(was: seq<Item>, now: seq<Item>, i: nat, goal: Goal)
    requires SetUpTo(was, now, i, goal) && i < |now|
    ensures SetUpTo(was, now[i := With(now[i], Wants(goal, i))], i + 1, goal)
    ensures now[i].selected == Wants(goal, i) ==> SetUpTo(was, now, i + 1, goal)
  {
    if now[i].selected == Wants(goal, i) {
      assert With(now[i], Wants(goal, i)) == now[i];
    }
  }

  lemma RestSelected(was: seq<Item>, now: seq<Item>, i: nat)
    requires SetUpTo(was, now, i, All) && CountSelected(now) == |now|
    ensures AllSet(was, now, All)
  {
    CountBound(now);
  }

  lemma RestClear(was: seq<Item>, now: seq<Item>, i: nat, item: int)
    requires SetUpTo(was, now, i, Only(item)) && -1 <= item < |now| && (item >= 0 ==> now[item].selected)
    requires CountSelected(now) == if item == -1 then 0 else 1
    ensures AllSet(was, now, Only(item))
  {
    if item == -1 { CountNone(now); } else { CountOne(now, item); }
  }

  lemma SelectedFirst(was: seq<Item>, then_: seq<Item>, now: seq<Item>, item: nat)
    requires item < |was| && then_ == was[item := With(was[item], true)] && AllSet(then_, now, Only(item))
    ensures AllSet(was, now, Only(item))
  {
  }

  /** The count says that an unselected item is still to come: the search for it needs no bound. */
  lemma UnselectedAhead(s: seq<Item>, i: nat)
    requires i <= |s| && CountSelected(s) < |s| && forall j :: 0 <= j < i ==> s[j].selected
    ensures i < |s|
  {
    CountBound(s);
  }

  /** And that a selected one other than `item` is. */
  lemma SelectedAhead(s: seq<Item>, i: nat, item: int)
    requires i <= |s| && CountSelected(s) > (if item == -1 then 0 else 1)
    requires forall j :: 0 <= j < i && j != item ==> !s[j].selected
    ensures i < |s|
  {
    if i == |s| {
      CountExcept(s, item);
    }
  }

  lemma {:induction false} CountSplit(a: seq<Item>, b: seq<Item>)
    ensures CountSelected(a + b) == CountSelected(a) + CountSelected(b)
  {
    if b == [] {
      assert a + b == a;
    } else {
      assert (a + b)[..|a + b| - 1] == a + b[..|b| - 1];
      CountSplit(a, b[..|b| - 1]);
    }
  }

  lemma TakeOut(t: seq<Item>, k: nat)
    requires k < |t|
    ensures var rest := t[..k] + t[k + 1..];
            && multiset(rest) == multiset(t) - multiset{t[k]}
            && CountSelected(t) == CountSelected(rest) + if t[k].selected then 1 else 0
  {
    var before, after := t[..k], t[k + 1..];
    assert t == before + [t[k]] + after;
    CountSplit(before + [t[k]], after);
    CountSplit(before, after);
    assert (before + [t[k]])[..k] == before;
  }

  lemma CountPush(s: seq<Item>, item: Item)
    ensures CountSelected(s + [item]) == CountSelected(s) + if item.selected then 1 else 0
  {
    assert (s + [item])[..|s|] == s;
  }

  lemma {:induction false} CountPermutation(s: seq<Item>, t: seq<Item>)
    requires multiset(s) == multiset(t)
    ensures CountSelected(s) == CountSelected(t)
  {
    if s == [] {
      assert |multiset(t)| == 0;
    } else {
      var last := s[|s| - 1];
      TakeOut(s, |s| - 1);
      assert s[..|s| - 1] + s[|s|..] == s[..|s| - 1];
      assert last in multiset(t);
      var k :| 0 <= k < |t| && t[k] == last;
      TakeOut(t, k);
      CountPermutation(s[..|s| - 1], t[..k] + t[k + 1..]);
    }
  }

  /** Flips every flag. */
  function Inverted(s: seq<Item>): seq<Item> {
    seq(|s|, i requires 0 <= i < |s| => With(s[i], !s[i].selected))
  }

  lemma {:induction false} CountInverted(s: seq<Item>)
    ensures CountSelected(Inverted(s)) == |s| - CountSelected(s)
  {
    if s != [] {
      assert Inverted(s)[..|s| - 1] == Inverted(s[..|s| - 1]);
      CountInverted(s[..|s| - 1]);
    }
  }

  /** The items for which the test does not ask for removal, in order. */
  function Survivors(s: seq<Item>, removes: nat -> bool): seq<Item> {
    if s == [] then []
    else
      var last := s[|s| - 1];
      Survivors(s[..|s| - 1], removes) + if removes(last.data) then [] else [last]
  }

  lemma {:induction false} SurvivorsSplit(a: seq<Item>, b: seq<Item>, removes: nat -> bool)
    ensures Survivors(a + b, removes) == Survivors(a, removes) + Survivors(b, removes)
  {
    if b == [] {
      assert a + b == a;
    } else {
      assert (a + b)[..|a + b| - 1] == a + b[..|b| - 1];
      SurvivorsSplit(a, b[..|b| - 1], removes);
    }
  }

  lemma {:induction false} SurvivorsLength(s: seq<Item>, removes: nat -> bool)
    ensures |Survivors(s, removes)| <= |s|
  {
    if s != [] {
      SurvivorsLength(s[..|s| - 1], removes);
    }
  }

  /** When as many are left as there were, it is the same items. */
  lemma {:induction false} SurvivorsBound(s: seq<Item>, removes: nat -> bool)
    ensures |Survivors(s, removes)| <= |s|
    ensures |Survivors(s, removes)| == |s| ==> Survivors(s, removes) == s
  {
    SurvivorsLength(s, removes);
    if |Survivors(s, removes)| == |s| && s != [] {
      var front, last := s[..|s| - 1], s[|s| - 1];
      SurvivorsLength(front, removes);
      assert !removes(last.data);
      SurvivorsBound(front, removes);
      assert s == front + [last];
    }
  }

  lemma {:induction false} SurvivorsCount(s: seq<Item>, removes: nat -> bool)
    ensures CountSelected(Survivors(s, removes)) <= CountSelected(s)
  {
    if s != [] {
      SurvivorsCount(s[..|s| - 1], removes);
      CountPush(Survivors(s[..|s| - 1], removes), s[|s| - 1]);
      assert Survivors(s[..|s| - 1], removes) + [] == Survivors(s[..|s| - 1], removes);
    }
  }

  /** The first i items have been looked at; those that stay are at the front, the others as they were. */
  ghost predicate Sifted(was: seq<Item>, now: seq<Item>, removes: nat -> bool, i: nat, out: nat) {
    && out <= i <= |was| == |now|
    && now[..out] == Survivors(was[..i], removes) && now[i..] == was[i..]
  }

  lemma SiftNext(was: seq<Item>, now: seq<Item>, removes: nat -> bool, i: nat, out: nat)
    requires Sifted(was, now, removes, i, out) && i < |was|
    ensures now[i] == was[i]
    ensures removes(now[i].data) ==> Sifted(was, now, removes, i + 1, out)
    ensures !removes(now[i].data) ==> Sifted(was, now[out := now[i]], removes, i + 1, out + 1)
    ensures CountSelected(now[out := now[i]][..out + 1]) == CountSelected(now[..out]) + if now[i].selected then 1 else 0
  {
    assert now[i] == now[i..][0] == was[i];
    assert was[..i + 1][..i] == was[..i];
    assert now[i + 1..] == now[i..][1..] == was[i + 1..];
    var next := now[out := now[i]];
    assert next[..out + 1] == now[..out] + [now[i]];
    assert next[..out + 1][..out] == now[..out];
    assert next[i + 1..] == now[i + 1..];
  }

  /** The cursor after the first i items: it falls back one for each item removed up to it. */
  function CursorAt(s: seq<Item>, removes: nat -> bool, cursor: int, i: nat): int
    requires -1 <= cursor && i <= |s|
  {
    var m := Min(cursor + 1, i);
    cursor - (m - |Survivors(s[..m], removes)|)
  }

  lemma CursorNext(s: seq<Item>, removes: nat -> bool, cursor: int, i: nat)
    requires -1 <= cursor && i < |s|
    ensures CursorAt(s, removes, cursor, i + 1)
         == CursorAt(s, removes, cursor, i) - if removes(s[i].data) && cursor >= i then 1 else 0
  {
    assert s[..i + 1][..i] == s[..i];
  }

  /** Where the cursor stands in the end: as far from the front as items up to it have stayed. */
  function CursorMoved(s: seq<Item>, removes: nat -> bool, cursor: int): int {
    if 0 <= cursor < |s| then |Survivors(s[..cursor + 1], removes)| - 1 else cursor
  }

  lemma CursorEnds(s: seq<Item>, removes: nat -> bool, cursor: int)
    requires -1 <= cursor && (cursor < |s| || cursor == 0)
    ensures CursorAt(s, removes, cursor, |s|) == CursorMoved(s, removes, cursor)
    ensures var c := CursorMoved(s, removes, cursor);
            -1 <= c && (c < |Survivors(s, removes)| || c == 0)
    ensures |Survivors(s, removes)| == |s| ==> CursorMoved(s, removes, cursor) == cursor
  {
    if 0 <= cursor < |s| {
      assert s == s[..cursor + 1] + s[cursor + 1..];
      SurvivorsSplit(s[..cursor + 1], s[cursor + 1..], removes);
      SurvivorsBound(s[..cursor + 1], removes);
      SurvivorsBound(s[cursor + 1..], removes);
    } else {
      assert s[..0] == [];
    }
  }

  /** A stable filter: the items of the result stand where increasing positions of the kept ones say. */
  lemma {:induction false} SurvivorsAt(s: seq<Item>, removes: nat -> bool, j: nat)
    requires j < |s|
    ensures !removes(s[j].data) ==>
              |Survivors(s[..j], removes)| < |Survivors(s, removes)| &&
              Survivors(s, removes)[|Survivors(s[..j], removes)|] == s[j]
    ensures |Survivors(s[..j + 1], removes)| == |Survivors(s[..j], removes)| + if removes(s[j].data) then 0 else 1
  {
    assert s == s[..j + 1] + s[j + 1..];
    SurvivorsSplit(s[..j + 1], s[j + 1..], removes);
    assert s[..j + 1][..j] == s[..j];
  }

  /** Where the cursor goes: on the same item if it stays, else on the nearest earlier item that stays, else nowhere. */
  lemma {:induction false} CursorAfter(s: seq<Item>, removes: nat -> bool, cursor: nat) returns (j: int)
    requires cursor < |s|
    ensures -1 <= j <= cursor && forall i :: j < i <= cursor ==> removes(s[i].data)
    ensures var at := CursorMoved(s, removes, cursor);
            if j == -1 then at == -1
            else !removes(s[j].data) && 0 <= at < |Survivors(s, removes)| && Survivors(s, removes)[at] == s[j]
  {
    j := cursor;
    while j >= 0 && removes(s[j].data)
      invariant -1 <= j <= cursor && forall i :: j < i <= cursor ==> removes(s[i].data)
      invariant |Survivors(s[..j + 1], removes)| == |Survivors(s[..cursor + 1], removes)|
    {
      SurvivorsAt(s, removes, j);
      j := j - 1;
    }
    if j >= 0 {
      SurvivorsAt(s, removes, j);
    } else {
      assert s[..0] == [];
    }
  }

  /** No item stands before one that should come earlier. */
  ghost predicate Sorted(s: seq<Item>, cmp: Compare) {
    forall i, j :: 0 <= i < j < |s| ==> cmp(s[i].data, s[j].data) <= 0
  }

  function Reverse(cmp: Compare): Compare {
    (a: nat, b: nat) => -cmp(a, b)
  }

  function Ordering(cmp: Compare, ascending: bool): Compare {
    if ascending then cmp else Reverse(cmp)
  }

  lemma OrderingConsistent(cmp: Compare, ascending: bool)
    requires Consistent(cmp)
    ensures Consistent(Ordering(cmp, ascending))
  {
    forall a, b
      ensures Opposite(Reverse(cmp)(a, b), Reverse(cmp)(b, a))
    {
      assert Opposite(cmp(a, b), cmp(b, a));
    }
    forall a, b, c | Reverse(cmp)(a, b) <= 0 && Reverse(cmp)(b, c) <= 0
      ensures Reverse(cmp)(a, c) <= 0
    {
      assert Opposite(cmp(a, b), cmp(b, a)) && Opposite(cmp(b, c), cmp(c, b)) && Opposite(cmp(a, c), cmp(c, a));
      assert cmp(c, b) <= 0 && cmp(b, a) <= 0;
    }
  }

  /** The item goes in after all that may stand before it. */
  function Insert(item: Item, s: seq<Item>, cmp: Compare): seq<Item> {
    if s == [] || cmp(s[|s| - 1].data, item.data) <= 0 then s + [item]
    else Insert(item, s[..|s| - 1], cmp) + [s[|s| - 1]]
  }

  lemma {:induction false} InsertMembers(item: Item, s: seq<Item>, cmp: Compare)
    ensures multiset(Insert(item, s, cmp)) == multiset(s) + multiset{item}
    ensures forall x :: x in Insert(item, s, cmp) ==> x == item || x in s
  {
    if s != [] {
      assert s == s[..|s| - 1] + [s[|s| - 1]];
      InsertMembers(item, s[..|s| - 1], cmp);
    }
  }

  ghost predicate AllBefore(s: seq<Item>, item: Item, cmp: Compare) {
    forall x :: x in s ==> cmp(x.data, item.data) <= 0
  }

  lemma SortedLast(s: seq<Item>, item: Item, cmp: Compare)
    ensures Sorted(s + [item], cmp) <==> Sorted(s, cmp) && AllBefore(s, item, cmp)
  {
    var t := s + [item];
    if Sorted(t, cmp) {
      forall i, j | 0 <= i < j < |s|
        ensures cmp(s[i].data, s[j].data) <= 0
      {
        assert cmp(t[i].data, t[j].data) <= 0;
      }
      forall x | x in s
        ensures cmp(x.data, item.data) <= 0
      {
        var i :| 0 <= i < |s| && s[i] == x;
        assert cmp(t[i].data, t[|s|].data) <= 0;
      }
    }
  }

  predicate InOrderAt(s: seq<Item>, cmp: Compare, i: nat)
    requires 0 < i < |s|
  {
    cmp(s[i - 1].data, s[i].data) <= 0
  }

  /** Neighbours in order are enough. */
  lemma NeighboursSorted(s: seq<Item>, cmp: Compare)
    requires Consistent(cmp) && forall i :: 0 < i < |s| ==> InOrderAt(s, cmp, i)
    ensures Sorted(s, cmp)
  {
    forall i, j | 0 <= i < j < |s|
      ensures cmp(s[i].data, s[j].data) <= 0
    {
      StepByStep(s, cmp, i, j);
    }
  }

  lemma {:induction false} StepByStep(s: seq<Item>, cmp: Compare, i: nat, j: nat)
    requires Consistent(cmp) && i < j < |s| && forall k :: 0 < k < |s| ==> InOrderAt(s, cmp, k)
    ensures cmp(s[i].data, s[j].data) <= 0
  {
    assert InOrderAt(s, cmp, j);
    if i < j - 1 {
      StepByStep(s, cmp, i, j - 1);
    }
  }

  lemma {:induction false} InsertSorted(item: Item, s: seq<Item>, cmp: Compare)
    requires Consistent(cmp) && Sorted(s, cmp)
    ensures Sorted(Insert(item, s, cmp), cmp)
  {
    if s == [] {
      SortedLast(s, item, cmp);
    } else {
      var front, last := s[..|s| - 1], s[|s| - 1];
      assert s == front + [last];
      SortedLast(front, last, cmp);
      if cmp(last.data, item.data) <= 0 {
        SortedLast(s, item, cmp);
      } else {
        InsertSorted(item, front, cmp);
        InsertMembers(item, front, cmp);
        assert Opposite(cmp(last.data, item.data), cmp(item.data, last.data));
        SortedLast(Insert(item, front, cmp), last, cmp);
      }
    }
  }

  /** Stands for the C library's `qsort`, of which only the contract is used. */
  function QSort(s: seq<Item>, cmp: Compare): (r: seq<Item>)
    requires Consistent(cmp)
    ensures Sorted(r, cmp) && multiset(r) == multiset(s)
  {
    if s == [] then []
    else
      assert s == s[..|s| - 1] + [s[|s| - 1]];
      InsertSorted(s[|s| - 1], QSort(s[..|s| - 1], cmp), cmp);
      InsertMembers(s[|s| - 1], QSort(s[..|s| - 1], cmp), cmp);
      Insert(s[|s| - 1], QSort(s[..|s| - 1], cmp), cmp)
  }

  /** The cursor stands on the data it stood on before. */
  predicate CursorFollows(was: seq<Item>, cursor: int, now: seq<Item>, moved: int) {
    if 0 <= cursor < |was| then 0 <= moved < |now| && now[moved].data == was[cursor].data else moved == cursor
  }

  /** What the client has been told last. */
  function HasSelection(signals: seq<Signal>): bool {
    if signals == [] then false
    else match signals[|signals| - 1]
      case Gain => true
      case Lose => false
      case Changed => HasSelection(signals[..|signals| - 1])
  }

  /** What a client must be told when the number selected goes from `was` to `now`. */
  function Transition(was: nat, now: nat): seq<Signal> {
    if (was > 0) == (now > 0) then [] else if now > 0 then [Gain] else [Lose]
  }

  function Change(blocked: bool): seq<Signal> {
    if blocked then [] else [Changed]
  }

  /** The signals after one item was given its flag. */
  function Announced(was: nat, now: nat, signal: bool, blocked: bool): seq<Signal> {
    if was == now then [] else (if signal then Transition(was, now) else []) + Change(blocked)
  }

  /** The signals of clearing all but `item`, which was selected or not. */
  function Cleared(item: int, was: nat, selected: bool, blocked: bool): seq<Signal> {
    if item == -1 then
      if was == 0 then [] else [Lose] + Change(blocked)
    else (if selected then [] else Announced(was, was + 1, true, blocked)) + Change(blocked)
  }

  lemma AnnouncedTells(signals: seq<Signal>, was: nat, now: nat, blocked: bool)
    requires HasSelection(signals) == (was > 0)
    ensures HasSelection(signals + Announced(was, now, true, blocked)) == (now > 0)
  {
    LastTells(signals, Transition(was, now));
    LastTells(signals + Transition(was, now), Change(blocked));
    assert signals + Transition(was, now) + Change(blocked) == signals + (Transition(was, now) + Change(blocked));
    assert signals + [] == signals;
  }

  lemma LastTells(signals: seq<Signal>, more: seq<Signal>)
    requires |more| <= 1
    ensures HasSelection(signals + more) ==
            if more == [] || more[0] == Changed then HasSelection(signals) else more[0] == Gain
  {
    assert more == [] ==> signals + more == signals;
    assert more != [] ==> (signals + more)[..|signals|] == signals;
  }

  /** What applying the lasso does: `invert` flips the items in the area, otherwise they are all selected. */
  function Lassoed(s: seq<Item>, g: Grid, area: Area, invert: bool): seq<Item>
    requires g.Valid()
  {
    seq(|s|, i requires 0 <= i < |s| =>
      if area.Contains(g.CellOf(i)) then With(s[i], !invert || !s[i].selected) else s[i])
  }

  lemma InvertTwice(s: seq<Item>, g: Grid, area: Area)
    requires g.Valid()
    ensures Lassoed(Lassoed(s, g, area, true), g, area, true) == s
  {
  }

  /** Visited when the scan of the area, row by row, has come to (y, x). */
  predicate Visited(cell: Cell, area: Area, y: int, x: int) {
    area.Contains(cell) && (cell.row < y || (cell.row == y && cell.col < x))
  }

  /** Some cell of row `y`, from the area's first column to before `x`, holds an item. */
  ghost predicate RowHolds(g: Grid, area: Area, y: int, x: int)
    requires g.Valid()
  {
    exists c :: area.x <= c < x && c < g.columns && g.ItemAt(Cell(y, c)) < g.n
  }

  /** Some row of the area before `y` does. */
  ghost predicate AreaHolds(g: Grid, area: Area, y: int)
    requires g.Valid()
  {
    var end := area.x + area.width;
    exists r :: area.y <= r < y && r < g.Rows() && RowHolds(g, area, r, end)
  }

  lemma HoldsNextRow(g: Grid, area: Area, y: int)
    requires g.Valid() && area.y <= y < g.Rows()
    ensures AreaHolds(g, area, y + 1) <==> AreaHolds(g, area, y) || RowHolds(g, area, y, area.x + area.width)
  {
  }

  lemma HoldsNoMore(g: Grid, area: Area, y: int)
    requires g.Valid() && area.y <= y && (y >= area.y + area.height || y >= g.Rows())
    requires y <= area.y + area.height || y == area.y
    ensures AreaHolds(g, area, y) <==> AreaHolds(g, area, area.y + area.height)
  {
  }

  /** The items as they are when the scan has come to (y, x). */
  ghost predicate LassoedTo(was: seq<Item>, now: seq<Item>, g: Grid, area: Area, invert: bool, y: int, x: int)
    requires g.Valid()
  {
    |now| == |was| && forall i :: 0 <= i < |was| ==>
      now[i] == if Visited(g.CellOf(i), area, y, x) then With(was[i], !invert || !was[i].selected) else was[i]
  }

  lemma LassoStarts(was: seq<Item>, g: Grid, area: Area, invert: bool)
    requires g.Valid()
    ensures LassoedTo(was, was, g, area, invert, area.y, area.x)
  {
  }

  /** An item is visited at its own cell and no other. */
  lemma LassoNext(was: seq<Item>, now: seq<Item>, g: Grid, area: Area, invert: bool, y: nat, x: nat)
    requires g.Valid() && |was| == g.n && LassoedTo(was, now, g, area, invert, y, x)
    requires y < g.Rows() && x < g.columns && area.Contains(Cell(y, x))
    ensures var item := g.ItemAt(Cell(y, x));
            if 0 <= item < g.n
            then LassoedTo(was, now[item := With(now[item], !invert || !now[item].selected)], g, area, invert, y, x + 1)
            else item >= g.n && LassoedTo(was, now, g, area, invert, y, x + 1)
  {
    var cell := Cell(y, x);
    var item := g.ItemAt(cell);
    if item < g.n {
      CellHasItem(g, cell);
    } else {
      assert item >= 0;
    }
    forall i | 0 <= i < g.n
      ensures g.CellOf(i) == cell ==> i == item
      ensures Visited(g.CellOf(i), area, y, x + 1) <==> Visited(g.CellOf(i), area, y, x) || g.CellOf(i) == cell
    {
      ItemHasCell(g, i);
    }
  }

  lemma LassoNextRow(was: seq<Item>, now: seq<Item>, g: Grid, area: Area, invert: bool, y: int, x: int)
    requires g.Valid() && |was| == g.n && LassoedTo(was, now, g, area, invert, y, x)
    requires x >= area.x + area.width || x >= g.columns
    ensures LassoedTo(was, now, g, area, invert, y + 1, area.x)
  {
    forall i | 0 <= i < g.n
      ensures Visited(g.CellOf(i), area, y + 1, area.x) <==> Visited(g.CellOf(i), area, y, x)
    {
      ItemHasCell(g, i);
    }
  }

  lemma LassoEnds(was: seq<Item>, now: seq<Item>, g: Grid, area: Area, invert: bool, y: int)
    requires g.Valid() && |was| == g.n && LassoedTo(was, now, g, area, invert, y, area.x)
    requires y >= area.y + area.height || y >= g.Rows()
    ensures now == Lassoed(was, g, area, invert)
  {
    forall i | 0 <= i < g.n
      ensures Visited(g.CellOf(i), area, y, area.x) <==> area.Contains(g.CellOf(i))
    {
      ItemHasCell(g, i);
    }
  }

  /** The items the lasso takes are those it meets on both axes. */
  lemma LassoTakes(s: seq<Item>, g: Grid, box: Box, itemWidth: nat, itemHeight: nat, invert: bool, i: nat)
    requires g.Valid() && |s| == g.n && i < |s| && itemWidth > 0 && itemHeight > 0
    ensures var now := Lassoed(s, g, FindLassoArea(box, g.columns, itemWidth, itemHeight), invert)[i];
            if (box.Width() >= 8 || box.Height() >= 8)
               && Meets(g.CellOf(i).col, box.x0, box.x1, itemWidth)
               && Meets(g.CellOf(i).row, box.y0, box.y1, itemHeight)
            then now == With(s[i], !invert || !s[i].selected)
            else now == s[i]
  {
    ItemHasCell(g, i);
    LassoExact(box, g.columns, itemWidth, itemHeight, g.CellOf(i));
  }

  lemma {:induction false} NoneSurvive(s: seq<Item>, removes: nat -> bool)
    requires forall d :: removes(d)
    ensures Survivors(s, removes) == []
  {
    if s != [] {
      NoneSurvive(s[..|s| - 1], removes);
    }
  }
}
