/** The data of the collection widget: a growing array of items, the count of those selected, and the cursor. */
module Collections {
  import opened Wrappers
  import opened Grids
  import opened Items
  import opened Orders
  import Display

  const MINIMUM_ITEMS: nat := 16

  /** Whether the movement key came with Shift or Control. */
  datatype Modifier = Plain | Shift | Control

  datatype SelectionOp = Set | Invert | Clear

  function Test(removes: Option<nat -> bool>): nat -> bool {
    if removes.Some? then removes.value else (data => true)
  }

  class Collection {
    var items: array<Item>
    var numberOfItems: nat
    var numberSelected: nat
    /** -1 if not shown; 0 is allowed even when there are no items. */
    var cursorItem: int
    var cursorItemOld: int
    var columns: nat
    var verticalOrder: bool
    var itemWidth: nat
    var itemHeight: nat
    var blockSelectionChanged: nat
    var signals: seq<Signal>

    constructor ()
      ensures Valid() && fresh(items) && items.Length == 16 && numberOfItems == 0
      ensures cursorItem == cursorItemOld == -1 && columns == 1 && !verticalOrder && itemWidth == itemHeight == 64
      ensures blockSelectionChanged == 0 && signals == []
    {
      items := new Item[MINIMUM_ITEMS];
      numberOfItems, numberSelected, cursorItem, cursorItemOld := 0, 0, -1, -1;
      columns, verticalOrder, itemWidth, itemHeight := 1, false, 64, 64;
      blockSelectionChanged, signals := 0, [];
    }

    ghost function Contents(): seq<Item>
      reads this`items, this`numberOfItems, items
      requires numberOfItems <= items.Length
    {
      items[..numberOfItems]
    }

    function Layout(): Grid
      reads this`numberOfItems, this`columns, this`verticalOrder
    {
      Grid(numberOfItems, columns, verticalOrder)
    }

    ghost predicate Shape()
      reads this
    {
      && numberOfItems <= items.Length && items.Length >= MINIMUM_ITEMS
      && columns > 0 && itemWidth > 0 && itemHeight > 0
      && -1 <= cursorItem && (cursorItem < numberOfItems || cursorItem == 0) && cursorItemOld >= -1
    }

    /** The count is exact. */
    ghost predicate Counted()
      reads this, items
    {
      Shape() && numberSelected == CountSelected(Contents())
    }

    /** And a client that follows the signals knows whether anything is selected. */
    ghost predicate Valid()
      reads this, items
    {
      Counted() && HasSelection(signals) == (numberSelected > 0)
    }

    method ResizeArrays(newSize: nat)
      requires numberOfItems <= newSize && numberOfItems <= items.Length
      modifies this`items
      ensures fresh(items) && items.Length == newSize && Contents() == old(Contents())
    {
      var resized := new Item[newSize];
      forall i | 0 <= i < numberOfItems {
        resized[i] := items[i];
      }
      items := resized;
    }

    method ItemSetSelected(item: int, selected: bool, signal: bool)
      requires Counted()
      modifies this`numberSelected, this`signals, items
      ensures Counted()
      ensures Contents() == if 0 <= item < numberOfItems then old(Contents()[item := With(Contents()[item], selected)])
                            else old(Contents())
      ensures signals ==
        old(signals) + Announced(old(numberSelected), numberSelected, signal, blockSelectionChanged > 0)
    {
      hide CountSelected, HasSelection;
      if item < 0 || item >= numberOfItems {
        return;
      }
      if items[item].selected == selected {
        assert Contents()[item := With(Contents()[item], selected)] == Contents();
        return;
      }
      CountUpdate(Contents(), item, With(items[item], selected));
      items[item] := With(items[item], selected);
      assert Contents() == old(Contents()[item := With(Contents()[item], selected)]);
      if selected {
        numberSelected := numberSelected + 1;
        if signal && numberSelected == 1 {
          signals := signals + [Gain];
        }
      } else {
        numberSelected := numberSelected - 1;
        if signal && numberSelected == 0 {
          signals := signals + [Lose];
        }
      }
      EmitSelectionChanged();
    }

    method EmitSelectionChanged()
      modifies this`signals
      ensures signals == old(signals) + Change(blockSelectionChanged > 0)
    {
      if blockSelectionChanged == 0 {
        signals := signals + [Changed];
      }
    }

    method SelectItem(item: int, selected: bool)
      requires Valid()
      modifies this`numberSelected, this`signals, items
      ensures Valid()
      ensures Contents() == if 0 <= item < numberOfItems then old(Contents()[item := With(Contents()[item], selected)])
                            else old(Contents())
      ensures signals == old(signals) + Announced(old(numberSelected), numberSelected, true, blockSelectionChanged > 0)
    {
      ItemSetSelected(item, selected, true);
      AnnouncedTells(old(signals), old(numberSelected), numberSelected, blockSelectionChanged > 0);
    }

    method ToggleItem(item: nat)
      requires Valid() && item < numberOfItems
      modifies this`numberSelected, this`signals, items
      ensures Valid() && Contents() == old(Contents()[item := With(Contents()[item], !Contents()[item].selected)])
    {
      SelectItem(item, !items[item].selected);
    }

    /** The search for an unselected item has no bound of its own: the count is what ends it. */
    method SelectAll()
      requires Valid()
      modifies this`numberSelected, this`signals, items
      ensures Valid() && numberSelected == numberOfItems && AllSet(old(Contents()), Contents(), All)
      ensures signals == old(signals) +
        if old(numberSelected) == numberOfItems then [] else [Gain] + Change(blockSelectionChanged > 0)
    {
      hide CountSelected, HasSelection, AllSet;
      CountBound(Contents());
      if numberSelected == numberOfItems {
        RestSelected(Contents(), Contents(), 0);
        return;
      }
      hide AllSet, CountSelected, HasSelection;
      SelectOthers();
      TellSelected();
    }

    method TellSelected()
      modifies this`signals
      ensures HasSelection(signals) && signals == old(signals) + ([Gain] + Change(blockSelectionChanged > 0))
    {
      LastTells(signals, [Gain]);
      LastTells(signals + [Gain], Change(blockSelectionChanged > 0));
      signals := signals + [Gain];
      EmitSelectionChanged();
    }

    method SelectOthers()
      requires Counted()
      modifies this`numberSelected, items
      ensures Counted() && numberSelected == numberOfItems && AllSet(old(Contents()), Contents(), All)
    {
      hide CountSelected, HasSelection, AllSet;
      var item := 0;
      CountBound(Contents());
      while numberSelected < numberOfItems
        invariant item <= numberOfItems && Counted() && numberSelected <= numberOfItems
        invariant SetUpTo(old(Contents()), Contents(), item, All)
        decreases numberOfItems - numberSelected
      {
        UnselectedAhead(Contents(), item);
        while items[item].selected
          invariant item < numberOfItems && SetUpTo(old(Contents()), Contents(), item, All)
          decreases numberOfItems - item
          modifies {}
        {
          SetNext(old(Contents()), Contents(), item, All);
          item := item + 1;
          UnselectedAhead(Contents(), item);
        }
        SetNext(old(Contents()), Contents(), item, All);
        Flip(item);
        item := item + 1;
        CountBound(Contents());
      }
      RestSelected(old(Contents()), Contents(), item);
    }

    /** One flag changed, and the count with it. */
    method Flip(item: nat)
      requires Counted() && item < numberOfItems
      modifies this`numberSelected, items
      ensures Counted() && Contents() == old(Contents()[item := With(Contents()[item], !Contents()[item].selected)])
      ensures numberSelected == old(numberSelected) + if old(items[item].selected) then -1 else 1
    {
      hide CountSelected, HasSelection;
      var selected := !items[item].selected;
      CountUpdate(Contents(), item, With(items[item], selected));
      items[item] := With(items[item], selected);
      assert Contents() == old(Contents()[item := With(Contents()[item], !Contents()[item].selected)]);
      numberSelected := if selected then numberSelected + 1 else numberSelected - 1;
    }

    /** All but `item` are unselected, and it is selected; -1 leaves nothing selected. */
    method ClearExcept(item: int)
      requires Valid() && -1 <= item < numberOfItems
      modifies this`numberSelected, this`signals, items
      ensures Valid() && numberSelected == (if item == -1 then 0 else 1)
      ensures AllSet(old(Contents()), Contents(), Only(item))
      ensures signals == old(signals) + Cleared(item, old(numberSelected), item >= 0 && old(items[item].selected),
                                               blockSelectionChanged > 0)
    {
      hide CountSelected, HasSelection, AllSet;
      var end := 0;
      if item != -1 {
        KeepSelected(item);
        end := 1;
      }
      ghost var then_ := Contents();
      if numberSelected == 0 {
        RestClear(then_, then_, 0, item);
        return;
      }
      ClearOthers(item, end);
      if item != -1 {
        SelectedFirst(old(Contents()), then_, Contents(), item);
      }
      TellCleared(end == 0);
    }

    method TellCleared(none: bool)
      requires HasSelection(signals) && none == (numberSelected == 0)
      modifies this`signals
      ensures HasSelection(signals) == !none
      ensures signals == old(signals) + if none then [Lose] + Change(blockSelectionChanged > 0)
                                        else Change(blockSelectionChanged > 0)
    {
      var more := if none then [Lose] else [];
      LastTells(signals, more);
      signals := signals + more;
      LastTells(signals, Change(blockSelectionChanged > 0));
      EmitSelectionChanged();
    }

    /** `item` is selected, if it was not, before the others lose their flags. */
    method KeepSelected(item: nat)
      requires Valid() && item < numberOfItems
      modifies this`numberSelected, this`signals, items
      ensures Valid() && numberSelected > 0
      ensures Contents() == old(Contents()[item := With(Contents()[item], true)])
      ensures signals == old(signals) + if old(items[item].selected) then []
                else Announced(old(numberSelected), old(numberSelected) + 1, true, blockSelectionChanged > 0)
    {
      CountUpdate(Contents(), item, With(items[item], true));
      SelectItem(item, true);
      CountOne(Contents(), item);
    }

    method ClearOthers(item: int, end: nat)
      requires Counted() && -1 <= item < numberOfItems && end == (if item == -1 then 0 else 1) && numberSelected >= end
      requires item >= 0 ==> items[item].selected
      modifies this`numberSelected, items
      ensures Counted() && numberSelected == end && AllSet(old(Contents()), Contents(), Only(item))
    {
      hide CountSelected, HasSelection, AllSet;
      var i := 0;
      while numberSelected > end
        invariant i <= numberOfItems && Counted() && numberSelected >= end
        invariant item >= 0 ==> items[item].selected
        invariant SetUpTo(old(Contents()), Contents(), i, Only(item))
        decreases numberSelected
      {
        SelectedAhead(Contents(), i, item);
        while i == item || !items[i].selected
          invariant i < numberOfItems && SetUpTo(old(Contents()), Contents(), i, Only(item))
          decreases numberOfItems - i
          modifies {}
        {
          SetNext(old(Contents()), Contents(), i, Only(item));
          i := i + 1;
          SelectedAhead(Contents(), i, item);
        }
        SetNext(old(Contents()), Contents(), i, Only(item));
        Flip(i);
        i := i + 1;
      }
      RestClear(old(Contents()), Contents(), i, item);
    }

    method ClearSelection()
      requires Valid()
      modifies this`numberSelected, this`signals, items
      ensures Valid() && numberSelected == 0 && AllSet(old(Contents()), Contents(), Only(-1))
      ensures signals == old(signals) +
        if old(numberSelected) == 0 then [] else [Lose] + Change(blockSelectionChanged > 0)
    {
      ClearExcept(-1);
    }

    method InvertSelection()
      requires Valid()
      modifies this`numberSelected, this`signals, items
      ensures Valid() && Contents() == Inverted(old(Contents()))
      ensures signals == old(signals) +
        if numberOfItems == 0 then []
        else Transition(old(numberSelected), numberSelected) + Change(blockSelectionChanged > 0)
    {
      hide CountSelected, HasSelection;
      if numberSelected == 0 {
        CountNone(Contents());
        SelectAll();
      } else if numberOfItems == numberSelected {
        CountBound(Contents());
        ClearSelection();
      } else {
        CountBound(Contents());
        CountInverted(Contents());
        InvertAll();
        numberSelected := numberOfItems - numberSelected;
        LastTells(signals, Change(blockSelectionChanged > 0));
        EmitSelectionChanged();
      }
    }

    method InvertAll()
      requires numberOfItems <= items.Length
      modifies items
      ensures Contents() == Inverted(old(Contents()))
    {
      var item := 0;
      while item < numberOfItems
        invariant 0 <= item <= numberOfItems
        invariant forall j :: 0 <= j < item ==> items[j] == With(old(items[j]), !old(items[j].selected))
        invariant forall j :: item <= j < numberOfItems ==> items[j] == old(items[j])
      {
        items[item] := With(items[item], !items[item].selected);
        item := item + 1;
      }
    }

    method Insert(data: nat, viewData: nat) returns (item: int)
      requires Valid()
      modifies this`items, this`numberOfItems, items
      ensures Valid() && (items == old(items) || fresh(items))
      ensures items.Length ==
        if old(numberOfItems < items.Length) then old(items.Length) else old(numberOfItems) + old(numberOfItems) / 2
      ensures item == old(numberOfItems) && Contents() == old(Contents()) + [Item(data, viewData, false)]
    {
      hide CountSelected, HasSelection;
      item := numberOfItems;
      if item >= items.Length {
        ResizeArrays(item + item / 2);
      }
      var inserted := Item(data, viewData, false);
      CountPush(Contents(), inserted);
      items[item] := inserted;
      numberOfItems := numberOfItems + 1;
      assert items[..numberOfItems] == items[..item] + [inserted];
    }

    /** `removes` is the test; None removes everything. */
    method DeleteIf(removes: Option<nat -> bool>)
      requires Valid()
      modifies this`items, this`numberOfItems, this`numberSelected, this`cursorItem, this`signals, items
      ensures Valid() && (items == old(items) || fresh(items))
      ensures Contents() == Survivors(old(Contents()), Test(removes))
      ensures cursorItem == CursorMoved(old(Contents()), Test(removes), old(cursorItem))
      ensures signals == old(signals) + Transition(old(numberSelected), numberSelected)
    {
      ghost var was := Contents();
      var test := Test(removes);
      var out, selected, cursor := Sift(test);
      SurvivorsBound(was, test);
      SurvivorsCount(was, test);
      CursorEnds(was, test, cursorItem);
      if numberOfItems != out {
        Shrink(out, selected, cursor);
      } else {
        assert signals + [] == signals;
      }
    }

    method Clear()
      requires Valid()
      modifies this`items, this`numberOfItems, this`numberSelected, this`cursorItem, this`signals, items
      ensures Valid() && (items == old(items) || fresh(items)) && numberOfItems == 0 && numberSelected == 0
      ensures old(numberOfItems) > 0 && old(cursorItem) >= 0 ==> cursorItem == -1
    {
      NoneSurvive(Contents(), Test(None));
      NoneSurvive(Contents()[..if 0 <= cursorItem < numberOfItems then cursorItem + 1 else 0], Test(None));
      DeleteIf(None);
    }

    method Shrink(out: nat, selected: nat, cursor: int)
      requires Shape() && HasSelection(signals) == (numberSelected > 0) && out < numberOfItems
      requires selected == CountSelected(items[..out]) && selected <= numberSelected
      requires -1 <= cursor && (cursor < out || cursor == 0)
      modifies this`items, this`numberOfItems, this`numberSelected, this`cursorItem, this`signals
      ensures Valid() && fresh(items) && Contents() == old(items[..out])
      ensures cursorItem == cursor && numberSelected == selected
      ensures signals == old(signals) + Transition(old(numberSelected), selected)
    {
      cursorItem := cursor;
      numberOfItems := out;
      LastTells(signals, Transition(numberSelected, selected));
      signals := signals + Transition(numberSelected, selected);
      numberSelected := selected;
      ResizeArrays(Max(numberOfItems, MINIMUM_ITEMS));
    }

    method CopyDown(from_: nat, to: nat)
      requires to <= from_ < numberOfItems <= items.Length
      modifies items
      ensures Contents() == old(Contents()[to := Contents()[from_]])
    {
      items[to] := items[from_];
    }

    /** The pass over the array: the items that stay move down over those that go. */
    method Sift(removes: nat -> bool) returns (out: nat, selected: nat, cursor: int)
      requires Shape()
      modifies items
      ensures out <= numberOfItems && items[..out] == Survivors(old(Contents()), removes)
      ensures selected == CountSelected(items[..out])
      ensures cursor == CursorAt(old(Contents()), removes, cursorItem, numberOfItems)
    {
      ghost var was := Contents();
      out, selected, cursor := 0, 0, cursorItem;
      var in_ := 0;
      while in_ < numberOfItems
        invariant in_ <= numberOfItems && Sifted(was, Contents(), removes, in_, out)
        invariant selected == CountSelected(Contents()[..out])
        invariant cursor == CursorAt(was, removes, cursorItem, in_)
      {
        SiftNext(was, Contents(), removes, in_, out);
        CursorNext(was, removes, cursorItem, in_);
        if !removes(items[in_].data) {
          selected := selected + if items[in_].selected then 1 else 0;
          CopyDown(in_, out);
          out := out + 1;
        } else if cursorItem >= in_ {
          cursor := cursor - 1;
        }
        in_ := in_ + 1;
      }
      assert was[..in_] == was && Contents()[..out] == items[..out];
    }

    /** The C library's sort, on the first n items. */
    static method LibQSort(a: array<Item>, n: nat, cmp: Compare)
      requires n <= a.Length && Consistent(cmp)
      modifies a
      ensures Sorted(a[..n], cmp) && multiset(a[..n]) == old(multiset(a[..n]))
    {
      var s := QSort(a[..n], cmp);
      assert |multiset(s)| == |multiset(a[..n])|;
      forall i | 0 <= i < n {
        a[i] := s[i];
      }
      assert a[..n] == s;
    }

    method IsSorted(cmp: Compare, ascending: bool) returns (sorted: bool)
      requires Shape() && Consistent(cmp)
      ensures sorted == Sorted(Contents(), Ordering(cmp, ascending))
    {
      var mul := if ascending then 1 else -1;
      var order := Ordering(cmp, ascending);
      var i := 1;
      while i < numberOfItems
        invariant 1 <= i && (numberOfItems > 0 ==> i <= numberOfItems)
        invariant forall k :: 0 < k < i && k < numberOfItems ==> InOrderAt(Contents(), order, k)
      {
        assert mul * cmp(items[i - 1].data, items[i].data) == order(Contents()[i - 1].data, Contents()[i].data);
        if mul * cmp(items[i - 1].data, items[i].data) > 0 {
          return false;
        }
        i := i + 1;
      }
      OrderingConsistent(cmp, ascending);
      NeighboursSorted(Contents(), order);
      sorted := true;
    }

    /** Sorted in the end; the cursor goes along with the data it stood on. */
    method QuickSort(cmp: Compare, ascending: bool)
      requires Valid() && Consistent(cmp)
      modifies this`cursorItem, this`cursorItemOld, items
      ensures Valid() && Sorted(Contents(), Ordering(cmp, ascending))
      ensures multiset(Contents()) == multiset(old(Contents()))
      ensures Sorted(old(Contents()), Ordering(cmp, ascending)) ==> Contents() == old(Contents())
      ensures CursorFollows(old(Contents()), old(cursorItem), Contents(), cursorItem)
    {
      hide CountSelected, HasSelection, Consistent;
      if numberOfItems < 2 {
        return;
      }
      var sorted := IsSorted(cmp, ascending);
      if sorted {
        return;
      }
      var cursorData := if 0 <= cursorItem < numberOfItems then Some(items[cursorItem].data) else None;
      Reorder(Ordering(cmp, ascending), cmp, ascending);
      if cursorData.Some? {
        FollowCursor(cursorData.value, old(Contents()), old(cursorItem));
      }
    }

    method Reorder(order: Compare, ghost cmp: Compare, ghost ascending: bool)
      requires Counted() && Consistent(cmp) && order == Ordering(cmp, ascending)
      modifies items
      ensures Counted() && Sorted(Contents(), order) && multiset(Contents()) == multiset(old(Contents()))
    {
      OrderingConsistent(cmp, ascending);
      LibQSort(items, numberOfItems, order);
      CountPermutation(Contents(), old(Contents()));
    }

    method FollowCursor(data: nat, ghost was: seq<Item>, ghost i: int)
      requires Shape() && multiset(was) == multiset(Contents()) && 0 <= i < |was| && was[i].data == data
      modifies this`cursorItem, this`cursorItemOld
      ensures Shape() && CursorFollows(was, i, Contents(), cursorItem)
    {
      assert was[i] in multiset(Contents());
      ghost var k :| 0 <= k < numberOfItems && Contents()[k] == was[i];
      var item := 0;
      while item < numberOfItems
        invariant item <= numberOfItems && Shape()
        invariant k < item ==> 0 <= cursorItem < numberOfItems && items[cursorItem].data == data
      {
        if items[item].data == data {
          SetCursorItem(item);
        }
        item := item + 1;
      }
    }

    method SetCursorItem(item: int)
      requires Shape()
      modifies this`cursorItem, this`cursorItemOld
      ensures Shape()
      ensures cursorItem == if item >= -1 && (item < numberOfItems || item == 0) then item else old(cursorItem)
      ensures cursorItemOld == if cursorItem == -1 && old(cursorItem) != -1 then old(cursorItem) else old(cursorItemOld)
    {
      if item < -1 || (item >= numberOfItems && item != 0) || cursorItem == item {
        return;
      }
      if item == -1 && cursorItem != -1 {
        cursorItemOld := cursorItem;
      }
      cursorItem := item;
    }

    /** Binary search in a collection sorted the same way. */
    method FindItem(data: nat, cmp: Compare, ascending: bool) returns (i: int)
      requires Shape() && Consistent(cmp) && Sorted(Contents(), Ordering(cmp, ascending))
      ensures -1 <= i < numberOfItems
      ensures i >= 0 ==> cmp(Contents()[i].data, data) == 0
      ensures i == -1 ==> forall j :: 0 <= j < numberOfItems ==> cmp(Contents()[j].data, data) != 0
    {
      hide Consistent, Sorted;
      var mul := if ascending then 1 else -1;
      ghost var order, s := Ordering(cmp, ascending), Contents();
      OrderingConsistent(cmp, ascending);
      var lower, upper := 0, numberOfItems;
      while lower < upper
        invariant 0 <= lower <= upper <= numberOfItems
        invariant forall j :: 0 <= j < lower ==> order(s[j].data, data) < 0
        invariant forall j :: upper <= j < numberOfItems ==> order(s[j].data, data) > 0
      {
        i := (lower + upper) / 2;
        var c := mul * cmp(items[i].data, data);
        assert c == order(s[i].data, data);
        if c == 0 {
          return;
        }
        NotAround(s, order, data, i);
        if c > 0 {
          upper := i;
        } else {
          lower := i + 1;
        }
      }
      assert forall j :: 0 <= j < numberOfItems ==> order(s[j].data, data) != 0;
      i := -1;
    }

    /** The lasso box is let go: the items it covers are selected, or inverted. */
    method EndLasso(box: Box, op: SelectionOp)
      requires Valid()
      modifies this`numberSelected, this`signals, this`blockSelectionChanged, items
      ensures Valid() && blockSelectionChanged == old(blockSelectionChanged)
      ensures Contents() == if op.Clear? then old(Contents())
                else Lassoed(old(Contents()), Layout(), FindLassoArea(box, columns, itemWidth, itemHeight), op.Invert?)
      ensures signals == if op.Clear? then old(signals) else
                old(signals) + Transition(old(numberSelected), numberSelected) +
                  var area := FindLassoArea(box, columns, itemWidth, itemHeight);
                  if AreaHolds(Layout(), area, area.y + area.height) then Change(blockSelectionChanged > 0) else []
    {
      if !op.Clear? {
        LassoInRange(box, columns, itemWidth, itemHeight);
        ProcessArea(FindLassoArea(box, columns, itemWidth, itemHeight), op.Invert?);
      }
    }

    method ProcessArea(area: Area, invert: bool)
      requires Valid() && area.x >= 0 && area.y >= 0
      modifies this`numberSelected, this`signals, this`blockSelectionChanged, items
      ensures Valid() && blockSelectionChanged == old(blockSelectionChanged)
      ensures Contents() == Lassoed(old(Contents()), Layout(), area, invert)
      ensures signals == old(signals) + Transition(old(numberSelected), numberSelected) +
        if AreaHolds(Layout(), area, area.y + area.height) then Change(blockSelectionChanged > 0) else []
    {
      hide CountSelected, HasSelection, Lassoed, AreaHolds;
      var oldSelected := numberSelected;
      blockSelectionChanged := blockSelectionChanged + 1;
      var changed := ScanArea(area, invert);
      blockSelectionChanged := blockSelectionChanged - 1;
      TellTransition(oldSelected, changed);
    }

    method TellTransition(oldSelected: nat, changed: bool)
      requires HasSelection(signals) == (oldSelected > 0)
      modifies this`signals
      ensures HasSelection(signals) == (numberSelected > 0)
      ensures signals == old(signals) + Transition(oldSelected, numberSelected) +
        if changed then Change(blockSelectionChanged > 0) else []
    {
      LastTells(signals, Transition(oldSelected, numberSelected));
      signals := signals + Transition(oldSelected, numberSelected);
      if changed {
        LastTells(signals, Change(blockSelectionChanged > 0));
        EmitSelectionChanged();
      }
    }

    method ScanArea(area: Area, invert: bool) returns (changed: bool)
      requires Counted() && area.x >= 0 && area.y >= 0 && blockSelectionChanged > 0
      modifies this`numberSelected, this`signals, items
      ensures Counted() && signals == old(signals)
      ensures Contents() == Lassoed(old(Contents()), Layout(), area, invert)
      ensures changed <==> AreaHolds(Layout(), area, area.y + area.height)
    {
      hide CountSelected, HasSelection, LassoedTo, Lassoed;
      ghost var g := Layout();
      var rows := Layout().Rows();
      var y := area.y;
      changed := false;
      LassoStarts(Contents(), g, area, invert);
      while y < area.y + area.height && y < rows
        invariant area.y <= y && (y <= area.y + area.height || y == area.y) && Counted() && signals == old(signals)
        invariant LassoedTo(old(Contents()), Contents(), g, area, invert, y, area.x)
        invariant changed <==> AreaHolds(g, area, y)
      {
        var more := ScanRow(area, invert, y, old(Contents()));
        HoldsNextRow(g, area, y);
        changed := changed || more;
        y := y + 1;
      }
      HoldsNoMore(g, area, y);
      LassoEnds(old(Contents()), Contents(), g, area, invert, y);
    }

    method ScanRow(area: Area, invert: bool, y: int, ghost was: seq<Item>) returns (changed: bool)
      requires Counted() && area.x >= 0 && 0 <= y && area.y <= y < area.y + area.height && y < Layout().Rows()
      requires blockSelectionChanged > 0 && |was| == numberOfItems
      requires LassoedTo(was, Contents(), Layout(), area, invert, y, area.x)
      modifies this`numberSelected, this`signals, items
      ensures Counted() && signals == old(signals)
      ensures LassoedTo(was, Contents(), Layout(), area, invert, y + 1, area.x)
      ensures changed <==> RowHolds(Layout(), area, y, area.x + area.width)
    {
      hide CountSelected, HasSelection, LassoedTo, AreaHolds;
      var x := area.x;
      changed := false;
      while x < area.x + area.width && x < columns
        invariant area.x <= x && (x <= area.x + area.width || x == area.x) && Counted() && signals == old(signals)
        invariant LassoedTo(was, Contents(), Layout(), area, invert, y, x)
        invariant changed <==> RowHolds(Layout(), area, y, x)
      {
        LassoNext(was, Contents(), Layout(), area, invert, y, x);
        var item := Layout().ItemAt(Cell(y, x));
        if item < numberOfItems {
          var selected := !invert || !items[item].selected;
          ItemSetSelected(item, selected, false);
          changed := true;
        }
        x := x + 1;
      }
      LassoNextRow(was, Contents(), Layout(), area, invert, y, x);
    }

    /** A cursor key; `first` and `last` are the rows in view. */
    method MoveCursor(drow: int, dcol: int, modifier: Modifier, first: int, last: int)
      requires Valid()
      modifies this`numberSelected, this`signals, this`cursorItem, this`cursorItemOld, items
      ensures Valid()
      ensures cursorItem == if numberOfItems == 0 then 0
                else Layout().Target(if old(cursorItem) == -1 then Min(old(cursorItemOld), numberOfItems - 1)
                                     else old(cursorItem),
                                     drow, dcol, first, last)
      ensures Contents() == if modifier.Plain? || numberOfItems == 0 then old(Contents())
                else old(Contents())[cursorItem := With(old(Contents())[cursorItem], modifier.Shift?)]
    {
      hide CountSelected, HasSelection;
      if numberOfItems == 0 {
        SetCursorItem(0);
        return;
      }
      var item := if cursorItem == -1 then Min(cursorItemOld, numberOfItems - 1) else cursorItem;
      var target := Layout().Target(item, drow, dcol, first, last);
      if !modifier.Plain? {
        SelectItem(target, modifier.Shift?);
      }
      SetCursorItem(target);
    }
  }

  lemma LassoInRange(box: Box, columns: nat, itemWidth: nat, itemHeight: nat)
    requires itemWidth > 0 && itemHeight > 0
    ensures var area := FindLassoArea(box, columns, itemWidth, itemHeight);
            area.x >= 0 && area.y >= 0
  {
    RangeExact(box.x0, box.x1, itemWidth, 0);
    RangeExact(box.y0, box.y1, itemHeight, 0);
  }

  /** An item on one side of what is looked for has all before it, or all after it, on the same side. */
  lemma NotAround(s: seq<Item>, order: Compare, data: nat, i: nat)
    requires Consistent(order) && Sorted(s, order) && i < |s|
    ensures order(s[i].data, data) > 0 ==> forall j :: i <= j < |s| ==> order(s[j].data, data) > 0
    ensures order(s[i].data, data) < 0 ==> forall j :: 0 <= j <= i ==> order(s[j].data, data) < 0
  {
    forall j | 0 <= j < |s|
      ensures order(s[i].data, data) > 0 && i <= j ==> order(s[j].data, data) > 0
      ensures order(s[i].data, data) < 0 && j <= i ==> order(s[j].data, data) < 0
    {
      assert i < j ==> order(s[i].data, s[j].data) <= 0;
      assert j < i ==> order(s[j].data, s[i].data) <= 0;
      assert Opposite(order(s[j].data, data), order(data, s[j].data));
      assert Opposite(order(s[i].data, data), order(data, s[i].data));
      assert order(s[j].data, data) <= 0 && order(s[i].data, s[j].data) <= 0 ==> order(s[i].data, data) <= 0;
      assert order(data, s[j].data) <= 0 && order(s[j].data, s[i].data) <= 0 ==> order(data, s[i].data) <= 0;
    }
  }

  /** Inverting twice with the same box changes nothing. */
  method LassoTwice(c: Collection, box: Box)
    requires c.Valid()
    modifies c, c.items
    ensures c.Valid() && c.Contents() == old(c.Contents()) && c.numberSelected == old(c.numberSelected)
  {
    hide CountSelected, HasSelection, Lassoed, AreaHolds;
    InvertTwice(c.Contents(), c.Layout(), FindLassoArea(box, c.columns, c.itemWidth, c.itemHeight));
    c.EndLasso(box, Invert);
    c.EndLasso(box, Invert);
  }

  /**
   * Items of different names, put in order by any of the rankings: the search finds each of them, and
   * at its own place.
   */
  method SortAndFind(c: Collection, deref: nat -> Display.DirItem, ranking: Display.Compare, ascending: bool, k: nat)
    returns (i: int)
    requires c.Valid() && k < c.numberOfItems && Display.Ranks(ranking)
    requires NamesApart(c.Contents(), deref)
    modifies c, c.items
    ensures c.Valid() && multiset(c.Contents()) == multiset(old(c.Contents()))
    ensures 0 <= i < c.numberOfItems && c.Contents()[i] == old(c.Contents())[k]
  {
    var cmp: Compare := Through<nat, Display.DirItem>(deref, ranking);
    ThroughConsistent(deref, ranking);
    ghost var was := c.Contents();
    var item := c.items[k];
    assert item == was[k];
    c.QuickSort(cmp, ascending);
    i := c.FindItem(item.data, cmp, ascending);
    FoundIsIt(was, c.Contents(), deref, ranking, k, i);
  }

  ghost predicate NamesApart(s: seq<Item>, deref: nat -> Display.DirItem) {
    forall x, y :: x in s && y in s && deref(x.data).leafname == deref(y.data).leafname ==> x == y
  }

  lemma FoundIsIt(was: seq<Item>, now: seq<Item>, deref: nat -> Display.DirItem, ranking: Display.Compare, k: nat,
                  i: int)
    requires multiset(now) == multiset(was) && NamesApart(was, deref)
    requires Display.Ranks(ranking) && k < |was| && -1 <= i < |now|
    requires i >= 0 ==> Through<nat, Display.DirItem>(deref, ranking)(now[i].data, was[k].data) == 0
    requires i == -1 ==> forall j :: 0 <= j < |now| ==>
      Through<nat, Display.DirItem>(deref, ranking)(now[j].data, was[k].data) != 0
    ensures i >= 0 && now[i] == was[k]
  {
    var d := deref(was[k].data);
    assert was[k] in multiset(now);
    var j :| 0 <= j < |now| && now[j] == was[k];
    assert Opposite(ranking(d, d), ranking(d, d));
    if i >= 0 {
      assert now[i] in multiset(was);
      assert ranking(deref(now[i].data), d) == 0;
    }
  }
}
