// Forward trackers over arrays of fixed-size items (array.c, browse.c, debug.c).

module FixedArrayTracking {
  import opened Arithmetic
  import opened BoxOffsets
  import opened FixedArrays

  datatype State = Dangling | OnItem | OnItemOffset | OnItemSize | AtEnd

  class ArrayTracker {
    const arr: FixedArray
    var onItem: bool        // false when no item filter is set
    var index: int
    var itemOffset: int     // UNKNOWN when not computed
    var itemSize: int
    var atEnd: bool
    var needOffset: bool

    // tracker_get_state
    function GetState(): State
      reads this
    {
      if !onItem then (if atEnd then AtEnd else Dangling)
      else if itemSize == UNKNOWN then (if atEnd then AtEnd else if itemOffset != UNKNOWN then OnItemOffset else OnItem)
      else OnItemSize
    }

    // An offset lies within the bounds that dbg_tracker_check_state consults.
    predicate Bounded(offset: int)
      reads arr.box
    {
      var s, e := arr.box.start, arr.box.end;
      && (if s.used != UNKNOWN then offset >= s.used
          else (s.maxSpan == UNKNOWN || offset >= s.maxSpan) && (s.span == UNKNOWN || offset >= s.span))
      && (if e.used != UNKNOWN then offset <= e.used
          else (e.maxSpan == UNKNOWN || offset <= e.maxSpan) && (e.span == UNKNOWN || offset <= e.span))
    }

    // dbg_tracker_check_state, for a forward tracker
    predicate StateOk()
      reads this, arr.box
    {
      match GetState()
      case Dangling => !onItem && itemSize == UNKNOWN && !atEnd
      case OnItem => onItem && itemOffset == UNKNOWN && itemSize == UNKNOWN && !atEnd && index != -1
      case OnItemOffset => onItem && itemOffset >= 0 && Bounded(itemOffset) && itemSize == UNKNOWN && !atEnd && index != -1
      case OnItemSize => onItem && itemOffset >= 0 && itemSize >= 0
                         && Bounded(itemOffset) && Bounded(itemOffset + itemSize) && (!atEnd ==> index != -1)
      case AtEnd => (itemOffset >= 0 || !needOffset) && itemSize == UNKNOWN && atEnd && !onItem
    }

    // What the moves keep: the offset is where the index says, and the item is inside the box.
    ghost predicate Valid()
      reads this, arr, arr.box
    {
      && arr.Valid()
      && (onItem ==> !atEnd && index >= 0 && (arr.Counted() ==> index < arr.Items()))
      && (!onItem ==> itemSize == UNKNOWN)
      && (!needOffset ==> itemOffset == UNKNOWN && itemSize == UNKNOWN)
      && (atEnd && needOffset ==> itemOffset >= 0)
      && (onItem && arr.nItems == -1 ==> arr.length.FillsSlack? && needOffset)
      && (onItem && needOffset ==> Located())
    }

    ghost predicate Located()
      reads this, arr, arr.box
    {
      && itemOffset == arr.Start() + index * arr.itemSize
      && (itemSize == UNKNOWN || itemSize == arr.itemSize)
      && (arr.box.end.used == UNKNOWN ==>
            itemOffset + (if itemSize == UNKNOWN then 0 else itemSize) <= arr.box.end.slack)
    }

    lemma KnownEnds()
      requires arr.Valid()
      ensures arr.box.start == At(arr.Start()) && arr.Start() >= 0
      ensures arr.box.end.used == UNKNOWN ==> arr.Start() <= KnownEnd(arr.box.end) <= arr.box.end.slack
      ensures arr.Start() <= KnownEnd(arr.box.end)
      ensures arr.nItems != -1 ==> arr.Counted() && arr.nItems == arr.Items()
    {
      if arr.box.end.span != UNKNOWN {
        arr.SpanIsKnown();
      }
      if arr.Counted() {
        Scaled(0, arr.Items(), arr.itemSize);
      }
    }

    // ---------- when the moves succeed ----------

    // Item `nth` ends before the first known end of the box.
    predicate FitsInBox(nth: int)
      reads arr.box
    {
      arr.box.start.span + nth * arr.itemSize + arr.itemSize <= KnownEnd(arr.box.end)
    }

    // Another item begins in the slack behind the first `count` of them.
    predicate MoreInSlack(count: int)
      reads arr.box
    {
      arr.box.start.span + count * arr.itemSize + (if arr.itemSize == 0 then 1 else arr.itemSize) <= arr.box.end.slack
    }

    // Without a length there is always room for the items that there are; with one, an item
    // may reach past the box.
    ghost function BackendOutcome(): Status
      reads arr, arr.box
    {
      match arr.length
      case FillsSlack => if MoreInSlack(0) then Done else NoItem
      case Count(n) =>
        if n < 0 then DataError
        else if n == 0 then NoItem
        else if arr.MaxSpanFits() then Done else BoundsError
    }

    ghost function FirstOutcome(): Status
      reads this, arr, arr.box
    {
      if BackendOutcome() == Done && arr.length.Count? && needOffset && !FitsInBox(0) then BoundsError
      else BackendOutcome()
    }

    ghost function NextOutcome(): Status
      reads this, arr, arr.box
    {
      match arr.length
      case FillsSlack => if MoreInSlack(index + 1) then Done else NoItem
      case Count(n) =>
        if needOffset && (!arr.MaxSpanFits() || !FitsInBox(index)) then BoundsError
        else if index + 1 == n then NoItem
        else if needOffset && !FitsInBox(index + 1) then BoundsError
        else Done
    }

    ghost function NthOutcome(nth: int): Status
      requires 0 <= arr.box.start.span <= arr.box.end.slack
      reads this, arr, arr.box
    {
      if nth < 0 then InvalidParam
      else if !arr.Counted() then DataError
      else if nth >= arr.Items() then NoItem
      else if needOffset && !FitsInBox(nth) then BoundsError
      else Done
    }

    // Without a length the count is known to fit, and sets the used size on the way.
    ghost function EndOutcome(): Status
      requires 0 <= arr.box.start.span <= arr.box.end.slack
      reads this, arr, arr.box
    {
      if !arr.Counted() then DataError
      else if needOffset && arr.length.Count? then arr.SpanOutcome()
      else Done
    }

    // The items of an array without a length lie in the slack, whatever end is known.
    lemma SlackItems(k: nat)
      requires arr.Valid() && arr.length.FillsSlack? && arr.itemSize > 0
      ensures MoreInSlack(k) <==> k < arr.Items()
      ensures k < arr.Items() ==> FitsInBox(k)
    {
      var space := arr.box.end.slack - arr.Start();
      NextItem(k, arr.itemSize);
      DivisionCounts(space, arr.itemSize, k + 1);
      Scaled(k + 1, arr.Items(), arr.itemSize);
    }

    // Items of no size fit wherever the array begins.
    lemma EmptyItemFits(k: nat)
      requires arr.Valid() && arr.itemSize == 0
      ensures FitsInBox(k) && k * arr.itemSize == 0
    {
      KnownEnds();
    }

    constructor (arr: FixedArray)
      requires arr.Valid()
      ensures Valid() && this.arr == arr && !onItem && !atEnd && !needOffset
    {
      this.arr := arr;
      onItem, index, itemOffset, itemSize := false, -1, UNKNOWN, UNKNOWN;
      atEnd, needOffset := false, false;
    }

    method SetEnd()
      modifies this
      ensures !onItem && atEnd && itemSize == UNKNOWN
      ensures index == old(index) && itemOffset == old(itemOffset) && needOffset == old(needOffset)
    {
      itemSize, onItem, atEnd := UNKNOWN, false, true;
    }

    method SetDangling()
      modifies this
      ensures !onItem && !atEnd && itemSize == UNKNOWN && index == -1
      ensures itemOffset == old(itemOffset) && needOffset == old(needOffset)
    {
      itemSize, onItem, atEnd, index := UNKNOWN, false, false, -1;
    }

    method Rewind()
      requires Valid()
      modifies this
      ensures Valid() && GetState() == Dangling && !needOffset
    {
      SetDangling();
      needOffset, itemOffset := false, UNKNOWN;
    }

    method RenewLimit(limit: int)
      requires Valid()
      modifies arr.box
      ensures Valid()
    {
      arr.RenewLimit(limit);
    }

    // tracker_check_item
    function CheckItem(): Status
      reads this, arr.box
    {
      var maxOffset := KnownEnd(arr.box.end);
      var size := if itemSize != UNKNOWN then itemSize else if onItem then arr.itemSize else 0;
      if itemOffset != UNKNOWN && maxOffset != UNKNOWN && itemOffset + size > maxOffset then BoundsError else Done
    }

    // tracker_check_if_last_item__array_slack
    method CheckIfLast() returns (r: Status)
      modifies this
      ensures r == if itemOffset + (if arr.itemSize == 0 then 1 else arr.itemSize) > arr.box.end.slack then NoItem else Done
      ensures r == Done ==> unchanged(this)
      ensures r == NoItem ==> !onItem && atEnd && itemSize == UNKNOWN
      ensures index == old(index) && itemOffset == old(itemOffset) && needOffset == old(needOffset)
    {
      var minItemSize := arr.itemSize;
      if minItemSize == 0 {
        minItemSize := 1;
      }
      if itemOffset + minItemSize > arr.box.end.slack {
        SetEnd();
        return NoItem;
      }
      return Done;
    }

    // tracker_goto_first_item__array_generic
    method FirstGeneric() returns (r: Status)
      requires arr.Valid() && !onItem && !atEnd && itemSize == UNKNOWN
      modifies this, arr.box
      ensures arr.Valid() && arr.Refined() && arr.nItems == old(arr.nItems)
      ensures r == if old(arr.MaxSpanFits()) then Done else BoundsError
      ensures KnownEnd(arr.box.end) == old(KnownEnd(arr.box.end))
      ensures needOffset == old(needOffset) && !atEnd && itemSize == UNKNOWN
      ensures r == Done ==> onItem && index == 0 && arr.box.end.maxSpan == arr.box.end.slack
                            && itemOffset == if needOffset then arr.Start() else old(itemOffset)
      ensures r != Done ==> unchanged(this)
    {
      r := arr.ComputeMaxSpan();
      if r != Done {
        return;
      }
      if needOffset {
        itemOffset := arr.box.start.used;
      }
      index, onItem := 0, true;
    }

    // goto_first_item of arrays with and without a length
    method FirstBackend() returns (r: Status)
      requires arr.Valid() && !onItem && !atEnd && itemSize == UNKNOWN && itemOffset == UNKNOWN
      modifies this, arr`nItems, arr.box
      ensures arr.Valid() && arr.Refined() && itemSize == UNKNOWN
      ensures r == old(BackendOutcome()) && KnownEnd(arr.box.end) == old(KnownEnd(arr.box.end))
      ensures r == Done ==> arr.box.end.maxSpan == arr.box.end.slack && arr.MaxSpanFits()
      ensures arr.length.FillsSlack? ==> needOffset
      ensures arr.length.Count? ==> needOffset == old(needOffset)
      ensures r == Done ==> onItem && !atEnd && index == 0 && (arr.Counted() ==> arr.Items() > 0)
      ensures r == Done && arr.nItems == -1 ==> arr.length.FillsSlack? && needOffset
      ensures r == Done && needOffset ==> itemOffset == arr.Start()
      ensures r != Done ==> !onItem && (arr.Counted() && r == NoItem ==> arr.Items() == 0)
      ensures r != Done && r != NoItem ==> !atEnd
      ensures !needOffset ==> itemOffset == UNKNOWN
      ensures old(needOffset) ==> needOffset
    {
      SlackHasItems();
      hide FixedArray.Valid;
      if arr.length.Count? {
        r := FirstOfCount();
      } else {
        r := FirstInSlack();
      }
    }

    lemma SlackHasItems()
      requires arr.Valid()
      ensures arr.length.FillsSlack? && arr.Counted() ==> (MoreInSlack(0) <==> arr.Items() > 0)
    {
      if arr.length.FillsSlack? && arr.itemSize > 0 {
        SlackItems(0);
      }
    }

    // tracker_goto_first_item__array_non_slack
    method FirstOfCount() returns (r: Status)
      requires arr.Valid() && !onItem && !atEnd && itemSize == UNKNOWN && itemOffset == UNKNOWN && arr.length.Count?
      modifies this, arr`nItems, arr.box
      ensures arr.Valid() && arr.Refined() && itemSize == UNKNOWN && !atEnd && needOffset == old(needOffset)
      ensures r == old(BackendOutcome()) && KnownEnd(arr.box.end) == old(KnownEnd(arr.box.end))
      ensures r == Done ==> onItem && index == 0 && arr.box.end.maxSpan == arr.box.end.slack && arr.nItems != -1
      ensures r == Done ==> itemOffset == if needOffset then arr.Start() else UNKNOWN
      ensures r != Done ==> !onItem && itemOffset == UNKNOWN
    {
      r := arr.GetNItems();
      if r != Done {
        return;
      }
      if arr.nItems == 0 {
        return NoItem;
      }
      r := FirstGeneric();
    }

    // tracker_goto_first_item__array_slack
    method FirstInSlack() returns (r: Status)
      requires arr.Valid() && !onItem && !atEnd && itemSize == UNKNOWN && itemOffset == UNKNOWN && arr.length.FillsSlack?
      modifies this, arr`nItems, arr.box
      ensures arr.Valid() && arr.Refined() && itemSize == UNKNOWN && needOffset
      ensures r == old(BackendOutcome()) && KnownEnd(arr.box.end) == old(KnownEnd(arr.box.end))
      ensures arr.box.end.maxSpan == arr.box.end.slack
      ensures r == Done ==> onItem && index == 0 && !atEnd && itemOffset == arr.Start()
      ensures r != Done ==> r == NoItem && !onItem
    {
      needOffset := true;
      arr.SlackIsFree();
      r := FirstGeneric();
      if r != Done {
        return;
      }
      r := CheckIfLast();
    }

    // tracker_goto_first_item_internal
    method GotoFirst() returns (r: Status)
      requires Valid()
      modifies this, arr`nItems, arr.box
      ensures Valid() && arr.Refined()
      ensures r == old(FirstOutcome()) && KnownEnd(arr.box.end) == old(KnownEnd(arr.box.end))
      ensures r == Done ==> onItem && index == 0 && arr.MaxSpanFits()
      ensures r == NoItem ==> GetState() == AtEnd && (arr.Counted() ==> arr.Items() == 0)
      ensures arr.length.FillsSlack? ==> needOffset
      ensures arr.length.Count? ==> needOffset == old(needOffset)
    {
      FirstFits();
      SetDangling();
      itemOffset := UNKNOWN;
      r := FirstBackend();
      r := FinishFirst(r);
    }

    lemma FirstFits()
      requires arr.Valid()
      ensures arr.length.FillsSlack? && MoreInSlack(0) ==> FitsInBox(0)
    {
      if arr.length.FillsSlack? {
        if arr.itemSize == 0 {
          EmptyItemFits(0);
        } else {
          SlackItems(0);
        }
      }
    }

    method FinishFirst(backend: Status) returns (r: Status)
      requires arr.Valid() && itemSize == UNKNOWN && (!needOffset ==> itemOffset == UNKNOWN)
      requires backend == Done ==> onItem && !atEnd && index == 0 && (arr.Counted() ==> arr.Items() > 0)
      requires backend == Done && arr.nItems == -1 ==> arr.length.FillsSlack? && needOffset
      requires backend != Done ==> !onItem
      requires backend != Done && backend != NoItem ==> !atEnd
      modifies this
      ensures Valid() && needOffset == old(needOffset)
      ensures r == if backend == Done && needOffset && !FitsInBox(0) then BoundsError else backend
      ensures r == Done ==> onItem && index == 0
      ensures r == NoItem ==> GetState() == AtEnd
    {
      KnownEnds();
      r := backend;
      if r == NoItem {
        atEnd := true;
      }
      if (r == NoItem || r == Done) && needOffset {
        itemOffset := arr.box.start.span;
        var checked := CheckItem();
        if checked != Done {
          return checked;
        }
      }
    }

    // tracker_compute_item_location of an item of fixed size
    method ComputeItemLocation() returns (r: Status)
      requires Valid() && onItem && needOffset
      modifies this`itemSize, arr.box
      ensures Valid() && arr.Refined() && arr.nItems == old(arr.nItems)
      ensures r == if old(arr.MaxSpanFits()) && FitsInBox(index) then Done else BoundsError
      ensures KnownEnd(arr.box.end) == old(KnownEnd(arr.box.end)) && arr.MaxSpanFits() == old(arr.MaxSpanFits())
      ensures r == Done ==> itemSize == arr.itemSize
    {
      KnownEnds();
      r := arr.ComputeMaxSpan();
      if r != Done {
        return;
      }
      hide FixedArray.Valid;
      r := StoreItemSize();
    }

    method StoreItemSize() returns (r: Status)
      requires Valid() && onItem && needOffset && KnownEnd(arr.box.end) >= 0
      modifies this`itemSize
      ensures Valid() && r == if FitsInBox(index) then Done else BoundsError
      ensures r == Done ==> itemSize == arr.itemSize
    {
      KnownEnds();
      hide FixedArray.Valid;
      itemSize := arr.itemSize;
      r := CheckItem();
      if r != Done {
        itemSize := UNKNOWN;
      }
    }

    // tracker_goto_next_item_internal and tracker_goto_next_item__array
    method GotoNext() returns (r: Status)
      requires Valid()
      modifies this, arr`nItems, arr.box
      ensures Valid() && arr.Refined() && KnownEnd(arr.box.end) == old(KnownEnd(arr.box.end))
      ensures r == old(if atEnd then NoItem else if onItem then NextOutcome() else FirstOutcome())
      ensures old(arr.MaxSpanFits()) ==> arr.MaxSpanFits()
      ensures old(onItem) ==> needOffset == old(needOffset)
      ensures old(onItem) && r == Done ==> onItem && index == old(index) + 1
      ensures old(onItem) && r == NoItem ==> GetState() == AtEnd && (arr.Counted() ==> old(index) + 1 == arr.Items())
      ensures old(onItem) && r != Done && r != NoItem ==>
                index == old(index) && itemOffset == old(itemOffset) && onItem
      ensures old(needOffset) ==> needOffset
      ensures old(atEnd) ==> r == NoItem && unchanged(this)
      ensures !old(atEnd) && !old(onItem) && r == Done ==> onItem && index == 0
    {
      if atEnd {
        return NoItem;
      }
      if !onItem {
        r := GotoFirst();
        return;
      }
      CurrentFits();
      if needOffset {
        r := ComputeItemLocation();
        if r != Done {
          return;
        }
      }
      r := Advance();
    }

    // In an array without a length, nothing keeps a tracker from leaving the item it is on.
    lemma CurrentFits()
      requires Valid() && onItem
      ensures arr.length.FillsSlack? ==> arr.MaxSpanFits() && FitsInBox(index)
      ensures arr.length.FillsSlack? && MoreInSlack(index + 1) ==> FitsInBox(index + 1)
      ensures arr.nItems != -1 && arr.length.FillsSlack? ==> (MoreInSlack(index + 1) <==> index + 1 != arr.nItems)
    {
      if arr.length.FillsSlack? {
        arr.SlackIsFree();
        if arr.itemSize == 0 {
          EmptyItemFits(index);
          EmptyItemFits(index + 1);
        } else {
          SlackItems(index);
          SlackItems(index + 1);
        }
      }
    }

    method Advance() returns (r: Status)
      requires Valid() && onItem && (needOffset ==> itemSize == arr.itemSize && arr.MaxSpanFits() && FitsInBox(index))
      modifies this
      ensures Valid() && needOffset == old(needOffset)
      ensures r == old(NextOutcome())
      ensures r == Done ==> onItem && index == old(index) + 1
      ensures r == NoItem ==> GetState() == AtEnd && (arr.Counted() ==> old(index) + 1 == arr.Items())
      ensures r != Done && r != NoItem ==> index == old(index) && itemOffset == old(itemOffset) && onItem
    {
      CurrentFits();
      KnownEnds();
      hide FixedArray.Valid;
      var size := itemSize;
      NextItem(index, arr.itemSize);
      if needOffset {
        itemOffset := itemOffset + size;
      }
      index := index + 1;
      if arr.nItems != -1 && index == arr.nItems {
        SetEnd();
        return NoItem;
      }
      if arr.nItems == -1 {
        r := AdvanceInSlack();
      } else {
        r := CheckNext(size);
      }
    }

    // The tracker has moved by one item; it moves back when the next one does not fit.
    method CheckNext(size: int) returns (r: Status)
      requires onItem && !atEnd && index > 0
      requires needOffset ==> itemOffset == arr.box.start.span + index * arr.itemSize && itemSize == size == arr.itemSize
      requires !needOffset ==> itemOffset == UNKNOWN
      requires needOffset ==> itemOffset >= 0 && KnownEnd(arr.box.end) >= 0
      modifies this
      ensures r == if needOffset && !old(FitsInBox(index)) then BoundsError else Done
      ensures onItem && !atEnd && needOffset == old(needOffset)
      ensures r == Done ==> unchanged(this)
      ensures r != Done ==> index == old(index) - 1 && itemOffset == old(itemOffset) - size && itemSize == UNKNOWN
    {
      r := CheckItem();
      if r != Done {
        // rollback
        itemSize := UNKNOWN;
        if needOffset {
          itemOffset := itemOffset - size;
        }
        index := index - 1;
      }
    }

    // The tracker has moved by one item of an array whose count is not known yet.
    method AdvanceInSlack() returns (r: Status)
      requires arr.Valid() && arr.length.FillsSlack? && onItem && !atEnd && needOffset && index > 0
      requires arr.Counted() ==> index <= arr.Items()
      requires itemOffset == arr.Start() + index * arr.itemSize && itemSize == arr.itemSize
      requires arr.nItems == -1
      modifies this
      ensures Valid() && needOffset && index == old(index)
      ensures r == if MoreInSlack(index) then Done else NoItem
      ensures r == Done ==> onItem
      ensures r == NoItem ==> GetState() == AtEnd && (arr.Counted() ==> index == arr.Items())
    {
      if arr.itemSize > 0 {
        NextItem(index, arr.itemSize);
        DivisionCounts(arr.box.end.slack - arr.box.start.span, arr.itemSize, index + 1);
      }
      assert index * arr.itemSize >= 0;
      r := CheckIfLast();
    }

    // tracker_goto_nth_item__array_const_item_size: no walk at all
    method GotoNth(nth: int) returns (r: Status)
      requires Valid()
      modifies this, arr`nItems, arr.box
      ensures Valid() && arr.Refined() && needOffset == old(needOffset)
      ensures r == Done ==> onItem && index == nth && nth >= 0
      ensures r == Done && needOffset ==> itemOffset == arr.Start() + nth * arr.itemSize
      ensures r != Done ==> unchanged(this)
      ensures r == old(NthOutcome(nth))
      ensures r == InvalidParam <==> nth < 0
      ensures r == Done && needOffset ==> itemOffset + arr.itemSize <= old(KnownEnd(arr.box.end))
      ensures r == BoundsError ==>
                needOffset && arr.Start() + nth * arr.itemSize + arr.itemSize > old(KnownEnd(arr.box.end))
    {
      if nth < 0 {
        return InvalidParam;
      }
      r := GetCount(nth);
      if r != Done {
        return;
      }
      hide FixedArray.Valid;
      if nth >= arr.nItems {
        return NoItem;
      }
      if !needOffset {
        index, onItem, atEnd := nth, true, false;
        return Done;
      }
      r := PlaceAt(nth);
    }

    // Counting may set the used size, which does not change what fits.
    method GetCount(nth: nat) returns (r: Status)
      requires Valid()
      modifies arr`nItems, arr.box
      ensures Valid() && arr.Refined() && r == arr.CountOutcome()
      ensures r == Done ==> arr.nItems == arr.Items()
      ensures arr.Counted() && nth < arr.Items() ==> FitsInBox(nth) == old(FitsInBox(nth))
      ensures arr.SpanOutcome() == old(arr.SpanOutcome()) || arr.length.FillsSlack?
    {
      if arr.length.FillsSlack? && arr.itemSize > 0 {
        SlackItems(nth);
      }
      r := arr.GetNItems();
      if arr.length.FillsSlack? && arr.itemSize > 0 {
        SlackItems(nth);
      }
    }

    method PlaceAt(nth: nat) returns (r: Status)
      requires Valid() && needOffset && arr.nItems != -1 && nth < arr.nItems
      modifies this
      ensures Valid() && needOffset
      ensures r == Done <==> FitsInBox(nth)
      ensures r == Done ==> onItem && index == nth
      ensures r != Done ==> r == BoundsError && unchanged(this)
    {
      hide FixedArray.Valid;
      KnownEnds();
      var xtk := new ArrayTracker(arr);
      xtk.needOffset, xtk.onItem := true, true;
      xtk.itemOffset := arr.box.start.used;
      xtk.itemOffset := xtk.itemOffset + nth * arr.itemSize;
      xtk.itemSize, xtk.index := arr.itemSize, nth;
      assert nth * arr.itemSize >= 0;
      r := xtk.CheckItem();
      if r == Done {
        onItem, index, itemOffset, itemSize, atEnd := true, nth, xtk.itemOffset, xtk.itemSize, false;
      }
    }

    // tracker_goto_end_internal
    method GotoEnd() returns (r: Status)
      requires Valid()
      modifies this, arr`nItems, arr.box
      ensures Valid() && arr.Refined() && needOffset == old(needOffset)
      ensures r == old(EndOutcome())
      ensures r == Done ==> GetState() == AtEnd && arr.Counted() && index == arr.Items()
                            && (needOffset ==> itemOffset == arr.box.end.span)
      ensures r != Done ==> unchanged(this)
    {
      hide FixedArray.Valid, FixedArray.SpanOutcome;
      r := GetCount(0);
      if r != Done {
        return;
      }
      if needOffset {
        r := MeasureSpan();
        if r != Done {
          return;
        }
      }
      AtEndOfArray();
    }

    method MeasureSpan() returns (r: Status)
      requires Valid() && arr.nItems != -1
      modifies arr`nItems, arr.box
      ensures Valid() && arr.Refined() && r == (if arr.length.Count? then old(arr.SpanOutcome()) else Done)
      ensures r == Done ==> arr.box.end.span != UNKNOWN
    {
      SlackSpan();
      r := arr.ComputeSpan();
    }

    lemma SlackSpan()
      requires arr.Valid() && arr.nItems != -1
      ensures arr.length.FillsSlack? ==> arr.SpanOutcome() == Done
    {
      if arr.length.FillsSlack? {
        arr.SlackIsFree();
        arr.ItemsInSlack();
      }
    }

    method AtEndOfArray()
      requires Valid() && arr.nItems != -1 && (needOffset ==> arr.box.end.span != UNKNOWN)
      modifies this
      ensures Valid() && GetState() == AtEnd && index == arr.nItems && needOffset == old(needOffset)
      ensures needOffset ==> itemOffset == arr.box.end.span
    {
      if needOffset {
        arr.SpanIsKnown();
        itemOffset := arr.box.end.span;
      }
      index := arr.nItems;
      SetEnd();
    }
  }

  // The moves' invariant implies the predicate of the debug checker.
  lemma ValidStateIsOk(tk: ArrayTracker)
    requires tk.Valid()
    ensures tk.StateOk()
  {
    if tk.onItem && tk.needOffset {
      Scaled(0, tk.index, tk.arr.itemSize);
      NextItem(tk.index, tk.arr.itemSize);
      if tk.arr.Counted() {
        Scaled(tk.index + 1, tk.arr.Items(), tk.arr.itemSize);
      }
    }
  }

  datatype Move = First | Next | Nth(n: int) | End | Rewind | Renew(limit: int)

  method MakeMove(tk: ArrayTracker, move: Move) returns (r: Status)
    requires tk.Valid()
    modifies tk, tk.arr`nItems, tk.arr.box
    ensures tk.Valid() && (!move.Renew? ==> tk.arr.Refined())
    ensures move == Next && old(tk.onItem) && r != Done && r != NoItem ==>
              tk.index == old(tk.index) && tk.itemOffset == old(tk.itemOffset)
  {
    match move
    case First => r := tk.GotoFirst();
    case Next => r := tk.GotoNext();
    case Nth(n) => r := tk.GotoNth(n);
    case End => r := tk.GotoEnd();
    case Rewind =>
      tk.Rewind();
      r := Done;
    case Renew(limit) =>
      tk.RenewLimit(limit);
      r := Done;
  }

  // Every run of moves keeps the checked state, with the limit of the parent renewed in between.
  method RunMoves(tk: ArrayTracker, moves: seq<Move>)
    requires tk.Valid()
    modifies tk, tk.arr`nItems, tk.arr.box
    ensures tk.Valid() && tk.StateOk()
  {
    for i := 0 to |moves|
      invariant tk.Valid()
    {
      var _ := MakeMove(tk, moves[i]);
    }
    ValidStateIsOk(tk);
  }

  // What n steps from item 0 come to
  ghost function StepsFrom(tk: ArrayTracker, n: nat): Status
    reads tk, tk.arr.box
  {
    match tk.arr.length
    case FillsSlack => if tk.MoreInSlack(n) then Done else NoItem
    case Count(count) =>
      if n < count then (if tk.needOffset && !tk.FitsInBox(n) then BoundsError else Done)
      else if tk.needOffset && !tk.FitsInBox(count - 1) then BoundsError else NoItem
  }

  ghost function StepsOutcome(tk: ArrayTracker, n: nat): Status
    reads tk, tk.arr, tk.arr.box
  {
    if tk.FirstOutcome() == Done then StepsFrom(tk, n) else tk.FirstOutcome()
  }

  lemma StepsStop(tk: ArrayTracker, k: nat, n: nat)
    requires k <= n && StepsFrom(tk, k) != Done
    ensures StepsFrom(tk, n) == StepsFrom(tk, k)
  {
    Scaled(k, n, tk.arr.itemSize);
    match tk.arr.length
    case FillsSlack =>
    case Count(count) => Scaled(k, count - 1, tk.arr.itemSize);
  }

  // Going to the first item and stepping n times ends up where the direct move to item n does,
  // or fails for an item that is not there or reaches past the box.
  method StepFromFirst(tk: ArrayTracker, n: nat) returns (r: Status)
    requires tk.Valid()
    modifies tk, tk.arr`nItems, tk.arr.box
    ensures tk.Valid()
    ensures r == old(StepsOutcome(tk, n))
    ensures r == Done ==> tk.onItem && tk.index == n
    ensures r == Done && tk.needOffset ==> tk.itemOffset == tk.arr.Start() + n * tk.arr.itemSize
  {
    r := tk.GotoFirst();
    ghost var first := r;
    var k := 0;
    StepZero(tk);
    while k < n && r == Done
      invariant tk.Valid() && k <= n
      invariant KeepsBox(tk.arr.box, old(tk.arr.box.start), old(tk.arr.box.end))
      invariant tk.arr.length.Count? ==> tk.needOffset == old(tk.needOffset)
      invariant r == (if first == Done then StepsFrom(tk, k) else first)
      invariant r == Done ==> tk.onItem && tk.index == k && tk.arr.MaxSpanFits()
    {
      r := OneStep(tk, k);
      k := k + 1;
    }
    if first == Done && r != Done {
      StepsStop(tk, k, n);
    }
  }

  // What decides on the success of moves stays as it was.
  predicate KeepsBox(box: Box, start: Side, end: Side)
    reads box
  {
    box.start == start && box.end.slack == end.slack && KnownEnd(box.end) == KnownEnd(end)
  }

  lemma StepZero(tk: ArrayTracker)
    ensures tk.FirstOutcome() == Done ==> StepsFrom(tk, 0) == Done
  {
  }

  method OneStep(tk: ArrayTracker, ghost k: nat) returns (r: Status)
    requires tk.Valid() && tk.onItem && tk.index == k && StepsFrom(tk, k) == Done && tk.arr.MaxSpanFits()
    modifies tk, tk.arr`nItems, tk.arr.box
    ensures tk.Valid() && KeepsBox(tk.arr.box, old(tk.arr.box.start), old(tk.arr.box.end))
    ensures tk.needOffset == old(tk.needOffset)
    ensures r == StepsFrom(tk, k + 1)
    ensures r == Done ==> tk.onItem && tk.index == k + 1 && tk.arr.MaxSpanFits()
    ensures r == NoItem && tk.arr.Counted() ==> k + 1 == tk.arr.Items()
  {
    r := tk.GotoNext();
  }

  ghost function CountingOutcome(tk: ArrayTracker): Status
    requires tk.arr.Counted() && 0 <= tk.arr.box.start.span <= tk.arr.box.end.slack
    reads tk, tk.arr, tk.arr.box
  {
    if tk.FirstOutcome() == Done then StepsFrom(tk, tk.arr.Items()) else tk.FirstOutcome()
  }

  // Counting by stepping agrees with the count by division, always; with a length it gives the
  // length, unless the last item reaches past the box.
  method CountBySteps(tk: ArrayTracker) returns (r: Status, count: nat)
    requires tk.Valid() && tk.arr.Counted()
    modifies tk, tk.arr`nItems, tk.arr.box
    ensures tk.Valid()
    ensures r == old(CountingOutcome(tk)) && (r == NoItem || r == BoundsError)
    ensures tk.arr.length.FillsSlack? ==> r == NoItem
    ensures r == NoItem ==> count == tk.arr.Items()
  {
    r := tk.GotoFirst();
    ghost var first := r;
    count := 0;
    StepZero(tk);
    while r == Done
      invariant tk.Valid() && tk.arr.Counted()
      invariant KeepsBox(tk.arr.box, old(tk.arr.box.start), old(tk.arr.box.end))
      invariant tk.arr.length.Count? ==> tk.needOffset == old(tk.needOffset)
      invariant r == (if first == Done then StepsFrom(tk, count) else first)
      invariant r == Done ==> tk.onItem && tk.index == count && count < tk.arr.Items() && tk.arr.MaxSpanFits()
      invariant first == Done ==> count <= tk.arr.Items()
      invariant r == NoItem ==> count == tk.arr.Items()
      decreases tk.arr.Items() - count, r == Done
    {
      r := OneStep(tk, count);
      count := count + 1;
    }
    if first == Done {
      StepsStop(tk, count, tk.arr.Items());
    }
  }
}
