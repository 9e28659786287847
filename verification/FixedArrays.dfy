// The sizes and counts of arrays of fixed-size items (array.c, browse.c, item.c).

module FixedArrays {
  import opened Arithmetic
  import opened BoxOffsets

  datatype Status = Done | NoItem | BoundsError | DataError | InvalidParam

  // The evaluated @length of the array, if it has one.
  datatype Length = FillsSlack | Count(n: int)

  lemma NextItem(index: int, size: int)
    ensures (index + 1) * size == index * size + size
  {
  }

  // Stepping over items of one size fits as many as the division says.
  lemma DivisionCounts(space: nat, size: nat, k: nat)
    requires size > 0
    ensures k * size <= space <==> k <= space / size
    ensures space < (space / size + 1) * size
  {
    var n := space / size;
    assert space == n * size + space % size;
    NextItem(n, size);
    if k <= n {
      Scaled(k, n, size);
    } else {
      Scaled(n + 1, k, size);
    }
  }

  class FixedArray {
    const box: Box
    const itemSize: nat
    const length: Length
    // whether the count is a constant of the schema, so that the size is static
    const staticSize: bool
    var nItems: int

    // An array over a box that is placed in its parent and knows its slack.
    constructor (box: Box, itemSize: nat, length: Length, staticSize: bool)
      requires LeftSpans(box.State()) && box.overlay && box.start == At(box.start.span)
      requires box.end == At(UNKNOWN).(slack := box.end.slack, parent := box.end.parent)
      requires box.start.span <= box.end.slack
      requires staticSize ==> length.Count? && length.n > 0
      requires box.minSize == (if staticSize then length.n * itemSize else 0)
      ensures Valid() && nItems == -1
      ensures this.box == box && this.itemSize == itemSize && this.length == length && this.staticSize == staticSize
    {
      this.box, this.itemSize, this.length, this.staticSize := box, itemSize, length, staticSize;
      nItems := -1;
    }

    predicate Counted() {
      match length
      case Count(n) => n >= 0
      case FillsSlack => itemSize > 0
    }

    // How many items there are.
    ghost function Items(): nat
      requires Counted() && 0 <= box.start.span <= box.end.slack
      reads box
    {
      match length
      case Count(n) => n
      case FillsSlack => (box.end.slack - box.start.span) / itemSize
    }

    ghost function Start(): int
      reads box
    {
      box.start.span
    }

    // Where all items end
    ghost function ItemsEnd(): int
      requires Counted() && 0 <= box.start.span <= box.end.slack
      reads box
    {
      Start() + Items() * itemSize
    }

    ghost predicate Valid()
      reads this, box
    {
      var e := box.end;
      && LeftSpans(box.State()) && box.overlay && box.start == At(Start())
      && Start() <= e.slack
      && (staticSize ==> length.Count? && length.n > 0)
      && box.minSize == (if staticSize then length.n * itemSize else 0)
      && (e.maxSpan == UNKNOWN || e.maxSpan == e.slack)
      && (nItems == -1 || (Counted() && nItems == Items() && (length.FillsSlack? ==> e.maxSpan != UNKNOWN)))
      && (e.used == UNKNOWN || (Counted() && e.used == Start() + Items() * itemSize))
      && (e.span == UNKNOWN
          || (e.maxSpan != UNKNOWN && (e.span == e.maxSpan || (Counted() && e.span == Start() + Items() * itemSize))))
      && (e.minSpan == UNKNOWN || e.minSpan == Start() + box.minSize)
    }

    // What every operation leaves alone: the placement, and everything already known.
    twostate predicate Refined()
      reads this, box
    {
      && box.start == old(box.start) && box.rightAligned == old(box.rightAligned)
      && box.end.slack == old(box.end.slack) && box.end.parent == old(box.end.parent)
      && (old(nItems) != -1 ==> nItems == old(nItems))
      && (old(box.end.used) != UNKNOWN ==> box.end.used == old(box.end.used))
      && (old(box.end.span) != UNKNOWN ==> box.end.span == old(box.end.span))
      && (old(box.end.maxSpan) != UNKNOWN ==> box.end.maxSpan == old(box.end.maxSpan))
    }

    // box_set_size of the left-aligned box, with what the checks guarantee
    method SetBoxSize(size: int, kind: OffsetType) returns (r: Status)
      requires LeftSpans(box.State()) && box.overlay && kind != HardMin
      requires kind == MinSpan ==> size >= box.minSize
      modifies box
      ensures r == if EndAccepts(old(box.State()), old(Start()) + size, kind) then Done else BoundsError
      ensures r == Done ==> LeftSpans(box.State()) && box.start == old(box.start)
                            && box.end == old(box.end).With(kind, Start() + size) && Start() + size >= 0
      ensures r == BoundsError ==> unchanged(box)
    {
      hide EndChain, EndAccepts, SetEnd;
      ghost var before := box.State();
      EndCheckIsExact(before, before.start.span + size, kind);
      var outcome := box.SetSize(size, kind);
      if outcome.Ok? {
        SetEndKeepsChain(before, before.start.span + size, kind);
        return Done;
      }
      return BoundsError;
    }

    // ---------- when the sizes can be set ----------

    // The max span covers what is known already.
    ghost predicate MaxSpanFits()
      reads this, box
    {
      box.end.maxSpan != UNKNOWN || (Start() + box.minSize <= box.end.slack && Ordered(box.end.used, box.end.slack))
    }

    // The items do not reach past the max span or, while it is not known, past the parent.
    ghost predicate UsedFits()
      requires Counted() && 0 <= box.start.span <= box.end.slack
      reads this, box
    {
      if box.end.maxSpan != UNKNOWN then ItemsEnd() <= box.end.slack else Ordered(ItemsEnd(), box.end.parent)
    }

    ghost function CountOutcome(): Status {
      if Counted() then Done else DataError
    }

    ghost function UsedOutcome(): Status
      requires 0 <= box.start.span <= box.end.slack
      reads this, box
    {
      if box.end.used != UNKNOWN then Done
      else if !Counted() then DataError
      else if length.FillsSlack? || UsedFits() then Done else BoundsError
    }

    ghost function SpanOutcome(): Status
      requires 0 <= box.start.span <= box.end.slack
      reads this, box
    {
      if box.end.span != UNKNOWN then Done
      else if !MinSpanFits() || !MaxSpanFits() then BoundsError
      else if Start() + box.minSize == box.end.slack || box.end.used != UNKNOWN then Done
      else if !Counted() then DataError
      else if ItemsEnd() <= box.end.slack then Done else BoundsError
    }

    // The span that is stored: all of the slack when the minimum fills it, otherwise the items
    ghost function SpanEnd(): int
      requires 0 <= box.start.span <= box.end.slack
      reads this, box
    {
      if box.end.span != UNKNOWN then box.end.span
      else if Start() + box.minSize == box.end.slack || !Counted() then box.end.slack
      else ItemsEnd()
    }

    // The count in terms of the length and the slack: what was evaluated, when it is not negative,
    // or as many items of some size as the slack holds.
    lemma ItemsAre()
      requires Valid()
      ensures Counted() <==> (length.Count? && length.n >= 0) || (length.FillsSlack? && itemSize > 0)
      ensures length.Count? && length.n >= 0 ==> Items() == length.n
      ensures length.FillsSlack? && itemSize > 0 ==>
                Start() + Items() * itemSize <= box.end.slack < Start() + (Items() + 1) * itemSize
    {
      if Counted() && length.FillsSlack? {
        DivisionCounts(box.end.slack - Start(), itemSize, Items());
      }
    }

    // Without a length, the items always fit in the slack; nothing is smaller than its minimum.
    lemma ItemsInSlack()
      requires Valid() && Counted()
      ensures length.FillsSlack? ==> ItemsEnd() <= box.end.slack
      ensures Start() + box.minSize <= ItemsEnd()
    {
      if length.FillsSlack? {
        DivisionCounts(box.end.slack - Start(), itemSize, Items());
      }
      Scaled(0, Items(), itemSize);
    }

    // Without a length, nothing can keep the max span from being set.
    lemma SlackIsFree()
      requires Valid() && length.FillsSlack?
      ensures MaxSpanFits() && (Counted() && box.end.maxSpan != UNKNOWN ==> UsedFits())
    {
      if Counted() {
        ItemsInSlack();
      }
    }

    // ---------- the sizes ----------

    // box_compute_max_span_size__as_slack
    method ComputeMaxSpan() returns (r: Status)
      requires Valid()
      modifies box
      ensures Valid() && Refined() && box.end == old(box.end).(maxSpan := box.end.maxSpan)
      ensures r == if old(MaxSpanFits()) then Done else BoundsError
      ensures r == Done ==> box.end.maxSpan == box.end.slack
      ensures r != Done ==> unchanged(box)
    {
      if box.end.maxSpan != UNKNOWN {
        return Done;
      }
      r := SetBoxSize(box.end.slack - box.start.slack, MaxSpan);
    }

    // box_get_n_items of arrays without and with a fixed count
    method GetNItems() returns (r: Status)
      requires Valid()
      modifies this`nItems, box
      ensures Valid() && Refined()
      ensures r == CountOutcome()
      ensures r == Done ==> nItems == Items()
      ensures length.Count? || old(nItems) != -1 ==> unchanged(box)
      ensures box.end.minSpan == old(box.end.minSpan) && box.end.span == old(box.end.span)
    {
      if nItems != -1 {
        return Done;
      }
      match length {
        case Count(n) =>
          if n < 0 {
            return DataError;
          }
          nItems := n;
          return Done;
        case FillsSlack =>
          SlackIsFree();
          r := ComputeMaxSpan();
          if r != Done {
            return;
          }
          if itemSize == 0 {
            return DataError;
          }
          nItems := (box.end.maxSpan - box.start.maxSpan) / itemSize;
          SlackIsFree();
          r := StoreUsed();
      }
    }

    // A known span end is a proper offset.
    lemma SpanIsKnown()
      requires Valid() && box.end.span != UNKNOWN
      ensures box.end.span >= 0
    {
      if Counted() {
        Scaled(0, Items(), itemSize);
      }
    }

    // Sets the used size to the size of all items.
    method StoreUsed() returns (r: Status)
      requires Valid() && nItems != -1
      modifies box
      ensures Valid() && Refined() && box.end == old(box.end).(used := box.end.used)
      ensures r == if old(UsedFits()) then Done else BoundsError
      ensures r == Done ==> box.end.used == ItemsEnd()
    {
      ItemsInSlack();
      r := SetBoxSize(nItems * itemSize, Used);
    }

    // Every backend of the used size: the static size, or count times item size.
    method ComputeUsed() returns (r: Status)
      requires Valid()
      modifies this`nItems, box
      ensures Valid() && Refined()
      ensures r == old(UsedOutcome())
      ensures r == Done ==> Counted() && box.end.used == ItemsEnd()
      ensures box.end.span == old(box.end.span) && box.end.minSpan == old(box.end.minSpan)
    {
      if box.end.used != UNKNOWN {
        return Done;
      }
      if staticSize {
        ItemsInSlack();
        r := SetBoxSize(box.minSize, Used);
        return;
      }
      r := UsedFromCount();
    }

    // box_compute_used_size__array_const_item_size
    method UsedFromCount() returns (r: Status)
      requires Valid() && box.end.used == UNKNOWN
      modifies this`nItems, box
      ensures Valid() && Refined()
      ensures r == old(UsedOutcome())
      ensures r == Done ==> Counted() && box.end.used == ItemsEnd()
      ensures box.end.span == old(box.end.span) && box.end.minSpan == old(box.end.minSpan)
    {
      if length.FillsSlack? {
        SlackIsFree();
      }
      r := GetNItems();
      if r != Done {
        return;
      }
      if length.FillsSlack? {
        SlackIsFree();
      }
      r := StoreUsed();
    }

    method ComputeMinAndMaxSpan() returns (r: Status)
      requires Valid()
      modifies box
      ensures Valid() && Refined() && nItems == old(nItems)
      ensures r == if old(MinSpanFits() && MaxSpanFits()) then Done else BoundsError
      ensures r == Done ==> box.end.minSpan == Start() + box.minSize && box.end.maxSpan == box.end.slack
      ensures box.end.span == old(box.end.span) && box.end.used == old(box.end.used)
    {
      if box.end.minSpan == UNKNOWN {
        r := StoreMinSpan();
        if r != Done {
          return;
        }
      }
      hide LeftSpans;
      r := ComputeMaxSpan();
    }

    method StoreMinSpan() returns (r: Status)
      requires Valid() && box.end.minSpan == UNKNOWN
      modifies box
      ensures Valid() && Refined() && nItems == old(nItems)
      ensures r == if old(MinSpanFits()) then Done else BoundsError
      ensures box.end == old(box.end).(minSpan := box.end.minSpan)
      ensures r == Done ==> box.end.minSpan == Start() + box.minSize
      ensures MaxSpanFits() == old(MaxSpanFits())
    {
      if Counted() {
        ItemsInSlack();
      }
      r := SetBoxSize(box.minSize, MinSpan);
    }

    // The minimum does not reach past the max span or, while it is not known, past the parent.
    ghost predicate MinSpanFits()
      reads this, box
    {
      box.end.minSpan != UNKNOWN || box.end.used != UNKNOWN || box.end.span != UNKNOWN
      || if box.end.maxSpan != UNKNOWN then Start() + box.minSize <= box.end.slack
         else Ordered(Start() + box.minSize, box.end.parent)
    }

    // box_compute_span_size: the span is all of the slack or ends with the items.
    method ComputeSpan() returns (r: Status)
      requires Valid()
      modifies this`nItems, box
      ensures Valid() && Refined()
      ensures r == old(SpanOutcome())
      ensures r == Done ==> box.end.span == old(SpanEnd())
    {
      if box.end.span != UNKNOWN {
        return Done;
      }
      ghost var outcome, end := SpanOutcome(), SpanEnd();
      r := ComputeMinAndMaxSpan();
      if r != Done {
        return;
      }
      assert SpanOutcome() == outcome && SpanEnd() == end;
      if box.end.minSpan == box.end.maxSpan {
        r := SpanFromMaxSpan();
      } else {
        r := SpanFromUsed();
      }
    }

    method SpanFromMaxSpan() returns (r: Status)
      requires Valid() && box.end.span == UNKNOWN && box.end.maxSpan == box.end.slack
      requires box.end.minSpan == box.end.maxSpan
      modifies box
      ensures Valid() && Refined()
      ensures r == Done && box.end.span == box.end.slack
    {
      r := SetBoxSize(box.end.maxSpan - box.start.maxSpan, Span);
    }

    // box_compute_span_size__as_used
    method SpanFromUsed() returns (r: Status)
      requires Valid() && box.end.span == UNKNOWN && box.end.maxSpan == box.end.slack
      requires box.end.minSpan == Start() + box.minSize != box.end.slack
      modifies this`nItems, box
      ensures Valid() && Refined()
      ensures r == old(SpanOutcome())
      ensures r == Done ==> box.end.span == old(SpanEnd())
    {
      r := ComputeUsed();
      if r != Done {
        return;
      }
      r := StoreSpan();
    }

    method StoreSpan() returns (r: Status)
      requires Valid() && box.end.span == UNKNOWN && box.end.maxSpan == box.end.slack && box.end.used != UNKNOWN
      modifies box
      ensures Valid() && Refined() && nItems == old(nItems)
      ensures r == Done && box.end.span == ItemsEnd()
    {
      ItemsInSlack();
      r := SetBoxSize(box.end.used - box.start.used, Span);
    }

    // The parent's limit is renewed whenever a size is computed; what is known of the array does
    // not depend on it.
    method RenewLimit(limit: int)
      requires Valid()
      modifies box
      ensures Valid() && box.start == old(box.start) && box.end == old(box.end).(parent := limit)
      ensures KnownEnd(box.end) == old(KnownEnd(box.end)) && MaxSpanFits() == old(MaxSpanFits())
    {
      RenewKeepsSpans(box.State(), limit);
      box.SetBoundaryOffset(box.start.parent, limit);
    }
  }
}
