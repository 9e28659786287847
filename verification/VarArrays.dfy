// Arrays of variable-size items: the walk from item to item, counting by
// iteration, positions remembered in marks, lookup by key (array.c,
// array_index_cache.c). Trackers move forward and maintain offsets.

module VarArrays {
  import opened Wrappers
  import opened BoxOffsets

  const OUT_OF_BOUNDS := 1

  // The size or the key of the item found at an offset.
  datatype Reading<T> = Read(value: T) | Unreadable(code: nat)

  type Key = string

  // The array as a tracker sees it: `limit` is the first known end of its box.
  datatype Items = Items(start: int, slackEnd: int, limit: int, minSize: nat, count: Option<nat>,
                         sizeAt: int -> Reading<nat>, keyAt: int -> Reading<Key>)
  {
    function Least(): nat {
      if minSize == 0 then 1 else minSize
    }

    ghost predicate Positive() {
      forall offset :: sizeAt(offset).Read? ==> sizeAt(offset).value > 0
    }
  }

  datatype Position = Position(index: nat, offset: int)

  // Where a move leads: to an item, past the last one, or nowhere.
  datatype Move = At(pos: Position) | End(pos: Position) | Failed(code: nat)

  function First(items: Items): Move {
    var pos := Position(0, items.start);
    if items.count == Some(0) || (items.count.None? && items.start + items.Least() > items.slackEnd) then End(pos)
    else if items.start + items.minSize > items.limit then Failed(OUT_OF_BOUNDS)
    else At(pos)
  }

  function Next(items: Items, pos: Position): Move {
    match items.sizeAt(pos.offset)
    case Unreadable(code) => Failed(code)
    case Read(size) =>
      var next := Position(pos.index + 1, pos.offset + size);
      if next.offset > items.limit then Failed(OUT_OF_BOUNDS)
      else if items.count == Some(next.index) then End(next)
      else if items.count.None? then (if next.offset + items.Least() > items.slackEnd then End(next) else At(next))
      else if next.offset + items.minSize > items.limit then Failed(OUT_OF_BOUNDS)
      else At(next)
  }

  // The first item and n steps; a walk that has stopped stays where it stopped.
  function Walk(items: Items, n: nat): Move {
    if n == 0 then First(items)
    else match Walk(items, n - 1)
         case At(pos) => Next(items, pos)
         case End(pos) => End(pos)
         case Failed(code) => Failed(code)
  }

  lemma {:induction false} WalkIndex(items: Items, n: nat)
    ensures Walk(items, n).At? ==> Walk(items, n).pos.index == n
    ensures Walk(items, n).End? ==> Walk(items, n).pos.index <= n
    ensures Walk(items, n).At? && n > 0 ==> Walk(items, n - 1).At?
  {
    if n > 0 {
      WalkIndex(items, n - 1);
    }
  }

  lemma {:induction false} WalkPrefix(items: Items, k: nat, n: nat)
    requires k <= n && Walk(items, n).At?
    ensures Walk(items, k).At?
    decreases n - k
  {
    if k < n {
      WalkIndex(items, n);
      WalkPrefix(items, k, n - 1);
    }
  }

  lemma {:induction false} WalkStopped(items: Items, k: nat, n: nat)
    requires k <= n && !Walk(items, k).At?
    ensures Walk(items, n) == Walk(items, k)
    decreases n - k
  {
    if k < n {
      WalkStopped(items, k, n - 1);
    }
  }

  // ---------- where a walk goes ----------

  // Where item k begins if each item is as long as it says
  function Offset(items: Items, k: nat): int {
    if k == 0 then items.start
    else
      var size := items.sizeAt(Offset(items, k - 1));
      Offset(items, k - 1) + (if size.Read? then size.value else 0)
  }

  // The size of item k can be read, and the item ends within the limit.
  predicate Passable(items: Items, k: nat) {
    items.sizeAt(Offset(items, k)).Read? && Offset(items, k + 1) <= items.limit
  }

  // Behind k items there is room for another: within the limit for a counted one (and for the
  // first of any array), in the slack for one that is not.
  predicate Begins(items: Items, k: nat) {
    && (items.count.Some? || k == 0 ==> Offset(items, k) + items.minSize <= items.limit)
    && (items.count.None? ==> Offset(items, k) + (if items.minSize == 0 then 1 else items.minSize) <= items.slackEnd)
  }

  // The array has no more than k items: that many were counted, or the slack is used up.
  predicate Over(items: Items, k: nat) {
    match items.count
    case Some(n) => k == n
    case None => Offset(items, k) + (if items.minSize == 0 then 1 else items.minSize) > items.slackEnd
  }

  ghost predicate Visits(items: Items, k: nat) {
    && (items.count.Some? ==> k < items.count.value)
    && (forall j: nat :: j < k ==> Passable(items, j))
    && (forall j: nat :: j <= k ==> Begins(items, j))
  }

  ghost predicate Ends(items: Items, k: nat) {
    (k > 0 ==> Visits(items, k - 1) && Passable(items, k - 1)) && Over(items, k)
  }

  // The k-th step fails: the size before it cannot be read, or something is out of bounds.
  ghost predicate Fails(items: Items, k: nat, code: nat) {
    if k == 0 then !Over(items, 0) && !Begins(items, 0) && code == OUT_OF_BOUNDS
    else
      && Visits(items, k - 1)
      && match items.sizeAt(Offset(items, k - 1))
         case Unreadable(c) => code == c
         case Read(_) =>
           code == OUT_OF_BOUNDS
           && (Offset(items, k) > items.limit
               || (items.count.Some? && items.count.value != k && Offset(items, k) + items.minSize > items.limit))
  }

  // Where each step leads, said by counts, sizes and bounds alone
  lemma {:induction false} WalkLeads(items: Items, k: nat)
    ensures Walk(items, k).At? <==> Visits(items, k)
    ensures Visits(items, k) ==> Walk(items, k) == At(Position(k, Offset(items, k)))
    ensures k == 0 || Visits(items, k - 1) ==> (Walk(items, k).End? <==> Ends(items, k))
    ensures Ends(items, k) ==> Walk(items, k) == End(Position(k, Offset(items, k)))
    ensures k == 0 || Visits(items, k - 1) ==> forall code :: Walk(items, k) == Failed(code) <==> Fails(items, k, code)
  {
    if k > 0 {
      WalkLeads(items, k - 1);
      VisitsStep(items, k);
      if !Walk(items, k - 1).At? {
        assert !Visits(items, k);
      }
    } else {
      assert Visits(items, 0) <==> Begins(items, 0) && (items.count.Some? ==> 0 < items.count.value);
    }
  }

  lemma VisitsStep(items: Items, k: nat)
    requires k > 0
    ensures Visits(items, k) <==>
      && Visits(items, k - 1) && Passable(items, k - 1) && Begins(items, k)
      && (items.count.Some? ==> k < items.count.value)
  {
  }

  // ---------- tiling ----------

  // The items of a walk of n steps follow each other without gap or overlap: every byte
  // between the start and the end of the walk belongs to exactly one item.
  function OffsetOf(items: Items, k: nat): int {
    match Walk(items, k)
    case At(pos) => pos.offset
    case End(pos) => pos.offset
    case Failed(_) => 0
  }

  function SumOfSizes(items: Items, n: nat): int {
    if n == 0 then 0
    else
      var size := items.sizeAt(OffsetOf(items, n - 1));
      SumOfSizes(items, n - 1) + (if size.Read? then size.value else 0)
  }

  // The walk visits n items and then ends.
  predicate EndsAfter(items: Items, n: nat) {
    Walk(items, n).End? && Walk(items, n).pos.index == n
  }

  // A walk ends after m items exactly when these are all there are: the number counted, or what
  // fits in the slack.
  lemma EndsExactly(items: Items, m: nat)
    ensures EndsAfter(items, m) <==> Ends(items, m)
    ensures EndsAfter(items, m) && items.count.Some? ==> m == items.count.value
  {
    WalkLeads(items, m);
    if m > 0 {
      WalkLeads(items, m - 1);
      WalkIndex(items, m - 1);
    }
  }

  // By step k a walk has ended or failed exactly when one of its steps did.
  lemma {:induction false} WalkStops(items: Items, k: nat)
    ensures Walk(items, k).End? <==> exists m: nat :: m <= k && Ends(items, m)
    ensures forall code :: Walk(items, k) == Failed(code) <==> exists j: nat :: j <= k && Fails(items, j, code)
  {
    WalkLeads(items, k);
    if k > 0 {
      WalkLeads(items, k - 1);
      WalkStops(items, k - 1);
      forall code ensures Walk(items, k) == Failed(code) <==> exists j: nat :: j <= k && Fails(items, j, code) {
        if Walk(items, k) == Failed(code) {
          if Walk(items, k - 1).At? {
            assert Fails(items, k, code);
          } else {
            assert Walk(items, k - 1) == Failed(code);
          }
        }
      }
      if Walk(items, k).End? && Walk(items, k - 1).At? {
        assert Ends(items, k);
      }
    }
  }

  lemma {:induction false} EndsAfterVisits(items: Items, n: nat, k: nat)
    requires EndsAfter(items, n) && k < n
    ensures Walk(items, k).At?
  {
    if !Walk(items, k).At? {
      WalkStopped(items, k, n);
      WalkIndex(items, k);
    }
  }

  lemma {:induction false} Tiling(items: Items, n: nat, k: nat)
    requires EndsAfter(items, n) && k <= n
    ensures OffsetOf(items, k) == items.start + SumOfSizes(items, k)
    ensures k < n ==> items.sizeAt(OffsetOf(items, k)) == Read(OffsetOf(items, k + 1) - OffsetOf(items, k))
    ensures k < n ==> OffsetOf(items, k) <= OffsetOf(items, k + 1) <= items.limit
  {
    if k > 0 {
      Tiling(items, n, k - 1);
      EndsAfterVisits(items, n, k - 1);
    }
    if k < n {
      EndsAfterVisits(items, n, k);
      if k + 1 < n {
        EndsAfterVisits(items, n, k + 1);
      }
    }
  }

  lemma {:induction false} OffsetsIncrease(items: Items, n: nat, j: nat, k: nat)
    requires EndsAfter(items, n) && j <= k <= n
    ensures OffsetOf(items, j) <= OffsetOf(items, k)
    decreases k - j
  {
    if j < k {
      OffsetsIncrease(items, n, j, k - 1);
      Tiling(items, n, k - 1);
    }
  }

  ghost predicate Covers(items: Items, k: nat, b: int) {
    OffsetOf(items, k) <= b < OffsetOf(items, k + 1)
  }

  lemma {:induction false} EveryByteInOneItem(items: Items, n: nat, b: int) returns (k: nat)
    requires EndsAfter(items, n) && items.start <= b < OffsetOf(items, n)
    ensures k < n && Covers(items, k, b)
    ensures forall j: nat :: j < n && Covers(items, j, b) ==> j == k
  {
    Tiling(items, n, 0);
    k := 0;
    while OffsetOf(items, k + 1) <= b
      invariant k < n && OffsetOf(items, k) <= b
      decreases n - k
    {
      k := k + 1;
    }
    forall j: nat | j < n && Covers(items, j, b)
      ensures j == k
    {
      if j < k {
        OffsetsIncrease(items, n, j + 1, k);
      } else if k < j {
        OffsetsIncrease(items, n, k + 1, j);
      }
    }
  }

  lemma OneEnd(items: Items, n: nat)
    requires EndsAfter(items, n)
    ensures forall m: nat :: EndsAfter(items, m) ==> m == n
  {
    forall m: nat | EndsAfter(items, m) ensures m == n {
      WalkStopped(items, if m < n then m else n, if m < n then n else m);
    }
  }

  lemma NeverEnds(items: Items, n: nat)
    requires Walk(items, n).Failed?
    ensures forall m: nat :: !EndsAfter(items, m)
  {
    forall m: nat ensures !EndsAfter(items, m) {
      if !Walk(items, m).At? {
        WalkStopped(items, if m < n then m else n, if m < n then n else m);
      }
    }
  }

  // What is left after the last item of a slack array is too small for another.
  lemma SlackLeft(items: Items, n: nat)
    requires EndsAfter(items, n) && items.count.None?
    ensures items.slackEnd - OffsetOf(items, n) < items.Least()
  {
    if n > 0 {
      EndsAfterVisits(items, n, n - 1);
    }
  }

  // ---------- trackers ----------

  class VarTracker {
    const items: Items
    var onItem: bool
    var atEnd: bool
    var index: int
    var offset: int

    ghost predicate Valid()
      reads this
    {
      && (onItem ==> index >= 0 && !atEnd && Walk(items, index) == At(Position(index, offset)))
    }

    constructor (items: Items)
      ensures Valid() && this.items == items && !onItem && !atEnd
    {
      this.items := items;
      onItem, atEnd, index, offset := false, false, -1, -1;
    }

    // tracker_dup
    constructor Dup(tk: VarTracker)
      requires tk.Valid()
      ensures Valid() && items == tk.items && onItem == tk.onItem && atEnd == tk.atEnd
      ensures index == tk.index && offset == tk.offset
    {
      items, onItem, atEnd, index, offset := tk.items, tk.onItem, tk.atEnd, tk.index, tk.offset;
    }

    // tracker_set
    method Set(tk: VarTracker)
      requires tk.Valid() && tk.items == items
      modifies this
      ensures Valid() && onItem == tk.onItem && atEnd == tk.atEnd && index == tk.index && offset == tk.offset
    {
      onItem, atEnd, index, offset := tk.onItem, tk.atEnd, tk.index, tk.offset;
    }

    // Where the tracker stands after a move with this result.
    ghost predicate Reached(move: Move)
      reads this
    {
      match move
      case At(pos) => onItem && !atEnd && index == pos.index && offset == pos.offset
      case End(pos) => !onItem && atEnd && offset == pos.offset
      case Failed(_) => true
    }

    method GotoFirst() returns (move: Move)
      modifies this
      ensures move == First(items) && Valid() && Reached(move)
      ensures move.Failed? ==> !onItem
    {
      onItem, atEnd, index, offset := false, false, -1, items.start;
      if items.count == Some(0) || (items.count.None? && items.start + items.Least() > items.slackEnd) {
        atEnd := true;
        return End(Position(0, offset));
      }
      if offset + items.minSize > items.limit {
        return Failed(OUT_OF_BOUNDS);
      }
      index, onItem := 0, true;
      return At(Position(0, offset));
    }

    // tracker_goto_next_item__array; a failing move changes nothing
    method GotoNext() returns (move: Move)
      requires Valid() && onItem
      modifies this
      ensures move == Next(items, Position(old(index), old(offset))) && Valid() && Reached(move)
      ensures move == Walk(items, old(index) + 1)
      ensures move.Failed? ==> unchanged(this)
    {
      var size := items.sizeAt(offset);
      if size.Unreadable? {
        return Failed(size.code);
      }
      if offset + size.value > items.limit {
        return Failed(OUT_OF_BOUNDS);
      }
      offset := offset + size.value;
      index := index + 1;
      var pos := Position(index, offset);
      if items.count == Some(index) {
        onItem, atEnd := false, true;
        return End(pos);
      }
      if items.count.None? {
        if offset + items.Least() > items.slackEnd {
          onItem, atEnd := false, true;
          return End(pos);
        }
      } else if offset + items.minSize > items.limit {
        // rollback
        offset, index := offset - size.value, index - 1;
        return Failed(OUT_OF_BOUNDS);
      }
      return At(pos);
    }
  }

  // ---------- counting by iteration ----------

  // Steps from the first item to the end. The walk terminates because every item takes
  // some of the slack that is left.
  method CountItems(items: Items) returns (move: Move, count: nat)
    requires items.count.None? && items.Positive()
    ensures move == Walk(items, count) && !move.At?
    ensures move.End? ==> EndsAfter(items, count)
  {
    var tk := new VarTracker(items);
    move := tk.GotoFirst();
    count := 0;
    while move.At?
      invariant fresh(tk) && tk.items == items && tk.Valid() && tk.Reached(move)
      invariant move == Walk(items, count)
      invariant move.End? ==> move.pos.index == count
      decreases items.slackEnd - tk.offset, move.At?
    {
      WalkIndex(items, count);
      count := count + 1;
      move := tk.GotoNext();
    }
  }

  class SlackArray {
    const box: Box
    const minItemSize: nat
    const sizeAt: int -> Reading<nat>
    const keyAt: int -> Reading<Key>
    var nItems: int

    constructor (box: Box, minItemSize: nat, sizeAt: int -> Reading<nat>, keyAt: int -> Reading<Key>)
      ensures this.box == box && this.minItemSize == minItemSize && this.sizeAt == sizeAt && this.keyAt == keyAt
      ensures nItems == -1
    {
      this.box, this.minItemSize, this.sizeAt, this.keyAt := box, minItemSize, sizeAt, keyAt;
      nItems := -1;
    }

    function View(): Items
      reads this, box
    {
      Items(box.start.span, box.end.slack, KnownEnd(box.end), minItemSize, None, sizeAt, keyAt)
    }

    // A left-aligned box that knows its slack.
    ghost predicate Valid()
      reads this, box
    {
      && LeftSpans(box.State()) && box.overlay
      && box.start.slack == box.start.span <= box.end.slack
      && View().Positive()
    }

    // The max span is known, or the slack covers everything known further in.
    ghost predicate MaxSpanFits()
      reads this, box
    {
      box.end.maxSpan != UNKNOWN || EndAccepts(box.State(), box.end.slack, MaxSpan)
    }

    // The span may end at an offset, once the max span is known.
    ghost predicate SpanFits(offset: int)
      reads this, box
    {
      var state := box.State();
      var maxSpan := if box.end.maxSpan != UNKNOWN then box.end.maxSpan else box.end.slack;
      EndAccepts(state.(end := state.end.(maxSpan := maxSpan)), offset, Span)
    }

    // box_compute_max_span_size__as_slack
    method ComputeMaxSpan() returns (ok: bool)
      requires Valid()
      modifies box
      ensures Valid() && box.start == old(box.start)
      ensures ok == old(MaxSpanFits())
      ensures box.end == old(box.end).(maxSpan := if ok && old(box.end.maxSpan) == UNKNOWN then old(box.end.slack)
                                                  else old(box.end.maxSpan))
    {
      if box.end.maxSpan != UNKNOWN {
        return true;
      }
      ghost var before := box.State();
      EndCheckIsExact(before, before.end.slack, MaxSpan);
      var outcome := box.SetSize(box.end.slack - box.start.slack, MaxSpan);
      if outcome.Ok? {
        SetEndKeepsChain(before, before.end.slack, MaxSpan);
      }
      ok := outcome.Ok?;
    }

    // The array can be counted: the walk ends, and where it ends the span may end.
    ghost predicate Countable()
      reads this, box
    {
      MaxSpanFits() && exists n: nat :: EndsAfter(View(), n) && SpanFits(OffsetOf(View(), n))
    }

    // box_compute_n_items_by_iteration: the items tile the span that is recorded, and their
    // number is recorded, unless the max span or the span is refused or the walk fails.
    method CountByIteration() returns (ok: bool)
      requires Valid()
      modifies this`nItems, box
      ensures Valid() && box.start == old(box.start)
      ensures ok == old(Countable())
      ensures old(nItems) != -1 ==> nItems == old(nItems)
      ensures ok && old(nItems) == -1 ==> nItems >= 0 && Tiled(nItems)
    {
      ghost var before := View();
      ok := ComputeMaxSpan();
      if !ok {
        return;
      }
      var items := View();
      assert items == before;
      var move, count := CountItems(items);
      if move.Failed? {
        NeverEnds(items, count);
        return false;
      }
      OneEnd(items, count);
      if nItems == -1 {
        nItems := count;
      }
      ok := SetSpan(move.pos.offset);
      assert ok ==> RecordsTiling(items, count);
    }

    // The span was recorded from a walk over `count` items.
    ghost predicate RecordsTiling(items: Items, count: nat)
      reads this, box
    {
      && items == View().(limit := items.limit)
      && EndsAfter(items, count) && box.end.span == OffsetOf(items, count)
    }

    ghost predicate Tiled(count: nat)
      reads this, box
    {
      exists items: Items :: RecordsTiling(items, count)
    }

    method SetSpan(offset: int) returns (ok: bool)
      requires Valid()
      modifies box
      ensures Valid() && box.start == old(box.start)
      ensures ok == EndAccepts(old(box.State()), offset, Span)
      ensures ok ==> box.end == old(box.end).(span := offset)
    {
      ghost var before := box.State();
      EndCheckIsExact(before, offset, Span);
      var outcome := box.SetEndOffset(offset, Span);
      if outcome.Ok? {
        SetEndKeepsChain(before, offset, Span);
      }
      ok := outcome.Ok?;
    }
  }

  // In a box of which nothing but the slack is known, counting fails only when the walk does.
  lemma CountableWhenWalkEnds(arr: SlackArray)
    requires arr.Valid() && arr.box.minSize == 0
    requires arr.box.end == BoxOffsets.At(UNKNOWN).(slack := arr.box.end.slack, parent := arr.box.end.parent)
    ensures arr.Countable() <==> exists n: nat :: EndsAfter(arr.View(), n)
  {
    forall n: nat | EndsAfter(arr.View(), n) ensures arr.SpanFits(OffsetOf(arr.View(), n)) {
      OffsetsIncrease(arr.View(), n, 0, n);
      if n > 0 {
        Tiling(arr.View(), n, n - 1);
      }
      Tiling(arr.View(), n, 0);
    }
  }

  ghost predicate InOneItem(items: Items, n: nat, b: int) {
    exists k: nat :: k < n && Covers(items, k, b) && forall j: nat :: j < n && Covers(items, j, b) ==> j == k
  }

  // What a successful count says about the box.
  lemma RecordedSpan(arr: SlackArray, items: Items, n: nat)
    requires arr.RecordsTiling(items, n)
    ensures arr.box.end.span - arr.box.start.span == SumOfSizes(items, n)
    ensures arr.box.end.slack - arr.box.end.span < items.Least()
    ensures forall b :: arr.box.start.span <= b < arr.box.end.span ==> InOneItem(items, n, b)
  {
    Tiling(items, n, n);
    SlackLeft(items, n);
    forall b | arr.box.start.span <= b < arr.box.end.span
      ensures InOneItem(items, n, b)
    {
      var k := EveryByteInOneItem(items, n, b);
    }
  }
}
