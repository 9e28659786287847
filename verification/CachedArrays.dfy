// Remembered positions of an array, moves that start from them, and lookup
// by key (array.c, array_index_cache.c).

module CachedArrays {
  import opened Arithmetic
  import opened VarArrays

  class ArrayCache {
    const items: Items
    const keysPerMark: nat    // 1 << cache_log2_n_keys_per_mark
    const indexed: bool       // whether keys are remembered as well
    var lastIndex: int
    var lastOffset: int
    var marks: seq<int>

    // The cache is a true record of a prefix of the walk.
    ghost predicate Valid()
      reads this
    {
      && keysPerMark > 0
      && lastIndex >= -1
      && (lastIndex >= 0 ==> Walk(items, lastIndex) == At(Position(lastIndex, lastOffset)))
      && (lastIndex == -1 ==> marks == [])
      && (lastIndex >= 0 ==> |marks| == lastIndex / keysPerMark + 1)
      && (forall m :: 0 <= m < |marks| ==> Walk(items, m * keysPerMark) == At(Position(m * keysPerMark, marks[m])))
      && (indexed ==> forall k :: 0 <= k <= lastIndex ==> KeyAt(items, k).Read?)
    }

    // Records only grow.
    twostate predicate Extended()
      reads this
    {
      old(lastIndex) <= lastIndex && old(marks) <= marks
    }

    constructor (items: Items, keysPerMark: nat, indexed: bool)
      requires keysPerMark > 0
      ensures Valid() && lastIndex == -1
      ensures this.items == items && this.keysPerMark == keysPerMark && this.indexed == indexed
    {
      this.items, this.keysPerMark, this.indexed := items, keysPerMark, indexed;
      lastIndex, lastOffset, marks := -1, -1, [];
    }

    // tracker_index_cache_add_item
    method AddItem(tk: VarTracker)
      requires Valid() && tk.Valid() && tk.items == items && tk.onItem && tk.index == lastIndex + 1
      requires indexed ==> KeyAt(items, tk.index).Read?
      modifies this
      ensures Valid() && Extended() && lastIndex == tk.index
    {
      DivModStep(tk.index, keysPerMark);
      if tk.index % keysPerMark == 0 {
        marks := marks + [tk.offset];
      }
      lastIndex, lastOffset := tk.index, tk.offset;
    }

    // tracker_goto_mark_internal
    method GotoMark(tk: VarTracker, mark: nat)
      requires Valid() && tk.items == items && mark < |marks|
      modifies tk
      ensures tk.Valid() && tk.onItem && tk.index == mark * keysPerMark
    {
      MulNat(mark, keysPerMark);
      tk.onItem, tk.atEnd := true, false;
      tk.index, tk.offset := mark * keysPerMark, marks[mark];
    }

    // tracker_goto_last_cached_item_internal
    method GotoLastCached(tk: VarTracker)
      requires Valid() && tk.items == items
      modifies tk
      ensures tk.Valid() && !tk.atEnd
      ensures tk.onItem <==> lastIndex != -1
      ensures tk.onItem ==> tk.index == lastIndex
    {
      if lastIndex != -1 {
        tk.onItem, tk.atEnd, tk.index, tk.offset := true, false, lastIndex, lastOffset;
      } else {
        tk.onItem, tk.atEnd, tk.index, tk.offset := false, false, -1, -1;
      }
    }
  }

  lemma MulNat(a: nat, b: nat)
    ensures a * b >= 0
  {
  }

  lemma DivModStep(n: nat, size: nat)
    requires size > 0
    ensures n % size == 0 ==> (n > 0 ==> (n - 1) / size == n / size - 1) && n == n / size * size
    ensures n % size != 0 ==> n > 0 && (n - 1) / size == n / size
  {
    var q, r := n / size, n % size;
    assert n == q * size + r;
    if r == 0 && n > 0 {
      assert n - 1 == (q - 1) * size + (size - 1);
      QuotientIs(n - 1, size, q - 1, size - 1);
    } else if r != 0 {
      QuotientIs(n - 1, size, q, r - 1);
    }
  }

  // ---------- positions ----------

  // The first item, or the one after the current.
  method GotoNextOrFirst(tk: VarTracker) returns (move: Move)
    requires tk.Valid() && !tk.atEnd
    modifies tk
    ensures tk.Valid() && tk.Reached(move)
    ensures move == Walk(tk.items, if old(tk.onItem) then old(tk.index) + 1 else 0)
    ensures move.Failed? ==> tk.onItem == old(tk.onItem) && (tk.onItem ==> tk.index == old(tk.index))
  {
    if tk.onItem {
      move := tk.GotoNext();
    } else {
      move := tk.GotoFirst();
    }
  }

  // The key of item `k` of the walk.
  function KeyAt(items: Items, k: nat): Reading<Key> {
    match Walk(items, k)
    case At(pos) => items.keyAt(pos.offset)
    case End(_) => Unreadable(0)
    case Failed(code) => Unreadable(code)
  }

  // tracker_goto_nth_item__array_var_item_size: the same item as n steps from the first one,
  // or the same failure, unless the key of an item on the way cannot be read.
  method GotoNth(tk: VarTracker, cache: ArrayCache, n: nat) returns (move: Move)
    requires tk.Valid() && cache.Valid() && tk.items == cache.items
    modifies tk, cache
    ensures tk.Valid() && cache.Valid() && cache.Extended()
    ensures if cache.indexed && KeyMissing(tk.items, n) then FirstMissing(tk.items, move) else move == Walk(tk.items, n)
    ensures move.At? ==> tk.onItem && tk.index == n && tk.offset == move.pos.offset
    ensures !move.At? ==> unchanged(tk)
    ensures move.At? ==> cache.lastIndex >= n
  {
    var xtk := new VarTracker.Dup(tk);
    move := StartAtOrBefore(xtk, cache, n);
    if !move.At? {
      return;
    }
    move := StepTo(xtk, cache, n);
    if move.At? {
      tk.Set(xtk);
    }
  }

  // An item that is there, but not its key
  ghost predicate NoKey(items: Items, k: nat) {
    Walk(items, k).At? && KeyAt(items, k).Unreadable?
  }

  ghost predicate KeyMissing(items: Items, n: nat) {
    exists k: nat :: k <= n && NoKey(items, k)
  }

  // A failure to read the first key that is missing
  ghost predicate FirstMissing(items: Items, move: Move) {
    move.Failed? && exists k: nat :: NoKey(items, k) && KeyAt(items, k) == Unreadable(move.code)
                                     && forall j: nat :: j < k ==> !NoKey(items, j)
  }

  // The nearest recorded position that is not past item n.
  method StartAtOrBefore(xtk: VarTracker, cache: ArrayCache, n: nat) returns (move: Move)
    requires cache.Valid() && xtk.items == cache.items
    modifies xtk
    ensures xtk.Valid()
    ensures move.At? ==> xtk.onItem && xtk.index <= n && xtk.index <= cache.lastIndex + 1
    ensures !move.At? ==> move == Walk(xtk.items, n) && !KeyMissing(xtk.items, n)
  {
    if n < cache.lastIndex {
      MarkBefore(n, cache.lastIndex, cache.keysPerMark);
      cache.GotoMark(xtk, n / cache.keysPerMark);
    } else {
      cache.GotoLastCached(xtk);
      if !xtk.onItem {
        move := xtk.GotoFirst();
        if !move.At? {
          NothingAfter(xtk.items, 0, n);
        }
        return;
      }
    }
    move := At(Position(xtk.index, xtk.offset));
  }

  // Steps on to item n, recording what the cache does not hold yet.
  method StepTo(xtk: VarTracker, cache: ArrayCache, n: nat) returns (move: Move)
    requires xtk.Valid() && cache.Valid() && xtk.items == cache.items
    requires xtk.onItem && xtk.index <= n && xtk.index <= cache.lastIndex + 1
    modifies xtk, cache
    ensures xtk.Valid() && cache.Valid() && cache.Extended()
    ensures if cache.indexed && KeyMissing(xtk.items, n) then FirstMissing(xtk.items, move) else move == Walk(xtk.items, n)
    ensures move.At? ==> xtk.onItem && xtk.index == n && xtk.offset == move.pos.offset && cache.lastIndex >= n
  {
    var items := xtk.items;
    while true
      invariant xtk.Valid() && xtk.onItem && cache.Valid() && cache.Extended()
      invariant xtk.index <= n && xtk.index <= cache.lastIndex + 1
      decreases n - xtk.index
    {
      if xtk.index == cache.lastIndex + 1 {
        if cache.indexed {
          var key := items.keyAt(xtk.offset);
          if key.Unreadable? {
            assert NoKey(items, xtk.index);
            return Failed(key.code);
          }
        }
        cache.AddItem(xtk);
      }
      if xtk.index == n {
        return At(Position(xtk.index, xtk.offset));
      }
      ghost var at := xtk.index;
      move := xtk.GotoNext();
      if !move.At? {
        NothingAfter(items, at + 1, n);
        return;
      }
      WalkIndex(items, at + 1);
    }
  }

  lemma NothingAfter(items: Items, k: nat, n: nat)
    requires k <= n && !Walk(items, k).At?
    ensures Walk(items, n) == Walk(items, k)
    ensures forall j: nat :: k <= j ==> !NoKey(items, j)
  {
    forall j: nat | k <= j ensures Walk(items, j) == Walk(items, k) {
      WalkStopped(items, k, j);
    }
  }

  lemma MarkBefore(n: nat, last: nat, size: nat)
    requires n <= last && size > 0
    ensures n / size <= last / size
    ensures n / size * size <= n
  {
    Scaled(n / size, last / size, size);
  }

  // ---------- keys ----------

  function Twins(items: Items, key: Key, n: nat): nat {
    if n == 0 then 0
    else Twins(items, key, n - 1) + (if KeyAt(items, n - 1) == Read(key) then 1 else 0)
  }

  lemma {:induction false} TwinsMonotone(items: Items, key: Key, m: nat, n: nat)
    requires m <= n
    ensures Twins(items, key, m) <= Twins(items, key, n)
    ensures m < n && KeyAt(items, m) == Read(key) ==> Twins(items, key, m) < Twins(items, key, n)
    decreases n - m
  {
    if m < n {
      TwinsMonotone(items, key, m, n - 1);
    }
  }

  // The key of an item, said by offsets alone
  lemma KeyIs(items: Items, k: nat, key: Key)
    ensures KeyAt(items, k) == Read(key) <==> Visits(items, k) && items.keyAt(Offset(items, k)) == Read(key)
  {
    WalkLeads(items, k);
  }

  // Twins are counted: they are as many as the items before with that key.
  lemma {:induction false} TwinsCount(items: Items, key: Key, n: nat)
    ensures Twins(items, key, n) == |set k: nat | k < n && KeyAt(items, k) == Read(key)|
  {
    hide KeyAt;
    if n > 0 {
      TwinsCount(items, key, n - 1);
      var before := set k: nat | k < n - 1 && KeyAt(items, k) == Read(key);
      var all := set k: nat | k < n && KeyAt(items, k) == Read(key);
      if KeyAt(items, n - 1) == Read(key) {
        assert all == before + {n - 1};
      } else {
        assert all == before;
      }
    }
  }

  // A key and a twin number name at most one item.
  lemma TwinNamesOneItem(items: Items, key: Key, i: nat, j: nat)
    requires KeyAt(items, i) == Read(key) == KeyAt(items, j)
    requires Twins(items, key, i) == Twins(items, key, j)
    ensures i == j
  {
    if i < j {
      TwinsMonotone(items, key, i, j);
    } else {
      TwinsMonotone(items, key, j, i);
    }
  }

  // A walk goes on only while there is room: items left, or slack of which each item takes some.
  ghost predicate Finite(items: Items) {
    items.count.Some? || items.Positive()
  }

  ghost function Room(items: Items, tk: VarTracker): int
    reads tk
  {
    if items.count.Some? then items.count.value - tk.index else items.slackEnd - tk.offset
  }

  lemma {:induction false} WalkHasRoom(items: Items, n: nat)
    requires Walk(items, n).At?
    ensures items.count.Some? ==> n < items.count.value
    ensures items.count.None? ==> Walk(items, n).pos.offset < items.slackEnd
  {
    if n > 0 {
      WalkIndex(items, n);
      WalkIndex(items, n - 1);
      WalkHasRoom(items, n - 1);
    }
  }

  // The item under an indexed tracker, and everything before it, is recorded or next to be.
  ghost predicate Ready(tk: VarTracker, cache: ArrayCache)
    reads tk, cache
  {
    && tk.Valid() && cache.Valid() && cache.indexed && tk.items == cache.items && Finite(tk.items)
    && (tk.onItem ==> tk.index <= cache.lastIndex + 1)
  }

  ghost predicate NoMatch(items: Items, key: Key, from: nat, upto: nat) {
    forall m: nat :: from <= m < upto ==> KeyAt(items, m).Read? && KeyAt(items, m) != Read(key)
  }

  lemma {:induction false} NoMatchNoTwins(items: Items, key: Key, from: nat, upto: nat)
    requires from <= upto && NoMatch(items, key, from, upto)
    ensures Twins(items, key, upto) == Twins(items, key, from)
    decreases upto - from
  {
    if from < upto {
      NoMatchNoTwins(items, key, from, upto - 1);
    }
  }

  lemma {:induction false} NoTwinsPastTheEnd(items: Items, key: Key, n: nat, m: nat)
    requires n <= m && !Walk(items, n).At?
    ensures Twins(items, key, m) == Twins(items, key, n)
    decreases m - n
  {
    if n < m {
      NoTwinsPastTheEnd(items, key, n, m - 1);
      WalkStopped(items, n, m - 1);
    }
  }

  // Reads the key of the current item and records the item if it is the next to be.
  method ReadKey(tk: VarTracker, cache: ArrayCache) returns (key: Reading<Key>)
    requires Ready(tk, cache) && tk.onItem
    modifies cache
    ensures Ready(tk, cache) && cache.Extended()
    ensures key == KeyAt(tk.items, tk.index)
    ensures key.Read? ==> tk.index <= cache.lastIndex
  {
    key := tk.items.keyAt(tk.offset);
    if key.Read? && tk.index == cache.lastIndex + 1 {
      cache.AddItem(tk);
    }
  }

  // The walk fails at item `k`, or its key cannot be read.
  ghost predicate Broken(items: Items, k: nat) {
    Walk(items, k).Failed? || NoKey(items, k)
  }

  // What a search for a key from item `from` on comes to.
  ghost predicate Sought(items: Items, key: Key, from: nat, move: Move) {
    match move
    case At(pos) => from <= pos.index && Walk(items, pos.index) == move
                    && KeyAt(items, pos.index) == Read(key) && NoMatch(items, key, from, pos.index)
    case End(_) => exists e: nat :: from <= e && Walk(items, e).End? && NoMatch(items, key, from, e)
    case Failed(_) => exists e: nat :: from <= e && Broken(items, e) && NoMatch(items, key, from, e)
  }

  // One step further in a search.
  method StepInSearch(tk: VarTracker, cache: ArrayCache, key: Key, ghost start: nat) returns (move: Move)
    requires Ready(tk, cache) && tk.onItem && tk.index <= cache.lastIndex
    requires start <= tk.index && NoMatch(tk.items, key, start, tk.index + 1)
    modifies tk
    ensures Ready(tk, cache) && tk.Reached(move)
    ensures move.At? ==> start <= tk.index && NoMatch(tk.items, key, start, tk.index)
    ensures move.At? ==> 0 <= Room(tk.items, tk) < old(Room(tk.items, tk))
    ensures !move.At? ==> Sought(tk.items, key, start, move)
  {
    ghost var at: nat := tk.index;
    WalkHasRoom(tk.items, at);
    WalkIndex(tk.items, at + 1);
    move := tk.GotoNext();
    if move.At? {
      WalkHasRoom(tk.items, at + 1);
    } else {
      assert move == Walk(tk.items, at + 1);
      assert move.Failed? ==> Broken(tk.items, at + 1);
    }
  }

  // tracker_goto_next_key_match__array without a boundary: the nearest item with the key,
  // from the current one on.
  method Seek(tk: VarTracker, cache: ArrayCache, key: Key) returns (move: Move)
    requires Ready(tk, cache) && tk.onItem
    modifies tk, cache
    ensures Ready(tk, cache) && cache.Extended() && tk.Reached(move)
    ensures Sought(tk.items, key, old(tk.index), move)
    ensures move.At? ==> tk.index <= cache.lastIndex
  {
    ghost var start: nat := tk.index;
    while true
      invariant Ready(tk, cache) && cache.Extended() && tk.onItem && start <= tk.index
      invariant NoMatch(tk.items, key, start, tk.index)
      decreases Room(tk.items, tk)
    {
      var itemKey := ReadKey(tk, cache);
      if itemKey.Unreadable? {
        return Failed(itemKey.code);
      }
      if itemKey.value == key {
        return At(Position(tk.index, tk.offset));
      }
      move := StepInSearch(tk, cache, key, start);
      if !move.At? {
        return;
      }
    }
  }

  // Goes to the next match after the current item, or to the first match.
  method NextMatch(tk: VarTracker, cache: ArrayCache, key: Key) returns (move: Move)
    requires Ready(tk, cache) && !tk.atEnd && (tk.onItem ==> tk.index <= cache.lastIndex)
    requires !tk.onItem ==> cache.lastIndex == -1
    modifies tk, cache
    ensures Ready(tk, cache) && cache.Extended() && tk.Reached(move)
    ensures Sought(tk.items, key, if old(tk.onItem) then old(tk.index) + 1 else 0, move)
    ensures move.At? ==> tk.index <= cache.lastIndex
  {
    ghost var from: nat := if tk.onItem then tk.index + 1 else 0;
    WalkIndex(tk.items, from);
    move := GotoNextOrFirst(tk);
    if !move.At? {
      assert move.Failed? ==> Broken(tk.items, from);
      return;
    }
    move := Seek(tk, cache, key);
  }

  // The tracker browses the tail of the array: it is on item `last`, which is recorded, or
  // before the first item when nothing is.
  ghost predicate Browsing(tk: VarTracker, cache: ArrayCache, last: int)
    reads tk, cache
  {
    Ready(tk, cache) && !tk.atEnd
    && if tk.onItem then last == tk.index <= cache.lastIndex else last == cache.lastIndex == -1
  }

  // Something before item `at` cannot be read.
  ghost predicate UnreadableBefore(items: Items, at: nat) {
    exists k: nat :: k < at && Broken(items, k)
  }

  // No item is twin number `twin`, as far as the items can be read.
  ghost predicate NoSuchTwin(items: Items, key: Key, twin: int, move: Move) {
    && (move.End? ==> forall at: nat :: !IsTwin(items, key, twin, at))
    && (move.Failed? ==> exists k: nat :: Broken(items, k) && forall at: nat :: at < k ==> !IsTwin(items, key, twin, at))
  }

  method NextTwin(tk: VarTracker, cache: ArrayCache, key: Key, ghost last: int, ghost twin: int) returns (move: Move)
    requires Browsing(tk, cache, last) && Twins(tk.items, key, last + 1) <= twin
    modifies tk, cache
    ensures Ready(tk, cache) && cache.Extended()
    ensures move.At? ==> Browsing(tk, cache, tk.index) && tk.index > last
                         && IsTwin(tk.items, key, Twins(tk.items, key, last + 1), tk.index)
    ensures forall at: nat :: at > last && KeyAt(tk.items, at) == Read(key) ==>
              if move.At? then tk.index <= at else UnreadableBefore(tk.items, at)
    ensures !move.At? ==> NoSuchTwin(tk.items, key, twin, move)
  {
    move := NextMatch(tk, cache, key);
    forall at: nat | at > last && KeyAt(tk.items, at) == Read(key)
      ensures if move.At? then tk.index <= at else UnreadableBefore(tk.items, at)
    {
      SoughtBefore(tk.items, key, last + 1, move, at);
    }
    if move.At? {
      NoMatchNoTwins(tk.items, key, last + 1, tk.index);
    } else {
      TooFewTwins(tk.items, key, last + 1, twin, move);
    }
  }

  // The twins of a key among the recorded items, up to the item at `until` if that is one of
  // them. Stands for the lookups through the index cache.
  method CountCachedTwins(cache: ArrayCache, key: Key, until: int) returns (found: bool, twin: int)
    requires cache.Valid() && cache.indexed
    requires until >= 0 && KeyAt(cache.items, until) == Read(key)
    ensures found <==> until <= cache.lastIndex
    ensures twin == if found then Twins(cache.items, key, until) else Twins(cache.items, key, cache.lastIndex + 1) - 1
  {
    twin := -1;
    if cache.lastIndex == -1 {
      return false, twin;
    }
    var xtk := new VarTracker(cache.items);
    WalkPrefix(cache.items, 0, cache.lastIndex);
    var move := xtk.GotoFirst();
    var k := 0;
    while true
      invariant fresh(xtk) && xtk.Valid() && xtk.items == cache.items && xtk.onItem && xtk.index == k
      invariant 0 <= k <= cache.lastIndex && k <= until
      invariant twin == Twins(cache.items, key, k) - 1
      decreases cache.lastIndex - k
    {
      var itemKey := cache.items.keyAt(xtk.offset);
      assert itemKey == KeyAt(cache.items, k);
      if itemKey == Read(key) {
        twin := twin + 1;
        if k == until {
          return true, twin;
        }
      }
      if k == cache.lastIndex {
        return false, twin;
      }
      WalkPrefix(cache.items, k + 1, cache.lastIndex);
      WalkIndex(cache.items, k + 1);
      move := xtk.GotoNext();
      k := k + 1;
    }
  }

  lemma RecordedIsReadable(cache: ArrayCache, at: nat)
    requires cache.Valid() && cache.indexed && at <= cache.lastIndex
    ensures !UnreadableBefore(cache.items, at)
  {
    WalkPrefixes(cache.items, cache.lastIndex);
  }

  // tracker_lookup_current_twin_index: the number of earlier items with the same key.
  method TwinOfCurrent(tk: VarTracker, cache: ArrayCache, key: Key) returns (ok: bool, twin: int)
    requires tk.Valid() && cache.Valid() && cache.indexed && tk.items == cache.items && Finite(tk.items)
    requires tk.onItem && KeyAt(tk.items, tk.index) == Read(key)
    modifies cache
    ensures cache.Valid() && cache.Extended()
    ensures ok ==> twin == Twins(tk.items, key, tk.index) && tk.index <= cache.lastIndex
    ensures ok <==> !UnreadableBefore(tk.items, tk.index)
  {
    ok, twin := CountCachedTwins(cache, key, tk.index);
    if ok {
      RecordedIsReadable(cache, tk.index);
      return;
    }
    hide UnreadableBefore;
    // browse the tail that is not cached yet
    var items := tk.items;
    var xtk := new VarTracker.Dup(tk);
    cache.GotoLastCached(xtk);
    ghost var last := cache.lastIndex;
    while true
      invariant fresh(xtk) && xtk.items == items && Browsing(xtk, cache, last) && cache.Extended()
      invariant -1 <= last < tk.index
      invariant twin == Twins(items, key, last + 1) - 1
      decreases tk.index - last
    {
      var move := NextTwin(xtk, cache, key, last, Twins(items, key, last + 1));
      if !move.At? {
        return false, twin;
      }
      twin := twin + 1;
      last := xtk.index;
      if xtk.index == tk.index {
        RecordedIsReadable(cache, tk.index);
        return true, twin;
      }
    }
  }

  // A search that starts at or before a match does not go past it.
  lemma SoughtBefore(items: Items, key: Key, from: nat, move: Move, at: nat)
    requires Sought(items, key, from, move) && from <= at && KeyAt(items, at) == Read(key)
    ensures move.At? ==> move.pos.index <= at
    ensures !move.At? ==> UnreadableBefore(items, at)
  {
    WalkPrefixes(items, at);
  }

  lemma WalkPrefixes(items: Items, n: nat)
    requires Walk(items, n).At?
    ensures forall k: nat :: k <= n ==> Walk(items, k).At?
  {
    forall k: nat | k <= n ensures Walk(items, k).At? {
      WalkPrefix(items, k, n);
    }
  }

  // Item `at` is twin number `twin` of a key.
  ghost predicate IsTwin(items: Items, key: Key, twin: int, at: nat) {
    KeyAt(items, at) == Read(key) && Twins(items, key, at) == twin
  }

  // There is a twin with that number, and nothing before it keeps a search from finding it.
  ghost predicate ReadableTwin(items: Items, key: Key, twin: int) {
    exists at: nat :: IsTwin(items, key, twin, at) && !UnreadableBefore(items, at)
  }

  // Goes to a twin among the recorded items, or tells the number of the last one there. Stands
  // for the lookup through the index cache.
  method GotoCachedTwin(tk: VarTracker, cache: ArrayCache, key: Key, twin: nat) returns (found: bool, last: int)
    requires tk.Valid() && cache.Valid() && cache.indexed && tk.items == cache.items
    modifies tk
    ensures tk.Valid()
    ensures found ==> tk.onItem && tk.index <= cache.lastIndex && IsTwin(tk.items, key, twin, tk.index)
    ensures !found ==> unchanged(tk) && last < twin && last == Twins(tk.items, key, cache.lastIndex + 1) - 1
  {
    last := -1;
    if cache.lastIndex == -1 {
      return false, last;
    }
    var items := tk.items;
    var xtk := new VarTracker(items);
    WalkPrefix(items, 0, cache.lastIndex);
    var _ := xtk.GotoFirst();
    var k := 0;
    while true
      invariant fresh(xtk) && xtk.Valid() && xtk.items == items && xtk.onItem && xtk.index == k && unchanged(tk)
      invariant 0 <= k <= cache.lastIndex
      invariant last == Twins(items, key, k) - 1 < twin
      decreases cache.lastIndex - k
    {
      var itemKey := items.keyAt(xtk.offset);
      assert itemKey == KeyAt(items, k);
      if itemKey == Read(key) {
        last := last + 1;
        if last == twin {
          tk.Set(xtk);
          return true, last;
        }
      }
      if k == cache.lastIndex {
        return false, last;
      }
      WalkPrefix(items, k + 1, cache.lastIndex);
      WalkIndex(items, k + 1);
      var _ := xtk.GotoNext();
      k := k + 1;
    }
  }

  // tracker_goto_nth_item_with_key__indexed_array: the twin with that number, or "no item"
  // when there are not that many, unless something on the way cannot be read.
  method GotoNthWithKey(tk: VarTracker, cache: ArrayCache, key: Key, twin: nat) returns (move: Move)
    requires tk.Valid() && cache.Valid() && cache.indexed && tk.items == cache.items && Finite(tk.items)
    modifies tk, cache
    ensures tk.Valid() && cache.Valid() && cache.Extended()
    ensures move.At? ==> tk.onItem && IsTwin(tk.items, key, twin, tk.index)
    ensures !move.At? ==> NoSuchTwin(tk.items, key, twin, move) && unchanged(tk)
    ensures move.At? <==> ReadableTwin(tk.items, key, twin)
  {
    var found, cur := GotoCachedTwin(tk, cache, key, twin);
    if found {
      RecordedIsReadable(cache, tk.index);
      return At(Position(tk.index, tk.offset));
    }
    // browse the tail that is not cached yet
    var items := tk.items;
    var xtk := new VarTracker.Dup(tk);
    cache.GotoLastCached(xtk);
    ghost var last := cache.lastIndex;
    while true
      invariant fresh(xtk) && xtk.items == items && Browsing(xtk, cache, last) && cache.Extended() && unchanged(tk)
      invariant last >= -1 && cur == Twins(items, key, last + 1) - 1 < twin
      decreases twin - cur
    {
      move := NextTwin(xtk, cache, key, last, twin);
      if !move.At? {
        NotReadable(items, key, twin, move);
        return;
      }
      cur := cur + 1;
      last := xtk.index;
      if cur == twin {
        break;
      }
    }
    RecordedIsReadable(cache, xtk.index);
    tk.Set(xtk);
  }

  lemma NotReadable(items: Items, key: Key, twin: int, move: Move)
    requires NoSuchTwin(items, key, twin, move) && !move.At?
    ensures !ReadableTwin(items, key, twin)
  {
  }

  // A search that finds no further match leaves no twin beyond those counted.
  lemma TooFewTwins(items: Items, key: Key, from: nat, twin: nat, move: Move)
    requires Sought(items, key, from, move) && !move.At?
    requires Twins(items, key, from) <= twin
    ensures NoSuchTwin(items, key, twin, move)
  {
    var e: nat :| from <= e && NoMatch(items, key, from, e)
               && if move.End? then Walk(items, e).End? else Broken(items, e);
    forall at: nat | at < e || move.End?
      ensures !IsTwin(items, key, twin, at)
    {
      if at < from {
        TwinsMonotone(items, key, at, from);
      } else if at >= e {
        WalkStopped(items, e, at);
      }
    }
  }

  // The twin number reported for an item leads back to it.
  method TwinRoundTrip(tk: VarTracker, cache: ArrayCache, key: Key) returns (ok: bool, move: Move)
    requires tk.Valid() && cache.Valid() && cache.indexed && tk.items == cache.items && Finite(tk.items)
    requires tk.onItem && KeyAt(tk.items, tk.index) == Read(key)
    modifies tk, cache
    ensures tk.Valid() && cache.Valid()
    ensures ok ==> move.At? && tk.onItem && tk.index == old(tk.index) && tk.offset == old(tk.offset)
    ensures ok <==> !UnreadableBefore(tk.items, old(tk.index))
  {
    var twin;
    ghost var at: nat := tk.index;
    ok, twin := TwinOfCurrent(tk, cache, key);
    move := Failed(0);
    if ok {
      assert IsTwin(tk.items, key, twin, at);
      move := GotoNthWithKey(tk, cache, key, twin);
      TwinNamesOneItem(tk.items, key, at, tk.index);
    }
  }
}
