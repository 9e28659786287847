// Moving a tracker over the fields of a block as if its anonymous
// structs were spelled out in place (browse.c, scope.c).

module FieldTraversal {
  import opened Wrappers
  import opened Schema
  import opened StatementIteration

  // A box, and how it was entered from the box around it.
  datatype Box = Top(block: Block, scope: Scope)
               | Item(block: Block, scope: Scope, parent: Box, index: nat)
  {
    ghost predicate Valid() {
      Item? ==> parent.Valid() && index < |parent.block.fields| && this == parent.Enter(index)
    }

    function Enter(field: nat): Box
      requires field < |block.fields|
    {
      Item(block.fields[field].body, scope.Enter(field), this, field)
    }

    predicate InAnonymousField() {
      Item? && index < |parent.block.fields| && parent.block.fields[index].Transparent()
    }

    // The box in which the members of this one appear.
    function Base(): Box {
      if InAnonymousField() then parent.Base() else this
    }
  }

  datatype Position = Position(box: Box, field: nat)
  {
    predicate Hidden() {
      field < |box.block.fields| && box.block.fields[field].hidden
    }
  }

  // Why a walk stops: all was visited, it ran into an anonymous struct
  // without an active field, or a condition could not be evaluated.
  datatype Stop = Complete | Broken | Error(code: nat)

  datatype Flat = Flat(fields: seq<Position>, stop: Stop)
  {
    function Then(later: Flat): Flat {
      if stop == Complete then Flat(fields + later.fields, later.stop) else this
    }
  }

  function Step(i: int, reverse: bool): int {
    if reverse then i - 1 else i + 1
  }

  // ---------- the walk as a function ----------

  // The members of a box from field `from` on. An anonymous struct without
  // any active field stops the walk.
  function Flatten(box: Box, from: int, reverse: bool, env: Env): Flat
    decreases box.block, if reverse then from + 1 else |box.block.fields| - from
  {
    if from < 0 || |box.block.fields| <= from then Flat([], Complete)
    else
      match Check(box.block.fields[from].cond, box.scope, env)
      case Errs(code) => Flat([], Error(code))
      case Fails => Flatten(box, Step(from, reverse), reverse, env)
      case Holds =>
        (if box.block.fields[from].Transparent()
         then
           var inside := Flatten(box.Enter(from), Start(box.block.fields[from].body.fields, reverse), reverse, env);
           if inside == Flat([], Complete) then Flat([], Broken) else inside
         else Flat([Position(box, from)], Complete)
        ).Then(Flatten(box, Step(from, reverse), reverse, env))
  }

  // What a walk at field `from` of a box still has to visit, up to the base box.
  function Remaining(box: Box, from: int, reverse: bool, env: Env): Flat
    decreases box
  {
    var here := Flatten(box, from, reverse, env);
    if box.InAnonymousField() then here.Then(Remaining(box.parent, Step(box.index, reverse), reverse, env)) else here
  }

  function WholeWalk(box: Box, reverse: bool, env: Env): Flat {
    Flatten(box, Start(box.block.fields, reverse), reverse, env)
  }

  lemma ThenAssociates(a: Flat, b: Flat, c: Flat)
    ensures a.Then(b).Then(c) == a.Then(b.Then(c))
  {
    assert (a.fields + b.fields) + c.fields == a.fields + (b.fields + c.fields);
  }

  lemma ThenUnit(a: Flat)
    ensures Flat([], Complete).Then(a) == a
  {
    assert [] + a.fields == a.fields;
  }

  ghost predicate Active(box: Box, field: int, env: Env) {
    0 <= field < |box.block.fields| && Check(box.block.fields[field].cond, box.scope, env) == Holds
  }

  // The statement iterator finds the next active field.
  lemma {:induction false} NextActive(box: Box, from: int, reverse: bool, env: Env)
    ensures var r := FirstHolding(Ahead(box.block.fields, Field, box.scope, None, from, reverse), env);
            && (r.NoItem? ==> Flatten(box, from, reverse, env) == Flat([], Complete))
            && (r.Failed? ==> Flatten(box, from, reverse, env) == Flat([], Error(r.code)))
            && (r.Found? ==> Active(box, r.value.index, env)
                             && Flatten(box, from, reverse, env) == Flatten(box, r.value.index, reverse, env))
    decreases if reverse then from + 1 else |box.block.fields| - from
  {
    if 0 <= from < |box.block.fields| {
      NextActive(box, Step(from, reverse), reverse, env);
      var rest := Ahead(box.block.fields, Field, box.scope, None, Step(from, reverse), reverse);
      var here := Target(Field, from, box.block.fields[from], box.scope);
      assert ([here] + rest)[1..] == rest;
      assert Ahead(box.block.fields, Field, box.scope, None, from, reverse) == [here] + rest;
    }
  }

  lemma AtLeaf(box: Box, field: nat, reverse: bool, env: Env)
    requires Active(box, field, env) && !box.block.fields[field].Transparent()
    ensures Remaining(box, field, reverse, env)
         == Flat([Position(box, field)], Complete).Then(Remaining(box, Step(field, reverse), reverse, env))
  {
    if box.InAnonymousField() {
      ThenAssociates(Flat([Position(box, field)], Complete), Flatten(box, Step(field, reverse), reverse, env),
                     Remaining(box.parent, Step(box.index, reverse), reverse, env));
    }
  }

  lemma Entering(box: Box, field: nat, reverse: bool, env: Env)
    requires Active(box, field, env) && box.block.fields[field].Transparent()
    ensures var inner := box.Enter(field);
            Remaining(box, field, reverse, env)
            == if WholeWalk(inner, reverse, env) == Flat([], Complete) then Flat([], Broken)
               else Remaining(inner, Start(inner.block.fields, reverse), reverse, env)
  {
    if box.InAnonymousField() {
      ThenAssociates(WholeWalk(box.Enter(field), reverse, env), Flatten(box, Step(field, reverse), reverse, env),
                     Remaining(box.parent, Step(box.index, reverse), reverse, env));
    }
  }

  // ---------- finding active fields ----------

  ghost predicate Locates(box: Box, from: int, reverse: bool, env: Env, r: Outcome<nat>) {
    match r
    case Found(field) => Active(box, field, env)
                         && Flatten(box, from, reverse, env) == Flatten(box, field, reverse, env)
                         && Remaining(box, from, reverse, env) == Remaining(box, field, reverse, env)
    case NoItem => Flatten(box, from, reverse, env) == Flat([], Complete)
    case Failed(code) => Flatten(box, from, reverse, env) == Flat([], Error(code))
  }

  method FirstField(box: Box, reverse: bool, env: Env) returns (r: Outcome<nat>)
    ensures Locates(box, Start(box.block.fields, reverse), reverse, env, r)
  {
    var it := new StatementIterator.Over(box.block, box.scope, {Field}, None, reverse);
    OnlyFields(box, reverse);
    r := Locate(it, box, Start(box.block.fields, reverse), reverse, env);
  }

  method FieldAfter(box: Box, field: nat, reverse: bool, env: Env) returns (r: Outcome<nat>)
    requires field < |box.block.fields|
    ensures Locates(box, Step(field, reverse), reverse, env, r)
  {
    var it := new StatementIterator.From(box.block, box.scope, Field, field, None, reverse);
    r := Locate(it, box, Step(field, reverse), reverse, env);
  }

  lemma OnlyFields(box: Box, reverse: bool)
    ensures Queued(box.block, {Field}, box.scope, None, reverse)
         == Ahead(box.block.fields, Field, box.scope, None, Start(box.block.fields, reverse), reverse)
  {
  }

  method Locate(it: StatementIterator, box: Box, ghost from: int, reverse: bool, env: Env) returns (r: Outcome<nat>)
    requires it.Valid()
    requires it.Pending() == Ahead(box.block.fields, Field, box.scope, None, from, reverse)
    modifies it
    ensures Locates(box, from, reverse, env, r)
  {
    NextActive(box, from, reverse, env);
    var next, _ := it.Next(env);
    match next {
      case Found(stmt) => return Found(stmt.index);
      case NoItem => return NoItem;
      case Failed(code) => return Failed(code);
    }
  }

  // ---------- the tracker ----------

  class FieldTracker {
    const env: Env
    var box: Box
    var reversed: bool
    var cur: Option<nat>     // the current field, if set
    var onItem: bool         // false for a dangling tracker
    var atEnd: bool

    ghost predicate Valid()
      reads this
    {
      box.Valid() && (cur.Some? ==> cur.value < |box.block.fields|)
      && (onItem ==> cur.Some? && !atEnd) && (cur.None? ==> !box.InAnonymousField())
    }

    constructor (box: Box, reversed: bool, env: Env)
      requires box.Valid() && !box.InAnonymousField()
      ensures Valid() && !onItem && !atEnd && cur == None
      ensures this.box == box && this.reversed == reversed && this.env == env
    {
      this.env, this.box, this.reversed := env, box, reversed;
      cur, onItem, atEnd := None, false, false;
    }

    // tracker_dup
    constructor Dup(tk: FieldTracker)
      requires tk.Valid()
      ensures Valid() && env == tk.env && box == tk.box && reversed == tk.reversed
      ensures cur == tk.cur && onItem == tk.onItem && atEnd == tk.atEnd
    {
      env, box, reversed := tk.env, tk.box, tk.reversed;
      cur, onItem, atEnd := tk.cur, tk.onItem, tk.atEnd;
    }

    // tracker_set
    method Set(tk: FieldTracker)
      requires tk.Valid() && tk.env == env
      modifies this
      ensures Valid() && box == tk.box && reversed == tk.reversed
      ensures cur == tk.cur && onItem == tk.onItem && atEnd == tk.atEnd
    {
      box, reversed, cur, onItem, atEnd := tk.box, tk.reversed, tk.cur, tk.onItem, tk.atEnd;
    }

    ghost function Ahead(): Flat
      requires Valid() && cur.Some?
      reads this
    {
      Remaining(box, Step(cur.value, reversed), reversed, env)
    }

    // A move has reached the first of the fields that were left, or found none.
    ghost predicate Arrived(left: Flat, r: Outcome<Position>, base: Box)
      requires Valid()
      reads this
    {
      match r
      case Found(p) => onItem && left.fields != [] && p == left.fields[0] == Position(box, cur.value)
                       && Ahead() == Flat(left.fields[1..], left.stop) && box.Base() == base
      case NoItem => left.fields == [] && !left.stop.Error?
      case Failed(code) => left == Flat([], Error(code))
    }

    // The walk is over: the tracker is at the end of the box it started from.
    ghost predicate AtEndOf(base: Box)
      reads this
    {
      atEnd && !onItem && box == base
    }

    method SetField(field: nat)
      requires box.Valid() && field < |box.block.fields|
      modifies this
      ensures Valid() && onItem && cur == Some(field) && !atEnd && box == old(box) && reversed == old(reversed)
    {
      cur, onItem, atEnd := Some(field), true, false;
    }

    method EnterItem()
      requires Valid() && onItem
      modifies this
      ensures box == old(box).Enter(old(cur.value)) && box.Valid() && cur == None && !onItem && !atEnd
      ensures reversed == old(reversed)
    {
      box := box.Enter(cur.value);
      cur, onItem, atEnd := None, false, false;
    }

    // tracker_return_internal, from the box of an unfiltered anonymous field
    method Return()
      requires Valid() && box.InAnonymousField()
      modifies this
      ensures Valid() && box == old(box).parent && cur == Some(old(box).index) && onItem && !atEnd
      ensures reversed == old(reversed)
    {
      cur, onItem, atEnd := Some(box.index), true, false;
      box := box.parent;
    }

    // Enters the anonymous struct at an active field and finds its first active field.
    method EnterAnonymous(field: nat) returns (r: Outcome<nat>)
      requires box.Valid() && Active(box, field, env) && box.block.fields[field].Transparent()
      modifies this
      ensures box.Valid() && box == old(box).Enter(field) && reversed == old(reversed)
      ensures match r
              case Found(first) => Active(box, first, env)
                                   && Remaining(box, first, reversed, env) == Remaining(old(box), field, reversed, env)
              case NoItem => Remaining(old(box), field, reversed, env) == Flat([], Broken)
              case Failed(code) => Remaining(old(box), field, reversed, env) == Flat([], Error(code))
    {
      Entering(box, field, reversed, env);
      SetField(field);
      EnterItem();
      r := FirstField(box, reversed, env);
    }

    // tracker_goto_field_int_recur, not flat
    method GotoFieldRecur(start: nat) returns (r: Outcome<Position>)
      requires Valid() && Active(box, start, env)
      modifies this
      ensures Valid() && reversed == old(reversed)
      ensures !r.Found? ==> unchanged(this)
      ensures Arrived(Remaining(old(box), start, reversed, env), r, old(box).Base())
      ensures r.NoItem? ==> Remaining(old(box), start, reversed, env) == Flat([], Broken)
    {
      ghost var left := Remaining(box, start, reversed, env);
      var field := start;
      if !box.block.fields[field].Transparent() {
        r := Settle(field);
        return;
      }
      var xtk := new FieldTracker.Dup(this);
      while xtk.box.block.fields[field].Transparent()
        invariant fresh(xtk) && xtk.env == env && xtk.reversed == reversed && xtk.box.Valid()
        invariant unchanged(this)
        invariant Active(xtk.box, field, env)
        invariant Remaining(xtk.box, field, reversed, env) == left
        invariant xtk.box.Base() == box.Base()
        decreases xtk.box.block
      {
        var next := xtk.EnterAnonymous(field);
        match next {
          case Found(first) => field := first;
          case NoItem => return NoItem;
          case Failed(code) => return Failed(code);
        }
      }
      box := xtk.box;
      r := Settle(field);
    }

    // Sets the tracker on an active field that is not entered.
    method Settle(field: nat) returns (r: Outcome<Position>)
      requires box.Valid() && Active(box, field, env) && !box.block.fields[field].Transparent()
      modifies this
      ensures Valid() && r.Found? && reversed == old(reversed)
      ensures Arrived(Remaining(old(box), field, reversed, env), r, old(box).Base())
    {
      AtLeaf(box, field, reversed, env);
      ghost var left := Remaining(box, field, reversed, env);
      SetField(field);
      assert left.fields[1..] == Ahead().fields;
      r := Found(Position(box, field));
    }

    method SetEnd()
      requires Valid()
      modifies this
      ensures Valid() && atEnd && !onItem && box == old(box) && reversed == old(reversed)
    {
      onItem, atEnd := false, true;
    }

    // tracker_goto_first_field_internal, not flat
    method GotoFirstField() returns (r: Outcome<Position>)
      requires Valid()
      modifies this
      ensures Valid() && reversed == old(reversed)
      ensures var left := WholeWalk(old(box).Base(), reversed, env);
              Arrived(left, r, old(box).Base())
              && (r.NoItem? && left.stop == Complete ==> AtEndOf(old(box).Base()))
              && (r.NoItem? && left.stop == Broken && !old(atEnd) ==> !atEnd)
    {
      if cur.Some? {
        while box.InAnonymousField()
          invariant Valid() && reversed == old(reversed) && box.Base() == old(box).Base()
          invariant old(!atEnd) ==> !atEnd
          decreases box
        {
          Return();
        }
      }
      var first := FirstField(box, reversed, env);
      match first {
        case Found(field) => r := GotoFieldRecur(field);
        case NoItem =>
          SetEnd();
          return NoItem;
        case Failed(code) => return Failed(code);
      }
    }

    // tracker_goto_next_field_internal, not flat
    method GotoNextField() returns (r: Outcome<Position>)
      requires Valid() && onItem
      modifies this
      ensures Valid() && reversed == old(reversed)
      ensures var left := old(Ahead());
              Arrived(left, r, old(box).Base())
              && (r.NoItem? && left.stop == Complete ==> AtEndOf(old(box).Base()))
              && (r.NoItem? && left.stop == Broken ==> !atEnd)
    {
      while true
        invariant Valid() && onItem && reversed == old(reversed)
        invariant Ahead() == old(Ahead()) && box.Base() == old(box).Base()
        decreases box
      {
        var next := FieldAfter(box, cur.value, reversed, env);
        match next {
          case Found(field) =>
            r := GotoFieldRecur(field);
            return;
          case Failed(code) => return Failed(code);
          case NoItem =>
            if box.InAnonymousField() {
              ThenUnit(Remaining(box.parent, Step(box.index, reversed), reversed, env));
              Return();
            } else {
              SetEnd();
              return NoItem;
            }
        }
      }
    }

    // The same for the fields that are not hidden.
    ghost predicate ArrivedShown(left: Flat, r: Outcome<Position>, base: Box)
      requires Valid()
      reads this
    {
      match r
      case Found(p) => onItem && Shown(left.fields) != [] && p == Shown(left.fields)[0] == Position(box, cur.value)
                       && Shown(Ahead().fields) == Shown(left.fields)[1..] && Ahead().stop == left.stop
                       && box.Base() == base
      case NoItem => Shown(left.fields) == [] && !left.stop.Error?
                     && (left.stop == Complete ==> AtEndOf(base))
      case Failed(code) => Shown(left.fields) == [] && left.stop == Error(code)
    }

    // Moves on until the current field is not hidden.
    method SkipHidden(at: Outcome<Position>, ghost left: Flat, ghost base: Box) returns (r: Outcome<Position>)
      requires Valid() && Arrived(left, at, base) && (at.NoItem? && left.stop == Complete ==> AtEndOf(base))
      modifies this
      ensures Valid() && reversed == old(reversed) && ArrivedShown(left, r, base)
    {
      r := at;
      ghost var rest := left;
      while r.Found? && r.value.Hidden()
        invariant Valid() && reversed == old(reversed) && Arrived(rest, r, base)
        invariant r.NoItem? && rest.stop == Complete ==> AtEndOf(base)
        invariant Shown(rest.fields) == Shown(left.fields) && rest.stop == left.stop
        decreases |rest.fields|
      {
        rest := Ahead();
        r := GotoNextField();
      }
    }

    // tracker_goto_first_item__scope
    method GotoFirstItem() returns (r: Outcome<Position>)
      requires Valid()
      modifies this
      ensures Valid() && reversed == old(reversed)
      ensures ArrivedShown(WholeWalk(old(box).Base(), reversed, env), r, old(box).Base())
    {
      ghost var left, base := WholeWalk(box.Base(), reversed, env), box.Base();
      r := GotoFirstField();
      r := SkipHidden(r, left, base);
    }

    // tracker_goto_next_item__scope
    method GotoNextItem() returns (r: Outcome<Position>)
      requires Valid() && onItem
      modifies this
      ensures Valid() && reversed == old(reversed)
      ensures ArrivedShown(old(Ahead()), r, old(box).Base())
    {
      ghost var left, base := Ahead(), box.Base();
      r := GotoNextField();
      r := SkipHidden(r, left, base);
    }

    // tracker_goto_nth_item__scope: the nth of the fields that are not hidden, or no move at all
    method GotoNthItem(index: int) returns (r: Outcome<Position>)
      requires Valid()
      modifies this
      ensures Valid() && reversed == old(reversed)
      ensures var walk := WholeWalk(old(box).Base(), reversed, env);
              r == if 0 <= index < |Shown(walk.fields)| then Found(Shown(walk.fields)[index])
                   else if walk.stop.Error? then Failed(walk.stop.code) else NoItem
      ensures r.Found? ==> IsNthShown(WholeWalk(old(box).Base(), reversed, env).fields, index, r.value)
      ensures !r.Found? && index >= 0 ==>
                var fields := WholeWalk(old(box).Base(), reversed, env).fields; NotHiddenBefore(fields, |fields|) <= index
      ensures r.Found? ==> onItem && r.value == Position(box, cur.value)
      ensures !r.Found? ==> unchanged(this)
    {
      hide Flatten, Remaining, Shown;
      ghost var walk, base := WholeWalk(box.Base(), reversed, env), box.Base();
      ghost var left := walk;
      var xtk := new FieldTracker.Dup(this);
      r := xtk.GotoFirstItem();
      var curIdx := 0;
      while true
        invariant fresh(xtk) && xtk.Valid() && xtk.env == env && xtk.reversed == reversed
        invariant unchanged(this) && xtk.ArrivedShown(left, r, base) && left.stop == walk.stop
        invariant 0 <= curIdx <= |Shown(walk.fields)| && Shown(left.fields) == Shown(walk.fields)[curIdx..]
        invariant index < 0 || curIdx <= index
        decreases |Shown(walk.fields)| - curIdx
      {
        if !r.Found? {
          ShownCount(walk.fields);
          return;
        }
        if curIdx == index {
          break;
        }
        curIdx := curIdx + 1;
        left := xtk.Ahead();
        r := xtk.GotoNextItem();
      }
      ghost var k := NthShown(walk.fields, curIdx);
      Set(xtk);
    }
  }

  lemma ShownCount(fields: seq<Position>)
    ensures |Shown(fields)| == NotHiddenBefore(fields, |fields|)
  {
    if fields != [] {
      ShownMembers(fields, fields[0]);
    }
  }

  function Shown(fields: seq<Position>): seq<Position> {
    if fields == [] then []
    else if fields[0].Hidden() then Shown(fields[1..])
    else [fields[0]] + Shown(fields[1..])
  }

  ghost predicate IsHidden(p: Position) {
    p.field < |p.box.block.fields| && p.box.block.fields[p.field].hidden
  }

  // How many of the first k positions are not hidden
  ghost function NotHiddenBefore(fields: seq<Position>, k: nat): nat
    requires k <= |fields|
  {
    if k == 0 then 0 else NotHiddenBefore(fields, k - 1) + (if IsHidden(fields[k - 1]) then 0 else 1)
  }

  lemma {:induction false} NotHiddenTail(fields: seq<Position>, k: nat)
    requires 0 < k <= |fields|
    ensures NotHiddenBefore(fields, k) == NotHiddenBefore(fields[1..], k - 1) + (if IsHidden(fields[0]) then 0 else 1)
  {
    if k > 1 {
      NotHiddenTail(fields, k - 1);
    }
  }

  // What is shown is what is not hidden, as often and in the same order.
  lemma {:induction false} ShownMembers(fields: seq<Position>, p: Position)
    ensures p in Shown(fields) <==> p in fields && !IsHidden(p)
    ensures multiset(Shown(fields))[p] == if IsHidden(p) then 0 else multiset(fields)[p]
    ensures |Shown(fields)| == NotHiddenBefore(fields, |fields|)
  {
    if fields != [] {
      ShownMembers(fields[1..], p);
      NotHiddenTail(fields, |fields|);
      assert fields == [fields[0]] + fields[1..];
    }
  }

  // The nth shown position stands where exactly n positions before it are not hidden.
  lemma {:induction false} NthShown(fields: seq<Position>, n: nat) returns (k: nat)
    requires n < |Shown(fields)|
    ensures k < |fields| && fields[k] == Shown(fields)[n] && !IsHidden(fields[k]) && NotHiddenBefore(fields, k) == n
  {
    if !IsHidden(fields[0]) && n == 0 {
      k := 0;
    } else {
      k := NthShown(fields[1..], if IsHidden(fields[0]) then n else n - 1);
      k := k + 1;
      NotHiddenTail(fields, k);
    }
  }

  // Position p is at such a place.
  ghost predicate IsNthShown(fields: seq<Position>, n: int, p: Position) {
    exists k: nat :: k < |fields| && fields[k] == p && !IsHidden(p) && NotHiddenBefore(fields, k) == n
  }

  lemma Consume(done: seq<Position>, left: seq<Position>)
    requires left != []
    ensures (done + [left[0]]) + left[1..] == done + left
  {
  }

  // A whole run over the members of a box: what it visits, and whether it
  // comes back to the box and ends there.
  method VisitAll(box: Box, reversed: bool, env: Env) returns (visited: seq<Position>, completed: bool)
    requires box.Valid() && !box.InAnonymousField()
    ensures visited == WholeWalk(box, reversed, env).fields
    ensures completed <==> WholeWalk(box, reversed, env).stop == Complete
  {
    var tk := new FieldTracker(box, reversed, env);
    ghost var walk := WholeWalk(box, reversed, env);
    ghost var left := walk;
    visited := [];
    var r := tk.GotoFirstField();
    while r.Found?
      invariant fresh(tk) && tk.Valid() && tk.env == env && tk.reversed == reversed
      invariant tk.Arrived(left, r, box)
      invariant r.NoItem? && left.stop == Complete ==> tk.AtEndOf(box)
      invariant r.NoItem? && left.stop == Broken ==> !tk.atEnd
      invariant visited + left.fields == walk.fields && left.stop == walk.stop
      decreases |left.fields|
    {
      Consume(visited, left.fields);
      visited := visited + [r.value];
      left := tk.Ahead();
      r := tk.GotoNextField();
    }
    completed := r.NoItem? && tk.atEnd && tk.box == box;
  }

  // ---------- the walk is the depth-first flattening ----------

  // All active members in order, each anonymous struct spelled out in place.
  function DepthFirst(box: Box, from: int, reverse: bool, env: Env): seq<Position>
    decreases box.block, if reverse then from + 1 else |box.block.fields| - from
  {
    if from < 0 || |box.block.fields| <= from then []
    else Spelled(box, from, reverse, env) + DepthFirst(box, Step(from, reverse), reverse, env)
  }

  function Spelled(box: Box, field: nat, reverse: bool, env: Env): seq<Position>
    requires field < |box.block.fields|
    decreases box.block, 0
  {
    if !Check(box.block.fields[field].cond, box.scope, env).Holds? then []
    else if box.block.fields[field].Transparent()
    then DepthFirst(box.Enter(field), Start(box.block.fields[field].body.fields, reverse), reverse, env)
    else [Position(box, field)]
  }

  // Every active anonymous struct from field `from` on, at any depth, has an active field.
  ghost predicate Populated(box: Box, from: int, reverse: bool, env: Env)
    decreases box.block, 1
  {
    forall i :: 0 <= i < |box.block.fields| && (if reverse then i <= from else from <= i) ==>
      PopulatedAt(box, i, reverse, env)
  }

  ghost predicate PopulatedAt(box: Box, field: nat, reverse: bool, env: Env)
    requires field < |box.block.fields|
    decreases box.block, 0
  {
    Active(box, field, env) && box.block.fields[field].Transparent() ==>
      (exists j :: Active(box.Enter(field), j, env))
      && Populated(box.Enter(field), Start(box.block.fields[field].body.fields, reverse), reverse, env)
  }

  // No active field from `from` on.
  ghost predicate Inactive(box: Box, from: int, reverse: bool, env: Env) {
    forall j :: Active(box, j, env) ==> if reverse then from < j else j < from
  }

  lemma {:induction false} EmptyWalk(box: Box, from: int, reverse: bool, env: Env)
    requires Decided(env) && (if reverse then from < |box.block.fields| else 0 <= from)
    ensures Flatten(box, from, reverse, env) == Flat([], Complete) <==> Inactive(box, from, reverse, env)
    decreases if reverse then from + 1 else |box.block.fields| - from
  {
    if 0 <= from < |box.block.fields| {
      EmptyWalk(box, Step(from, reverse), reverse, env);
      if Active(box, from, env) {
        assert !Inactive(box, from, reverse, env);
      } else {
        assert Inactive(box, from, reverse, env) <==> Inactive(box, Step(from, reverse), reverse, env);
      }
    }
  }

  lemma PopulatedStep(box: Box, from: nat, reverse: bool, env: Env)
    requires from < |box.block.fields|
    ensures Populated(box, from, reverse, env)
       <==> PopulatedAt(box, from, reverse, env) && Populated(box, Step(from, reverse), reverse, env)
    ensures !Active(box, from, env) ==> Spelled(box, from, reverse, env) == []
    ensures Active(box, from, env) && !box.block.fields[from].Transparent() ==>
              Spelled(box, from, reverse, env) == [Position(box, from)]
  {
  }

  // A walk always visits a prefix of the flattening, and the whole of it exactly when
  // it meets no anonymous struct without an active field.
  lemma {:induction false} WalkIsDepthFirst(box: Box, from: int, reverse: bool, env: Env)
    requires Decided(env) && (if reverse then from < |box.block.fields| else 0 <= from)
    ensures Flatten(box, from, reverse, env).fields <= DepthFirst(box, from, reverse, env)
    ensures Flatten(box, from, reverse, env).stop == Complete <==> Populated(box, from, reverse, env)
    ensures Populated(box, from, reverse, env) ==>
              Flatten(box, from, reverse, env).fields == DepthFirst(box, from, reverse, env)
    decreases box.block, if reverse then from + 2 else |box.block.fields| - from + 1
  {
    if 0 <= from < |box.block.fields| {
      WalkIsDepthFirst(box, Step(from, reverse), reverse, env);
      PopulatedStep(box, from, reverse, env);
      hide Populated, Spelled;
      if Active(box, from, env) && box.block.fields[from].Transparent() {
        WalkInside(box, from, reverse, env);
      }
    }
  }

  lemma {:induction false} WalkInside(box: Box, field: nat, reverse: bool, env: Env)
    requires Decided(env) && Active(box, field, env) && box.block.fields[field].Transparent()
    ensures var inside := WholeWalk(box.Enter(field), reverse, env);
            && inside.fields <= Spelled(box, field, reverse, env)
            && (inside.stop == Complete && inside.fields != [] <==> PopulatedAt(box, field, reverse, env))
            && (PopulatedAt(box, field, reverse, env) ==> inside.fields == Spelled(box, field, reverse, env))
    decreases box.block, 0
  {
    var inner := box.Enter(field);
    var start := Start(inner.block.fields, reverse);
    WalkIsDepthFirst(inner, start, reverse, env);
    EmptyWalk(inner, start, reverse, env);
    assert Inactive(inner, start, reverse, env) <==> !exists j :: Active(inner, j, env);
  }

  function Reversed(fields: seq<Position>): seq<Position> {
    if fields == [] then [] else Reversed(fields[1..]) + [fields[0]]
  }

  lemma {:induction false} ReversedConcat(a: seq<Position>, b: seq<Position>)
    ensures Reversed(a + b) == Reversed(b) + Reversed(a)
  {
    if a == [] {
      assert a + b == b;
      assert Reversed(b) + [] == Reversed(b);
    } else {
      ReversedConcat(a[1..], b);
      assert (a + b)[1..] == a[1..] + b;
    }
  }

  // A reversed tracker visits the same fields in the opposite order.
  lemma {:induction false} ReverseWalk(box: Box, env: Env)
    ensures DepthFirst(box, |box.block.fields| - 1, true, env) == Reversed(DepthFirst(box, 0, false, env))
    decreases box.block, |box.block.fields| + 2
  {
    ReverseWalkUpTo(box, |box.block.fields|, env);
    var all := DepthFirst(box, |box.block.fields| - 1, true, env);
    assert Reversed([]) + all == all;
  }

  lemma {:induction false} ReverseWalkUpTo(box: Box, k: nat, env: Env)
    requires k <= |box.block.fields|
    ensures Reversed(DepthFirst(box, 0, false, env))
         == Reversed(DepthFirst(box, k, false, env)) + DepthFirst(box, k - 1, true, env)
    decreases box.block, k + 1
  {
    if k == 0 {
      assert Reversed(DepthFirst(box, 0, false, env)) + [] == Reversed(DepthFirst(box, 0, false, env));
    } else {
      ReverseWalkUpTo(box, k - 1, env);
      var here, after := Spelled(box, k - 1, false, env), DepthFirst(box, k, false, env);
      var before := DepthFirst(box, k - 2, true, env);
      ReversedConcat(here, after);
      SpelledReversed(box, k - 1, env);
      assert (Reversed(after) + Reversed(here)) + before == Reversed(after) + (Reversed(here) + before);
    }
  }

  lemma {:induction false} SpelledReversed(box: Box, field: nat, env: Env)
    requires field < |box.block.fields|
    ensures Spelled(box, field, true, env) == Reversed(Spelled(box, field, false, env))
    decreases box.block, 0
  {
    if box.block.fields[field].Transparent() {
      ReverseWalk(box.Enter(field), env);
    } else {
      assert Reversed([Position(box, field)]) == [Position(box, field)];
    }
  }

  // The run over a box visits its depth-first flattening and ends at the box
  // exactly when every active anonymous struct in it has an active field.
  lemma TraversalTheorem(box: Box, env: Env)
    requires Decided(env)
    ensures WholeWalk(box, false, env).stop == Complete
       <==> Populated(box, 0, false, env)
    ensures WholeWalk(box, true, env).stop == Complete
       <==> Populated(box, 0, false, env)
    ensures Populated(box, 0, false, env) ==>
              && WholeWalk(box, false, env) == Flat(DepthFirst(box, 0, false, env), Complete)
              && WholeWalk(box, true, env) == Flat(Reversed(DepthFirst(box, 0, false, env)), Complete)
  {
    WalkIsDepthFirst(box, 0, false, env);
    WalkIsDepthFirst(box, |box.block.fields| - 1, true, env);
    ReverseWalk(box, env);
    PopulatedBothWays(box, env);
  }

  // An active anonymous struct without members hides the field after it.
  lemma EmptyStructStopsTheWalk(env: Env)
    ensures var empty := Statement(None, None, false, Block([], [], []));
            var field := Statement(Some("field"), None, false, Block([], [], []));
            var box := Top(Block([], [empty, field], []), Scope(0, []));
            && DepthFirst(box, 0, false, env) == [Position(box, 1)]
            && WholeWalk(box, false, env) == Flat([], Broken)
  {
    var empty := Statement(None, None, false, Block([], [], []));
    var field := Statement(Some("field"), None, false, Block([], [], []));
    var box := Top(Block([], [empty, field], []), Scope(0, []));
    assert WholeWalk(box.Enter(0), false, env) == Flat([], Complete);
    assert DepthFirst(box, 2, false, env) == [];
    assert Spelled(box, 0, false, env) == [] && Spelled(box, 1, false, env) == [Position(box, 1)];
    assert DepthFirst(box, 1, false, env) == [Position(box, 1)];
  }

  lemma {:induction false} PopulatedBothWays(box: Box, env: Env)
    ensures Populated(box, 0, false, env) <==> Populated(box, |box.block.fields| - 1, true, env)
    decreases box.block
  {
    forall i | 0 <= i < |box.block.fields|
      ensures PopulatedAt(box, i, false, env) <==> PopulatedAt(box, i, true, env)
    {
      PopulatedBothWays(box.Enter(i), env);
    }
  }
}
