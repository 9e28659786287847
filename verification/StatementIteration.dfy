// Iterators over the statements of a block, forward and reverse
// (scope_iter_* and scope_riter_* of scope.c).

module StatementIteration {
  import opened Wrappers
  import opened Schema

  predicate Selected(stmt: Statement, identifier: Option<string>) {
    identifier.Some? ==> stmt.name == identifier
  }

  // The selected statements of a list from position `from` on, in walking
  // order. A position past either end of the list stands for the null pointer.
  function Ahead(list: seq<Statement>, kind: StatementType, scope: Scope,
                 identifier: Option<string>, from: int, reverse: bool): (targets: seq<Target>)
    ensures forall t :: t in targets ==>
              t.kind == kind && t.scope == scope && t.index < |list| && t.stmt == list[t.index]
              && (identifier.Some? ==> t.stmt.name == identifier)
              && (if reverse then t.index <= from else from <= t.index)
    decreases if reverse then from + 1 else |list| - from
  {
    if from < 0 || |list| <= from then []
    else
      var rest := Ahead(list, kind, scope, identifier, if reverse then from - 1 else from + 1, reverse);
      if Selected(list[from], identifier) then [Target(kind, from, list[from], scope)] + rest else rest
  }

  predicate InOrder(targets: seq<Target>, reverse: bool) {
    forall i, j :: 0 <= i < j < |targets| ==>
      if reverse then targets[i].index > targets[j].index else targets[i].index < targets[j].index
  }

  lemma InOrderWith(t: Target, rest: seq<Target>, reverse: bool)
    requires InOrder(rest, reverse)
    requires forall r :: r in rest ==> if reverse then t.index > r.index else t.index < r.index
    ensures InOrder([t] + rest, reverse)
  {
    var all := [t] + rest;
    forall i, j | 0 <= i < j < |all|
      ensures if reverse then all[i].index > all[j].index else all[i].index < all[j].index
    {
      assert all[j] == rest[j - 1] && rest[j - 1] in rest;
    }
  }

  // Forward by increasing, in reverse by decreasing position
  lemma {:induction false} AheadInOrder(list: seq<Statement>, kind: StatementType, scope: Scope,
                                        identifier: Option<string>, from: int, reverse: bool)
    ensures InOrder(Ahead(list, kind, scope, identifier, from, reverse), reverse)
    decreases if reverse then from + 1 else |list| - from
  {
    if 0 <= from < |list| {
      var next := if reverse then from - 1 else from + 1;
      AheadInOrder(list, kind, scope, identifier, next, reverse);
      if Selected(list[from], identifier) {
        InOrderWith(Target(kind, from, list[from], scope), Ahead(list, kind, scope, identifier, next, reverse), reverse);
      }
    }
  }

  function Start(list: seq<Statement>, reverse: bool): int {
    if reverse then |list| - 1 else 0
  }

  // Nothing that is selected is missed, and nothing comes twice.
  lemma {:induction false} AheadIsComplete(list: seq<Statement>, kind: StatementType, scope: Scope,
                                           identifier: Option<string>, from: int, reverse: bool, k: nat)
    requires k < |list| && (identifier.Some? ==> list[k].name == identifier)
    requires if reverse then k <= from < |list| else 0 <= from <= k
    ensures Target(kind, k, list[k], scope) in Ahead(list, kind, scope, identifier, from, reverse)
    ensures multiset(Ahead(list, kind, scope, identifier, from, reverse))[Target(kind, k, list[k], scope)] == 1
    decreases if reverse then from + 1 else |list| - from
  {
    var next := if reverse then from - 1 else from + 1;
    var rest := Ahead(list, kind, scope, identifier, next, reverse);
    if from == k {
      assert Target(kind, k, list[k], scope) !in rest;
    } else {
      AheadIsComplete(list, kind, scope, identifier, next, reverse, k);
      assert Ahead(list, kind, scope, identifier, from, reverse) == rest
          || Ahead(list, kind, scope, identifier, from, reverse)
             == [Target(kind, from, list[from], scope)] + rest;
    }
  }

  function Whole(block: Block, kind: StatementType, scope: Scope, identifier: Option<string>, reverse: bool): seq<Target> {
    Ahead(block.List(kind), kind, scope, identifier, Start(block.List(kind), reverse), reverse)
  }

  // The lists not started yet, by decreasing priority.
  function Queued(block: Block, kinds: set<StatementType>, scope: Scope,
                  identifier: Option<string>, reverse: bool): seq<Target> {
    (if NamedExpr in kinds then Whole(block, NamedExpr, scope, identifier, reverse) else [])
    + (if Field in kinds then Whole(block, Field, scope, identifier, reverse) else [])
    + (if Attribute in kinds then Whole(block, Attribute, scope, identifier, reverse) else [])
  }

  predicate First(kind: StatementType, kinds: set<StatementType>) {
    && (kind != NamedExpr ==> NamedExpr !in kinds)
    && (kind == Attribute ==> Field !in kinds)
  }

  lemma QueuedStep(block: Block, kinds: set<StatementType>, kind: StatementType, scope: Scope,
                   identifier: Option<string>, reverse: bool)
    requires kind in kinds && First(kind, kinds)
    ensures Queued(block, kinds, scope, identifier, reverse)
         == Whole(block, kind, scope, identifier, reverse)
            + Queued(block, kinds - {kind}, scope, identifier, reverse)
  {
  }

  // ---------- what is queued ----------

  // Named expressions before fields before attributes, and each list in its own direction
  predicate Precedes(s: Target, t: Target, reverse: bool) {
    || (s.kind == NamedExpr && t.kind != NamedExpr)
    || (s.kind == Field && t.kind == Attribute)
    || (s.kind == t.kind && if reverse then s.index > t.index else s.index < t.index)
  }

  ghost predicate Consecutive(targets: seq<Target>, reverse: bool) {
    forall i, j :: 0 <= i < j < |targets| ==> Precedes(targets[i], targets[j], reverse)
  }

  lemma ConsecutiveConcat(a: seq<Target>, b: seq<Target>, reverse: bool)
    requires Consecutive(a, reverse) && Consecutive(b, reverse)
    requires forall s, t :: s in a && t in b ==> Precedes(s, t, reverse)
    ensures Consecutive(a + b, reverse)
  {
    hide Precedes;
    forall i, j | 0 <= i < j < |a + b| ensures Precedes((a + b)[i], (a + b)[j], reverse) {
      if i < |a| <= j {
        assert (a + b)[i] in a && (a + b)[j] in b;
      }
    }
  }

  // What an iterator over a block has to look at: the selected statements of the lists asked for,
  // list by list and in walking order.
  lemma QueuedMeaning(block: Block, kinds: set<StatementType>, scope: Scope, identifier: Option<string>, reverse: bool)
    ensures var queued := Queued(block, kinds, scope, identifier, reverse);
      && Consecutive(queued, reverse)
      && forall t :: t in queued <==>
           && t.kind in kinds && t.scope == scope && IsStatementOf(block, t)
           && (identifier.Some? ==> t.stmt.name == identifier)
  {
    var expressions := if NamedExpr in kinds then Whole(block, NamedExpr, scope, identifier, reverse) else [];
    var fields := if Field in kinds then Whole(block, Field, scope, identifier, reverse) else [];
    var attributes := if Attribute in kinds then Whole(block, Attribute, scope, identifier, reverse) else [];
    WholeMeaning(block, NamedExpr, scope, identifier, reverse);
    WholeMeaning(block, Field, scope, identifier, reverse);
    WholeMeaning(block, Attribute, scope, identifier, reverse);
    hide Whole, IsStatementOf;
    ConsecutiveConcat(expressions, fields, reverse);
    ConsecutiveConcat(expressions + fields, attributes, reverse);
  }

  predicate IsStatementOf(block: Block, t: Target) {
    match t.kind
    case NamedExpr => t.index < |block.namedExprs| && t.stmt == block.namedExprs[t.index]
    case Field => t.index < |block.fields| && t.stmt == block.fields[t.index]
    case Attribute => t.index < |block.attributes| && t.stmt == block.attributes[t.index]
  }

  lemma WholeMeaning(block: Block, kind: StatementType, scope: Scope, identifier: Option<string>, reverse: bool)
    ensures var whole := Whole(block, kind, scope, identifier, reverse);
      && Consecutive(whole, reverse)
      && forall t :: t in whole <==>
           && t.kind == kind && t.scope == scope && IsStatementOf(block, t)
           && (identifier.Some? ==> t.stmt.name == identifier)
  {
    var list := block.List(kind);
    var whole := Whole(block, kind, scope, identifier, reverse);
    AheadInOrder(list, kind, scope, identifier, Start(list, reverse), reverse);
    assert forall i :: 0 <= i < |whole| ==> whole[i] in whole;
    forall t: Target | t.kind == kind && t.scope == scope && IsStatementOf(block, t)
                       && (identifier.Some? ==> t.stmt.name == identifier)
      ensures t in whole
    {
      AheadIsComplete(list, kind, scope, identifier, Start(list, reverse), reverse, t.index);
    }
  }

  // ---------- what is left behind a candidate ----------

  // What remains after the first candidate that holds.
  function AfterFirstHolding(candidates: seq<Target>, env: Env): seq<Target> {
    if candidates == [] then []
    else if Check(candidates[0].stmt.cond, candidates[0].scope, env).Holds? then candidates[1..]
    else AfterFirstHolding(candidates[1..], env)
  }

  // That is all behind the first candidate whose condition is met, and nothing when none is.
  lemma {:induction false} AfterFirstHoldingMeaning(candidates: seq<Target>, env: Env, k: nat)
    requires k < |candidates|
    requires forall i :: 0 <= i < k ==> candidates[i].stmt.cond.Some?
                                        && env(candidates[i].scope, candidates[i].stmt.cond.value) != Holds
    requires candidates[k].stmt.cond.Some? ==> env(candidates[k].scope, candidates[k].stmt.cond.value) == Holds
    ensures AfterFirstHolding(candidates, env) == candidates[k + 1..]
  {
    if k > 0 {
      AfterFirstHoldingMeaning(candidates[1..], env, k - 1);
    }
  }

  lemma {:induction false} AfterFirstHoldingConcat(a: seq<Target>, b: seq<Target>, env: Env)
    ensures FirstHolding(a, env).Found? ==> AfterFirstHolding(a + b, env) == AfterFirstHolding(a, env) + b
    ensures FirstHolding(a, env).NoItem? ==> AfterFirstHolding(a + b, env) == AfterFirstHolding(b, env)
  {
    if a == [] {
      assert a + b == b;
    } else {
      AfterFirstHoldingConcat(a[1..], b, env);
      assert (a + b)[1..] == a[1..] + b;
    }
  }

  class StatementIterator {
    const block: Block
    const scope: Scope
    const mask: set<StatementType>
    const identifier: Option<string>
    const reverse: bool
    var remaining: set<StatementType>
    // the list being walked, and the position in it of the next statement to look at
    var current: StatementType
    var next: int

    ghost predicate Valid()
      reads this
    {
      Ordered() && (mask != {} ==> mask - remaining != {})
    }

    // Lists are started in the order of their priority.
    ghost predicate Ordered()
      reads this
    {
      && remaining <= mask
      && (mask - remaining != {} ==> current == Latest(mask - remaining))
      && (Field in mask - remaining ==> NamedExpr !in remaining)
      && (Attribute in mask - remaining ==> remaining == {})
    }

    // Everything the iterator still has to look at, whatever the conditions say.
    ghost function Pending(): seq<Target>
      reads this
    {
      Ahead(block.List(current), current, scope, identifier, next, reverse)
      + Queued(block, remaining, scope, identifier, reverse)
    }

    constructor Over(block: Block, scope: Scope, mask: set<StatementType>,
                     identifier: Option<string>, reverse: bool)
      ensures Valid() && this.mask == mask && this.scope == scope
      ensures Pending() == Queued(block, mask, scope, identifier, reverse)
    {
      this.block, this.scope, this.mask := block, scope, mask;
      this.identifier, this.reverse := identifier, reverse;
      remaining, current := mask, NamedExpr;
      next := if reverse then -1 else |block.namedExprs|;
      new;
      StartList();
    }

    // Iterates from the statement after `from`, in that list only.
    constructor From(block: Block, scope: Scope, kind: StatementType, from: nat,
                     identifier: Option<string>, reverse: bool)
      requires from < |block.List(kind)|
      ensures Valid() && this.mask == {} && this.scope == scope
      ensures Pending() == Ahead(block.List(kind), kind, scope, identifier,
                                 if reverse then from - 1 else from + 1, reverse)
    {
      this.block, this.scope, this.mask := block, scope, {};
      this.identifier, this.reverse := identifier, reverse;
      remaining, current := {}, kind;
      next := from;
      new;
      next := Advance(from);
    }

    method Advance(from: nat) returns (to: int)
      requires from < |block.List(current)|
      ensures Ahead(block.List(current), current, scope, identifier, to, reverse)
           == Ahead(block.List(current), current, scope, identifier,
                    if reverse then from - 1 else from + 1, reverse)
      ensures if reverse then -1 <= to < from else from < to <= |block.List(current)|
    {
      var list := block.List(current);
      to := if reverse then from - 1 else from + 1;
      while 0 <= to < |list| && !Selected(list[to], identifier)
        invariant Ahead(list, current, scope, identifier, to, reverse)
               == Ahead(list, current, scope, identifier, if reverse then from - 1 else from + 1, reverse)
        invariant if reverse then -1 <= to < from else from < to <= |list|
        decreases if reverse then to + 1 else |list| - to
      {
        to := if reverse then to - 1 else to + 1;
      }
    }

    method StartList()
      requires Ordered()
      requires Ahead(block.List(current), current, scope, identifier, next, reverse) == []
      modifies this
      ensures Ordered() && Pending() == old(Pending())
      ensures old(remaining) == {} ==> remaining == {}
      ensures old(remaining) != {} ==> current in old(remaining) && remaining == old(remaining) - {current}
    {
      if NamedExpr in remaining {
        QueuedStep(block, remaining, NamedExpr, scope, identifier, reverse);
        BeginList(NamedExpr);
      } else if Field in remaining {
        QueuedStep(block, remaining, Field, scope, identifier, reverse);
        BeginList(Field);
      } else if Attribute in remaining {
        QueuedStep(block, remaining, Attribute, scope, identifier, reverse);
        BeginList(Attribute);
      } else {
        assert forall k | k in remaining :: k == NamedExpr || k == Field || k == Attribute;
      }
    }

    method BeginList(kind: StatementType)
      requires Ordered() && kind in remaining && First(kind, remaining)
      modifies this
      ensures current == kind && remaining == old(remaining) - {kind} && Ordered()
      ensures Ahead(block.List(kind), kind, scope, identifier, next, reverse)
           == Whole(block, kind, scope, identifier, reverse)
    {
      current, next := kind, Start(block.List(kind), reverse);
      if 0 <= next < |block.List(kind)| && !Selected(block.List(kind)[next], identifier) {
        next := Advance(next);
      }
      remaining := remaining - {kind};
      assert forall k | k in remaining :: k == NamedExpr || k == Field || k == Attribute;
    }

    // The type of the list in progress: the started list of lowest priority.
    static function Latest(started: set<StatementType>): StatementType {
      if Attribute in started then Attribute else if Field in started then Field else NamedExpr
    }

    method Next(env: Env) returns (r: Outcome<Target>, kind: Option<StatementType>)
      requires Valid()
      modifies this
      ensures Valid()
      ensures r == FirstHolding(old(Pending()), env)
      ensures r.Found? ==> Pending() == AfterFirstHolding(old(Pending()), env)
      ensures r.Found? && mask != {} ==> kind == Some(r.value.kind)
      decreases remaining
    {
      var list := block.List(current);
      var stmt := next;
      kind := None;
      ghost var queued := Queued(block, remaining, scope, identifier, reverse);
      ghost var ahead := Ahead(list, current, scope, identifier, next, reverse);
      FirstHoldingConcat(ahead, queued, env);
      AfterFirstHoldingConcat(ahead, queued, env);
      while 0 <= stmt < |list|
        invariant unchanged(this)
        invariant FirstHolding(Ahead(list, current, scope, identifier, stmt, reverse), env) == FirstHolding(ahead, env)
        invariant FirstHolding(ahead, env).Found? ==>
                    AfterFirstHolding(Ahead(list, current, scope, identifier, stmt, reverse), env)
                    == AfterFirstHolding(ahead, env)
        decreases if reverse then stmt + 1 else |list| - stmt
      {
        if Selected(list[stmt], identifier) {
          ghost var rest := Ahead(list, current, scope, identifier, if reverse then stmt - 1 else stmt + 1, reverse);
          var here := Target(current, stmt, list[stmt], scope);
          assert Ahead(list, current, scope, identifier, stmt, reverse) == [here] + rest;
          assert ([here] + rest)[1..] == rest;
          match Check(list[stmt].cond, scope, env) {
            case Errs(code) => return Failed(code), None;
            case Holds =>
              next := Advance(stmt);
              if mask != {} {
                kind := Some(Latest(mask - remaining));
              }
              return Found(here), kind;
            case Fails =>
          }
        }
        stmt := Advance(stmt);
      }
      if remaining != {} {
        next := stmt;
        assert Pending() == queued;
        StartList();
        r, kind := Next(env);
      } else {
        assert queued == [];
        r := NoItem;
      }
    }
  }
}
