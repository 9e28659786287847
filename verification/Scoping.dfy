// Name lookup at compile time (ast.c).

module Scoping {
  import opened Schema
  import opened StatementIteration

  const MAX_N_VISIBLE_STATEMENTS := 1000

  predicate IsAttributeName(identifier: string) {
    identifier != "" && identifier[0] == '@'
  }

  // The statements an identifier may mean, by decreasing visibility; `ended`
  // when the last of them is unconditional, so that no other can be meant.
  datatype Visible = Visible(targets: seq<Target>, ended: bool)
  {
    function Then(lower: Visible): Visible {
      if ended then this else Visible(targets + lower.targets, lower.ended)
    }
  }

  const NOTHING := Visible([], false)

  function Matches(list: seq<Statement>, kind: StatementType, identifier: string, scope: Scope, from: nat): Visible
    requires from <= |list|
    decreases |list| - from
  {
    if from == |list| then NOTHING
    else if !list[from].Named(identifier) then Matches(list, kind, identifier, scope, from + 1)
    else Visible([Target(kind, from, list[from], scope)], list[from].cond.None?)
         .Then(Matches(list, kind, identifier, scope, from + 1))
  }

  function ByPriority(identifier: string): seq<StatementType> {
    if IsAttributeName(identifier) then [Attribute] else [NamedExpr, Field]
  }

  function OwnMatches(block: Block, mask: set<StatementType>, identifier: string, scope: Scope,
                      kinds: seq<StatementType>): Visible
  {
    if kinds == [] then NOTHING
    else if kinds[0] !in mask then OwnMatches(block, mask, identifier, scope, kinds[1..])
    else Matches(block.List(kinds[0]), kinds[0], identifier, scope, 0)
         .Then(OwnMatches(block, mask, identifier, scope, kinds[1..]))
  }

  // What the lookup gathers from a block, without the cap on its number of results.
  function VisibleIn(block: Block, mask: set<StatementType>, identifier: string, scope: Scope): Visible
    decreases block, |block.fields| + 1
  {
    OwnMatches(block, mask, identifier, scope, ByPriority(identifier))
    .Then(VisibleInFields(block, mask, identifier, scope, 0))
  }

  function VisibleInFields(block: Block, mask: set<StatementType>, identifier: string, scope: Scope, from: nat): Visible
    requires from <= |block.fields|
    decreases block, |block.fields| - from
  {
    if from == |block.fields| then NOTHING
    else if !block.fields[from].Transparent() then VisibleInFields(block, mask, identifier, scope, from + 1)
    else VisibleIn(block.fields[from].body, mask, identifier, scope.Enter(from))
         .Then(VisibleInFields(block, mask, identifier, scope, from + 1))
  }

  // From the innermost block (position 0) outwards.
  function VisibleInScopes(blocks: seq<Block>, mask: set<StatementType>, identifier: string, from: nat): Visible
    requires from <= |blocks|
    decreases |blocks| - from
  {
    if from == |blocks| then NOTHING
    else VisibleIn(blocks[from], mask, identifier, Scope(from, []))
         .Then(VisibleInScopes(blocks, mask, identifier, from + 1))
  }

  class VisibleStatements {
    var specs: seq<Target>

    constructor ()
      ensures specs == []
    {
      specs := [];
    }
  }

  // A null list asks only whether there is anything to append.
  ghost function Gathered(list: VisibleStatements?): seq<Target>
    reads list
  {
    if list == null then [] else list.specs
  }

  function Capacity(list: VisibleStatements?): nat {
    if list == null then 0 else MAX_N_VISIBLE_STATEMENTS
  }

  datatype LookupStatus = Continue | LookupEnd | TooMany

  // What a lookup that finds `found` on top of `before` leaves behind and returns.
  function Deliver(before: seq<Target>, found: Visible, capacity: nat): (seq<Target>, LookupStatus) {
    var all := before + found.targets;
    if |all| <= capacity
    then (all, if found.ended then LookupEnd else Continue)
    else (all[..capacity], TooMany)
  }

  lemma DeliverThen(before: seq<Target>, a: Visible, b: Visible, capacity: nat)
    requires |before| <= capacity
    ensures Deliver(before, a.Then(b), capacity)
         == var (gathered, status) := Deliver(before, a, capacity);
            if status == Continue then Deliver(gathered, b, capacity) else (gathered, status)
  {
    assert before + (a.targets + b.targets) == (before + a.targets) + b.targets;
    if |before + a.targets| > capacity {
      assert ((before + a.targets) + b.targets)[..capacity] == (before + a.targets)[..capacity];
    }
  }

  lemma DeliverNothing(before: seq<Target>, capacity: nat)
    requires |before| <= capacity
    ensures Deliver(before, NOTHING, capacity) == (before, Continue)
  {
    assert before + [] == before;
  }

  lemma ThenAssociates(a: Visible, b: Visible, c: Visible)
    ensures a.Then(b).Then(c) == a.Then(b.Then(c))
  {
    assert (a.targets + b.targets) + c.targets == a.targets + (b.targets + c.targets);
  }

  lemma ThenNothing(a: Visible)
    ensures a.Then(NOTHING) == a && NOTHING.Then(a) == a
  {
    assert a.targets + [] == a.targets && [] + a.targets == a.targets;
  }

  method AppendStatement(list: VisibleStatements?, spec: Target) returns (ok: bool)
    requires |Gathered(list)| <= Capacity(list)
    modifies list
    ensures ok <==> |old(Gathered(list))| < Capacity(list)
    ensures Gathered(list) == old(Gathered(list)) + (if ok then [spec] else [])
  {
    if list == null {
      return false;
    }
    if |list.specs| == MAX_N_VISIBLE_STATEMENTS {
      return false;
    }
    list.specs := list.specs + [spec];
    return true;
  }

  method LookupInList(block: Block, kind: StatementType, identifier: string, scope: Scope,
                      list: VisibleStatements?) returns (status: LookupStatus)
    requires |Gathered(list)| <= Capacity(list)
    modifies list
    ensures (Gathered(list), status)
         == Deliver(old(Gathered(list)), Matches(block.List(kind), kind, identifier, scope, 0), Capacity(list))
  {
    var stmts := block.List(kind);
    for i := 0 to |stmts|
      invariant |Gathered(list)| <= Capacity(list)
      invariant Deliver(Gathered(list), Matches(stmts, kind, identifier, scope, i), Capacity(list))
             == Deliver(old(Gathered(list)), Matches(stmts, kind, identifier, scope, 0), Capacity(list))
    {
      if stmts[i].Named(identifier) {
        var spec := Target(kind, i, stmts[i], scope);
        DeliverThen(Gathered(list), Visible([spec], stmts[i].cond.None?),
                    Matches(stmts, kind, identifier, scope, i + 1), Capacity(list));
        ghost var before := Gathered(list);
        var ok := AppendStatement(list, spec);
        if !ok {
          assert Gathered(list) == before == (before + [spec])[..Capacity(list)];
          return TooMany;
        }
        if stmts[i].cond.None? {
          return LookupEnd;
        }
      }
    }
    DeliverNothing(Gathered(list), Capacity(list));
    return Continue;
  }

  method LookupInLists(block: Block, mask: set<StatementType>, identifier: string, scope: Scope,
                       list: VisibleStatements?) returns (status: LookupStatus)
    requires |Gathered(list)| <= Capacity(list)
    modifies list
    ensures (Gathered(list), status)
         == Deliver(old(Gathered(list)), VisibleIn(block, mask, identifier, scope), Capacity(list))
    decreases block, 1
  {
    var kinds := ByPriority(identifier);
    ghost var found := Deliver(Gathered(list), VisibleIn(block, mask, identifier, scope), Capacity(list));
    ghost var inFields := VisibleInFields(block, mask, identifier, scope, 0);
    for i := 0 to |kinds|
      invariant |Gathered(list)| <= Capacity(list)
      invariant Deliver(Gathered(list), OwnMatches(block, mask, identifier, scope, kinds[i..]).Then(inFields),
                        Capacity(list)) == found
    {
      assert kinds[i..][1..] == kinds[i + 1..];
      if kinds[i] in mask {
        ghost var here := Matches(block.List(kinds[i]), kinds[i], identifier, scope, 0);
        ghost var rest := OwnMatches(block, mask, identifier, scope, kinds[i + 1..]);
        ThenAssociates(here, rest, inFields);
        DeliverThen(Gathered(list), here, rest.Then(inFields), Capacity(list));
        status := LookupInList(block, kinds[i], identifier, scope, list);
        if status != Continue {
          return;
        }
      }
    }
    ThenNothing(inFields);
    status := LookupInFields(block, mask, identifier, scope, list);
  }

  method LookupInFields(block: Block, mask: set<StatementType>, identifier: string, scope: Scope,
                        list: VisibleStatements?) returns (status: LookupStatus)
    requires |Gathered(list)| <= Capacity(list)
    modifies list
    ensures (Gathered(list), status)
         == Deliver(old(Gathered(list)), VisibleInFields(block, mask, identifier, scope, 0), Capacity(list))
    decreases block, 0
  {
    for i := 0 to |block.fields|
      invariant |Gathered(list)| <= Capacity(list)
      invariant Deliver(Gathered(list), VisibleInFields(block, mask, identifier, scope, i), Capacity(list))
             == Deliver(old(Gathered(list)), VisibleInFields(block, mask, identifier, scope, 0), Capacity(list))
    {
      if block.fields[i].Transparent() {
        DeliverThen(Gathered(list), VisibleIn(block.fields[i].body, mask, identifier, scope.Enter(i)),
                    VisibleInFields(block, mask, identifier, scope, i + 1), Capacity(list));
        status := LookupInLists(block.fields[i].body, mask, identifier, scope.Enter(i), list);
        if status != Continue {
          return;
        }
      }
    }
    DeliverNothing(Gathered(list), Capacity(list));
    return Continue;
  }

  // The early test of the run-time lookup: "too many" for a null list means "at least one".
  method IdentifierIsVisible(block: Block, mask: set<StatementType>, identifier: string, scope: Scope)
    returns (visible: bool)
    ensures visible <==> VisibleIn(block, mask, identifier, scope).targets != []
  {
    var status := LookupInLists(block, mask, identifier, scope, null);
    visible := status == TooMany;
  }

  // Succeeds with the whole list exactly when it has at most 1000 entries.
  method LookupAllVisibleStatements(blocks: seq<Block>, mask: set<StatementType>, identifier: string)
    returns (ok: bool, specs: seq<Target>)
    ensures ok <==> |VisibleInScopes(blocks, mask, identifier, 0).targets| <= MAX_N_VISIBLE_STATEMENTS
    ensures ok ==> specs == VisibleInScopes(blocks, mask, identifier, 0).targets
  {
    var list := new VisibleStatements();
    var status := Continue;
    var level := 0;
    ghost var found := Deliver([], VisibleInScopes(blocks, mask, identifier, 0), MAX_N_VISIBLE_STATEMENTS);
    while level < |blocks| && status != LookupEnd
      invariant level <= |blocks| && status != TooMany && |list.specs| <= MAX_N_VISIBLE_STATEMENTS
      invariant if status == Continue
                then Deliver(list.specs, VisibleInScopes(blocks, mask, identifier, level), MAX_N_VISIBLE_STATEMENTS) == found
                else (list.specs, status) == found
    {
      DeliverThen(list.specs, VisibleIn(blocks[level], mask, identifier, Scope(level, [])),
                  VisibleInScopes(blocks, mask, identifier, level + 1), MAX_N_VISIBLE_STATEMENTS);
      status := LookupInLists(blocks[level], mask, identifier, Scope(level, []), list);
      if status == TooMany {
        return false, [];
      }
      level := level + 1;
    }
    ghost var all := VisibleInScopes(blocks, mask, identifier, 0).targets;
    assert [] + all == all;
    DeliverNothing(list.specs, MAX_N_VISIBLE_STATEMENTS);
    return true, list.specs;
  }
}
