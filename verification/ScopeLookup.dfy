// Statement lookup at run time, with real conditions (scope.c), and its
// agreement with what the compiler gathered.

module ScopeLookup {
  import opened Wrappers
  import opened Schema
  import opened StatementIteration
  import opened Scoping

  // ---------- the run-time lookup as a function ----------

  // `checkFirst` is the early test that skips anonymous fields in which the name is
  // not visible at all; the original always makes it.
  function Lookup(block: Block, mask: set<StatementType>, identifier: string, scope: Scope,
                  env: Env, checkFirst: bool): Outcome<Target>
    decreases block, |block.fields| + 1
  {
    var own := FirstHolding(Queued(block, mask, scope, Some(identifier), false), env);
    if !own.NoItem? || IsAttributeName(identifier) then own
    else LookupInFields(block, mask, identifier, scope, env, checkFirst, 0)
  }

  function LookupInFields(block: Block, mask: set<StatementType>, identifier: string, scope: Scope,
                          env: Env, checkFirst: bool, from: nat): Outcome<Target>
    requires from <= |block.fields|
    decreases block, |block.fields| - from
  {
    if from == |block.fields| then NoItem
    else
      var field := block.fields[from];
      var here :=
        if !field.Transparent() then NoItem
        else if checkFirst && VisibleIn(field.body, {NamedExpr, Field}, identifier, scope.Enter(from)).targets == [] then NoItem
        else match Check(field.cond, scope, env)
          case Errs(code) => Failed(code)
          case Fails => NoItem
          case Holds => Lookup(field.body, mask, identifier, scope.Enter(from), env, checkFirst);
      if here.NoItem? then LookupInFields(block, mask, identifier, scope, env, checkFirst, from + 1) else here
  }

  function LookupInScopes(blocks: seq<Block>, mask: set<StatementType>, identifier: string,
                          env: Env, from: nat): Outcome<Target>
    requires from <= |blocks|
    decreases |blocks| - from
  {
    if from == |blocks| then NoItem
    else
      var here := Lookup(blocks[from], mask, identifier, Scope(from, []), env, true);
      if here.NoItem? then LookupInScopes(blocks, mask, identifier, env, from + 1) else here
  }

  // ---------- the methods of scope.c ----------

  method GetFirstStatement(block: Block, mask: set<StatementType>, identifier: string, scope: Scope, env: Env)
    returns (r: Outcome<Target>, kind: Option<StatementType>)
    ensures r == FirstHolding(Queued(block, mask, scope, Some(identifier), false), env)
    ensures r.Found? && mask != {} ==> kind == Some(r.value.kind)
  {
    var it := new StatementIterator.Over(block, scope, mask, Some(identifier), false);
    r, kind := it.Next(env);
  }

  method LookupStatement(block: Block, mask: set<StatementType>, identifier: string, scope: Scope, env: Env)
    returns (r: Outcome<Target>)
    ensures r == Lookup(block, mask, identifier, scope, env, true)
    decreases block, 1
  {
    var kind;
    r, kind := GetFirstStatement(block, mask, identifier, scope, env);
    if !r.NoItem? {
      return;
    }
    if !IsAttributeName(identifier) {
      for i := 0 to |block.fields|
        invariant LookupInFields(block, mask, identifier, scope, env, true, i)
               == LookupInFields(block, mask, identifier, scope, env, true, 0)
      {
        if block.fields[i].Transparent() {
          r := LookupInAnonymousField(block, i, mask, identifier, scope, env);
          if !r.NoItem? {
            return;
          }
        }
      }
    }
    return NoItem;
  }

  method LookupInAnonymousField(block: Block, field: nat, mask: set<StatementType>, identifier: string,
                                scope: Scope, env: Env)
    returns (r: Outcome<Target>)
    requires field < |block.fields| && block.fields[field].Transparent()
    ensures LookupInFields(block, mask, identifier, scope, env, true, field)
         == if r.NoItem? then LookupInFields(block, mask, identifier, scope, env, true, field + 1) else r
    decreases block, 0
  {
    var stmt := block.fields[field];
    var visible := IdentifierIsVisible(stmt.body, {NamedExpr, Field}, identifier, scope.Enter(field));
    if !visible {
      return NoItem;
    }
    match Check(stmt.cond, scope, env)
    case Errs(code) => return Failed(code);
    case Fails => return NoItem;
    case Holds => r := LookupStatement(stmt.body, mask, identifier, scope.Enter(field), env);
  }

  // An identifier without anchor is looked for from the inner to the outer scope.
  method LookupFromInnerScope(blocks: seq<Block>, mask: set<StatementType>, identifier: string, env: Env)
    returns (r: Outcome<Target>)
    ensures r == LookupInScopes(blocks, mask, identifier, env, 0)
  {
    for level := 0 to |blocks|
      invariant LookupInScopes(blocks, mask, identifier, env, level)
             == LookupInScopes(blocks, mask, identifier, env, 0)
    {
      r := LookupStatement(blocks[level], mask, identifier, Scope(level, []), env);
      if !r.NoItem? {
        return;
      }
    }
    return NoItem;
  }

  // ---------- agreement ----------

  // Attribute names are looked for among attributes, other names among
  // named expressions and fields.
  predicate Suits(mask: set<StatementType>, identifier: string) {
    if IsAttributeName(identifier) then mask <= {Attribute} else Attribute !in mask
  }

  // A conditional field lies on the way down to a nested block.
  predicate Conditional(block: Block, path: seq<nat>) {
    path != [] && path[0] < |block.fields|
    && (block.fields[path[0]].cond.Some? || Conditional(block.fields[path[0]].body, path[1..]))
  }

  // The run-time lookup can reach the block at `path` whatever the conditions say.
  predicate Exposed(block: Block, identifier: string, path: seq<nat>) {
    if IsAttributeName(identifier) then path == [] else !Conditional(block, path)
  }

  predicate Within(scope: Scope, inner: Scope) {
    inner.level == scope.level && scope.path <= inner.path
  }

  function Below(scope: Scope, inner: Scope): seq<nat>
    requires Within(scope, inner)
  {
    inner.path[|scope.path|..]
  }

  // Every gathered statement bears the name, and all but the last are conditional.
  ghost predicate WellGathered(found: Visible, scope: Scope) {
    && (forall t :: t in found.targets ==> Within(scope, t.scope))
    && (forall i :: 0 <= i < |found.targets| - (if found.ended then 1 else 0) ==> found.targets[i].stmt.cond.Some?)
    && (found.ended ==> found.targets != [] && found.targets[|found.targets| - 1].stmt.cond.None?)
  }

  lemma {:induction false} MatchesGathered(list: seq<Statement>, kind: StatementType, identifier: string, scope: Scope, from: nat)
    requires from <= |list|
    ensures WellGathered(Matches(list, kind, identifier, scope, from), scope)
    ensures forall t :: t in Matches(list, kind, identifier, scope, from).targets ==> t.scope == scope
    decreases |list| - from
  {
    if from < |list| {
      MatchesGathered(list, kind, identifier, scope, from + 1);
    }
  }

  lemma {:induction false} OwnGathered(block: Block, mask: set<StatementType>, identifier: string, scope: Scope, kinds: seq<StatementType>)
    ensures WellGathered(OwnMatches(block, mask, identifier, scope, kinds), scope)
    ensures forall t :: t in OwnMatches(block, mask, identifier, scope, kinds).targets ==> t.scope == scope
  {
    if kinds != [] {
      OwnGathered(block, mask, identifier, scope, kinds[1..]);
      MatchesGathered(block.List(kinds[0]), kinds[0], identifier, scope, 0);
    }
  }

  lemma {:induction false} VisibleGathered(block: Block, mask: set<StatementType>, identifier: string, scope: Scope)
    ensures WellGathered(VisibleIn(block, mask, identifier, scope), scope)
    decreases block, |block.fields| + 1
  {
    OwnGathered(block, mask, identifier, scope, ByPriority(identifier));
    FieldsGathered(block, mask, identifier, scope, 0);
  }

  lemma {:induction false} FieldsGathered(block: Block, mask: set<StatementType>, identifier: string, scope: Scope, from: nat)
    requires from <= |block.fields|
    ensures WellGathered(VisibleInFields(block, mask, identifier, scope, from), scope)
    decreases block, |block.fields| - from
  {
    if from < |block.fields| {
      FieldsGathered(block, mask, identifier, scope, from + 1);
      if block.fields[from].Transparent() {
        VisibleGathered(block.fields[from].body, mask, identifier, scope.Enter(from));
      }
    }
  }

  // A gathered list that ended always has a candidate that holds, or an error.
  lemma EndedIsDecisive(found: Visible, scope: Scope, env: Env)
    requires WellGathered(found, scope) && found.ended
    ensures !FirstHolding(found.targets, env).NoItem?
  {
    FirstHoldingMeaning(found.targets, env);
    assert found.targets[|found.targets| - 1] in found.targets;
  }

  // Going on after an unconditional statement would not change the answer.
  lemma ThenFirstHolding(a: Visible, b: Visible, scope: Scope, env: Env)
    requires WellGathered(a, scope)
    ensures FirstHolding(a.Then(b).targets, env)
         == if FirstHolding(a.targets, env).NoItem? then FirstHolding(b.targets, env) else FirstHolding(a.targets, env)
  {
    if a.ended {
      EndedIsDecisive(a, scope, env);
    } else {
      FirstHoldingConcat(a.targets, b.targets, env);
    }
  }

  lemma {:induction false} MatchesAgree(list: seq<Statement>, kind: StatementType, identifier: string, scope: Scope, env: Env, from: nat)
    requires from <= |list|
    ensures FirstHolding(Ahead(list, kind, scope, Some(identifier), from, false), env)
         == FirstHolding(Matches(list, kind, identifier, scope, from).targets, env)
    decreases |list| - from
  {
    if from < |list| {
      MatchesAgree(list, kind, identifier, scope, env, from + 1);
      if list[from].Named(identifier) {
        var here := Target(kind, from, list[from], scope);
        var rest := Ahead(list, kind, scope, Some(identifier), from + 1, false);
        FirstHoldingConcat([here], rest, env);
        assert Ahead(list, kind, scope, Some(identifier), from, false) == [here] + rest;
        ThenFirstHolding(Visible([here], list[from].cond.None?),
                         Matches(list, kind, identifier, scope, from + 1), scope, env);
      }
    }
  }

  lemma OwnAgree(block: Block, mask: set<StatementType>, identifier: string, scope: Scope, env: Env)
    requires Suits(mask, identifier)
    ensures FirstHolding(Queued(block, mask, scope, Some(identifier), false), env)
         == FirstHolding(OwnMatches(block, mask, identifier, scope, ByPriority(identifier)).targets, env)
  {
    forall kind: StatementType
      ensures FirstHolding(Whole(block, kind, scope, Some(identifier), false), env)
           == FirstHolding(Matches(block.List(kind), kind, identifier, scope, 0).targets, env)
    {
      MatchesAgree(block.List(kind), kind, identifier, scope, env, 0);
    }
    var named := if NamedExpr in mask then Whole(block, NamedExpr, scope, Some(identifier), false) else [];
    var fields := if Field in mask then Whole(block, Field, scope, Some(identifier), false) else [];
    var attributes := if Attribute in mask then Whole(block, Attribute, scope, Some(identifier), false) else [];
    FirstHoldingConcat(named, fields, env);
    FirstHoldingConcat(named + fields, attributes, env);
    if IsAttributeName(identifier) {
      OwnStep(block, mask, identifier, scope, env, [Attribute]);
    } else {
      OwnStep(block, mask, identifier, scope, env, [NamedExpr, Field]);
      OwnStep(block, mask, identifier, scope, env, [Field]);
    }
  }

  lemma OwnStep(block: Block, mask: set<StatementType>, identifier: string, scope: Scope, env: Env, kinds: seq<StatementType>)
    requires kinds != []
    ensures FirstHolding(OwnMatches(block, mask, identifier, scope, kinds).targets, env)
         == var here := if kinds[0] in mask
                        then FirstHolding(Matches(block.List(kinds[0]), kinds[0], identifier, scope, 0).targets, env)
                        else NoItem;
            if here.NoItem? then FirstHolding(OwnMatches(block, mask, identifier, scope, kinds[1..]).targets, env) else here
  {
    MatchesGathered(block.List(kinds[0]), kinds[0], identifier, scope, 0);
    ThenFirstHolding(Matches(block.List(kinds[0]), kinds[0], identifier, scope, 0),
                     OwnMatches(block, mask, identifier, scope, kinds[1..]), scope, env);
  }

  // What is not visible under all names of a block is not visible under fewer.
  lemma {:induction false} VisibleUnderFewer(block: Block, mask: set<StatementType>, identifier: string, scope: Scope)
    requires Suits(mask, identifier) && !IsAttributeName(identifier)
    ensures VisibleIn(block, {NamedExpr, Field}, identifier, scope).targets == []
        ==> VisibleIn(block, mask, identifier, scope).targets == []
    decreases block, |block.fields| + 1
  {
    var both := {NamedExpr, Field};
    assert OwnMatches(block, mask, identifier, scope, []) == NOTHING == OwnMatches(block, both, identifier, scope, []);
    assert OwnMatches(block, both, identifier, scope, [Field]).targets == [] ==>
             OwnMatches(block, mask, identifier, scope, [Field]).targets == [];
    assert [NamedExpr, Field][1..] == [Field];
    FieldsVisibleUnderFewer(block, mask, identifier, scope, 0);
    OwnGathered(block, both, identifier, scope, [NamedExpr, Field]);
  }

  lemma {:induction false} FieldsVisibleUnderFewer(block: Block, mask: set<StatementType>, identifier: string, scope: Scope, from: nat)
    requires Suits(mask, identifier) && !IsAttributeName(identifier)
    requires from <= |block.fields|
    ensures VisibleInFields(block, {NamedExpr, Field}, identifier, scope, from).targets == []
        ==> VisibleInFields(block, mask, identifier, scope, from).targets == []
    decreases block, |block.fields| - from
  {
    if from < |block.fields| {
      FieldsVisibleUnderFewer(block, mask, identifier, scope, from + 1);
      if block.fields[from].Transparent() {
        VisibleUnderFewer(block.fields[from].body, mask, identifier, scope.Enter(from));
        VisibleGathered(block.fields[from].body, {NamedExpr, Field}, identifier, scope.Enter(from));
      }
    }
  }

  ghost predicate AllExposed(block: Block, identifier: string, scope: Scope, targets: seq<Target>) {
    forall t :: t in targets ==> Within(scope, t.scope) && Exposed(block, identifier, Below(scope, t.scope))
  }

  // One block: the run-time lookup returns the first gathered statement whose condition holds.
  lemma {:induction false} LookupAgrees(block: Block, mask: set<StatementType>, identifier: string, scope: Scope, env: Env)
    requires Suits(mask, identifier)
    requires Decided(env) || mask == {NamedExpr, Field}
    requires AllExposed(block, identifier, scope, VisibleIn(block, mask, identifier, scope).targets)
    ensures Lookup(block, mask, identifier, scope, env, true)
         == FirstHolding(VisibleIn(block, mask, identifier, scope).targets, env)
    decreases block, |block.fields| + 1
  {
    var own := OwnMatches(block, mask, identifier, scope, ByPriority(identifier));
    var inFields := VisibleInFields(block, mask, identifier, scope, 0);
    OwnGathered(block, mask, identifier, scope, ByPriority(identifier));
    OwnAgree(block, mask, identifier, scope, env);
    ThenFirstHolding(own, inFields, scope, env);
    if own.ended {
      EndedIsDecisive(own, scope, env);
    } else {
      forall t | t in inFields.targets
        ensures Within(scope, t.scope) && Exposed(block, identifier, Below(scope, t.scope))
      {
        assert t in own.targets + inFields.targets;
      }
      if IsAttributeName(identifier) {
        NestedTargets(block, mask, identifier, scope, 0);
        EmptyOrInhabited(inFields.targets);
      } else {
        FieldsAgree(block, mask, identifier, scope, env, 0);
      }
    }
  }

  lemma EmptyOrInhabited(targets: seq<Target>)
    ensures targets == [] || exists t :: t in targets
  {
    if targets != [] {
      assert targets[0] in targets;
    }
  }

  lemma {:induction false} NestedTargets(block: Block, mask: set<StatementType>, identifier: string, scope: Scope, from: nat)
    requires from <= |block.fields|
    ensures forall t :: t in VisibleInFields(block, mask, identifier, scope, from).targets ==>
              Within(scope, t.scope) && Below(scope, t.scope) != []
    decreases |block.fields| - from
  {
    if from < |block.fields| {
      NestedTargets(block, mask, identifier, scope, from + 1);
      if block.fields[from].Transparent() {
        VisibleGathered(block.fields[from].body, mask, identifier, scope.Enter(from));
      }
    }
  }

  lemma {:induction false} FieldsAgree(block: Block, mask: set<StatementType>, identifier: string, scope: Scope, env: Env, from: nat)
    requires from <= |block.fields|
    requires Suits(mask, identifier) && !IsAttributeName(identifier)
    requires Decided(env) || mask == {NamedExpr, Field}
    requires AllExposed(block, identifier, scope, VisibleInFields(block, mask, identifier, scope, from).targets)
    ensures LookupInFields(block, mask, identifier, scope, env, true, from)
         == FirstHolding(VisibleInFields(block, mask, identifier, scope, from).targets, env)
    decreases block, |block.fields| - from
  {
    hide VisibleIn, Lookup;
    if from < |block.fields| {
      var field := block.fields[from];
      var later := VisibleInFields(block, mask, identifier, scope, from + 1);
      if !field.Transparent() {
        FieldsAgree(block, mask, identifier, scope, env, from + 1);
      } else {
        var inner := scope.Enter(from);
        var here := VisibleIn(field.body, mask, identifier, inner);
        VisibleGathered(field.body, mask, identifier, inner);
        ThenFirstHolding(here, later, inner, env);
        VisibleUnderFewer(field.body, mask, identifier, inner);
        forall t | t in here.targets
          ensures Exposed(field.body, identifier, Below(inner, t.scope)) && field.cond.None?
        {
          assert t in here.Then(later).targets;
          assert Below(scope, t.scope)[0] == from;
          assert Below(scope, t.scope)[1..] == Below(inner, t.scope);
        }
        LookupAgrees(field.body, mask, identifier, inner, env);
        if here.targets != [] {
          assert here.targets[0] in here.targets;
        }
        if here.ended {
          EndedIsDecisive(here, inner, env);
        } else {
          forall t | t in later.targets ensures t in here.Then(later).targets {}
          FieldsAgree(block, mask, identifier, scope, env, from + 1);
        }
      }
    }
  }

  // The early visibility test is an optimization: unless evaluating a condition fails,
  // the lookup without it gives the same answer, conditional anonymous fields included.
  lemma {:induction false} EarlyTestIsTransparent(block: Block, mask: set<StatementType>, identifier: string, scope: Scope, env: Env)
    requires Suits(mask, identifier)
    ensures Lookup(block, mask, identifier, scope, env, true) == Lookup(block, mask, identifier, scope, env, false)
         || Lookup(block, mask, identifier, scope, env, false).Failed?
    ensures Decided(env) ==> !Lookup(block, mask, identifier, scope, env, false).Failed?
    ensures VisibleIn(block, mask, identifier, scope).targets == [] ==>
              !Lookup(block, mask, identifier, scope, env, false).Found?
    decreases block, |block.fields| + 1
  {
    OwnAgree(block, mask, identifier, scope, env);
    OwnGathered(block, mask, identifier, scope, ByPriority(identifier));
    FirstHoldingFails(Queued(block, mask, scope, Some(identifier), false), env);
    if !IsAttributeName(identifier) {
      FieldsEarlyTest(block, mask, identifier, scope, env, 0);
    }
  }

  lemma {:induction false} FirstHoldingFails(candidates: seq<Target>, env: Env)
    ensures FirstHolding(candidates, env).Failed? ==> !Decided(env)
  {
    if candidates != [] {
      FirstHoldingFails(candidates[1..], env);
    }
  }

  lemma {:induction false} FieldsEarlyTest(block: Block, mask: set<StatementType>, identifier: string, scope: Scope, env: Env, from: nat)
    requires from <= |block.fields|
    requires Suits(mask, identifier) && !IsAttributeName(identifier)
    ensures LookupInFields(block, mask, identifier, scope, env, true, from)
         == LookupInFields(block, mask, identifier, scope, env, false, from)
         || LookupInFields(block, mask, identifier, scope, env, false, from).Failed?
    ensures Decided(env) ==> !LookupInFields(block, mask, identifier, scope, env, false, from).Failed?
    ensures VisibleInFields(block, mask, identifier, scope, from).targets == [] ==>
              !LookupInFields(block, mask, identifier, scope, env, false, from).Found?
    decreases block, |block.fields| - from
  {
    hide VisibleIn, Lookup;
    if from < |block.fields| {
      FieldsEarlyTest(block, mask, identifier, scope, env, from + 1);
      if block.fields[from].Transparent() {
        var inner := scope.Enter(from);
        EarlyTestIsTransparent(block.fields[from].body, mask, identifier, inner, env);
        VisibleUnderFewer(block.fields[from].body, mask, identifier, inner);
        VisibleGathered(block.fields[from].body, mask, identifier, inner);
      }
    }
  }

  // ---------- exactly when compile time and run time agree ----------

  // Every field on the way down is active.
  ghost predicate Reached(block: Block, scope: Scope, path: seq<nat>, env: Env) {
    path == []
    || (path[0] < |block.fields| && Check(block.fields[path[0]].cond, scope, env) == Holds
        && Reached(block.fields[path[0]].body, scope.Enter(path[0]), path[1..], env))
  }

  lemma {:induction false} FoundIsReached(block: Block, mask: set<StatementType>, identifier: string, scope: Scope, env: Env)
    requires Lookup(block, mask, identifier, scope, env, true).Found?
    ensures var t := Lookup(block, mask, identifier, scope, env, true).value;
            Within(scope, t.scope) && Reached(block, scope, Below(scope, t.scope), env)
            && (IsAttributeName(identifier) ==> t.scope == scope)
    decreases block, |block.fields| + 1
  {
    var queued := Queued(block, mask, scope, Some(identifier), false);
    FirstHoldingMeaning(queued, env);
    if FirstHolding(queued, env).NoItem? {
      FieldFoundIsReached(block, mask, identifier, scope, env, 0);
    } else {
      var k :| 0 <= k < |queued| && FirstHolding(queued, env) == Found(queued[k]);
      assert queued[k] in queued;
    }
  }

  lemma {:induction false} FieldFoundIsReached(block: Block, mask: set<StatementType>, identifier: string, scope: Scope, env: Env, from: nat)
    requires from <= |block.fields|
    requires LookupInFields(block, mask, identifier, scope, env, true, from).Found?
    ensures var t := LookupInFields(block, mask, identifier, scope, env, true, from).value;
            Within(scope, t.scope) && Reached(block, scope, Below(scope, t.scope), env)
    decreases block, |block.fields| - from
  {
    if from < |block.fields| {
      var field := block.fields[from];
      var later := LookupInFields(block, mask, identifier, scope, env, true, from + 1);
      var inner := scope.Enter(from);
      if field.Transparent() && Check(field.cond, scope, env).Holds?
         && Lookup(field.body, mask, identifier, inner, env, true).Found?
      {
        FoundIsReached(field.body, mask, identifier, inner, env);
        var t := Lookup(field.body, mask, identifier, inner, env, true).value;
        assert Below(scope, t.scope)[0] == from;
        assert Below(scope, t.scope)[1..] == Below(inner, t.scope);
        if later.Found? {
          FieldFoundIsReached(block, mask, identifier, scope, env, from + 1);
        }
      } else {
        FieldFoundIsReached(block, mask, identifier, scope, env, from + 1);
      }
    }
  }

  // Conditions hold in one box only.
  function OnlyIn(box: Scope): Env {
    (scope: Scope, cond: Cond) => if scope == box then Holds else Fails
  }

  lemma {:induction false} ConditionalIsNotReached(block: Block, scope: Scope, path: seq<nat>)
    requires Conditional(block, path)
    ensures !Reached(block, scope, path, OnlyIn(Scope(scope.level, scope.path + path)))
    decreases |path|
  {
    var inner := scope.Enter(path[0]);
    assert |scope.path + path| > |scope.path|;
    if block.fields[path[0]].cond.None? {
      assert inner.path + path[1..] == scope.path + path;
      ConditionalIsNotReached(block.fields[path[0]].body, inner, path[1..]);
    }
  }

  // Gathered statement `k` is the answer when conditions hold in its box only,
  // no earlier one being in that box.
  lemma {:induction false} FirstInItsBox(found: Visible, scope: Scope, k: nat)
    requires k < |found.targets|
    requires forall i :: 0 <= i < k ==> found.targets[i].stmt.cond.Some? && found.targets[i].scope != found.targets[k].scope
    ensures FirstHolding(found.targets, OnlyIn(found.targets[k].scope)) == Found(found.targets[k])
    decreases k
  {
    if k > 0 {
      FirstInItsBox(Visible(found.targets[1..], found.ended), scope, k - 1);
    }
  }

  // ---------- nested scopes ----------

  // Every gathered statement is in a nested block that can always be reached.
  ghost predicate NoHiddenMatch(blocks: seq<Block>, mask: set<StatementType>, identifier: string) {
    forall t :: t in VisibleInScopes(blocks, mask, identifier, 0).targets ==>
      t.scope.level < |blocks| && Exposed(blocks[t.scope.level], identifier, t.scope.path)
  }

  ghost predicate ScopesGathered(blocks: seq<Block>, found: Visible, from: nat) {
    && (forall t :: t in found.targets ==> from <= t.scope.level < |blocks|)
    && (forall i :: 0 <= i < |found.targets| - (if found.ended then 1 else 0) ==> found.targets[i].stmt.cond.Some?)
  }

  lemma {:induction false} VisibleScopesGathered(blocks: seq<Block>, mask: set<StatementType>, identifier: string, from: nat)
    requires from <= |blocks|
    ensures ScopesGathered(blocks, VisibleInScopes(blocks, mask, identifier, from), from)
    decreases |blocks| - from
  {
    if from < |blocks| {
      VisibleScopesGathered(blocks, mask, identifier, from + 1);
      VisibleGathered(blocks[from], mask, identifier, Scope(from, []));
    }
  }

  lemma {:induction false} ScopesAgree(blocks: seq<Block>, mask: set<StatementType>, identifier: string, env: Env, from: nat)
    requires from <= |blocks|
    requires Suits(mask, identifier)
    requires Decided(env) || mask == {NamedExpr, Field}
    requires forall t :: t in VisibleInScopes(blocks, mask, identifier, from).targets ==>
               t.scope.level < |blocks| && Exposed(blocks[t.scope.level], identifier, t.scope.path)
    ensures LookupInScopes(blocks, mask, identifier, env, from)
         == FirstHolding(VisibleInScopes(blocks, mask, identifier, from).targets, env)
    decreases |blocks| - from
  {
    if from < |blocks| {
      var box := Scope(from, []);
      var here := VisibleIn(blocks[from], mask, identifier, box);
      var outer := VisibleInScopes(blocks, mask, identifier, from + 1);
      VisibleGathered(blocks[from], mask, identifier, box);
      ThenFirstHolding(here, outer, box, env);
      forall t | t in here.targets
        ensures Within(box, t.scope) && Exposed(blocks[from], identifier, Below(box, t.scope))
      {
        assert t in here.Then(outer).targets;
        assert Below(box, t.scope) == t.scope.path;
      }
      LookupAgrees(blocks[from], mask, identifier, box, env);
      if here.ended {
        EndedIsDecisive(here, box, env);
      } else {
        forall t | t in outer.targets ensures t in here.Then(outer).targets {}
        ScopesAgree(blocks, mask, identifier, env, from + 1);
      }
    }
  }

  lemma {:induction false} ScopeFoundIsReached(blocks: seq<Block>, mask: set<StatementType>, identifier: string, env: Env, from: nat)
    requires from <= |blocks| && LookupInScopes(blocks, mask, identifier, env, from).Found?
    ensures var t := LookupInScopes(blocks, mask, identifier, env, from).value;
            t.scope.level < |blocks|
            && Reached(blocks[t.scope.level], Scope(t.scope.level, []), t.scope.path, env)
            && (IsAttributeName(identifier) ==> t.scope.path == [])
    decreases |blocks| - from
  {
    if from < |blocks| {
      var here := Lookup(blocks[from], mask, identifier, Scope(from, []), env, true);
      if here.NoItem? {
        ScopeFoundIsReached(blocks, mask, identifier, env, from + 1);
      } else if here.Found? {
        FoundIsReached(blocks[from], mask, identifier, Scope(from, []), env);
        assert Below(Scope(from, []), here.value.scope) == here.value.scope.path;
      }
    }
  }

  // The compiler and the run-time lookup agree, whatever the conditions evaluate to,
  // exactly when no gathered statement is hidden under a conditional anonymous field
  // (for an attribute: is nested at all).
  lemma AgreementTheorem(blocks: seq<Block>, mask: set<StatementType>, identifier: string)
    requires Suits(mask, identifier)
    ensures NoHiddenMatch(blocks, mask, identifier)
       <==> forall env: Env | Decided(env) ::
              LookupInScopes(blocks, mask, identifier, env, 0)
              == FirstHolding(VisibleInScopes(blocks, mask, identifier, 0).targets, env)
  {
    var found := VisibleInScopes(blocks, mask, identifier, 0);
    VisibleScopesGathered(blocks, mask, identifier, 0);
    if NoHiddenMatch(blocks, mask, identifier) {
      forall env: Env | Decided(env)
        ensures LookupInScopes(blocks, mask, identifier, env, 0) == FirstHolding(found.targets, env)
      {
        ScopesAgree(blocks, mask, identifier, env, 0);
      }
    } else {
      var t :| t in found.targets && !Exposed(blocks[t.scope.level], identifier, t.scope.path);
      var last :| 0 <= last < |found.targets| && found.targets[last] == t;
      var k := FirstHidden(blocks, identifier, found.targets, last);
      HiddenIsMissed(blocks, mask, identifier, k);
    }
  }

  // A name in an anonymous field whose condition does not hold: gathered, unconditional, not found.
  lemma ConditionalFieldHides(cond: Cond, env: Env)
    requires env(Scope(0, []), cond) == Fails
    ensures var inner := Statement(Some("x"), None, false, Block([], [], []));
            var outer := Statement(None, Some(cond), false, Block([], [inner], []));
            var blocks := [Block([], [outer], [])];
            && VisibleInScopes(blocks, {Field}, "x", 0) == Visible([Target(Field, 0, inner, Scope(0, [0]))], true)
            && LookupInScopes(blocks, {Field}, "x", env, 0) == NoItem
  {
    var inner := Statement(Some("x"), None, false, Block([], [], []));
    var outer := Statement(None, Some(cond), false, Block([], [inner], []));
    var block := Block([], [outer], []);
    var here := Target(Field, 0, inner, Scope(0, [0]));
    assert Scope(0, []).Enter(0) == Scope(0, [0]);
    assert OwnMatches(outer.body, {Field}, "x", Scope(0, [0]), []) == NOTHING;
    assert OwnMatches(block, {Field}, "x", Scope(0, []), []) == NOTHING;
    assert Matches([inner], Field, "x", Scope(0, [0]), 0) == Visible([here], true);
    assert ByPriority("x") == [NamedExpr, Field] && [NamedExpr, Field][1..] == [Field];
    assert OwnMatches(outer.body, {Field}, "x", Scope(0, [0]), [Field]) == Visible([here], true);
    assert VisibleIn(outer.body, {Field}, "x", Scope(0, [0])) == Visible([here], true);
    assert Matches([outer], Field, "x", Scope(0, []), 0) == NOTHING;
    assert OwnMatches(block, {Field}, "x", Scope(0, []), [Field]) == NOTHING;
    assert VisibleInFields(block, {Field}, "x", Scope(0, []), 0) == Visible([here], true);
    assert VisibleIn(block, {Field}, "x", Scope(0, [])) == Visible([here], true);
    OwnAgree(block, {Field}, "x", Scope(0, []), env);
    assert FirstHolding([], env) == NoItem;
    assert LookupInFields(block, {Field}, "x", Scope(0, []), env, true, 1) == NoItem;
    assert Lookup(block, {Field}, "x", Scope(0, []), env, true) == NoItem;
  }

  // Even when evaluating a condition fails, provided both named expressions and fields are asked for.
  lemma AgreementUnderErrors(blocks: seq<Block>, identifier: string, env: Env)
    requires !IsAttributeName(identifier) && NoHiddenMatch(blocks, {NamedExpr, Field}, identifier)
    ensures LookupInScopes(blocks, {NamedExpr, Field}, identifier, env, 0)
         == FirstHolding(VisibleInScopes(blocks, {NamedExpr, Field}, identifier, 0).targets, env)
  {
    ScopesAgree(blocks, {NamedExpr, Field}, identifier, env, 0);
  }

  predicate HiddenAt(blocks: seq<Block>, identifier: string, targets: seq<Target>, k: nat)
    requires k < |targets|
  {
    targets[k].scope.level < |blocks|
    && !Exposed(blocks[targets[k].scope.level], identifier, targets[k].scope.path)
  }

  lemma {:induction false} FirstHidden(blocks: seq<Block>, identifier: string, targets: seq<Target>, last: nat) returns (k: nat)
    requires last < |targets| && HiddenAt(blocks, identifier, targets, last)
    ensures k <= last && HiddenAt(blocks, identifier, targets, k)
    ensures forall i :: 0 <= i < k ==> !HiddenAt(blocks, identifier, targets, i)
  {
    k := 0;
    while !HiddenAt(blocks, identifier, targets, k)
      invariant k <= last
      invariant forall i :: 0 <= i < k ==> !HiddenAt(blocks, identifier, targets, i)
      decreases last - k
    {
      k := k + 1;
    }
  }

  lemma HiddenIsMissed(blocks: seq<Block>, mask: set<StatementType>, identifier: string, k: nat)
    requires Suits(mask, identifier)
    requires k < |VisibleInScopes(blocks, mask, identifier, 0).targets|
    requires var targets := VisibleInScopes(blocks, mask, identifier, 0).targets;
             HiddenAt(blocks, identifier, targets, k)
             && forall i :: 0 <= i < k ==> !HiddenAt(blocks, identifier, targets, i)
    ensures var found := VisibleInScopes(blocks, mask, identifier, 0);
            var env := OnlyIn(found.targets[k].scope);
            Decided(env) && LookupInScopes(blocks, mask, identifier, env, 0) != FirstHolding(found.targets, env)
  {
    var found := VisibleInScopes(blocks, mask, identifier, 0);
    var missed := found.targets[k];
    var env := OnlyIn(missed.scope);
    VisibleScopesGathered(blocks, mask, identifier, 0);
    forall i | 0 <= i < k
      ensures found.targets[i].scope != missed.scope
    {
      assert found.targets[i] in found.targets;
      assert HiddenAt(blocks, identifier, found.targets, k) && !HiddenAt(blocks, identifier, found.targets, i);
    }
    FirstInItsBox(found, missed.scope, k);
    if LookupInScopes(blocks, mask, identifier, env, 0) == Found(missed) {
      ScopeFoundIsReached(blocks, mask, identifier, env, 0);
      if !IsAttributeName(identifier) {
        var root := Scope(missed.scope.level, []);
        assert root.path + missed.scope.path == missed.scope.path;
        ConditionalIsNotReached(blocks[missed.scope.level], root, missed.scope.path);
      }
    }
  }
}
