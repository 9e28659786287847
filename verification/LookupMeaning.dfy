// What name lookup gathers and finds, said by places in the schema alone.

module LookupMeaning {
  import opened Wrappers
  import opened Schema
  import opened StatementIteration
  import opened Scoping
  import opened ScopeLookup

  // ---------- the order of places ----------

  // Lexicographic
  predicate Before(a: seq<int>, b: seq<int>) {
    b != [] && (a == [] || a[0] < b[0] || (a[0] == b[0] && Before(a[1..], b[1..])))
  }

  lemma {:induction false} BeforeUnder(prefix: seq<int>, a: seq<int>, b: seq<int>)
    ensures Before(prefix + a, prefix + b) <==> Before(a, b)
  {
    if prefix == [] {
      assert prefix + a == a && prefix + b == b;
    } else {
      BeforeUnder(prefix[1..], a, b);
      assert (prefix + a)[1..] == prefix[1..] + a && (prefix + b)[1..] == prefix[1..] + b;
    }
  }

  // Named expressions before fields; an attribute name has attributes only.
  function Rank(kind: StatementType): int {
    match kind
    case NamedExpr => 0
    case Field => 1
    case Attribute => 0
  }

  const NESTED := 2

  function Descent(path: seq<nat>): seq<int> {
    if path == [] then [] else [NESTED, path[0]] + Descent(path[1..])
  }

  // The own statements of a block by kind and position, then those nested in its fields, in the
  // order of the fields
  function Place(scope: Scope, t: Target): seq<int> {
    (if Within(scope, t.scope) then Descent(Below(scope, t.scope)) else []) + [Rank(t.kind), t.index]
  }

  // ---------- candidates ----------

  predicate IsOwn(block: Block, identifier: string, t: Target) {
    var list := match t.kind
      case NamedExpr => block.namedExprs
      case Field => block.fields
      case Attribute => block.attributes;
    t.index < |list| && t.stmt == list[t.index] && t.stmt.name == Some(identifier)
  }

  predicate StandsAt(block: Block, path: seq<nat>, identifier: string, t: Target) {
    if path == [] then IsOwn(block, identifier, t)
    else
      && path[0] < |block.fields|
      && block.fields[path[0]].name == None && !block.fields[path[0]].hidden
      && StandsAt(block.fields[path[0]].body, path[1..], identifier, t)
  }

  predicate KindFits(mask: set<StatementType>, identifier: string, kind: StatementType) {
    kind in mask && (kind == Attribute <==> identifier != "" && identifier[0] == '@')
  }

  // A statement of that name, in the block or below fields without a name that are not hidden
  predicate Bears(block: Block, mask: set<StatementType>, identifier: string, scope: Scope, t: Target) {
    Within(scope, t.scope) && KindFits(mask, identifier, t.kind) && StandsAt(block, Below(scope, t.scope), identifier, t)
  }

  // ---------- what is gathered ----------

  // In order, all that qualify up to the last one gathered; when gathering ended there, it is
  // unconditional, and otherwise nothing is left out.
  ghost predicate Gathers(v: Visible, qualifies: Target -> bool, scope: Scope) {
    && (v.ended ==> v.targets != [])
    && (forall t <- v.targets :: qualifies(t))
    && (forall i, j :: 0 <= i < j < |v.targets| ==> Before(Place(scope, v.targets[i]), Place(scope, v.targets[j])))
    && (forall c :: qualifies(c) ==>
          c in v.targets || (v.ended && Before(Place(scope, v.targets[|v.targets| - 1]), Place(scope, c))))
  }

  lemma ThenGathers(a: Visible, b: Visible, qa: Target -> bool, qb: Target -> bool, q: Target -> bool, scope: Scope)
    requires Gathers(a, qa, scope) && Gathers(b, qb, scope)
    requires forall t :: q(t) <==> qa(t) || qb(t)
    requires forall s, t :: qa(s) && qb(t) ==> Before(Place(scope, s), Place(scope, t))
    ensures Gathers(a.Then(b), q, scope)
  {
    hide Place, Before;
    var both := a.Then(b);
    if !a.ended {
      forall t | t in both.targets ensures q(t) {
        assert t in a.targets || t in b.targets;
      }
      forall i, j | 0 <= i < j < |both.targets|
        ensures Before(Place(scope, both.targets[i]), Place(scope, both.targets[j]))
      {
        if i < |a.targets| <= j {
          assert both.targets[i] in a.targets && both.targets[j] in b.targets;
        }
      }
      forall c | q(c)
        ensures c in both.targets
             || (both.ended && Before(Place(scope, both.targets[|both.targets| - 1]), Place(scope, c)))
      {
        if qa(c) {
          assert c in a.targets;
        }
      }
    } else {
      assert a.targets[|a.targets| - 1] in a.targets;
    }
  }

  lemma NothingGathers(q: Target -> bool, scope: Scope)
    requires forall t :: !q(t)
    ensures Gathers(NOTHING, q, scope)
  {
  }

  lemma OwnPlaces(scope: Scope, s: Target, t: Target)
    requires s.scope == scope == t.scope
    ensures Place(scope, s) == [Rank(s.kind), s.index]
    ensures Before(Place(scope, s), Place(scope, t)) <==>
      Rank(s.kind) < Rank(t.kind) || (Rank(s.kind) == Rank(t.kind) && s.index < t.index)
  {
    assert Below(scope, s.scope) == [];
    assert Place(scope, s) == [Rank(s.kind), s.index] && Place(scope, t) == [Rank(t.kind), t.index];
    BeforePair(Rank(s.kind), s.index, Rank(t.kind), t.index);
  }

  lemma BeforePair(a: int, b: int, c: int, d: int)
    ensures Before([a, b], [c, d]) <==> a < c || (a == c && b < d)
  {
    assert [a, b][1..] == [b] && [c, d][1..] == [d];
    assert [b][1..] == [] && [d][1..] == [];
    assert Before([b], [d]) <==> b < d;
  }

  predicate OwnFrom(list: seq<Statement>, kind: StatementType, identifier: string, scope: Scope, from: nat, t: Target) {
    t.kind == kind && t.scope == scope && from <= t.index < |list| && t.stmt == list[t.index] && t.stmt.name == Some(identifier)
  }

  lemma {:induction false} MatchesGather(list: seq<Statement>, kind: StatementType, identifier: string, scope: Scope, from: nat)
    requires from <= |list|
    ensures Gathers(Matches(list, kind, identifier, scope, from),
                    (t: Target) => OwnFrom(list, kind, identifier, scope, from, t), scope)
    decreases |list| - from
  {
    var q := (t: Target) => OwnFrom(list, kind, identifier, scope, from, t);
    if from == |list| {
      NothingGathers(q, scope);
    } else {
      var later := (t: Target) => OwnFrom(list, kind, identifier, scope, from + 1, t);
      MatchesGather(list, kind, identifier, scope, from + 1);
      if list[from].name == Some(identifier) {
        var here := Target(kind, from, list[from], scope);
        var isHere := (t: Target) => t == here;
        var v := Visible([here], list[from].cond.None?);
        assert Gathers(v, isHere, scope);
        forall s, t | isHere(s) && later(t) ensures Before(Place(scope, s), Place(scope, t)) {
          OwnPlaces(scope, s, t);
        }
        ThenGathers(v, Matches(list, kind, identifier, scope, from + 1), isHere, later, q, scope);
      } else {
        assert forall t :: q(t) <==> later(t);
      }
    }
  }

  predicate IsOwnOf(block: Block, mask: set<StatementType>, identifier: string, scope: Scope, kinds: seq<StatementType>, t: Target) {
    t.scope == scope && t.kind in kinds && t.kind in mask && IsOwn(block, identifier, t)
  }

  // From field `from` on: below it, or below a later one
  predicate IsNested(block: Block, mask: set<StatementType>, identifier: string, scope: Scope, from: nat, t: Target) {
    Bears(block, mask, identifier, scope, t) && Below(scope, t.scope) != [] && Below(scope, t.scope)[0] >= from
  }

  lemma KindGathers(block: Block, kind: StatementType, identifier: string, scope: Scope)
    ensures Gathers(Matches(block.List(kind), kind, identifier, scope, 0),
                    (t: Target) => t.scope == scope && t.kind == kind && IsOwn(block, identifier, t), scope)
  {
    MatchesGather(block.List(kind), kind, identifier, scope, 0);
    var q := (t: Target) => OwnFrom(block.List(kind), kind, identifier, scope, 0, t);
    assert forall t :: q(t) <==> t.scope == scope && t.kind == kind && IsOwn(block, identifier, t);
  }

  lemma {:induction false} OwnGather(block: Block, mask: set<StatementType>, identifier: string, scope: Scope, kinds: seq<StatementType>)
    requires forall i, j :: 0 <= i < j < |kinds| ==> Rank(kinds[i]) < Rank(kinds[j])
    ensures Gathers(OwnMatches(block, mask, identifier, scope, kinds),
                    (t: Target) => IsOwnOf(block, mask, identifier, scope, kinds, t), scope)
  {
    var q := (t: Target) => IsOwnOf(block, mask, identifier, scope, kinds, t);
    if kinds == [] {
      NothingGathers(q, scope);
    } else {
      var rest := (t: Target) => IsOwnOf(block, mask, identifier, scope, kinds[1..], t);
      OwnGather(block, mask, identifier, scope, kinds[1..]);
      if kinds[0] in mask {
        var here := (t: Target) => t.scope == scope && t.kind == kinds[0] && IsOwn(block, identifier, t);
        KindGathers(block, kinds[0], identifier, scope);
        forall s, t | here(s) && rest(t) ensures Before(Place(scope, s), Place(scope, t)) {
          OwnPlaces(scope, s, t);
        }
        ThenGathers(Matches(block.List(kinds[0]), kinds[0], identifier, scope, 0),
                    OwnMatches(block, mask, identifier, scope, kinds[1..]), here, rest, q, scope);
      } else {
        assert forall t :: q(t) <==> rest(t);
      }
    }
  }

  lemma NestedPlace(scope: Scope, field: nat, t: Target)
    requires Within(scope.Enter(field), t.scope)
    ensures Within(scope, t.scope) && Below(scope, t.scope) == [field] + Below(scope.Enter(field), t.scope)
    ensures Place(scope, t) == [NESTED, field] + Place(scope.Enter(field), t)
  {
    var path := Below(scope, t.scope);
    assert path[0] == field && path[1..] == Below(scope.Enter(field), t.scope);
    var own := [Rank(t.kind), t.index];
    assert ([NESTED, field] + Descent(path[1..])) + own == [NESTED, field] + (Descent(path[1..]) + own);
  }

  // What qualifies below one field, seen from the block
  lemma BearsBelow(block: Block, mask: set<StatementType>, identifier: string, scope: Scope, field: nat, t: Target)
    requires field < |block.fields| && block.fields[field].name == None && !block.fields[field].hidden
    ensures Bears(block.fields[field].body, mask, identifier, scope.Enter(field), t) <==>
      Bears(block, mask, identifier, scope, t) && Below(scope, t.scope) != [] && Below(scope, t.scope)[0] == field
  {
    assert Within(scope, t.scope) && Below(scope, t.scope) != [] && Below(scope, t.scope)[0] == field ==>
             scope.path + [field] <= t.scope.path;
    if Within(scope.Enter(field), t.scope) {
      NestedPlace(scope, field, t);
      assert Below(scope, t.scope)[1..] == Below(scope.Enter(field), t.scope);
    }
  }

  lemma BodyGathers(v: Visible, block: Block, mask: set<StatementType>, identifier: string, scope: Scope, field: nat)
    requires field < |block.fields| && block.fields[field].name == None && !block.fields[field].hidden
    requires Gathers(v, (t: Target) => Bears(block.fields[field].body, mask, identifier, scope.Enter(field), t), scope.Enter(field))
    ensures Gathers(v, (t: Target) => Bears(block.fields[field].body, mask, identifier, scope.Enter(field), t), scope)
  {
    var inner := scope.Enter(field);
    var body := block.fields[field].body;
    forall s, t | Bears(body, mask, identifier, inner, s) && Bears(body, mask, identifier, inner, t)
      ensures Before(Place(scope, s), Place(scope, t)) <==> Before(Place(inner, s), Place(inner, t))
    {
      NestedPlace(scope, field, s);
      NestedPlace(scope, field, t);
      BeforeUnder([NESTED, field], Place(inner, s), Place(inner, t));
    }
    forall i, j | 0 <= i < j < |v.targets|
      ensures Before(Place(scope, v.targets[i]), Place(scope, v.targets[j]))
    {
      assert v.targets[i] in v.targets && v.targets[j] in v.targets;
    }
    if v.ended {
      assert v.targets[|v.targets| - 1] in v.targets;
    }
  }

  lemma NestedOrder(scope: Scope, s: Target, t: Target)
    requires Within(scope, t.scope) && Below(scope, t.scope) != []
    requires Within(scope, s.scope)
    ensures Below(scope, s.scope) == [] ==> Before(Place(scope, s), Place(scope, t))
    ensures Below(scope, s.scope) != [] && Below(scope, s.scope)[0] < Below(scope, t.scope)[0] ==>
              Before(Place(scope, s), Place(scope, t))
  {
    var p := Below(scope, t.scope);
    assert Place(scope, t)[0] == NESTED && Place(scope, t)[1..][0] == p[0];
    if Below(scope, s.scope) == [] {
      assert Place(scope, s)[0] == Rank(s.kind) < NESTED;
    } else {
      assert Place(scope, s)[0] == NESTED && Place(scope, s)[1..][0] == Below(scope, s.scope)[0];
    }
  }

  lemma {:induction false} FieldsGather(block: Block, mask: set<StatementType>, identifier: string, scope: Scope, from: nat)
    requires from <= |block.fields|
    ensures Gathers(VisibleInFields(block, mask, identifier, scope, from),
                    (t: Target) => IsNested(block, mask, identifier, scope, from, t), scope)
    decreases block, |block.fields| - from
  {
    var q := (t: Target) => IsNested(block, mask, identifier, scope, from, t);
    if from == |block.fields| {
      NothingGathers(q, scope);
    } else {
      FieldsGather(block, mask, identifier, scope, from + 1);
      var later := (t: Target) => IsNested(block, mask, identifier, scope, from + 1, t);
      var field := block.fields[from];
      if field.name == None && !field.hidden {
        var inner := scope.Enter(from);
        var here := (t: Target) => Bears(field.body, mask, identifier, inner, t);
        GatheredExactly(field.body, mask, identifier, inner);
        BodyGathers(VisibleIn(field.body, mask, identifier, inner), block, mask, identifier, scope, from);
        forall t ensures q(t) <==> here(t) || later(t) {
          BearsBelow(block, mask, identifier, scope, from, t);
        }
        forall s, t | here(s) && later(t) ensures Before(Place(scope, s), Place(scope, t)) {
          BearsBelow(block, mask, identifier, scope, from, s);
          NestedOrder(scope, s, t);
        }
        ThenGathers(VisibleIn(field.body, mask, identifier, inner), VisibleInFields(block, mask, identifier, scope, from + 1),
                    here, later, q, scope);
      } else {
        assert forall t :: q(t) <==> later(t);
      }
    }
  }

  // What the compiler gathers in a block: in order, every statement of that name that is there or
  // below fields without a name that are not hidden, up to the first unconditional one.
  lemma {:induction false} GatheredExactly(block: Block, mask: set<StatementType>, identifier: string, scope: Scope)
    ensures Gathers(VisibleIn(block, mask, identifier, scope),
                    (t: Target) => Bears(block, mask, identifier, scope, t), scope)
    decreases block, |block.fields| + 1
  {
    var kinds := if identifier != "" && identifier[0] == '@' then [Attribute] else [NamedExpr, Field];
    assert ByPriority(identifier) == kinds;
    OwnGather(block, mask, identifier, scope, kinds);
    FieldsGather(block, mask, identifier, scope, 0);
    var q := (t: Target) => Bears(block, mask, identifier, scope, t);
    var own := (t: Target) => IsOwnOf(block, mask, identifier, scope, kinds, t);
    var nested := (t: Target) => IsNested(block, mask, identifier, scope, 0, t);
    forall t ensures q(t) <==> own(t) || nested(t) {
      KindsFit(mask, identifier, t.kind);
      if Within(scope, t.scope) && Below(scope, t.scope) == [] {
        assert t.scope.path == scope.path;
      }
      if t.scope == scope {
        assert Below(scope, t.scope) == [];
      }
    }
    forall s, t | own(s) && nested(t) ensures Before(Place(scope, s), Place(scope, t)) {
      assert Below(scope, s.scope) == [];
      NestedOrder(scope, s, t);
    }
    ThenGathers(OwnMatches(block, mask, identifier, scope, kinds), VisibleInFields(block, mask, identifier, scope, 0),
                own, nested, q, scope);
  }

  lemma KindsFit(mask: set<StatementType>, identifier: string, kind: StatementType)
    ensures KindFits(mask, identifier, kind) <==>
      kind in mask && kind in (if identifier != "" && identifier[0] == '@' then [Attribute] else [NamedExpr, Field])
  {
  }

  // And nothing before the last one gathered is unconditional.
  lemma GatheredConditions(block: Block, mask: set<StatementType>, identifier: string, scope: Scope)
    ensures var v := VisibleIn(block, mask, identifier, scope);
      && (forall i :: 0 <= i < |v.targets| - 1 ==> v.targets[i].stmt.cond.Some?)
      && (v.ended <==> v.targets != [] && v.targets[|v.targets| - 1].stmt.cond.None?)
  {
    VisibleGathered(block, mask, identifier, scope);
    var v := VisibleIn(block, mask, identifier, scope);
    if v.targets != [] && !v.ended {
      assert v.targets[|v.targets| - 1].stmt.cond.Some?;
    }
  }

  // ---------- what is found ----------

  predicate Met(cond: Option<Cond>, scope: Scope, env: Env) {
    cond == None || env(scope, cond.value) == Holds
  }

  // Every field on the way down is active.
  predicate Open(block: Block, scope: Scope, path: seq<nat>, env: Env) {
    path == []
    || (path[0] < |block.fields| && Met(block.fields[path[0]].cond, scope, env)
        && Open(block.fields[path[0]].body, Scope(scope.level, scope.path + [path[0]]), path[1..], env))
  }

  // A statement that may be the answer: of that name, its condition met, below active fields
  // only; for an attribute name, in the block itself.
  predicate Answers(block: Block, mask: set<StatementType>, identifier: string, scope: Scope, env: Env, t: Target) {
    && Bears(block, mask, identifier, scope, t)
    && Met(t.stmt.cond, t.scope, env)
    && Open(block, scope, Below(scope, t.scope), env)
    && (identifier != "" && identifier[0] == '@' ==> t.scope == scope)
  }

  // The first in order of all that answer; "no item" only when there is none.
  ghost predicate Picks(r: Outcome<Target>, answers: Target -> bool, scope: Scope) {
    match r
    case Found(t) => answers(t) && forall c :: answers(c) ==> c == t || Before(Place(scope, t), Place(scope, c))
    case NoItem => forall c :: !answers(c)
    case Failed(_) => true
  }

  lemma ThenPicks(a: Outcome<Target>, b: Outcome<Target>, qa: Target -> bool, qb: Target -> bool, q: Target -> bool, scope: Scope)
    requires Picks(a, qa, scope) && Picks(b, qb, scope)
    requires forall t :: q(t) <==> qa(t) || qb(t)
    requires forall s, t :: qa(s) && qb(t) ==> Before(Place(scope, s), Place(scope, t))
    ensures Picks(if a.NoItem? then b else a, q, scope)
  {
  }

  lemma SamePicks(r: Outcome<Target>, q: Target -> bool, p: Target -> bool, scope: Scope)
    requires Picks(r, q, scope) && forall t :: p(t) <==> q(t)
    ensures Picks(r, p, scope)
  {
  }

  lemma FirstGathered(v: Visible, q: Target -> bool, scope: Scope, env: Env)
    requires Gathers(v, q, scope) && (v.ended ==> v.targets[|v.targets| - 1].stmt.cond.None?)
    ensures Picks(FirstHolding(v.targets, env), (t: Target) => q(t) && Met(t.stmt.cond, t.scope, env), scope)
  {
    hide Place, Before, FirstHolding;
    var r := FirstHolding(v.targets, env);
    FirstHoldingMeaning(v.targets, env);
    if v.ended {
      assert v.targets[|v.targets| - 1] in v.targets;
    }
    if r.Found? {
      var k :| 0 <= k < |v.targets| && r == Found(v.targets[k])
            && Check(v.targets[k].stmt.cond, v.targets[k].scope, env) == Holds
            && forall j :: 0 <= j < k ==> Check(v.targets[j].stmt.cond, v.targets[j].scope, env) == Fails;
      forall c | q(c) && Met(c.stmt.cond, c.scope, env)
        ensures c == v.targets[k] || Before(Place(scope, v.targets[k]), Place(scope, c))
      {
        if c in v.targets {
          var i :| 0 <= i < |v.targets| && v.targets[i] == c;
          assert i >= k;
        } else if k < |v.targets| - 1 {
          BeforeIsTransitive(Place(scope, v.targets[k]), Place(scope, v.targets[|v.targets| - 1]), Place(scope, c));
        }
      }
    }
  }

  lemma {:induction false} BeforeIsTransitive(a: seq<int>, b: seq<int>, c: seq<int>)
    requires Before(a, b) && Before(b, c)
    ensures Before(a, c)
  {
    if a != [] && a[0] == b[0] == c[0] {
      BeforeIsTransitive(a[1..], b[1..], c[1..]);
    }
  }

  predicate AnswersNested(block: Block, mask: set<StatementType>, identifier: string, scope: Scope, env: Env, from: nat, t: Target) {
    Answers(block, mask, identifier, scope, env, t) && Below(scope, t.scope) != [] && Below(scope, t.scope)[0] >= from
  }

  lemma OpenBelow(block: Block, scope: Scope, field: nat, t: Target, env: Env)
    requires field < |block.fields| && Within(scope.Enter(field), t.scope)
    ensures Within(scope, t.scope)
    ensures Open(block, scope, Below(scope, t.scope), env) <==>
      Met(block.fields[field].cond, scope, env)
      && Open(block.fields[field].body, scope.Enter(field), Below(scope.Enter(field), t.scope), env)
  {
    NestedPlace(scope, field, t);
    assert Below(scope, t.scope)[1..] == Below(scope.Enter(field), t.scope);
  }

  lemma {:induction false} FieldsPick(block: Block, mask: set<StatementType>, identifier: string, scope: Scope, env: Env, from: nat)
    requires from <= |block.fields| && Suits(mask, identifier) && !IsAttributeName(identifier)
    ensures Picks(ScopeLookup.LookupInFields(block, mask, identifier, scope, env, true, from),
                  (t: Target) => AnswersNested(block, mask, identifier, scope, env, from, t), scope)
    decreases block, |block.fields| - from
  {
    var q := (t: Target) => AnswersNested(block, mask, identifier, scope, env, from, t);
    if from < |block.fields| {
      FieldsPick(block, mask, identifier, scope, env, from + 1);
      var later := (t: Target) => AnswersNested(block, mask, identifier, scope, env, from + 1, t);
      var here := (t: Target) => AnswersAt(block, mask, identifier, scope, env, from, t);
      var r := FieldOutcome(block, mask, identifier, scope, env, from);
      FieldPicks(block, mask, identifier, scope, env, from);
      forall s, t | AnswersAt(block, mask, identifier, scope, env, from, s)
                    && AnswersNested(block, mask, identifier, scope, env, from + 1, t)
        ensures Before(Place(scope, s), Place(scope, t))
      {
        NestedOrder(scope, s, t);
      }
      NestedSplit(block, mask, identifier, scope, env, from);
      hide Picks, Answers, AnswersNested, AnswersAt, Place, Before;
      ThenPicks(r, ScopeLookup.LookupInFields(block, mask, identifier, scope, env, true, from + 1), here, later, q, scope);
    }
  }

  predicate AnswersAt(block: Block, mask: set<StatementType>, identifier: string, scope: Scope, env: Env, field: nat, t: Target) {
    Answers(block, mask, identifier, scope, env, t) && Below(scope, t.scope) != [] && Below(scope, t.scope)[0] == field
  }

  lemma NestedSplit(block: Block, mask: set<StatementType>, identifier: string, scope: Scope, env: Env, from: nat)
    ensures forall t :: AnswersNested(block, mask, identifier, scope, env, from, t) <==>
              AnswersAt(block, mask, identifier, scope, env, from, t)
              || AnswersNested(block, mask, identifier, scope, env, from + 1, t)
  {
  }

  // What one field contributes
  function FieldOutcome(block: Block, mask: set<StatementType>, identifier: string, scope: Scope, env: Env, field: nat): Outcome<Target>
    requires field < |block.fields|
  {
    if !block.fields[field].Transparent() then NoItem
    else if VisibleIn(block.fields[field].body, {NamedExpr, Field}, identifier, scope.Enter(field)).targets == [] then NoItem
    else match Check(block.fields[field].cond, scope, env)
      case Errs(code) => Failed(code)
      case Fails => NoItem
      case Holds => Lookup(block.fields[field].body, mask, identifier, scope.Enter(field), env, true)
  }

  lemma AnswersBelow(block: Block, mask: set<StatementType>, identifier: string, scope: Scope, env: Env, field: nat, t: Target)
    requires field < |block.fields| && block.fields[field].name == None && !block.fields[field].hidden
    requires !IsAttributeName(identifier)
    ensures AnswersAt(block, mask, identifier, scope, env, field, t) <==>
      Met(block.fields[field].cond, scope, env) && Answers(block.fields[field].body, mask, identifier, scope.Enter(field), env, t)
  {
    BearsBelow(block, mask, identifier, scope, field, t);
    if Within(scope.Enter(field), t.scope) {
      OpenBelow(block, scope, field, t, env);
    }
  }

  // What is the first below a field is the first of those below it seen from the block.
  lemma PicksBelow(r: Outcome<Target>, block: Block, mask: set<StatementType>, identifier: string, scope: Scope, env: Env, field: nat)
    requires field < |block.fields| && block.fields[field].name == None && !block.fields[field].hidden
    requires !IsAttributeName(identifier) && Met(block.fields[field].cond, scope, env)
    requires Picks(r, (t: Target) => Answers(block.fields[field].body, mask, identifier, scope.Enter(field), env, t), scope.Enter(field))
    ensures Picks(r, (t: Target) => AnswersAt(block, mask, identifier, scope, env, field, t), scope)
  {
    var inner := scope.Enter(field);
    var below := (t: Target) => Answers(block.fields[field].body, mask, identifier, inner, env, t);
    forall t
      ensures AnswersAt(block, mask, identifier, scope, env, field, t) <==> below(t)
    {
      AnswersBelow(block, mask, identifier, scope, env, field, t);
    }
    if r.Found? {
      assert below(r.value);
      forall c | AnswersAt(block, mask, identifier, scope, env, field, c)
        ensures c == r.value || Before(Place(scope, r.value), Place(scope, c))
      {
        NestedPlace(scope, field, r.value);
        NestedPlace(scope, field, c);
        BeforeUnder([NESTED, field], Place(inner, r.value), Place(inner, c));
      }
    }
  }

  lemma {:induction false} FieldPicks(block: Block, mask: set<StatementType>, identifier: string, scope: Scope, env: Env, field: nat)
    requires field < |block.fields| && Suits(mask, identifier) && !IsAttributeName(identifier)
    ensures Picks(FieldOutcome(block, mask, identifier, scope, env, field),
                  (t: Target) => AnswersAt(block, mask, identifier, scope, env, field, t), scope)
    decreases block, 0
  {
    var stmt := block.fields[field];
    var inner := scope.Enter(field);
    var r := FieldOutcome(block, mask, identifier, scope, env, field);
    if stmt.name == None && !stmt.hidden {
      GatheredExactly(stmt.body, mask, identifier, inner);
      VisibleUnderFewer(stmt.body, mask, identifier, inner);
      FoundIsFirst(stmt.body, mask, identifier, inner, env);
      var visible := VisibleIn(stmt.body, {NamedExpr, Field}, identifier, inner).targets != [];
      if visible && Check(stmt.cond, scope, env) == Holds {
        PicksBelow(r, block, mask, identifier, scope, env, field);
      } else {
        NoneBelow(block, mask, identifier, scope, env, field);
      }
    } else {
      assert forall t :: !AnswersAt(block, mask, identifier, scope, env, field, t);
    }
  }

  lemma NoneBelow(block: Block, mask: set<StatementType>, identifier: string, scope: Scope, env: Env, field: nat)
    requires field < |block.fields| && block.fields[field].name == None && !block.fields[field].hidden
    requires !IsAttributeName(identifier)
    ensures (!Met(block.fields[field].cond, scope, env)
             || VisibleIn(block.fields[field].body, mask, identifier, scope.Enter(field)).targets == []) ==>
              forall t :: !AnswersAt(block, mask, identifier, scope, env, field, t)
  {
    var inner := scope.Enter(field);
    var body := block.fields[field].body;
    GatheredExactly(body, mask, identifier, inner);
    var q := (t: Target) => Bears(body, mask, identifier, inner, t);
    forall t
      ensures AnswersAt(block, mask, identifier, scope, env, field, t) ==> Met(block.fields[field].cond, scope, env) && q(t)
    {
      AnswersBelow(block, mask, identifier, scope, env, field, t);
    }
  }

  // What a lookup finds at run time is the first, in order, of all statements that answer; it
  // finds nothing only when none does.
  lemma {:induction false} FoundIsFirst(block: Block, mask: set<StatementType>, identifier: string, scope: Scope, env: Env)
    requires Suits(mask, identifier)
    ensures Picks(Lookup(block, mask, identifier, scope, env, true),
                  (t: Target) => Answers(block, mask, identifier, scope, env, t), scope)
    decreases block, |block.fields| + 1
  {
    var kinds := if identifier != "" && identifier[0] == '@' then [Attribute] else [NamedExpr, Field];
    assert ByPriority(identifier) == kinds;
    var q := (t: Target) => Answers(block, mask, identifier, scope, env, t);
    var isOwn := (t: Target) => IsOwnOf(block, mask, identifier, scope, kinds, t);
    var own := (t: Target) => isOwn(t) && Met(t.stmt.cond, t.scope, env);
    OwnGather(block, mask, identifier, scope, kinds);
    OwnGathered(block, mask, identifier, scope, kinds);
    FirstGathered(OwnMatches(block, mask, identifier, scope, kinds), isOwn, scope, env);
    OwnAgree(block, mask, identifier, scope, env);
    OwnAnswers(block, mask, identifier, scope, env);
    SamePicks(FirstHolding(OwnMatches(block, mask, identifier, scope, kinds).targets, env),
              (t: Target) => isOwn(t) && Met(t.stmt.cond, t.scope, env), own, scope);
    if IsAttributeName(identifier) {
      SamePicks(FirstHolding(OwnMatches(block, mask, identifier, scope, kinds).targets, env), own, q, scope);
    } else {
      FieldsPick(block, mask, identifier, scope, env, 0);
      var nested := (t: Target) => AnswersNested(block, mask, identifier, scope, env, 0, t);
      forall s, t | own(s) && nested(t) ensures Before(Place(scope, s), Place(scope, t)) {
        assert Below(scope, s.scope) == [];
        NestedOrder(scope, s, t);
      }
      ThenPicks(FirstHolding(OwnMatches(block, mask, identifier, scope, kinds).targets, env),
                ScopeLookup.LookupInFields(block, mask, identifier, scope, env, true, 0), own, nested, q, scope);
    }
  }

  lemma OwnAnswers(block: Block, mask: set<StatementType>, identifier: string, scope: Scope, env: Env)
    ensures var kinds := if identifier != "" && identifier[0] == '@' then [Attribute] else [NamedExpr, Field];
      forall t :: (Answers(block, mask, identifier, scope, env, t) && t.scope == scope) <==>
                  IsOwnOf(block, mask, identifier, scope, kinds, t) && Met(t.stmt.cond, t.scope, env)
    ensures forall t :: Answers(block, mask, identifier, scope, env, t) ==>
                        t.scope == scope || AnswersNested(block, mask, identifier, scope, env, 0, t)
    ensures forall t :: AnswersNested(block, mask, identifier, scope, env, 0, t) ==> t.scope != scope
  {
    var kinds := if identifier != "" && identifier[0] == '@' then [Attribute] else [NamedExpr, Field];
    forall t: Target
      ensures (Answers(block, mask, identifier, scope, env, t) && t.scope == scope) <==>
              IsOwnOf(block, mask, identifier, scope, kinds, t) && Met(t.stmt.cond, t.scope, env)
    {
      KindsFit(mask, identifier, t.kind);
      if t.scope == scope {
        assert Below(scope, t.scope) == [];
      }
    }
    forall t | Answers(block, mask, identifier, scope, env, t)
      ensures t.scope == scope || AnswersNested(block, mask, identifier, scope, env, 0, t)
    {
      if Below(scope, t.scope) == [] {
        assert t.scope.path == scope.path;
      }
    }
    forall t | AnswersNested(block, mask, identifier, scope, env, 0, t) ensures t.scope != scope {
    }
  }

  predicate AnswersIn(blocks: seq<Block>, mask: set<StatementType>, identifier: string, env: Env, level: nat, t: Target) {
    level < |blocks| && Answers(blocks[level], mask, identifier, Scope(level, []), env, t)
  }

  lemma AnswersAreInside(blocks: seq<Block>, mask: set<StatementType>, identifier: string, env: Env, level: nat)
    ensures forall c :: AnswersIn(blocks, mask, identifier, env, level, c) ==> c.scope.level == level
  {
  }

  lemma OneScope(blocks: seq<Block>, mask: set<StatementType>, identifier: string, env: Env, level: nat)
    requires level < |blocks| && Suits(mask, identifier)
    ensures var r := Lookup(blocks[level], mask, identifier, Scope(level, []), env, true);
      && (r.Found? ==>
            && AnswersIn(blocks, mask, identifier, env, level, r.value)
            && forall c :: AnswersIn(blocks, mask, identifier, env, level, c) ==>
                 c == r.value || Before(Place(Scope(level, []), r.value), Place(Scope(level, []), c)))
      && (r.NoItem? ==> forall c :: !AnswersIn(blocks, mask, identifier, env, level, c))
  {
    hide Answers, Lookup, Place, Before;
    var here := Lookup(blocks[level], mask, identifier, Scope(level, []), env, true);
    var q := (t: Target) => Answers(blocks[level], mask, identifier, Scope(level, []), env, t);
    FoundIsFirst(blocks[level], mask, identifier, Scope(level, []), env);
    assert Picks(here, q, Scope(level, []));
    assert forall c :: AnswersIn(blocks, mask, identifier, env, level, c) <==> q(c);
  }

  // From inner to outer scope: nothing answers further in than where the answer is found, where
  // it is the first; and nothing answers anywhere when there is no item.
  lemma {:induction false} ScopesPick(blocks: seq<Block>, mask: set<StatementType>, identifier: string, env: Env, from: nat)
    requires from <= |blocks| && Suits(mask, identifier)
    ensures var r := LookupInScopes(blocks, mask, identifier, env, from);
      match r
      case Found(t) =>
        var level := t.scope.level;
        && from <= level && AnswersIn(blocks, mask, identifier, env, level, t)
        && (forall c :: AnswersIn(blocks, mask, identifier, env, level, c) ==>
              c == t || Before(Place(Scope(level, []), t), Place(Scope(level, []), c)))
        && (forall l: nat, c :: from <= l < level ==> !AnswersIn(blocks, mask, identifier, env, l, c))
      case NoItem => forall l: nat, c :: from <= l ==> !AnswersIn(blocks, mask, identifier, env, l, c)
      case Failed(_) => true
    decreases |blocks| - from
  {
    if from < |blocks| {
      AnswersAreInside(blocks, mask, identifier, env, from);
      OneScope(blocks, mask, identifier, env, from);
      hide AnswersIn, Lookup, Place, Before;
      if Lookup(blocks[from], mask, identifier, Scope(from, []), env, true).NoItem? {
        ScopesPick(blocks, mask, identifier, env, from + 1);
      }
    }
  }
}
