// The compiled form of a schema block, as far as name lookup and field
// traversal look at it.

module Schema {
  import opened Wrappers

  // A call either delivers a value, reports "no item", or fails with an error code.
  datatype Outcome<+T> = Found(value: T) | NoItem | Failed(code: nat)

  datatype StatementType = NamedExpr | Field | Attribute

  // A condition node; its truth depends on the box in which it is evaluated.
  type Cond = nat

  // `name` and `cond` are the nullable pointers of the original; `body` is the
  // block of the field's type (empty for anything that has no members).
  datatype Statement = Statement(name: Option<string>, cond: Option<Cond>, hidden: bool, body: Block)
  {
    predicate Named(identifier: string) {
      name == Some(identifier)
    }

    // The fields whose members are seen from the enclosing block.
    predicate Transparent() {
      name.None? && !hidden
    }
  }

  datatype Block = Block(namedExprs: seq<Statement>, fields: seq<Statement>, attributes: seq<Statement>)
  {
    function List(kind: StatementType): seq<Statement> {
      match kind
      case NamedExpr => namedExprs
      case Field => fields
      case Attribute => attributes
    }
  }

  // A box, named by the nesting level of the block it belongs to and the
  // anonymous fields entered from there.
  datatype Scope = Scope(level: nat, path: seq<nat>)
  {
    function Enter(field: nat): Scope {
      Scope(level, path + [field])
    }
  }

  datatype Verdict = Holds | Fails | Errs(code: nat)

  // What every condition evaluates to in every box.
  type Env = (Scope, Cond) -> Verdict

  // No condition fails to evaluate.
  ghost predicate Decided(env: Env) {
    forall scope, cond :: !env(scope, cond).Errs?
  }

  function Check(cond: Option<Cond>, scope: Scope, env: Env): Verdict {
    match cond
    case None => Holds
    case Some(c) => env(scope, c)
  }

  // One statement of one box.
  datatype Target = Target(kind: StatementType, index: nat, stmt: Statement, scope: Scope)

  // The first candidate whose condition holds; an error met on the way is the answer.
  function FirstHolding(candidates: seq<Target>, env: Env): Outcome<Target> {
    if candidates == [] then NoItem
    else match Check(candidates[0].stmt.cond, candidates[0].scope, env)
      case Holds => Found(candidates[0])
      case Fails => FirstHolding(candidates[1..], env)
      case Errs(code) => Failed(code)
  }

  lemma {:induction false} FirstHoldingConcat(a: seq<Target>, b: seq<Target>, env: Env)
    ensures FirstHolding(a + b, env)
         == if FirstHolding(a, env).NoItem? then FirstHolding(b, env) else FirstHolding(a, env)
  {
    if a == [] {
      assert a + b == b;
    } else {
      FirstHoldingConcat(a[1..], b, env);
      assert (a + b)[1..] == a[1..] + b;
    }
  }

  // FirstHolding, said without recursion.
  lemma {:induction false} FirstHoldingMeaning(candidates: seq<Target>, env: Env)
    ensures FirstHolding(candidates, env).NoItem?
       <==> forall t :: t in candidates ==> Check(t.stmt.cond, t.scope, env) == Fails
    ensures FirstHolding(candidates, env).Found? ==>
              exists k :: 0 <= k < |candidates| && FirstHolding(candidates, env) == Found(candidates[k])
                       && Check(candidates[k].stmt.cond, candidates[k].scope, env) == Holds
                       && forall j :: 0 <= j < k ==> Check(candidates[j].stmt.cond, candidates[j].scope, env) == Fails
    ensures forall code :: FirstHolding(candidates, env) == Failed(code) ==>
              exists k :: 0 <= k < |candidates| && Check(candidates[k].stmt.cond, candidates[k].scope, env) == Errs(code)
                       && forall j :: 0 <= j < k ==> Check(candidates[j].stmt.cond, candidates[j].scope, env) == Fails
  {
    if candidates != [] {
      var rest := candidates[1..];
      FirstHoldingMeaning(rest, env);
      assert forall t :: t in candidates <==> t == candidates[0] || t in rest;
      var v := Check(candidates[0].stmt.cond, candidates[0].scope, env);
      if v == Holds {
        assert FirstHolding(candidates, env) == Found(candidates[0]);
      } else if v == Fails && FirstHolding(rest, env).Found? {
        var k :| 0 <= k < |rest| && FirstHolding(rest, env) == Found(rest[k])
              && Check(rest[k].stmt.cond, rest[k].scope, env) == Holds
              && forall j :: 0 <= j < k ==> Check(rest[j].stmt.cond, rest[j].scope, env) == Fails;
        assert candidates[k + 1] == rest[k];
        forall j | 0 <= j < k + 1
          ensures Check(candidates[j].stmt.cond, candidates[j].scope, env) == Fails
        {
          if j > 0 { assert candidates[j] == rest[j - 1]; }
        }
      } else if v == Fails && FirstHolding(rest, env).Failed? {
        var code := FirstHolding(rest, env).code;
        var k :| 0 <= k < |rest| && Check(rest[k].stmt.cond, rest[k].scope, env) == Errs(code)
              && forall j :: 0 <= j < k ==> Check(rest[j].stmt.cond, rest[j].scope, env) == Fails;
        assert candidates[k + 1] == rest[k];
        forall j | 0 <= j < k + 1
          ensures Check(candidates[j].stmt.cond, candidates[j].scope, env) == Fails
        {
          if j > 0 { assert candidates[j] == rest[j - 1]; }
        }
      } else if v.Errs? {
        assert Check(candidates[0].stmt.cond, candidates[0].scope, env) == Errs(v.code);
      }
    }
  }
}
