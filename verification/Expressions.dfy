// Typing, constant folding and evaluation of expressions (ast.c, expr.c, browse.c).

module Expressions {
  import opened Wrappers

  datatype ValueType = IntegerType | BooleanType | StringType | BytesType

  datatype Value = Integer(i: int) | Boolean(b: bool) | String(s: string) | Bytes(data: seq<nat>)
  {
    function Type(): ValueType {
      match this
      case Integer(_) => IntegerType
      case Boolean(_) => BooleanType
      case String(_) => StringType
      case Bytes(_) => BytesType
    }
  }

  datatype Op = Eq | Ne | Lt | Le | Gt | Ge | Lor | Land | Lnot
              | Bwor | Bwand | Bwxor | Bwnot | Lshift | Rshift
              | Add | Sub | Mul | Div | Mod | Uplus | Uminus

  // ---------- the evaluator table ----------

  datatype Evaluator = Evaluator(op: Op, opdTypes: seq<ValueType>, res: ValueType)

  function Binary(op: Op, opd: ValueType, res: ValueType): Evaluator { Evaluator(op, [opd, opd], res) }

  function Unary(op: Op, opd: ValueType, res: ValueType): Evaluator { Evaluator(op, [opd], res) }

  const EQUALITY: seq<Evaluator> := [
    Binary(Eq, IntegerType, BooleanType), Binary(Eq, BooleanType, BooleanType), Binary(Eq, StringType, BooleanType),
    Binary(Ne, IntegerType, BooleanType), Binary(Ne, BooleanType, BooleanType), Binary(Ne, StringType, BooleanType)]

  const ORDER: seq<Evaluator> := [
    Binary(Lt, IntegerType, BooleanType), Binary(Le, IntegerType, BooleanType),
    Binary(Gt, IntegerType, BooleanType), Binary(Ge, IntegerType, BooleanType)]

  const LOGICAL: seq<Evaluator> := [
    Binary(Lor, BooleanType, BooleanType), Binary(Land, BooleanType, BooleanType), Unary(Lnot, BooleanType, BooleanType)]

  const BITWISE: seq<Evaluator> := [
    Binary(Bwor, IntegerType, IntegerType), Binary(Bwand, IntegerType, IntegerType),
    Binary(Bwxor, IntegerType, IntegerType), Unary(Bwnot, IntegerType, IntegerType),
    Binary(Lshift, IntegerType, IntegerType), Binary(Rshift, IntegerType, IntegerType)]

  const ARITHMETIC: seq<Evaluator> := [
    Binary(Add, IntegerType, IntegerType), Binary(Sub, IntegerType, IntegerType), Binary(Mul, IntegerType, IntegerType),
    Binary(Div, IntegerType, IntegerType), Binary(Mod, IntegerType, IntegerType),
    Unary(Uplus, IntegerType, IntegerType), Unary(Uminus, IntegerType, IntegerType)]

  const EVALUATORS := EQUALITY + ORDER + LOGICAL + BITWISE + ARITHMETIC

  // A mask is the set of types a value may have.
  type Mask = set<ValueType>

  predicate Accepts(ev: Evaluator, op: Op, masks: seq<Mask>) {
    ev.op == op && |ev.opdTypes| == |masks| && forall i :: 0 <= i < |masks| ==> masks[i] <= {ev.opdTypes[i]}
  }

  function LookupFrom(table: seq<Evaluator>, op: Op, masks: seq<Mask>, from: nat): Option<Evaluator>
    requires from <= |table|
    decreases |table| - from
  {
    if from == |table| then None
    else if Accepts(table[from], op, masks) then Some(table[from])
    else LookupFrom(table, op, masks, from + 1)
  }

  // expr_lookup_evaluator
  method LookupEvaluator(table: seq<Evaluator>, op: Op, masks: seq<Mask>) returns (r: Option<Evaluator>)
    ensures r == LookupFrom(table, op, masks, 0)
  {
    var i := 0;
    while i < |table|
      invariant 0 <= i <= |table|
      invariant LookupFrom(table, op, masks, i) == LookupFrom(table, op, masks, 0)
      decreases |table| - i
    {
      var ev := table[i];
      if ev.op == op && |ev.opdTypes| == |masks| {
        var opd := 0;
        while opd < |masks| && masks[opd] <= {ev.opdTypes[opd]}
          invariant 0 <= opd <= |masks|
          invariant forall k :: 0 <= k < opd ==> masks[k] <= {ev.opdTypes[k]}
          decreases |masks| - opd
        {
          opd := opd + 1;
        }
        if opd == |masks| {
          return Some(ev);
        }
      }
      i := i + 1;
    }
    return None;
  }

  lemma {:induction false} LookupFits(table: seq<Evaluator>, op: Op, masks: seq<Mask>, from: nat)
    requires from <= |table| && LookupFrom(table, op, masks, from).Some?
    ensures LookupFrom(table, op, masks, from).value in table
    ensures Accepts(LookupFrom(table, op, masks, from).value, op, masks)
    ensures exists k :: from <= k < |table| && LookupFrom(table, op, masks, from).value == table[k]
                        && forall j :: from <= j < k ==> !Accepts(table[j], op, masks)
    decreases |table| - from
  {
    if Accepts(table[from], op, masks) {
      assert LookupFrom(table, op, masks, from).value == table[from];
    } else {
      LookupFits(table, op, masks, from + 1);
    }
  }

  // ---------- operations ----------

  // Undefined stands for what C leaves undefined, Mismatch for an evaluator that is
  // handed a value of a type it does not expect.
  datatype Evaluation = Val(v: Value) | Err(code: nat) | Undefined | Mismatch

  // The machine's bitwise operations; None where C leaves the result undefined.
  type BitOps = (Op, int, int) -> Option<int>

  // C divides toward zero.
  function Quotient(a: int, b: int): int
    requires b != 0
  {
    if a >= 0 then (if b > 0 then a / b else -(a / -b))
    else (if b > 0 then -(-a / b) else -a / -b)
  }

  function Remainder(a: int, b: int): int
    requires b != 0
  {
    a - Quotient(a, b) * b
  }

  function FromBits(r: Option<int>): Evaluation {
    match r
    case None => Undefined
    case Some(i) => Val(Integer(i))
  }

  function IntegerOp(op: Op, a: int, b: int, bits: BitOps): Evaluation {
    match op
    case Eq => Val(Boolean(a == b))
    case Ne => Val(Boolean(a != b))
    case Lt => Val(Boolean(a < b))
    case Le => Val(Boolean(a <= b))
    case Gt => Val(Boolean(a > b))
    case Ge => Val(Boolean(a >= b))
    case Add => Val(Integer(a + b))
    case Sub => Val(Integer(a - b))
    case Mul => Val(Integer(a * b))
    case Div => if b == 0 then Undefined else Val(Integer(Quotient(a, b)))
    case Mod => if b == 0 then Undefined else Val(Integer(Remainder(a, b)))
    case Bwor => FromBits(bits(op, a, b))
    case Bwand => FromBits(bits(op, a, b))
    case Bwxor => FromBits(bits(op, a, b))
    case Lshift => FromBits(bits(op, a, b))
    case Rshift => FromBits(bits(op, a, b))
    case _ => Mismatch
  }

  function Apply(ev: Evaluator, operands: seq<Value>, bits: BitOps): Evaluation {
    if |operands| != |ev.opdTypes| || exists i :: 0 <= i < |operands| && operands[i].Type() != ev.opdTypes[i] then Mismatch
    else if |operands| == 2 then
      match (operands[0], operands[1])
      case (Integer(a), Integer(b)) => IntegerOp(ev.op, a, b, bits)
      case (Boolean(a), Boolean(b)) =>
        (match ev.op
         case Eq => Val(Boolean(a == b))
         case Ne => Val(Boolean(a != b))
         case Lor => Val(Boolean(a || b))
         case Land => Val(Boolean(a && b))
         case _ => Mismatch)
      case (String(a), String(b)) =>
        (match ev.op
         case Eq => Val(Boolean(a == b))
         case Ne => Val(Boolean(a != b))
         case _ => Mismatch)
      case _ => Mismatch
    else if |operands| == 1 then
      match (ev.op, operands[0])
      case (Lnot, Boolean(b)) => Val(Boolean(!b))
      case (Bwnot, Integer(a)) => FromBits(bits(Bwnot, a, 0))
      case (Uplus, Integer(a)) => Val(Integer(a))
      case (Uminus, Integer(a)) => Val(Integer(-a))
      case _ => Mismatch
    else Mismatch
  }

  // Division truncates: the remainder is smaller than the divisor and has the sign of the dividend.
  lemma DivisionTruncates(a: int, b: int)
    requires b != 0
    ensures a == Quotient(a, b) * b + Remainder(a, b)
    ensures -Abs(b) < Remainder(a, b) < Abs(b)
    ensures (a >= 0 ==> Remainder(a, b) >= 0) && (a <= 0 ==> Remainder(a, b) <= 0)
  {
    var m, n := Abs(a), Abs(b);
    assert m == m / n * n + m % n;
    var q := m / n;
    assert Quotient(a, b) == if (a >= 0) == (b > 0) then q else -q;
    assert Quotient(a, b) * b == if a >= 0 then q * n else -(q * n);
  }

  function Abs(i: int): int {
    if i < 0 then -i else i
  }

  // Comparisons follow the difference, equality and inequality exclude each other.
  lemma OrderLaws(a: int, b: int, bits: BitOps)
    ensures var difference := IntegerOp(Sub, a, b, bits);
      && difference.Val? && difference.v.Integer?
      && IntegerOp(Add, difference.v.i, b, bits) == Val(Integer(a))
      && (IntegerOp(Lt, a, b, bits) == Val(Boolean(true)) <==> difference.v.i < 0)
      && (IntegerOp(Le, a, b, bits) == Val(Boolean(true)) <==> difference.v.i <= 0)
      && (IntegerOp(Gt, a, b, bits) == Val(Boolean(true)) <==> difference.v.i > 0)
      && (IntegerOp(Ge, a, b, bits) == Val(Boolean(true)) <==> difference.v.i >= 0)
      && (IntegerOp(Eq, a, b, bits) == Val(Boolean(true)) <==> a == b)
      && (IntegerOp(Ne, a, b, bits) == Val(Boolean(false)) <==> a == b)
      && IntegerOp(Add, a, 0, bits) == Val(Integer(a))
      && IntegerOp(Add, a, b + 1, bits) == Val(Integer(a + b + 1))
      && IntegerOp(Mul, a, b, bits) == Val(Integer(a * b))
      && (b == 0 ==> IntegerOp(Div, a, b, bits) == Undefined == IntegerOp(Mod, a, b, bits))
      && (b != 0 ==> IntegerOp(Div, a, b, bits) == Val(Integer(Quotient(a, b)))
                     && IntegerOp(Mod, a, b, bits) == Val(Integer(Remainder(a, b))))
  {
  }

  // Booleans and strings, and operators with one operand
  lemma OtherOperators(p: bool, q: bool, s: string, t: string, i: int, bits: BitOps)
    ensures Apply(Binary(Lor, BooleanType, BooleanType), [Boolean(p), Boolean(q)], bits) == Val(Boolean(p || q))
    ensures Apply(Binary(Land, BooleanType, BooleanType), [Boolean(p), Boolean(q)], bits) == Val(Boolean(p && q))
    ensures Apply(Binary(Eq, BooleanType, BooleanType), [Boolean(p), Boolean(q)], bits) == Val(Boolean(p <==> q))
    ensures Apply(Binary(Ne, BooleanType, BooleanType), [Boolean(p), Boolean(q)], bits) == Val(Boolean(p != q))
    ensures Apply(Binary(Eq, StringType, BooleanType), [String(s), String(t)], bits) == Val(Boolean(s == t))
    ensures Apply(Binary(Ne, StringType, BooleanType), [String(s), String(t)], bits) == Val(Boolean(s != t))
    ensures Apply(Unary(Lnot, BooleanType, BooleanType), [Boolean(p)], bits) == Val(Boolean(!p))
    ensures Apply(Unary(Uplus, IntegerType, IntegerType), [Integer(i)], bits) == Val(Integer(i))
    ensures Apply(Unary(Uminus, IntegerType, IntegerType), [Integer(i)], bits) == Val(Integer(0 - i))
  {
  }

  // What an evaluator of the table computes on.
  predicate Sound(ev: Evaluator) {
    match ev.op
    case Eq => ev.res == BooleanType && SameTyped(ev, {IntegerType, BooleanType, StringType})
    case Ne => ev.res == BooleanType && SameTyped(ev, {IntegerType, BooleanType, StringType})
    case Lor => ev.res == BooleanType && SameTyped(ev, {BooleanType})
    case Land => ev.res == BooleanType && SameTyped(ev, {BooleanType})
    case Lnot => ev.res == BooleanType && ev.opdTypes == [BooleanType]
    case Bwnot => ev.res == IntegerType && ev.opdTypes == [IntegerType]
    case Uplus => ev.res == IntegerType && ev.opdTypes == [IntegerType]
    case Uminus => ev.res == IntegerType && ev.opdTypes == [IntegerType]
    case _ => ev.res == (if ev.op in {Lt, Le, Gt, Ge} then BooleanType else IntegerType) && SameTyped(ev, {IntegerType})
  }

  predicate SameTyped(ev: Evaluator, types: set<ValueType>) {
    |ev.opdTypes| == 2 && ev.opdTypes[0] == ev.opdTypes[1] && ev.opdTypes[0] in types
  }

  lemma EqualityIsSound(ev: Evaluator)
    requires ev in EQUALITY
    ensures Sound(ev)
  {
  }

  lemma OrderIsSound(ev: Evaluator)
    requires ev in ORDER
    ensures Sound(ev)
  {
  }

  lemma LogicalIsSound(ev: Evaluator)
    requires ev in LOGICAL
    ensures Sound(ev)
  {
  }

  lemma BitwiseIsSound(ev: Evaluator)
    requires ev in BITWISE
    ensures Sound(ev)
  {
  }

  lemma ArithmeticIsSound(ev: Evaluator)
    requires ev in ARITHMETIC
    ensures Sound(ev)
  {
  }

  lemma TableIsSound(ev: Evaluator)
    requires ev in EVALUATORS
    ensures Sound(ev)
  {
    if ev in EQUALITY {
      EqualityIsSound(ev);
    } else if ev in ORDER {
      OrderIsSound(ev);
    } else if ev in LOGICAL {
      LogicalIsSound(ev);
    } else if ev in BITWISE {
      BitwiseIsSound(ev);
    } else {
      ArithmeticIsSound(ev);
    }
  }

  // And the table has all of these.
  lemma TableIsComplete(ev: Evaluator)
    requires Sound(ev)
    ensures ev in EVALUATORS
  {
    var opd := ev.opdTypes[0];
    assert ev == if |ev.opdTypes| == 1 then Unary(ev.op, opd, ev.res) else Binary(ev.op, opd, ev.res);
    if ev.op in {Eq, Ne} {
      var k := if opd == IntegerType then 0 else if opd == BooleanType then 1 else 2;
      assert ev == EQUALITY[if ev.op == Eq then k else k + 3];
    } else if ev.op in {Lt, Le, Gt, Ge} {
      assert ev == ORDER[if ev.op == Lt then 0 else if ev.op == Le then 1 else if ev.op == Gt then 2 else 3];
    } else if ev.op in {Lor, Land, Lnot} {
      assert ev == LOGICAL[if ev.op == Lor then 0 else if ev.op == Land then 1 else 2];
    } else if ev.op in {Bwor, Bwand, Bwxor, Bwnot, Lshift, Rshift} {
      assert ev in BITWISE by {
        assert ev == BITWISE[0] || ev == BITWISE[1] || ev == BITWISE[2]
            || ev == BITWISE[3] || ev == BITWISE[4] || ev == BITWISE[5];
      }
    } else {
      assert ev in ARITHMETIC by {
        assert ev == ARITHMETIC[0] || ev == ARITHMETIC[1] || ev == ARITHMETIC[2] || ev == ARITHMETIC[3]
            || ev == ARITHMETIC[4] || ev == ARITHMETIC[5] || ev == ARITHMETIC[6];
      }
    }
  }

  // Given values of its operand types, an evaluator of the table yields a value of its
  // result type, or is undefined.
  lemma ApplyIsTyped(ev: Evaluator, operands: seq<Value>, bits: BitOps)
    requires Sound(ev) && |operands| == |ev.opdTypes|
    requires forall i :: 0 <= i < |operands| ==> operands[i].Type() == ev.opdTypes[i]
    ensures Apply(ev, operands, bits).Undefined?
         || (Apply(ev, operands, bits).Val? && Apply(ev, operands, bits).v.Type() == ev.res)
  {
  }

  // ---------- expressions ----------

  type Box = nat

  // How the box of a named expression is found: by walking outwards from the current
  // scope, which always leads somewhere, or through an expression or a lookup that may fail.
  datatype Anchor = InScope(id: nat) | Computed(id: nat)

  // A condition, possibly within the branch of another one.
  datatype Condition = Condition(outer: Option<Condition>, expr: Node, reversed: bool)

  // Operator nodes carry the evaluator chosen for them. `Dynamic` stands for every
  // expression whose value depends on the data, with the types it may have.
  datatype Node =
    | Native(value: Value)
    | Dynamic(id: nat, mask: Mask)
    | Named(anchor: Anchor, cond: Option<Condition>, target: Node)
    | Operator1(ev: Evaluator, opd: Node)
    | Operator2(ev: Evaluator, left: Node, right: Node)

  // The program text before typing.
  datatype Source =
    | Literal(value: Value)
    | Data(id: nat, mask: Mask)
    | Reference(anchor: Anchor, cond: Option<Condition>, target: Source)
    | Op1(op: Op, opd: Source)
    | Op2(op: Op, left: Source, right: Source)

  datatype Result<+T> = Ok(value: T) | Fail(code: nat)

  const DATA_ERROR := 1

  datatype Env = Env(dynamic: (nat, Box) -> Evaluation, anchorBox: (nat, Box) -> Box,
                     computed: (nat, Box) -> Result<Box>, bits: BitOps)
  {
    function Anchored(anchor: Anchor, scope: Box): Result<Box> {
      match anchor
      case InScope(id) => Ok(anchorBox(id, scope))
      case Computed(id) => computed(id, scope)
    }
  }

  // ---------- evaluation, with the scope as an argument ----------

  function Eval(node: Node, scope: Box, env: Env): Evaluation
    decreases node, 0
  {
    match node
    case Native(value) => Val(value)
    case Dynamic(id, _) => env.dynamic(id, scope)
    case Named(anchor, cond, target) =>
      (match env.Anchored(anchor, scope)
       case Fail(code) => Err(code)
       case Ok(member) =>
         match EvalCondition(cond, member, env)
         case Val(Boolean(true)) => Eval(target, member, env)
         case Val(_) => Err(DATA_ERROR)
         case other => other)
    case Operator1(ev, opd) =>
      (match Eval(opd, scope, env)
       case Val(v) => Apply(ev, [v], env.bits)
       case other => other)
    case Operator2(ev, left, right) =>
      match Eval(left, scope, env)
      case Val(l) =>
        (match Eval(right, scope, env)
         case Val(r) => Apply(ev, [l, r], env.bits)
         case other => other)
      case other => other
  }

  // The outcome is a boolean, an error, or undefined behaviour.
  function EvalCondition(cond: Option<Condition>, scope: Box, env: Env): Evaluation
    decreases cond, 1
  {
    match cond
    case None => Val(Boolean(true))
    case Some(c) =>
      match EvalCondition(c.outer, scope, env)
      case Val(Boolean(true)) =>
        (match Eval(c.expr, scope, env)
         case Val(Boolean(b)) => Val(Boolean(b != c.reversed))
         case Val(_) => Mismatch
         case other => other)
      case Val(_) => Val(Boolean(false))
      case other => other
  }

  // ---------- what conditions come to ----------

  // A condition and those it is nested in, from the outermost
  function Nested(cond: Option<Condition>): seq<Condition> {
    match cond
    case None => []
    case Some(c) => Nested(c.outer) + [c]
  }

  ghost predicate IsMet(c: Condition, scope: Box, env: Env) {
    exists b: bool :: Eval(c.expr, scope, env) == Val(Boolean(b)) && b != c.reversed
  }

  ghost predicate AllMet(conds: seq<Condition>, scope: Box, env: Env) {
    forall j :: 0 <= j < |conds| ==> IsMet(conds[j], scope, env)
  }

  ghost predicate FirstUnmet(conds: seq<Condition>, k: nat, scope: Box, env: Env) {
    k < |conds| && !IsMet(conds[k], scope, env) && AllMet(conds[..k], scope, env)
  }

  // What a condition that is not met comes to: false when it is a boolean, or else what it came
  // to instead
  function Unmet(e: Evaluation): Evaluation {
    match e
    case Val(Boolean(_)) => Val(Boolean(false))
    case Val(_) => Mismatch
    case other => other
  }

  // True exactly when all of them are met; otherwise the first that is not decides.
  lemma {:induction false} ConditionsDecide(cond: Option<Condition>, scope: Box, env: Env)
    ensures EvalCondition(cond, scope, env) == Val(Boolean(true)) <==> AllMet(Nested(cond), scope, env)
    ensures forall k: nat :: FirstUnmet(Nested(cond), k, scope, env) ==>
      EvalCondition(cond, scope, env) == Unmet(Eval(Nested(cond)[k].expr, scope, env))
  {
    if cond.Some? {
      var c, outer := cond.value, Nested(cond.value.outer);
      assert Nested(cond) == outer + [c];
      hide Eval, EvalCondition, IsMet, AllMet, Nested, FirstUnmet;
      ConditionsDecide(c.outer, scope, env);
      OneCondition(c, scope, env);
      AllMetButOne(outer, c, scope, env);
      if !AllMet(outer, scope, env) {
        var k := SomeUnmet(outer, scope, env);
        assert EvalCondition(c.outer, scope, env) == Unmet(Eval(outer[k].expr, scope, env));
      }
      forall k: nat | FirstUnmet(outer + [c], k, scope, env)
        ensures EvalCondition(cond, scope, env) == Unmet(Eval((outer + [c])[k].expr, scope, env))
      {
        FirstUnmetButOne(outer, c, k, scope, env);
      }
    }
  }

  lemma AllMetButOne(outer: seq<Condition>, c: Condition, scope: Box, env: Env)
    ensures AllMet(outer + [c], scope, env) <==> AllMet(outer, scope, env) && IsMet(c, scope, env)
  {
    hide IsMet;
    var all := outer + [c];
    assert all[|outer|] == c;
    assert forall j :: 0 <= j < |outer| ==> all[j] == outer[j];
  }

  lemma FirstUnmetButOne(outer: seq<Condition>, c: Condition, k: nat, scope: Box, env: Env)
    requires FirstUnmet(outer + [c], k, scope, env)
    ensures k <= |outer|
    ensures k < |outer| ==> FirstUnmet(outer, k, scope, env) && (outer + [c])[k] == outer[k]
    ensures k == |outer| ==> AllMet(outer, scope, env) && !IsMet(c, scope, env) && (outer + [c])[k] == c
  {
    hide IsMet, AllMet;
    assert (outer + [c])[..k] == outer[..k];
    assert outer[..|outer|] == outer;
  }

  lemma OneCondition(c: Condition, scope: Box, env: Env)
    ensures EvalCondition(c.outer, scope, env) == Val(Boolean(true)) ==>
      && (EvalCondition(Some(c), scope, env) == Val(Boolean(true)) <==> IsMet(c, scope, env))
      && (!IsMet(c, scope, env) ==> EvalCondition(Some(c), scope, env) == Unmet(Eval(c.expr, scope, env)))
    ensures !EvalCondition(c.outer, scope, env).Val? || EvalCondition(c.outer, scope, env) == Val(Boolean(false)) ==>
      EvalCondition(Some(c), scope, env) == EvalCondition(c.outer, scope, env)
  {
    match Eval(c.expr, scope, env)
    case Val(Boolean(b)) => assert IsMet(c, scope, env) <==> b != c.reversed;
    case _ =>
  }

  lemma {:induction false} SomeUnmet(conds: seq<Condition>, scope: Box, env: Env) returns (k: nat)
    requires !AllMet(conds, scope, env)
    ensures FirstUnmet(conds, k, scope, env)
  {
    hide IsMet;
    var last :| 0 <= last < |conds| && !IsMet(conds[last], scope, env);
    k := 0;
    while IsMet(conds[k], scope, env)
      invariant k <= last
      invariant forall j :: 0 <= j < k ==> IsMet(conds[j], scope, env)
      decreases last - k
    {
      k := k + 1;
    }
  }

  // A named expression has the value of its target in its own box when all conditions are met,
  // and fails otherwise.
  lemma NamedNeedsConditions(node: Node, member: Box, scope: Box, env: Env)
    requires node.Named? && env.Anchored(node.anchor, scope) == Ok(member)
    ensures var met := AllMet(Nested(node.cond), member, env);
      && (met ==> Eval(node, scope, env) == Eval(node.target, member, env))
      && (!met ==> !Eval(node, scope, env).Val?)
  {
    ConditionsDecide(node.cond, member, env);
  }

  // An operation works on the values of its operands, left and right, in this order.
  lemma OperandsInOrder(op: Op, res: ValueType, left: Node, right: Node, a: int, b: int, scope: Box, env: Env)
    requires Eval(left, scope, env) == Val(Integer(a)) && Eval(right, scope, env) == Val(Integer(b))
    ensures Eval(Operator2(Binary(op, IntegerType, res), left, right), scope, env) == IntegerOp(op, a, b, env.bits)
  {
    hide IntegerOp;
  }

  // An operation fails as its left operand does, or else as the right one does.
  lemma FirstFailureCounts(ev: Evaluator, left: Node, right: Node, scope: Box, env: Env)
    ensures !Eval(left, scope, env).Val? ==> Eval(Operator2(ev, left, right), scope, env) == Eval(left, scope, env)
    ensures Eval(left, scope, env).Val? && !Eval(right, scope, env).Val? ==>
              Eval(Operator2(ev, left, right), scope, env) == Eval(right, scope, env)
  {
  }

  // ---------- evaluation, with a current scope that is pushed and popped ----------

  class BrowseState {
    var scope: Box

    constructor (scope: Box)
      ensures this.scope == scope
    {
      this.scope := scope;
    }

    // browse_state_push_scope; a null scope leaves the current one in place
    method PushScope(box: Option<Box>) returns (storage: Box)
      modifies this
      ensures storage == old(scope)
      ensures scope == if box.Some? then box.value else old(scope)
    {
      storage := scope;
      if box.Some? {
        scope := box.value;
      }
    }

    method PopScope(box: Option<Box>, storage: Box)
      modifies this
      ensures scope == if box.Some? then storage else old(scope)
    {
      if box.Some? {
        scope := storage;
      }
    }

    // expr_evaluate_internal: one exit, so that every path restores the scope
    method Evaluate(node: Node, box: Option<Box>, env: Env) returns (r: Evaluation)
      modifies this
      ensures r == Eval(node, if box.Some? then box.value else old(scope), env)
      ensures scope == old(scope)
      decreases node, 1
    {
      var storage := PushScope(box);
      match node {
        case Native(value) => r := Val(value);
        case Dynamic(id, _) => r := env.dynamic(id, scope);
        case Named(_, _, _) => r := EvaluateNamed(node, env);
        case Operator1(ev, opd) =>
          r := Evaluate(opd, None, env);
          if r.Val? {
            r := Apply(ev, [r.v], env.bits);
          }
        case Operator2(ev, left, right) =>
          r := Evaluate(left, None, env);
          if r.Val? {
            var l := r.v;
            r := Evaluate(right, None, env);
            if r.Val? {
              r := Apply(ev, [l, r.v], env.bits);
            }
          }
      }
      PopScope(box, storage);
    }

    // expr_evaluate_named_expr
    method EvaluateNamed(node: Node, env: Env) returns (r: Evaluation)
      requires node.Named?
      modifies this
      ensures r == Eval(node, old(scope), env)
      ensures scope == old(scope)
      decreases node, 0
    {
      var member := env.Anchored(node.anchor, scope);
      if member.Fail? {
        return Err(member.code);
      }
      var cond := EvaluateConditional(node.cond, member.value, env);
      if !cond.Val? {
        return cond;
      }
      if cond != Val(Boolean(true)) {
        return Err(DATA_ERROR);
      }
      r := Evaluate(node.target, Some(member.value), env);
    }

    // evaluate_conditional_internal
    method EvaluateConditional(cond: Option<Condition>, box: Box, env: Env) returns (r: Evaluation)
      modifies this
      ensures r == EvalCondition(cond, box, env)
      ensures scope == old(scope)
      decreases cond, 1
    {
      if cond.None? {
        return Val(Boolean(true));
      }
      if cond.value.outer.Some? {
        var outer := EvaluateConditional(cond.value.outer, box, env);
        if !outer.Val? {
          return outer;
        }
        if outer != Val(Boolean(true)) {
          return Val(Boolean(false));
        }
      }
      r := Evaluate(cond.value.expr, Some(box), env);
      match r
      case Val(Boolean(b)) => r := Val(Boolean(if cond.value.reversed then !b else b));
      case Val(_) => r := Mismatch;
      case _ =>
    }
  }

  // ---------- typing and constant folding ----------

  // ast_node_get_named_expr_target
  function Target(node: Node): Node {
    if node.Named? then Target(node.target) else node
  }

  // The types the value of an expression may have.
  function MaskOf(node: Node): Mask {
    match node
    case Native(value) => {value.Type()}
    case Dynamic(_, mask) => mask
    case Named(_, _, target) => MaskOf(target)
    case Operator1(ev, _) => {ev.res}
    case Operator2(ev, _, _) => {ev.res}
  }

  predicate EmptyMask(masks: seq<Mask>) {
    exists i :: 0 <= i < |masks| && masks[i] == {}
  }

  // What compiling an expression yields: a typed node, a type error, or the undefined
  // behaviour of folding an operation that is not defined on its operands.
  datatype Compiled = Typed(node: Node) | TypeError | FoldUndefined

  function Unfolded(r: Evaluation): Compiled {
    if r.Val? then Typed(Native(r.v)) else FoldUndefined
  }

  // The operands are compiled first. With `fold`, as in the original, an operator whose
  // operands are native, directly or as targets of named expressions, becomes a native.
  function Compile(src: Source, fold: bool, bits: BitOps): Compiled {
    match src
    case Literal(value) => Typed(Native(value))
    case Data(id, mask) => Typed(Dynamic(id, mask))
    case Reference(anchor, cond, target) =>
      (match Compile(target, fold, bits)
       case Typed(node) => Typed(Named(anchor, cond, node))
       case other => other)
    case Op1(op, opd) =>
      (match Compile(opd, fold, bits)
       case Typed(o) => TypeUnary(op, o, fold, bits)
       case other => other)
    case Op2(op, left, right) =>
      match Compile(left, fold, bits)
      case Typed(l) =>
        (match Compile(right, fold, bits)
         case Typed(r) => TypeBinary(op, l, r, fold, bits)
         case other => other)
      case other => other
  }

  // compile_rexpr_operator_type for one and for two operands
  function TypeUnary(op: Op, opd: Node, fold: bool, bits: BitOps): Compiled {
    var masks := [MaskOf(Target(opd))];
    if EmptyMask(masks) then TypeError
    else match LookupFrom(EVALUATORS, op, masks, 0)
         case None => TypeError
         case Some(ev) =>
           if fold && Target(opd).Native? then Unfolded(Apply(ev, [Target(opd).value], bits))
           else Typed(Operator1(ev, opd))
  }

  function TypeBinary(op: Op, left: Node, right: Node, fold: bool, bits: BitOps): Compiled {
    var masks := [MaskOf(Target(left)), MaskOf(Target(right))];
    if EmptyMask(masks) then TypeError
    else match LookupFrom(EVALUATORS, op, masks, 0)
         case None => TypeError
         case Some(ev) =>
           if fold && Target(left).Native? && Target(right).Native?
           then Unfolded(Apply(ev, [Target(left).value, Target(right).value], bits))
           else Typed(Operator2(ev, left, right))
  }

  // ---------- which operands are accepted ----------

  predicate FitsBinary(op: Op, left: Mask, right: Mask) {
    || (op in {Eq, Ne} && exists t :: t in {IntegerType, BooleanType, StringType} && left <= {t} && right <= {t})
    || (op in {Lor, Land} && left <= {BooleanType} && right <= {BooleanType})
    || (op in {Lt, Le, Gt, Ge, Bwor, Bwand, Bwxor, Lshift, Rshift, Add, Sub, Mul, Div, Mod}
        && left <= {IntegerType} && right <= {IntegerType})
  }

  predicate FitsUnary(op: Op, opd: Mask) {
    (op == Lnot && opd <= {BooleanType}) || (op in {Bwnot, Uplus, Uminus} && opd <= {IntegerType})
  }

  // Comparisons and logical operators yield booleans, all others integers.
  function ResultOf(op: Op): ValueType {
    if op in {Eq, Ne, Lt, Le, Gt, Ge, Lor, Land, Lnot} then BooleanType else IntegerType
  }

  lemma {:induction false} LookupFinds(table: seq<Evaluator>, op: Op, masks: seq<Mask>, from: nat, k: nat)
    requires from <= k < |table| && Accepts(table[k], op, masks)
    ensures LookupFrom(table, op, masks, from).Some?
    decreases k - from
  {
    if from < k && !Accepts(table[from], op, masks) {
      LookupFinds(table, op, masks, from + 1, k);
    }
  }

  lemma LookupIsSound(op: Op, masks: seq<Mask>)
    ensures var found := LookupFrom(EVALUATORS, op, masks, 0);
      && (found.Some? ==> Sound(found.value) && Accepts(found.value, op, masks))
      && (found.None? ==> forall ev :: Sound(ev) ==> !Accepts(ev, op, masks))
  {
    hide Accepts, Sound;
    if LookupFrom(EVALUATORS, op, masks, 0).Some? {
      LookupFits(EVALUATORS, op, masks, 0);
      TableIsSound(LookupFrom(EVALUATORS, op, masks, 0).value);
    }
    forall ev | Sound(ev) && Accepts(ev, op, masks) ensures LookupFrom(EVALUATORS, op, masks, 0).Some? {
      TableIsComplete(ev);
      var k :| 0 <= k < |EVALUATORS| && EVALUATORS[k] == ev;
      LookupFinds(EVALUATORS, op, masks, 0, k);
    }
  }

  lemma AcceptedFits(ev: Evaluator, op: Op, masks: seq<Mask>)
    requires Sound(ev) && Accepts(ev, op, masks)
    ensures ev.res == ResultOf(op)
    ensures (|masks| == 1 || |masks| == 2) && Fits(op, masks)
  {
    assert |masks| == 1 ==> op in {Lnot, Bwnot, Uplus, Uminus};
    assert masks[0] <= {ev.opdTypes[0]};
    if |masks| == 2 {
      assert masks[1] <= {ev.opdTypes[1]};
    }
  }

  lemma FittingIsAccepted(op: Op, t: ValueType, masks: seq<Mask>)
    requires forall i :: 0 <= i < |masks| ==> masks[i] <= {t}
    ensures |masks| == 2 ==> Accepts(Binary(op, t, ResultOf(op)), op, masks)
    ensures |masks| == 1 ==> Accepts(Unary(op, t, ResultOf(op)), op, masks)
  {
  }

  lemma FittingIsSound(op: Op, t: ValueType)
    ensures op in {Eq, Ne} && t in {IntegerType, BooleanType, StringType} ==> Sound(Binary(op, t, ResultOf(op)))
    ensures op in {Lor, Land} && t == BooleanType ==> Sound(Binary(op, t, ResultOf(op)))
    ensures op in {Lt, Le, Gt, Ge, Bwor, Bwand, Bwxor, Lshift, Rshift, Add, Sub, Mul, Div, Mod} && t == IntegerType ==>
              Sound(Binary(op, t, ResultOf(op)))
    ensures op == Lnot && t == BooleanType ==> Sound(Unary(op, t, ResultOf(op)))
    ensures op in {Bwnot, Uplus, Uminus} && t == IntegerType ==> Sound(Unary(op, t, ResultOf(op)))
  {
  }

  predicate Fits(op: Op, masks: seq<Mask>)
    requires |masks| == 1 || |masks| == 2
  {
    if |masks| == 2 then FitsBinary(op, masks[0], masks[1]) else FitsUnary(op, masks[0])
  }

  lemma EvaluatorFor(op: Op, masks: seq<Mask>) returns (ev: Evaluator)
    requires (|masks| == 1 || |masks| == 2) && Fits(op, masks)
    ensures Sound(ev) && Accepts(ev, op, masks)
  {
    var t := if op in {Lor, Land, Lnot} then BooleanType else IntegerType;
    if op in {Eq, Ne} {
      t :| t in {IntegerType, BooleanType, StringType} && masks[0] <= {t} && masks[1] <= {t};
    }
    ev := if |masks| == 2 then Binary(op, t, ResultOf(op)) else Unary(op, t, ResultOf(op));
    FittingIsAccepted(op, t, masks);
    FittingIsSound(op, t);
  }

  lemma FoundExactly(op: Op, masks: seq<Mask>)
    requires |masks| == 1 || |masks| == 2
    ensures var found := LookupFrom(EVALUATORS, op, masks, 0);
      && (found.Some? <==> Fits(op, masks))
      && (found.Some? ==> found.value.res == ResultOf(op))
  {
    LookupIsSound(op, masks);
    hide LookupFrom, Accepts, Sound, ResultOf;
    var found := LookupFrom(EVALUATORS, op, masks, 0);
    if found.Some? {
      AcceptedFits(found.value, op, masks);
    }
    if Fits(op, masks) {
      var ev := EvaluatorFor(op, masks);
    }
  }

  lemma TypedWithEvaluator(op: Op, left: Node, right: Node, bits: BitOps)
    requires MaskOf(left) != {} && MaskOf(right) != {}
    ensures var found := LookupFrom(EVALUATORS, op, [MaskOf(left), MaskOf(right)], 0);
      TypeBinary(op, left, right, false, bits)
      == if found.None? then TypeError else Typed(Operator2(found.value, left, right))
  {
    TargetMask(left);
    TargetMask(right);
    hide LookupFrom, Target, Apply, MaskOf;
  }

  // An operator is accepted exactly on operands that can be of the right types only, and has the
  // type that goes with it.
  lemma AcceptedBinary(op: Op, left: Node, right: Node, bits: BitOps)
    requires MaskOf(left) != {} && MaskOf(right) != {}
    ensures var r := TypeBinary(op, left, right, false, bits);
      && (r.Typed? <==> FitsBinary(op, MaskOf(left), MaskOf(right)))
      && (r.Typed? ==> MaskOf(r.node) == {ResultOf(op)})
  {
    TypedWithEvaluator(op, left, right, bits);
    FoundExactly(op, [MaskOf(left), MaskOf(right)]);
    hide LookupFrom, FitsBinary, ResultOf, TypeBinary;
  }

  lemma AcceptedUnary(op: Op, opd: Node, bits: BitOps)
    requires MaskOf(opd) != {}
    ensures var r := TypeUnary(op, opd, false, bits);
      && (r.Typed? <==> FitsUnary(op, MaskOf(opd)))
      && (r.Typed? ==> MaskOf(r.node) == {ResultOf(op)})
  {
    TargetMask(opd);
    FoundExactly(op, [MaskOf(Target(opd))]);
    hide LookupFrom, FitsUnary, ResultOf, Target, Apply;
  }

  // ---------- accepted expressions evaluate to their type ----------

  ghost predicate DynamicTyped(id: nat, mask: Mask, env: Env) {
    forall scope :: !env.dynamic(id, scope).Mismatch?
                    && (env.dynamic(id, scope).Val? ==> env.dynamic(id, scope).v.Type() in mask)
  }

  ghost predicate WellTyped(node: Node, env: Env)
    decreases node, 0
  {
    match node
    case Native(_) => true
    case Dynamic(id, mask) => DynamicTyped(id, mask, env)
    case Named(_, cond, target) => WellTypedCondition(cond, env) && WellTyped(target, env)
    case Operator1(ev, opd) => Sound(ev) && Accepts(ev, ev.op, [MaskOf(opd)]) && WellTyped(opd, env)
    case Operator2(ev, left, right) =>
      Sound(ev) && Accepts(ev, ev.op, [MaskOf(left), MaskOf(right)]) && WellTyped(left, env) && WellTyped(right, env)
  }

  ghost predicate WellTypedCondition(cond: Option<Condition>, env: Env)
    decreases cond, 1
  {
    cond.Some? ==> WellTypedCondition(cond.value.outer, env) && WellTyped(cond.value.expr, env)
                   && MaskOf(cond.value.expr) == {BooleanType}
  }

  lemma {:induction false} EvalIsTyped(node: Node, scope: Box, env: Env)
    requires WellTyped(node, env)
    ensures !Eval(node, scope, env).Mismatch?
    ensures Eval(node, scope, env).Val? ==> Eval(node, scope, env).v.Type() in MaskOf(node)
    decreases node, 0
  {
    match node
    case Native(_) =>
    case Dynamic(_, _) =>
    case Named(anchor, cond, target) =>
      match env.Anchored(anchor, scope) {
        case Fail(_) =>
        case Ok(member) =>
          ConditionIsTyped(cond, member, env);
          EvalIsTyped(target, member, env);
      }
    case Operator1(ev, opd) =>
      EvalIsTyped(opd, scope, env);
      if Eval(opd, scope, env).Val? {
        assert [MaskOf(opd)][0] == MaskOf(opd);
        ApplyIsTyped(ev, [Eval(opd, scope, env).v], env.bits);
      }
    case Operator2(ev, left, right) =>
      EvalIsTyped(left, scope, env);
      EvalIsTyped(right, scope, env);
      if Eval(left, scope, env).Val? && Eval(right, scope, env).Val? {
        assert [MaskOf(left), MaskOf(right)][0] == MaskOf(left) && [MaskOf(left), MaskOf(right)][1] == MaskOf(right);
        ApplyIsTyped(ev, [Eval(left, scope, env).v, Eval(right, scope, env).v], env.bits);
      }
  }

  lemma {:induction false} ConditionIsTyped(cond: Option<Condition>, scope: Box, env: Env)
    requires WellTypedCondition(cond, env)
    ensures !EvalCondition(cond, scope, env).Mismatch?
    decreases cond, 1
  {
    if cond.Some? {
      ConditionIsTyped(cond.value.outer, scope, env);
      EvalIsTyped(cond.value.expr, scope, env);
    }
  }

  lemma {:induction false} TargetMask(node: Node)
    ensures MaskOf(Target(node)) == MaskOf(node)
  {
    if node.Named? {
      TargetMask(node.target);
    }
  }

  // The data and the conditions an expression refers to are typed.
  ghost predicate TypedLeaves(src: Source, env: Env) {
    match src
    case Literal(_) => true
    case Data(id, mask) => DynamicTyped(id, mask, env)
    case Reference(_, cond, target) => WellTypedCondition(cond, env) && TypedLeaves(target, env)
    case Op1(_, opd) => TypedLeaves(opd, env)
    case Op2(_, left, right) => TypedLeaves(left, env) && TypedLeaves(right, env)
  }

  lemma {:induction false} CompiledIsWellTyped(src: Source, fold: bool, bits: BitOps, env: Env)
    requires TypedLeaves(src, env) && Compile(src, fold, bits).Typed?
    ensures WellTyped(Compile(src, fold, bits).node, env)
  {
    match src
    case Literal(_) =>
    case Data(_, _) =>
    case Reference(_, _, target) => CompiledIsWellTyped(target, fold, bits, env);
    case Op1(op, opd) =>
      CompiledIsWellTyped(opd, fold, bits, env);
      var o := Compile(opd, fold, bits).node;
      TargetMask(o);
      LookupFits(EVALUATORS, op, [MaskOf(o)], 0);
      TableIsSound(LookupFrom(EVALUATORS, op, [MaskOf(o)], 0).value);
    case Op2(op, left, right) =>
      CompiledIsWellTyped(left, fold, bits, env);
      CompiledIsWellTyped(right, fold, bits, env);
      var l, r := Compile(left, fold, bits).node, Compile(right, fold, bits).node;
      TargetMask(l);
      TargetMask(r);
      LookupFits(EVALUATORS, op, [MaskOf(l), MaskOf(r)], 0);
      TableIsSound(LookupFrom(EVALUATORS, op, [MaskOf(l), MaskOf(r)], 0).value);
  }

  // Every accepted expression evaluates to a value of its annotated type, if to a value at all,
  // and never hands an evaluator an operand it does not expect.
  lemma TypeSoundness(src: Source, fold: bool, bits: BitOps, scope: Box, env: Env)
    requires TypedLeaves(src, env) && Compile(src, fold, bits).Typed?
    ensures var node := Compile(src, fold, bits).node;
            !Eval(node, scope, env).Mismatch?
            && (Eval(node, scope, env).Val? ==> Eval(node, scope, env).v.Type() in MaskOf(node))
  {
    CompiledIsWellTyped(src, fold, bits, env);
    EvalIsTyped(Compile(src, fold, bits).node, scope, env);
  }

  // ---------- folding preserves meaning ----------

  // The named expressions a fold looks through can all be evaluated.
  predicate Available(node: Node, scope: Box, env: Env) {
    node.Named? ==>
      match env.Anchored(node.anchor, scope)
      case Fail(_) => false
      case Ok(member) => EvalCondition(node.cond, member, env) == Val(Boolean(true)) && Available(node.target, member, env)
  }

  lemma {:induction false} NativeTarget(node: Node, scope: Box, env: Env)
    requires Target(node).Native?
    ensures Available(node, scope, env) <==> Eval(node, scope, env) == Val(Target(node).value)
    ensures !Available(node, scope, env) ==> !Eval(node, scope, env).Val?
  {
    if node.Named? {
      match env.Anchored(node.anchor, scope)
      case Fail(_) =>
      case Ok(member) => NativeTarget(node.target, member, env);
    }
  }

  // One folded operator has the value of the original one exactly where the named expressions
  // among its operands are available; elsewhere the original fails, and the fold hides it.
  lemma FoldedOperatorExact(ev: Evaluator, left: Node, right: Node, scope: Box, env: Env)
    requires Target(left).Native? && Target(right).Native?
    requires Apply(ev, [Target(left).value, Target(right).value], env.bits).Val?
    ensures Eval(Operator2(ev, left, right), scope, env) == Apply(ev, [Target(left).value, Target(right).value], env.bits)
       <==> Available(left, scope, env) && Available(right, scope, env)
  {
    NativeTarget(left, scope, env);
    NativeTarget(right, scope, env);
  }

  // Wherever an evaluation comes to a folded operator, what the fold looked through is available.
  predicate GuardsHold(src: Source, scope: Box, env: Env) {
    match src
    case Literal(_) => true
    case Data(_, _) => true
    case Reference(anchor, cond, target) =>
      (match env.Anchored(anchor, scope)
       case Fail(_) => true
       case Ok(member) => EvalCondition(cond, member, env) == Val(Boolean(true)) ==> GuardsHold(target, member, env))
    case Op1(_, opd) =>
      var o := Compile(opd, true, env.bits);
      GuardsHold(opd, scope, env)
      && (o.Typed? && Target(o.node).Native? ==> Available(o.node, scope, env))
    case Op2(_, left, right) =>
      var l, r := Compile(left, true, env.bits), Compile(right, true, env.bits);
      GuardsHold(left, scope, env) && GuardsHold(right, scope, env)
      && (l.Typed? && r.Typed? && Target(l.node).Native? && Target(r.node).Native? ==>
            Available(l.node, scope, env) && Available(r.node, scope, env))
  }

  // What compiles with folding compiles without, to the same type.
  lemma {:induction false} FoldKeepsTyping(src: Source, bits: BitOps)
    requires Compile(src, true, bits).Typed?
    ensures Compile(src, false, bits).Typed?
    ensures MaskOf(Compile(src, true, bits).node) == MaskOf(Compile(src, false, bits).node)
  {
    match src
    case Literal(_) =>
    case Data(_, _) =>
    case Reference(_, _, target) => FoldKeepsTyping(target, bits);
    case Op1(op, opd) =>
      FoldKeepsTyping(opd, bits);
      UnaryKeepsTyping(op, Compile(opd, true, bits).node, Compile(opd, false, bits).node, bits);
    case Op2(op, left, right) =>
      FoldKeepsTyping(left, bits);
      FoldKeepsTyping(right, bits);
      BinaryKeepsTyping(op, Compile(left, true, bits).node, Compile(right, true, bits).node,
                        Compile(left, false, bits).node, Compile(right, false, bits).node, bits);
  }

  lemma UnaryKeepsTyping(op: Op, f: Node, u: Node, bits: BitOps)
    requires MaskOf(f) == MaskOf(u) && TypeUnary(op, f, true, bits).Typed?
    ensures TypeUnary(op, u, false, bits).Typed?
    ensures MaskOf(TypeUnary(op, f, true, bits).node) == MaskOf(TypeUnary(op, u, false, bits).node)
  {
    TargetMask(f);
    TargetMask(u);
    var masks := [MaskOf(f)];
    LookupFits(EVALUATORS, op, masks, 0);
    var ev := LookupFrom(EVALUATORS, op, masks, 0).value;
    TableIsSound(ev);
    if Target(f).Native? {
      assert masks[0] == {Target(f).value.Type()};
      ApplyIsTyped(ev, [Target(f).value], bits);
    }
  }

  lemma BinaryKeepsTyping(op: Op, fl: Node, fr: Node, ul: Node, ur: Node, bits: BitOps)
    requires MaskOf(fl) == MaskOf(ul) && MaskOf(fr) == MaskOf(ur) && TypeBinary(op, fl, fr, true, bits).Typed?
    ensures TypeBinary(op, ul, ur, false, bits).Typed?
    ensures MaskOf(TypeBinary(op, fl, fr, true, bits).node) == MaskOf(TypeBinary(op, ul, ur, false, bits).node)
  {
    TargetMask(fl);
    TargetMask(fr);
    TargetMask(ul);
    TargetMask(ur);
    var masks := [MaskOf(fl), MaskOf(fr)];
    LookupFits(EVALUATORS, op, masks, 0);
    var ev := LookupFrom(EVALUATORS, op, masks, 0).value;
    TableIsSound(ev);
    if Target(fl).Native? && Target(fr).Native? {
      assert masks[0] == {Target(fl).value.Type()} && masks[1] == {Target(fr).value.Type()};
      ApplyIsTyped(ev, [Target(fl).value, Target(fr).value], bits);
    }
  }

  // The folded expression means what the unfolded one does, provided no fold looks through a
  // named expression that is not available.
  lemma {:induction false} FoldingPreservesMeaning(src: Source, scope: Box, env: Env)
    requires Compile(src, true, env.bits).Typed? && GuardsHold(src, scope, env)
    ensures Compile(src, false, env.bits).Typed?
    ensures Eval(Compile(src, true, env.bits).node, scope, env) == Eval(Compile(src, false, env.bits).node, scope, env)
  {
    FoldKeepsTyping(src, env.bits);
    match src
    case Literal(_) =>
    case Data(_, _) =>
    case Reference(anchor, cond, target) =>
      FoldKeepsTyping(target, env.bits);
      match env.Anchored(anchor, scope) {
        case Fail(_) =>
        case Ok(member) =>
          if EvalCondition(cond, member, env) == Val(Boolean(true)) {
            FoldingPreservesMeaning(target, member, env);
          }
      }
    case Op1(op, opd) =>
      FoldKeepsTyping(opd, env.bits);
      FoldingPreservesMeaning(opd, scope, env);
      var f, u := Compile(opd, true, env.bits).node, Compile(opd, false, env.bits).node;
      TargetMask(f);
      TargetMask(u);
      if Target(f).Native? {
        NativeTarget(f, scope, env);
      }
    case Op2(op, left, right) =>
      FoldKeepsTyping(left, env.bits);
      FoldKeepsTyping(right, env.bits);
      FoldingPreservesMeaning(left, scope, env);
      FoldingPreservesMeaning(right, scope, env);
      var fl, fr := Compile(left, true, env.bits).node, Compile(right, true, env.bits).node;
      TargetMask(fl);
      TargetMask(fr);
      TargetMask(Compile(left, false, env.bits).node);
      TargetMask(Compile(right, false, env.bits).node);
      if Target(fl).Native? && Target(fr).Native? {
        NativeTarget(fl, scope, env);
        NativeTarget(fr, scope, env);
      }
  }

  // The same for an operator with one operand
  lemma FoldedUnaryExact(ev: Evaluator, opd: Node, scope: Box, env: Env)
    requires Target(opd).Native? && Apply(ev, [Target(opd).value], env.bits).Val?
    ensures Eval(Operator1(ev, opd), scope, env) == Apply(ev, [Target(opd).value], env.bits)
       <==> Available(opd, scope, env)
  {
    NativeTarget(opd, scope, env);
  }

  // The guards hold wherever the unfolded expression has a value.
  lemma {:induction false} ValueNeedsGuards(src: Source, scope: Box, env: Env)
    requires Compile(src, true, env.bits).Typed?
    ensures Compile(src, false, env.bits).Typed?
    ensures Eval(Compile(src, false, env.bits).node, scope, env).Val? ==> GuardsHold(src, scope, env)
  {
    FoldKeepsTyping(src, env.bits);
    match src
    case Literal(_) =>
    case Data(_, _) =>
    case Reference(anchor, cond, target) =>
      match env.Anchored(anchor, scope) {
        case Fail(_) =>
        case Ok(member) => ValueNeedsGuards(target, member, env);
      }
    case Op1(op, opd) =>
      ValueNeedsGuards(opd, scope, env);
      if Eval(Compile(opd, false, env.bits).node, scope, env).Val? {
        OperandIsAvailable(opd, scope, env);
      }
    case Op2(op, left, right) =>
      ValueNeedsGuards(left, scope, env);
      ValueNeedsGuards(right, scope, env);
      if Eval(Compile(left, false, env.bits).node, scope, env).Val?
         && Eval(Compile(right, false, env.bits).node, scope, env).Val?
      {
        OperandIsAvailable(left, scope, env);
        OperandIsAvailable(right, scope, env);
      }
  }

  lemma OperandIsAvailable(src: Source, scope: Box, env: Env)
    requires Compile(src, true, env.bits).Typed? && GuardsHold(src, scope, env)
    requires Compile(src, false, env.bits).Typed? && Eval(Compile(src, false, env.bits).node, scope, env).Val?
    ensures Target(Compile(src, true, env.bits).node).Native? ==> Available(Compile(src, true, env.bits).node, scope, env)
  {
    FoldingPreservesMeaning(src, scope, env);
    if Target(Compile(src, true, env.bits).node).Native? {
      NativeTarget(Compile(src, true, env.bits).node, scope, env);
    }
  }

  // Whole expressions: the unfolded one has a value exactly where the folded one has and the
  // guards hold; so where the folded one has a value, the two agree exactly under the guards.
  lemma FoldingIsExact(src: Source, scope: Box, env: Env)
    requires Compile(src, true, env.bits).Typed?
    ensures Compile(src, false, env.bits).Typed?
    ensures var folded := Eval(Compile(src, true, env.bits).node, scope, env);
            var unfolded := Eval(Compile(src, false, env.bits).node, scope, env);
            && (unfolded.Val? <==> folded.Val? && GuardsHold(src, scope, env))
            && (GuardsHold(src, scope, env) ==> folded == unfolded)
            && (folded.Val? ==> (folded == unfolded <==> GuardsHold(src, scope, env)))
  {
    ValueNeedsGuards(src, scope, env);
    if GuardsHold(src, scope, env) {
      FoldingPreservesMeaning(src, scope, env);
    }
  }

  // Named expressions are unconditional and found from the scope.
  predicate Unconditional(src: Source) {
    match src
    case Literal(_) => true
    case Data(_, _) => true
    case Reference(anchor, cond, target) => anchor.InScope? && cond.None? && Unconditional(target)
    case Op1(_, opd) => Unconditional(opd)
    case Op2(_, left, right) => Unconditional(left) && Unconditional(right)
  }

  lemma {:induction false} UnconditionalIsAvailable(src: Source, scope: Box, env: Env)
    requires Unconditional(src) && Compile(src, true, env.bits).Typed?
    ensures Available(Compile(src, true, env.bits).node, scope, env)
  {
    if src.Reference? {
      UnconditionalIsAvailable(src.target, env.anchorBox(src.anchor.id, scope), env);
    }
  }

  lemma {:induction false} UnconditionalGuardsHold(src: Source, scope: Box, env: Env)
    requires Unconditional(src)
    ensures GuardsHold(src, scope, env)
  {
    match src
    case Literal(_) =>
    case Data(_, _) =>
    case Reference(anchor, _, target) => UnconditionalGuardsHold(target, env.anchorBox(anchor.id, scope), env);
    case Op1(_, opd) =>
      UnconditionalGuardsHold(opd, scope, env);
      if Compile(opd, true, env.bits).Typed? {
        UnconditionalIsAvailable(opd, scope, env);
      }
    case Op2(_, left, right) =>
      UnconditionalGuardsHold(left, scope, env);
      UnconditionalGuardsHold(right, scope, env);
      if Compile(left, true, env.bits).Typed? && Compile(right, true, env.bits).Typed? {
        UnconditionalIsAvailable(left, scope, env);
        UnconditionalIsAvailable(right, scope, env);
      }
  }

  // Without conditions on named expressions, folding is invisible in every scope.
  lemma FoldingIsInvisible(src: Source, bits: BitOps)
    requires Unconditional(src) && Compile(src, true, bits).Typed?
    ensures Compile(src, false, bits).Typed?
    ensures forall scope: Box, env: Env | env.bits == bits ::
              Eval(Compile(src, true, bits).node, scope, env) == Eval(Compile(src, false, bits).node, scope, env)
  {
    FoldKeepsTyping(src, bits);
    forall scope: Box, env: Env | env.bits == bits
      ensures Eval(Compile(src, true, bits).node, scope, env) == Eval(Compile(src, false, bits).node, scope, env)
    {
      UnconditionalGuardsHold(src, scope, env);
      FoldingPreservesMeaning(src, scope, env);
    }
  }

  // An expression without data folds to a single native.
  predicate AllNative(src: Source) {
    match src
    case Literal(_) => true
    case Data(_, _) => false
    case Reference(_, _, target) => AllNative(target)
    case Op1(_, opd) => AllNative(opd)
    case Op2(_, left, right) => AllNative(left) && AllNative(right)
  }

  lemma {:induction false} AllNativeFoldsToNative(src: Source, bits: BitOps)
    requires AllNative(src) && Compile(src, true, bits).Typed?
    ensures Target(Compile(src, true, bits).node).Native?
    ensures !src.Reference? ==> Compile(src, true, bits).node.Native?
  {
    match src
    case Literal(_) =>
    case Reference(_, _, target) => AllNativeFoldsToNative(target, bits);
    case Op1(_, opd) => AllNativeFoldsToNative(opd, bits);
    case Op2(_, left, right) =>
      AllNativeFoldsToNative(left, bits);
      AllNativeFoldsToNative(right, bits);
  }

  // A conditional named expression that does not hold: evaluating the sum fails, yet it is folded.
  lemma FoldHidesFailedCondition(bits: BitOps, scope: Box, env: Env)
    requires env.bits == bits
    ensures var never := Some(Condition(None, Native(Boolean(false)), false));
            var src := Op2(Add, Reference(InScope(0), never, Literal(Integer(3))), Literal(Integer(1)));
            Compile(src, true, bits) == Typed(Native(Integer(4)))
            && Compile(src, false, bits).Typed?
            && Eval(Compile(src, false, bits).node, scope, env) == Err(DATA_ERROR)
  {
    var never := Some(Condition(None, Native(Boolean(false)), false));
    var three, one := Named(InScope(0), never, Native(Integer(3))), Native(Integer(1));
    AdditionOfIntegers();
    assert Target(three) == Native(Integer(3));
    assert EvalCondition(never, env.anchorBox(0, scope), env) == Val(Boolean(false)) by {
      assert Eval(never.value.expr, env.anchorBox(0, scope), env) == Val(Boolean(false));
    }
  }

  lemma AdditionOfIntegers()
    ensures LookupFrom(EVALUATORS, Add, [{IntegerType}, {IntegerType}], 0) == Some(Binary(Add, IntegerType, IntegerType))
  {
    var masks: seq<Mask> := [{IntegerType}, {IntegerType}];
    var ev := Binary(Add, IntegerType, IntegerType);
    assert EVALUATORS[19] == ev;
    LookupSkips(EVALUATORS, Add, masks, 0, 19);
  }

  lemma {:induction false} LookupSkips(table: seq<Evaluator>, op: Op, masks: seq<Mask>, from: nat, at: nat)
    requires from <= at < |table| && Accepts(table[at], op, masks)
    requires forall i :: from <= i < at ==> table[i].op != op
    ensures LookupFrom(table, op, masks, from) == Some(table[at])
    decreases at - from
  {
    if from < at {
      LookupSkips(table, op, masks, from + 1, at);
    }
  }
}
