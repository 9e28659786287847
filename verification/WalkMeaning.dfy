// What a walk over the fields of a box visits, and in which order, said by the schema alone.

module WalkMeaning {
  import opened Wrappers
  import opened Schema
  import opened StatementIteration
  import opened FieldTraversal

  predicate Met(cond: Option<Cond>, scope: Scope, env: Env) {
    cond == None || env(scope, cond.value) == Holds
  }

  // An active field without a name that is not hidden
  predicate OpenAt(box: Box, field: nat, env: Env) {
    && field < |box.block.fields|
    && box.block.fields[field].name == None && !box.block.fields[field].hidden
    && Met(box.block.fields[field].cond, box.scope, env)
  }

  // The box is reached from another one by entering such fields only.
  predicate Reaches(box: Box, inner: Box, env: Env) {
    inner == box
    || (inner.Item? && OpenAt(inner.parent, inner.index, env)
        && inner.block == inner.parent.block.fields[inner.index].body
        && inner.scope == Scope(inner.parent.scope.level, inner.parent.scope.path + [inner.index])
        && Reaches(box, inner.parent, env))
  }

  // A member of a box: an active field of a box reached from it that is not entered itself
  predicate IsMember(box: Box, p: Position, env: Env) {
    && Reaches(box, p.box, env)
    && p.field < |p.box.block.fields|
    && Met(p.box.block.fields[p.field].cond, p.box.scope, env)
    && !OpenAt(p.box, p.field, env)
  }

  function Depth(box: Box): nat {
    if box.Item? then Depth(box.parent) + 1 else 0
  }

  // The fields entered on the way, and the field arrived at
  function Way(box: Box, inner: Box): seq<nat> {
    if inner == box || inner.Top? then [] else Way(box, inner.parent) + [inner.index]
  }

  function Route(box: Box, p: Position): (route: seq<nat>)
    ensures route != []
  {
    Way(box, p.box) + [p.field]
  }

  // Lexicographic
  predicate Earlier(a: seq<nat>, b: seq<nat>) {
    b != [] && (a == [] || a[0] < b[0] || (a[0] == b[0] && Earlier(a[1..], b[1..])))
  }

  lemma {:induction false} ReachesDeeper(box: Box, inner: Box, env: Env)
    requires Reaches(box, inner, env)
    ensures Depth(box) <= Depth(inner)
    ensures inner != box ==> Depth(box) < Depth(inner)
  {
    if inner != box {
      ReachesDeeper(box, inner.parent, env);
    }
  }

  // A box reached through field i of another is reached from the box of that field.
  lemma {:induction false} ReachesThrough(box: Box, inner: Box, field: nat, env: Env)
    requires OpenAt(box, field, env)
    ensures Reaches(box.Enter(field), inner, env) <==>
      Reaches(box, inner, env) && inner != box && Way(box, inner)[..1] == [field]
    ensures Reaches(box.Enter(field), inner, env) ==> Way(box, inner) == [field] + Way(box.Enter(field), inner)
    ensures Reaches(box, inner, env) && inner != box ==> Way(box, inner) != []
    decreases inner
  {
    var entered := box.Enter(field);
    if inner == entered {
      assert Reaches(box, box, env);
      assert Way(box, inner) == [] + [field];
      assert Way(entered, inner) == [];
    } else if inner == box {
      NotReachedFromInside(box, field, env);
    } else if inner.Item? {
      if inner.parent == box {
        NotReachedFromInside(box, field, env);
        assert Way(box, inner) == [inner.index] && Way(box, inner)[..1] == [inner.index];
        assert Way(box, inner)[..1] == [field] ==> Way(box, inner)[..1][0] == field;
        assert inner == Item(inner.block, inner.scope, box, inner.index);
      } else {
        ReachesThrough(box, inner.parent, field, env);
        if Reaches(box, inner.parent, env) {
          assert Way(box, inner)[..1] == Way(box, inner.parent)[..1];
        }
      }
    }
  }

  lemma NotReachedFromInside(box: Box, field: nat, env: Env)
    requires field < |box.block.fields|
    ensures !Reaches(box.Enter(field), box, env)
  {
    if Reaches(box.Enter(field), box, env) {
      ReachesDeeper(box.Enter(field), box, env);
    }
  }

  // ---------- the depth-first flattening ----------

  // The members of a box met from field `from` on
  predicate MetFrom(box: Box, from: int, reverse: bool, env: Env, p: Position) {
    IsMember(box, p, env) && (if reverse then Route(box, p)[0] <= from else from <= Route(box, p)[0])
  }

  lemma RouteHead(box: Box, p: Position, env: Env)
    requires IsMember(box, p, env)
    ensures p.box == box ==> Route(box, p) == [p.field]
    ensures Route(box, p)[0] < |box.block.fields|
    ensures p.box != box ==> OpenAt(box, Route(box, p)[0], env)
  {
    if p.box == box {
      assert Way(box, box) == [];
    } else {
      WayHead(box, p.box, env);
      assert Route(box, p)[0] == Way(box, p.box)[0];
    }
  }

  lemma {:induction false} WayHead(box: Box, inner: Box, env: Env)
    requires Reaches(box, inner, env) && inner != box
    ensures Way(box, inner) != [] && OpenAt(box, Way(box, inner)[0], env)
  {
    if inner.parent != box {
      WayHead(box, inner.parent, env);
    } else {
      assert Way(box, inner) == [inner.index];
    }
  }

  // The members met at one field: itself, or the members of its box
  lemma MetAt(box: Box, field: nat, env: Env, p: Position)
    requires field < |box.block.fields|
    ensures OpenAt(box, field, env) ==>
      (IsMember(box, p, env) && Route(box, p)[0] == field <==> IsMember(box.Enter(field), p, env))
    ensures OpenAt(box, field, env) && IsMember(box.Enter(field), p, env) ==>
      Route(box, p) == [field] + Route(box.Enter(field), p)
    ensures !OpenAt(box, field, env) ==>
      (IsMember(box, p, env) && Route(box, p)[0] == field <==>
       Met(box.block.fields[field].cond, box.scope, env) && p == Position(box, field))
  {
    if IsMember(box, p, env) {
      RouteHead(box, p, env);
    }
    if OpenAt(box, field, env) {
      ReachesThrough(box, p.box, field, env);
      if Reaches(box.Enter(field), p.box, env) {
        assert Route(box, p) == [field] + Route(box.Enter(field), p);
      } else if IsMember(box, p, env) && p.box != box {
        assert Route(box, p)[0] == Way(box, p.box)[0] == Way(box, p.box)[..1][0];
        assert Way(box, p.box)[..1] == [Way(box, p.box)[0]];
      }
    } else {
      assert Way(box, box) == [];
    }
  }

  // The flattening has exactly the members.
  lemma {:induction false} FlatteningMembers(box: Box, from: int, reverse: bool, env: Env, p: Position)
    requires if reverse then from < |box.block.fields| else 0 <= from
    ensures p in DepthFirst(box, from, reverse, env) <==> MetFrom(box, from, reverse, env, p)
    decreases box.block, if reverse then from + 1 else |box.block.fields| - from
  {
    if IsMember(box, p, env) {
      RouteHead(box, p, env);
    }
    if 0 <= from < |box.block.fields| {
      FlatteningMembers(box, Step(from, reverse), reverse, env, p);
      MetAt(box, from, env, p);
      if OpenAt(box, from, env) {
        var inner := box.Enter(from);
        FlatteningMembers(inner, Start(inner.block.fields, reverse), reverse, env, p);
        if IsMember(inner, p, env) {
          RouteHead(inner, p, env);
        }
      }
    }
  }

  lemma EarlierUnder(head: nat, a: seq<nat>, b: seq<nat>)
    ensures Earlier([head] + a, [head] + b) <==> Earlier(a, b)
  {
    assert ([head] + a)[1..] == a && ([head] + b)[1..] == b;
  }

  // By the fields on the way: forward earlier ones first, in reverse later ones
  predicate Ordered(box: Box, all: seq<Position>, reverse: bool) {
    forall i, j :: 0 <= i < j < |all| ==> Follows(box, all[i], all[j], reverse)
  }

  predicate Follows(box: Box, p: Position, q: Position, reverse: bool) {
    if reverse then Earlier(Route(box, q), Route(box, p)) else Earlier(Route(box, p), Route(box, q))
  }

  lemma OrderedConcat(box: Box, a: seq<Position>, b: seq<Position>, reverse: bool)
    requires Ordered(box, a, reverse) && Ordered(box, b, reverse)
    requires forall p, q :: p in a && q in b ==> Follows(box, p, q, reverse)
    ensures Ordered(box, a + b, reverse)
  {
    forall i, j | 0 <= i < j < |a + b| ensures Follows(box, (a + b)[i], (a + b)[j], reverse) {
      if i < |a| <= j {
        assert a[i] in a && b[j - |a|] in b;
      }
    }
  }

  // Each position is visited once and in that order.
  lemma {:induction false} FlatteningOrder(box: Box, from: int, reverse: bool, env: Env)
    requires if reverse then from < |box.block.fields| else 0 <= from
    ensures Ordered(box, DepthFirst(box, from, reverse, env), reverse)
    decreases box.block, if reverse then from + 1 else |box.block.fields| - from
  {
    if 0 <= from < |box.block.fields| {
      var here, later := Spelled(box, from, reverse, env), DepthFirst(box, Step(from, reverse), reverse, env);
      FlatteningOrder(box, Step(from, reverse), reverse, env);
      SpelledOrder(box, from, reverse, env);
      forall p, q | p in here && q in later ensures Follows(box, p, q, reverse) {
        SpelledHead(box, from, reverse, env, p);
        FlatteningMembers(box, Step(from, reverse), reverse, env, q);
      }
      OrderedConcat(box, here, later, reverse);
    }
  }

  lemma {:induction false} SpelledHead(box: Box, field: nat, reverse: bool, env: Env, p: Position)
    requires field < |box.block.fields| && p in Spelled(box, field, reverse, env)
    ensures Route(box, p)[0] == field
  {
    MetAt(box, field, env, p);
    if OpenAt(box, field, env) {
      var inner := box.Enter(field);
      FlatteningMembers(inner, Start(inner.block.fields, reverse), reverse, env, p);
    }
  }

  lemma {:induction false} SpelledOrder(box: Box, field: nat, reverse: bool, env: Env)
    requires field < |box.block.fields|
    ensures Ordered(box, Spelled(box, field, reverse, env), reverse)
    decreases box.block, 0
  {
    if OpenAt(box, field, env) {
      var inner := box.Enter(field);
      var start := Start(inner.block.fields, reverse);
      var all := DepthFirst(inner, start, reverse, env);
      FlatteningOrder(inner, start, reverse, env);
      forall i, j | 0 <= i < j < |all| ensures Follows(box, all[i], all[j], reverse) {
        assert all[i] in all && all[j] in all;
        RouteInside(box, field, start, reverse, env, all[i]);
        RouteInside(box, field, start, reverse, env, all[j]);
        EarlierUnder(field, Route(inner, all[i]), Route(inner, all[j]));
        EarlierUnder(field, Route(inner, all[j]), Route(inner, all[i]));
        assert Follows(inner, all[i], all[j], reverse);
      }
      assert Spelled(box, field, reverse, env) == all;
    }
  }

  lemma RouteInside(box: Box, field: nat, start: int, reverse: bool, env: Env, p: Position)
    requires OpenAt(box, field, env) && start == Start(box.Enter(field).block.fields, reverse)
    requires p in DepthFirst(box.Enter(field), start, reverse, env)
    ensures Route(box, p) == [field] + Route(box.Enter(field), p)
  {
    FlatteningMembers(box.Enter(field), start, reverse, env, p);
    MetAt(box, field, env, p);
  }

  // ---------- when a run is complete ----------

  ghost predicate HasActive(box: Box, env: Env) {
    exists j :: 0 <= j < |box.block.fields| && Met(box.block.fields[j].cond, box.scope, env)
  }

  // Every field that is entered, at any depth, has an active field inside.
  ghost predicate NoneEmpty(box: Box, env: Env) {
    forall inner, field :: Reaches(box, inner, env) && OpenAt(inner, field, env) ==> HasActive(inner.Enter(field), env)
  }

  lemma {:induction false} PopulatedMeans(box: Box, env: Env)
    ensures Populated(box, 0, false, env) <==> NoneEmpty(box, env)
    decreases box.block
  {
    forall i | 0 <= i < |box.block.fields| && OpenAt(box, i, env)
      ensures PopulatedAt(box, i, false, env) <==> HasActive(box.Enter(i), env) && NoneEmpty(box.Enter(i), env)
      ensures NoneEmpty(box, env) ==> NoneEmpty(box.Enter(i), env)
    {
      PopulatedMeans(box.Enter(i), env);
      ActiveInside(box.Enter(i), env);
      forall inner, field | NoneEmpty(box, env) && Reaches(box.Enter(i), inner, env) && OpenAt(inner, field, env)
        ensures HasActive(inner.Enter(field), env)
      {
        ReachesThrough(box, inner, i, env);
      }
    }
    if NoneEmpty(box, env) {
      forall i | 0 <= i < |box.block.fields| ensures PopulatedAt(box, i, false, env) {
        if OpenAt(box, i, env) {
          assert Reaches(box, box, env);
        }
      }
    }
    if Populated(box, 0, false, env) {
      forall inner, field | Reaches(box, inner, env) && OpenAt(inner, field, env)
        ensures HasActive(inner.Enter(field), env)
      {
        if inner == box {
          assert PopulatedAt(box, field, false, env);
        } else {
          WayHead(box, inner, env);
          var head := Way(box, inner)[0];
          assert Way(box, inner)[..1] == [head];
          ReachesThrough(box, inner, head, env);
          assert PopulatedAt(box, head, false, env);
        }
      }
    }
  }

  lemma ActiveInside(box: Box, env: Env)
    ensures (exists j :: Active(box, j, env)) <==> HasActive(box, env)
  {
    if j :| Active(box, j, env) {
      assert Met(box.block.fields[j].cond, box.scope, env);
    }
    if j :| 0 <= j < |box.block.fields| && Met(box.block.fields[j].cond, box.scope, env) {
      assert Active(box, j, env);
    }
  }

  // A run comes back to its box exactly when nothing that is entered is empty. It has then visited
  // the members of the box, each once, in order or, for a reversed tracker, in the opposite order.
  lemma RunVisitsMembers(box: Box, reverse: bool, env: Env)
    requires Decided(env)
    ensures WholeWalk(box, reverse, env).stop == Complete <==> NoneEmpty(box, env)
    ensures NoneEmpty(box, env) ==>
      && (forall p :: p in WholeWalk(box, reverse, env).fields <==> IsMember(box, p, env))
      && Ordered(box, WholeWalk(box, reverse, env).fields, reverse)
  {
    TraversalTheorem(box, env);
    PopulatedMeans(box, env);
    PopulatedBothWays(box, env);
    if NoneEmpty(box, env) {
      var start := Start(box.block.fields, reverse);
      WalkIsDepthFirst(box, start, reverse, env);
      FlatteningOrder(box, start, reverse, env);
      forall p ensures p in WholeWalk(box, reverse, env).fields <==> IsMember(box, p, env) {
        FlatteningMembers(box, start, reverse, env, p);
        if IsMember(box, p, env) {
          RouteHead(box, p, env);
        }
      }
    }
  }
}
