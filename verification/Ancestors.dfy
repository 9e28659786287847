// The common ancestor of two data paths, and the builtin "index" (expr.c).

module Ancestors {
  import opened Wrappers

  datatype TrackPath = NoType | FieldStep(field: nat) | ArrayStep(index: int) | SliceStep(first: int, last: int)

  // track_path_eq; values of this type are equal when their steps are.
  predicate TrackPathEq(p1: TrackPath, p2: TrackPath) {
    match (p1, p2)
    case (NoType, NoType) => true
    case (FieldStep(f1), FieldStep(f2)) => f1 == f2
    case (ArrayStep(i1), ArrayStep(i2)) => i1 == i2
    case (SliceStep(i1, j1), SliceStep(i2, j2)) => i1 == i2 && j1 == j2
    case _ => false
  }

  datatype Box = Box(path: TrackPath, parent: Option<Box>)
  {
    function Depth(): nat {
      if parent.None? then 0 else parent.value.Depth() + 1
    }

    // The boxes from the root down to this one.
    function Chain(): (boxes: seq<Box>)
      ensures |boxes| == Depth() + 1 && boxes[|boxes| - 1] == this
    {
      (if parent.None? then [] else parent.value.Chain()) + [this]
    }
  }

  // A data path is an item within a box, or a box.
  datatype Dpath = Item(box: Box, cur: TrackPath) | Container(box: Box)
  {
    function ParentBox(): Option<Box> {
      if Item? then Some(box) else box.parent
    }

    function Path(): TrackPath {
      if Item? then cur else box.path
    }

    // The boxes around it, from the root.
    function Outer(): seq<Box> {
      if ParentBox().None? then [] else ParentBox().value.Chain()
    }

    // Root-to-node sequence, this path last.
    function Nodes(): (nodes: seq<Dpath>)
      ensures |nodes| == |Outer()| + 1 && nodes[|nodes| - 1] == this
    {
      Containers(Outer()) + [this]
    }

    function Paths(): (paths: seq<TrackPath>)
      ensures |paths| == |Nodes()|
    {
      PathsOf(Nodes())
    }
  }

  function Containers(boxes: seq<Box>): (nodes: seq<Dpath>)
    ensures |nodes| == |boxes|
    ensures forall i :: 0 <= i < |boxes| ==> nodes[i] == Container(boxes[i])
  {
    seq(|boxes|, i requires 0 <= i < |boxes| => Container(boxes[i]))
  }

  function PathsOf(nodes: seq<Dpath>): (paths: seq<TrackPath>)
    ensures |paths| == |nodes|
    ensures forall i :: 0 <= i < |nodes| ==> paths[i] == nodes[i].Path()
  {
    seq(|nodes|, i requires 0 <= i < |nodes| => nodes[i].Path())
  }

  // The length of the longest common prefix.
  function CommonPrefix(p: seq<TrackPath>, q: seq<TrackPath>): (n: nat)
    ensures n <= |p| && n <= |q|
  {
    if p == [] || q == [] || p[0] != q[0] then 0 else 1 + CommonPrefix(p[1..], q[1..])
  }

  lemma {:induction false} CommonPrefixMeaning(p: seq<TrackPath>, q: seq<TrackPath>, n: nat)
    requires n <= |p| && n <= |q|
    ensures n == CommonPrefix(p, q)
       <==> p[..n] == q[..n] && (n < |p| && n < |q| ==> p[n] != q[n])
  {
    if p == [] || q == [] {
    } else if p[0] != q[0] {
      assert n > 0 ==> p[..n][0] != q[..n][0];
    } else if n > 0 {
      CommonPrefixMeaning(p[1..], q[1..], n - 1);
      assert p[..n] == [p[0]] + p[1..][..n - 1];
      assert q[..n] == [q[0]] + q[1..][..n - 1];
      assert p[..n] == q[..n] ==> p[1..][..n - 1] == p[..n][1..] == q[1..][..n - 1];
    }
  }

  // expr_dpath_is
  predicate Is(d1: Dpath, d2: Dpath) {
    d1 == d2
  }

  // The boxes from the inner one outwards
  function Upwards(inner: Option<Box>): seq<Box> {
    if inner.None? then [] else [inner.value] + Upwards(inner.value.parent)
  }

  lemma {:induction false} UpwardsIsChain(box: Box)
    ensures |Upwards(Some(box))| == |box.Chain()|
    ensures forall i :: 0 <= i < |box.Chain()| ==> Upwards(Some(box))[i] == box.Chain()[|box.Chain()| - 1 - i]
  {
    if box.parent.Some? {
      UpwardsIsChain(box.parent.value);
    }
  }

  // The walk collects the boxes from the parent box to the root.
  method CollectAncestors(inner: Option<Box>) returns (ancestors: seq<Box>)
    ensures ancestors == Upwards(inner)
  {
    ancestors := [];
    var box := inner;
    while box.Some?
      invariant ancestors + Upwards(box) == Upwards(inner)
      decreases box
    {
      ancestors := ancestors + [box.value];
      box := box.value.parent;
    }
  }

  // The same, said of the nodes of a data path.
  method AncestorsOf(d: Dpath) returns (ancestors: seq<Box>)
    ensures |ancestors| == |d.Paths()| - 1
    ensures forall i :: 0 <= i < |ancestors| ==>
              Container(ancestors[i]) == d.Nodes()[|ancestors| - 1 - i]
              && ancestors[i].path == d.Paths()[|ancestors| - 1 - i]
  {
    ancestors := CollectAncestors(d.ParentBox());
    if d.ParentBox().Some? {
      UpwardsIsChain(d.ParentBox().value);
    }
  }

  ghost predicate Agree(p: seq<TrackPath>, q: seq<TrackPath>, n: nat) {
    n <= |p| && n <= |q| && p[..n] == q[..n]
  }

  lemma AgreeStep(p: seq<TrackPath>, q: seq<TrackPath>, n: nat)
    requires Agree(p, q, n) && n < |p| && n < |q|
    ensures Agree(p, q, n + 1) <==> p[n] == q[n]
    ensures p[n] != q[n] ==> CommonPrefix(p, q) == n
    ensures p[n] == q[n] && (n + 1 == |p| || n + 1 == |q|) ==> CommonPrefix(p, q) == n + 1
  {
    assert p[..n + 1] == p[..n] + [p[n]];
    assert q[..n + 1] == q[..n] + [q[n]];
    CommonPrefixMeaning(p, q, n);
    CommonPrefixMeaning(p, q, n + 1);
  }

  // expr_dpath_find_common_ancestor: on each side, the node at the end of the longest common
  // prefix of the two root-to-node sequences. The roots must have no path type.
  method FindCommonAncestor(d1: Dpath, d2: Dpath) returns (a1: Dpath, a2: Dpath)
    requires d1.Paths()[0] == NoType == d2.Paths()[0]
    ensures var n := CommonPrefix(d1.Paths(), d2.Paths());
            n > 0 && a1 == d1.Nodes()[n - 1] && a2 == d2.Nodes()[n - 1]
  {
    hide Dpath.Nodes, Dpath.Outer, Dpath.ParentBox, PathsOf, CommonPrefix;
    ghost var p, q := d1.Paths(), d2.Paths();
    var ancestors1 := AncestorsOf(d1);
    var ancestors2 := AncestorsOf(d2);
    AgreeStep(p, q, 0);
    if ancestors1 == [] || ancestors2 == [] {
      a1 := if ancestors1 == [] then d1 else Container(ancestors1[|ancestors1| - 1]);
      a2 := if ancestors2 == [] then d2 else Container(ancestors2[|ancestors2| - 1]);
      return;
    }
    // positions in the two lists; the parent boxes are at position 0
    var i1, i2 := |ancestors1| - 1, |ancestors2| - 1;
    ghost var k := 0;
    var pathEq := TrackPathEq(ancestors1[i1].path, ancestors2[i2].path);
    while pathEq && i1 != 0 && i2 != 0
      invariant 0 <= i1 == |ancestors1| - 1 - k && 0 <= i2 == |ancestors2| - 1 - k && k >= 0
      invariant Agree(p, q, k) && (pathEq <==> p[k] == q[k]) && (k == 0 ==> pathEq)
      decreases i1
    {
      AgreeStep(p, q, k);
      i1, i2, k := i1 - 1, i2 - 1, k + 1;
      pathEq := TrackPathEq(ancestors1[i1].path, ancestors2[i2].path);
    }
    AgreeStep(p, q, k);
    if !pathEq {
      return Container(ancestors1[i1 + 1]), Container(ancestors2[i2 + 1]);
    }
    var next1 := if i1 == 0 then d1 else Container(ancestors1[i1 - 1]);
    var next2 := if i2 == 0 then d2 else Container(ancestors2[i2 - 1]);
    AgreeStep(p, q, k + 1);
    if !TrackPathEq(next1.Path(), next2.Path()) {
      return Container(ancestors1[i1]), Container(ancestors2[i2]);
    }
    return next1, next2;
  }

  lemma {:induction false} ChainDepths(box: Box, i: nat)
    requires i < |box.Chain()|
    ensures box.Chain()[i].Depth() == i
    ensures box.Chain()[i].Chain() == box.Chain()[..i + 1]
  {
    if i < box.Depth() {
      ChainDepths(box.parent.value, i);
      assert box.Chain()[..i + 1] == box.parent.value.Chain()[..i + 1];
    } else {
      assert box.Chain()[..i + 1] == box.Chain();
    }
  }

  // What the sequences are: each node but the last is a box, in the box before it, from the root
  // down; an item is in its box, and a box in its parent.
  lemma NodesAreNested(d: Dpath)
    ensures var nodes, last := d.Nodes(), |d.Nodes()| - 1;
      && nodes[last] == d
      && (last == 0 <==> d.Container? && d.box.parent.None?)
      && (last > 0 ==> nodes[last - 1] == Container(if d.Item? then d.box else d.box.parent.value))
      && (forall i :: 0 <= i < last ==> nodes[i].Container? && (nodes[i].box.parent.None? <==> i == 0))
      && (forall i :: 0 < i < last ==> nodes[i].box.parent == Some(nodes[i - 1].box))
    ensures forall i :: 0 <= i < |d.Nodes()| ==>
      d.Paths()[i] == if d.Nodes()[i].Item? then d.Nodes()[i].cur else d.Nodes()[i].box.path
  {
    var nodes, last := d.Nodes(), |d.Nodes()| - 1;
    if last > 0 {
      var inner := d.ParentBox().value;
      forall i | 0 <= i < last
        ensures nodes[i] == Container(inner.Chain()[i]) && (nodes[i].box.parent.None? <==> i == 0)
        ensures i > 0 ==> nodes[i].box.parent == Some(inner.Chain()[i - 1])
      {
        ChainDepths(inner, i);
        var box := inner.Chain()[i];
        if i > 0 {
          assert box.Chain()[i - 1] == inner.Chain()[..i + 1][i - 1];
          assert box.parent.value == box.parent.value.Chain()[i - 1] == box.Chain()[i - 1];
        }
      }
    }
  }

  // A node of a sequence is the whole path only if it is the last one.
  lemma LastNodeOnly(d: Dpath, i: nat)
    requires i < |d.Nodes()|
    ensures d.Nodes()[i] == d <==> i == |d.Nodes()| - 1
  {
    if i < |d.Nodes()| - 1 {
      var inner := d.ParentBox().value;
      assert d.Nodes()[i] == Container(inner.Chain()[i]);
      ChainDepths(inner, i);
      assert d.Container? ==> d.box.Depth() == inner.Depth() + 1;
    }
  }

  // The first array step at or after position n.
  function FirstArrayStep(paths: seq<TrackPath>, n: nat): Option<int>
    decreases |paths| - n
  {
    if n >= |paths| then None
    else if paths[n].ArrayStep? then Some(paths[n].index)
    else FirstArrayStep(paths, n + 1)
  }

  // The index of an array step that no other comes before
  ghost predicate IsFirstArrayStep(paths: seq<TrackPath>, n: nat, v: int) {
    exists k :: n <= k < |paths| && paths[k] == ArrayStep(v) && forall j :: n <= j < k ==> !paths[j].ArrayStep?
  }

  lemma {:induction false} FirstArrayStepMeaning(paths: seq<TrackPath>, n: nat)
    ensures forall v :: FirstArrayStep(paths, n) == Some(v) <==> IsFirstArrayStep(paths, n, v)
    ensures FirstArrayStep(paths, n) == None <==> forall k :: n <= k < |paths| ==> !paths[k].ArrayStep?
    decreases |paths| - n
  {
    if n < |paths| {
      if paths[n].ArrayStep? {
        assert paths[n] == ArrayStep(paths[n].index);
      } else {
        FirstArrayStepMeaning(paths, n + 1);
        forall v ensures IsFirstArrayStep(paths, n, v) <==> IsFirstArrayStep(paths, n + 1, v) {
        }
      }
    }
  }

  datatype IndexResult = Index(value: Option<int>) | NotADescendant

  // expr_eval_builtin_index, after the evaluation of its arguments: the first array step
  // below the array, provided the item lies below it.
  method BuiltinIndex(array_: Dpath, item: Dpath) returns (r: IndexResult)
    requires array_.Paths()[0] == NoType == item.Paths()[0]
    ensures var n := |array_.Paths()|;
            if n < |item.Paths()| && item.Paths()[..n] == array_.Paths()
            then r.Index? && forall v :: r == Index(Some(v)) <==> IsFirstArrayStep(item.Paths(), n, v)
            else r == NotADescendant
    ensures r == Index(None) ==>
              forall k :: |array_.Paths()| <= k < |item.Paths()| ==> !item.Paths()[k].ArrayStep?
  {
    hide IsFirstArrayStep, Dpath.Nodes, Dpath.Outer, Dpath.ParentBox, PathsOf, CommonPrefix;
    ghost var n := CommonPrefix(array_.Paths(), item.Paths());
    CommonPrefixMeaning(array_.Paths(), item.Paths(), n);
    var arrayAncestor, itemAncestor := FindCommonAncestor(array_, item);
    LastNodeOnly(array_, n - 1);
    LastNodeOnly(item, n - 1);
    BelowExactly(array_.Paths(), item.Paths());
    if !Is(arrayAncestor, array_) || Is(item, itemAncestor) {
      return NotADescendant;
    }
    var node := item;
    var track := None;
    ghost var i := |item.Nodes()| - 1;
    while true
      invariant n <= i < |item.Nodes()| && node == item.Nodes()[i]
      invariant track == FirstArrayStep(item.Paths(), i + 1)
      decreases i
    {
      var cur := node.Path();
      if cur.ArrayStep? {
        track := Some(cur.index);
      }
      NodeParent(item, i);
      node := Container(node.ParentBox().value);
      i := i - 1;
      NodesDiffer(item, i, n - 1);
      if Is(node, itemAncestor) {
        break;
      }
    }
    FirstArrayStepMeaning(item.Paths(), |array_.Paths()|);
    return Index(track);
  }

  // One sequence is all common prefix exactly when it begins the other.
  lemma BelowExactly(a: seq<TrackPath>, b: seq<TrackPath>)
    ensures CommonPrefix(a, b) == |a| <==> |a| <= |b| && b[..|a|] == a
  {
    CommonPrefixMeaning(a, b, CommonPrefix(a, b));
    assert a[..|a|] == a;
    if |a| <= |b| {
      CommonPrefixMeaning(a, b, |a|);
    }
  }

  lemma NodeParent(d: Dpath, i: nat)
    requires 0 < i < |d.Nodes()|
    ensures d.Nodes()[i].ParentBox().Some? && Container(d.Nodes()[i].ParentBox().value) == d.Nodes()[i - 1]
  {
    var inner := d.ParentBox().value;
    ChainDepths(inner, i - 1);
    if i < |d.Nodes()| - 1 {
      ChainDepths(inner, i);
      var box := inner.Chain()[i];
      assert box.Chain() == inner.Chain()[..i + 1];
      assert box.parent.value == box.parent.value.Chain()[i - 1] == box.Chain()[i - 1];
    }
  }

  lemma NodesDiffer(d: Dpath, i: nat, j: nat)
    requires i < |d.Nodes()| - 1 && j < |d.Nodes()| - 1
    ensures d.Nodes()[i] == d.Nodes()[j] <==> i == j
  {
    ChainDepths(d.ParentBox().value, i);
    ChainDepths(d.ParentBox().value, j);
  }
}
