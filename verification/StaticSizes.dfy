// Static size inference for arrays (array.c) and the size shortcuts that rest on it
// (array.c, container.c, item.c).

module StaticSizes {

  // What the array's length expression is after compilation
  datatype Count =
    | Native(value: int)    // a native integer
    | Computed              // an integer known at run time only
    | Slack                 // no length: as many items as there is room for

  datatype ItemType =
    | Byte
    | Array(item: ItemType, count: Count)

  // ---------- the annotations of a type ----------

  const UNDEFINED := -1

  function MinSize(t: ItemType): nat {
    match t
    case Byte => 1
    case Array(item, Native(n)) => if n > 0 then Scale(n, MinSize(item)) else 0
    case Array(_, _) => 0
  }

  predicate IsVariable(t: ItemType) {
    match t
    case Byte => false
    case Array(item, Native(n)) => n <= 0 || IsVariable(item)
    case Array(_, _) => true
  }

  function Scale(n: nat, size: nat): nat {
    n * size
  }

  // The node of a type in the syntax tree, with the fields that compilation annotates
  class TypeNode {
    const item: TypeNode?
    const count: Count
    var minSpanSize: int
    var spanSizeVariable: bool
    var usesSlack: bool
    var fillsSlack: bool
    ghost const shape: ItemType
    ghost const nodes: set<TypeNode>

    ghost predicate Valid()
      decreases shape
    {
      match shape
      case Byte => item == null && nodes == {this}
      case Array(i, c) =>
        && item != null && item.shape == i && item.Valid() && c == count
        && this !in item.nodes && nodes == {this} + item.nodes
    }

    ghost predicate Fresh()
      reads this
    {
      minSpanSize == UNDEFINED && !spanSizeVariable && !usesSlack && !fillsSlack
    }

    ghost predicate Annotated()
      reads this
    {
      && minSpanSize == MinSize(shape)
      && spanSizeVariable == IsVariable(shape)
      && usesSlack == (shape.Array? && shape.count.Slack?)
      && fillsSlack == (shape == Array(Byte, Slack))
    }

    constructor OfByte()
      ensures Valid() && shape == Byte && nodes == {this} && Fresh() && fresh(this)
    {
      item, count := null, Slack;
      minSpanSize, spanSizeVariable, usesSlack, fillsSlack := UNDEFINED, false, false, false;
      shape, nodes := Byte, {this};
    }

    constructor OfArray(item: TypeNode, count: Count)
      requires item.Valid()
      ensures Valid() && shape == Array(item.shape, count) && Fresh() && fresh(this)
      ensures nodes == {this} + item.nodes && this !in item.nodes
    {
      this.item, this.count := item, count;
      minSpanSize, spanSizeVariable, usesSlack, fillsSlack := UNDEFINED, false, false, false;
      shape, nodes := Array(item.shape, count), {this} + item.nodes;
    }

    // compile_span_size_byte and compile_span_size_array. Only an array with a positive native
    // count needs its item type first; otherwise the item type is compiled afterwards.
    method CompileSpanSize()
      requires Valid() && forall n <- nodes :: n.Fresh()
      modifies nodes
      ensures forall n <- nodes :: n.Annotated()
      decreases shape
    {
      if item == null {
        minSpanSize := 1;
        return;
      }
      if count.Native? && count.value > 0 {
        item.CompileSpanSize();
        minSpanSize := count.value * item.minSpanSize;
        spanSizeVariable := item.spanSizeVariable;
      } else {
        minSpanSize := 0;
        spanSizeVariable := true;
      }
      if count == Slack {
        usesSlack := true;
        fillsSlack := item.item == null;
      }
      if !(count.Native? && count.value > 0) {
        item.CompileSpanSize();
      }
    }
  }

  // ---------- data laid out in a file ----------

  datatype Layout =
    | OneByte
    | Items(items: seq<Layout>)

  predicate Conforms(t: ItemType, l: Layout)
    decreases l
  {
    match t
    case Byte => l.OneByte?
    case Array(item, count) =>
      && l.Items?
      && (count.Native? ==> |l.items| == count.value)
      && forall k :: 0 <= k < |l.items| ==> Conforms(item, l.items[k])
  }

  function Size(l: Layout): nat
    decreases l, 1, 0
  {
    match l
    case OneByte => 1
    case Items(items) => SizeOfFirst(l, |items|)
  }

  // Size of the first n items
  function SizeOfFirst(l: Layout, n: nat): nat
    requires l.Items? && n <= |l.items|
    decreases l, 0, n
  {
    if n == 0 then 0 else SizeOfFirst(l, n - 1) + Size(l.items[n - 1])
  }

  lemma {:induction false} SameSizes(l: Layout, m: Layout, n: nat)
    requires l.Items? && m.Items? && n <= |l.items| && n <= |m.items| && l.items[..n] == m.items[..n]
    ensures SizeOfFirst(l, n) == SizeOfFirst(m, n)
    decreases n
  {
    if n > 0 {
      assert l.items[..n - 1] == l.items[..n][..n - 1] && m.items[..n - 1] == m.items[..n][..n - 1];
      assert l.items[n - 1] == l.items[..n][n - 1] && m.items[n - 1] == m.items[..n][n - 1];
      SameSizes(l, m, n - 1);
    }
  }

  // A byte takes one byte, no items none, and an item more its size more.
  lemma SizeLaws(items: seq<Layout>, last: Layout)
    ensures Size(OneByte) == 1 && Size(Items([])) == 0
    ensures Size(Items(items + [last])) == Size(Items(items)) + Size(last)
  {
    var l, m := Items(items + [last]), Items(items);
    assert l.items[..|items|] == m.items[..|items|];
    SameSizes(l, m, |items|);
  }

  // ---------- the inference is sound ----------

  lemma ScaleStep(n: nat, size: nat)
    ensures Scale(n + 1, size) == Scale(n, size) + size && Scale(0, size) == 0
  {
  }

  lemma ScaleMonotone(n: nat, a: nat, b: nat)
    ensures a <= b ==> Scale(n, a) <= Scale(n, b)
  {
    if a <= b {
      assert n * b == n * a + n * (b - a);
    }
  }

  // A layout is never smaller than the inferred minimum, and has exactly that size when the
  // type is not marked variable.
  lemma {:induction false} InferenceIsSound(t: ItemType, l: Layout)
    requires Conforms(t, l)
    ensures Size(l) >= MinSize(t)
    ensures !IsVariable(t) ==> Size(l) == MinSize(t)
    decreases l, 1, 0
  {
    if t.Array? {
      FirstItems(t.item, l, |l.items|);
    }
  }

  lemma {:induction false} FirstItems(item: ItemType, l: Layout, n: nat)
    requires l.Items? && n <= |l.items| && forall k :: 0 <= k < |l.items| ==> Conforms(item, l.items[k])
    ensures SizeOfFirst(l, n) >= Scale(n, MinSize(item))
    ensures !IsVariable(item) ==> SizeOfFirst(l, n) == Scale(n, MinSize(item))
    decreases l, 0, n
  {
    if n == 0 {
      ScaleStep(0, MinSize(item));
    } else {
      FirstItems(item, l, n - 1);
      InferenceIsSound(item, l.items[n - 1]);
      ScaleStep(n - 1, MinSize(item));
    }
  }

  // Of items of a fixed size, any number takes that number times the size.
  lemma CountTimesItemSize(t: ItemType, l: Layout)
    requires t.Array? && Conforms(t, l) && !IsVariable(t.item)
    ensures Size(l) == |l.items| * MinSize(t.item)
  {
    FirstItems(t.item, l, |l.items|);
  }

  // ---------- and it cannot be improved on ----------

  function Copies(l: Layout, n: int): Layout {
    Items(seq(if n > 0 then n else 0, _ => l))
  }

  lemma {:induction false} CopiesOfFirst(l: Layout, n: nat, k: nat)
    requires k <= n
    ensures SizeOfFirst(Copies(l, n), k) == Scale(k, Size(l))
  {
    if k == 0 {
      ScaleStep(0, Size(l));
    } else {
      CopiesOfFirst(l, n, k - 1);
      ScaleStep(k - 1, Size(l));
    }
  }

  // Types that something can be laid out for: a negative count is an error at run time.
  predicate CanBeLaidOut(t: ItemType) {
    match t
    case Byte => true
    case Array(item, Native(n)) => n == 0 || (n > 0 && CanBeLaidOut(item))
    case Array(_, _) => true
  }

  function SmallestLayout(t: ItemType): Layout {
    match t
    case Byte => OneByte
    case Array(item, Native(n)) => Copies(SmallestLayout(item), n)
    case Array(_, _) => Items([])
  }

  lemma {:induction false} OnlyThese(t: ItemType, l: Layout)
    requires Conforms(t, l)
    ensures CanBeLaidOut(t)
  {
    if t.Array? && t.count.Native? && t.count.value > 0 {
      OnlyThese(t.item, l.items[0]);
    }
  }

  // The minimum is reached: it is the size of an actual layout.
  lemma {:induction false} MinimumIsReached(t: ItemType)
    requires CanBeLaidOut(t)
    ensures Conforms(t, SmallestLayout(t)) && Size(SmallestLayout(t)) == MinSize(t)
  {
    if t.Array? && t.count.Native? && t.count.value > 0 {
      MinimumIsReached(t.item);
      CopiesOfFirst(SmallestLayout(t.item), t.count.value, t.count.value);
    }
  }

  // Types with a layout that takes any space at all
  predicate CanTakeSpace(t: ItemType) {
    match t
    case Byte => true
    case Array(item, Native(n)) => n > 0 && CanTakeSpace(item)
    case Array(item, _) => CanTakeSpace(item)
  }

  // A layout that takes space, and more than the minimum when the type is marked variable
  function LargerLayout(t: ItemType): Layout {
    match t
    case Byte => OneByte
    case Array(item, Native(n)) => Copies(LargerLayout(item), n)
    case Array(item, _) => Copies(LargerLayout(item), 1)
  }

  lemma ScaleStrict(n: nat, a: nat, b: nat)
    requires n > 0
    ensures a < b ==> Scale(n, a) < Scale(n, b)
    ensures Scale(n, b) >= b
  {
    ScaleMonotone(n - 1, a, b);
    ScaleStep(n - 1, a);
    ScaleStep(n - 1, b);
  }

  lemma {:induction false} LargerIsLarger(t: ItemType)
    requires CanTakeSpace(t)
    ensures Conforms(t, LargerLayout(t)) && Size(LargerLayout(t)) > 0
    ensures IsVariable(t) ==> Size(LargerLayout(t)) > MinSize(t)
  {
    if t.Array? {
      LargerIsLarger(t.item);
      var n := if t.count.Native? then t.count.value else 1;
      CopiesOfFirst(LargerLayout(t.item), n, n);
      ScaleStrict(n, MinSize(t.item), Size(LargerLayout(t.item)));
    }
  }

  lemma {:induction false} NoSpace(t: ItemType, l: Layout)
    requires Conforms(t, l) && !CanTakeSpace(t)
    ensures Size(l) == 0
    decreases l, 1, 0
  {
    NoSpaceInFirst(t.item, l, |l.items|);
  }

  lemma {:induction false} NoSpaceInFirst(item: ItemType, l: Layout, n: nat)
    requires l.Items? && n <= |l.items| && forall k :: 0 <= k < |l.items| ==> Conforms(item, l.items[k])
    requires n > 0 ==> !CanTakeSpace(item)
    ensures SizeOfFirst(l, n) == 0
    decreases l, 0, n
  {
    if n > 0 {
      NoSpaceInFirst(item, l, n - 1);
      NoSpace(item, l.items[n - 1]);
    }
  }

  ghost predicate HasOneSize(t: ItemType) {
    forall l :: Conforms(t, l) ==> Size(l) == MinSize(t)
  }

  // The mark is exact for every type that can take space: the size is the same for all layouts
  // if and only if the type is not marked, or only ever takes no space.
  lemma VariableMarkIsExact(t: ItemType)
    requires CanBeLaidOut(t)
    ensures HasOneSize(t) <==> !IsVariable(t) || !CanTakeSpace(t)
  {
    if !IsVariable(t) {
      forall l | Conforms(t, l) ensures Size(l) == MinSize(t) {
        InferenceIsSound(t, l);
      }
    } else if !CanTakeSpace(t) {
      MinimumIsReached(t);
      NoSpace(t, SmallestLayout(t));
      forall l | Conforms(t, l) ensures Size(l) == MinSize(t) {
        NoSpace(t, l);
      }
    } else {
      LargerIsLarger(t);
    }
  }

  // ---------- the shortcuts at run time ----------

  // The size of one item: count times the static item size, the static size, or else the used
  // size of a box made for the item.
  method ItemSize(t: ItemType, l: Layout) returns (size: nat)
    requires Conforms(t, l)
    ensures size == Size(l)
    decreases l, 2, 0
  {
    if t.Array? && t.count != Slack && !IsVariable(t.item) {
      CountTimesItemSize(t, l);
      size := |l.items| * MinSize(t.item);
    } else if !IsVariable(t) {
      InferenceIsSound(t, l);
      size := MinSize(t);
    } else {
      size := UsedSize(t, l);
    }
  }

  // The used size of an array box: one of three backends, chosen by the static annotations.
  method UsedSize(t: ItemType, l: Layout) returns (size: nat)
    requires t.Array? && Conforms(t, l)
    ensures size == Size(l)
    decreases l, 1, 0
  {
    if !IsVariable(t) {
      InferenceIsSound(t, l);
      size := MinSize(t);
    } else if !IsVariable(t.item) {
      CountTimesItemSize(t, l);
      size := |l.items| * MinSize(t.item);
    } else {
      size := 0;
      for i := 0 to |l.items|
        invariant size == SizeOfFirst(l, i)
      {
        var one := ItemSize(t.item, l.items[i]);
        size := size + one;
      }
    }
  }
}
