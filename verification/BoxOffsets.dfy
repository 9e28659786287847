// The offsets of a box (browse.c): a family of partly known boundaries on
// each side, filled in by checked setters.

module BoxOffsets {

  const UNKNOWN := -1

  // From the innermost boundary of a side to the outermost.
  datatype OffsetType = HardMin | MinSpan | Used | Span | MaxSpan | Slack | Parent

  // The boundaries of one side; a negative value stands for "unknown".
  datatype Side = Side(minSpan: int, used: int, span: int, maxSpan: int, slack: int, parent: int)
  {
    function With(kind: OffsetType, offset: int): Side {
      match kind
      case HardMin => this
      case MinSpan => this.(minSpan := offset)
      case Used => this.(used := offset)
      case Span => this.(span := offset)
      case MaxSpan => this.(maxSpan := offset)
      case Slack => this.(slack := offset)
      case Parent => this.(parent := offset)
    }
  }

  function At(offset: int): Side {
    Side(offset, offset, offset, offset, offset, offset)
  }

  // The first known boundary of a side, from the innermost
  function KnownEnd(e: Side): int {
    if e.used >= 0 then e.used
    else if e.span >= 0 then e.span
    else if e.maxSpan >= 0 then e.maxSpan
    else if e.slack >= 0 then e.slack
    else e.parent
  }

  datatype Layout = Layout(start: Side, end: Side, rightAligned: bool, overlay: bool, minSize: nat)
  {
    function HardMinEnd(): int { start.span + minSize }

    function HardMinStart(): int { end.span - minSize }
  }

  datatype Checked<T> = Ok(value: T) | OutOfBounds(registered: OffsetType)

  // ---------- the checks, with the original's fall-through order ----------

  function Rank(kind: OffsetType): nat {
    match kind
    case HardMin => 0
    case MinSpan => 1
    case Used => 2
    case Span => 3
    case MaxSpan => 4
    case Slack => 5
    case Parent => 6
  }

  // Compares with the nearest known boundary further out.
  function CheckEndOuter(box: Layout, offset: int, kind: OffsetType): Checked<()>
    decreases 6 - Rank(kind)
  {
    match kind
    case HardMin =>
      if box.end.minSpan >= 0 then AtMost(offset, box.end.minSpan, MinSpan) else CheckEndOuter(box, offset, MinSpan)
    case MinSpan =>
      if box.overlay && box.end.used >= 0 then AtMost(offset, box.end.used, Used) else CheckEndOuter(box, offset, Used)
    case Used =>
      if box.end.span >= 0 then AtMost(offset, box.end.span, Span) else CheckEndOuter(box, offset, Span)
    case Span =>
      if box.end.maxSpan >= 0 then AtMost(offset, box.end.maxSpan, MaxSpan) else CheckEndOuter(box, offset, Slack)
    case Slack =>
      if box.end.parent >= 0 then AtMost(offset, box.end.parent, Parent) else Ok(())
    case MaxSpan => Ok(())
    case Parent => Ok(())
  }

  // Compares with the nearest known boundary further in.
  function CheckEndInner(box: Layout, offset: int, kind: OffsetType): Checked<()>
    decreases Rank(kind)
  {
    match kind
    case Parent =>
      if box.end.slack >= 0 then AtLeast(offset, box.end.slack, Slack) else CheckEndInner(box, offset, Slack)
    case Slack =>
      if box.end.span >= 0 then AtLeast(offset, box.end.span, Span) else CheckEndInner(box, offset, Span)
    case MaxSpan =>
      if box.end.span >= 0 then AtLeast(offset, box.end.span, Span) else CheckEndInner(box, offset, Span)
    case Span =>
      if box.overlay && box.end.used >= 0 then AtLeast(offset, box.end.used, Used) else CheckEndInner(box, offset, Used)
    case Used =>
      if box.end.minSpan >= 0 then AtLeast(offset, box.end.minSpan, MinSpan) else CheckEndInner(box, offset, MinSpan)
    case MinSpan => AtLeast(offset, box.HardMinEnd(), HardMin)
    case HardMin => Ok(())
  }

  function AtMost(offset: int, bound: int, registered: OffsetType): Checked<()> {
    if offset > bound then OutOfBounds(registered) else Ok(())
  }

  function AtLeast(offset: int, bound: int, registered: OffsetType): Checked<()> {
    if offset < bound then OutOfBounds(registered) else Ok(())
  }

  function CheckEnd(box: Layout, offset: int, kind: OffsetType): Checked<()> {
    if !box.overlay && kind == Used then Ok(())
    else
      var outer := CheckEndOuter(box, offset, kind);
      if outer.OutOfBounds? then outer else CheckEndInner(box, offset, kind)
  }

  function CheckStartOuter(box: Layout, offset: int, kind: OffsetType): Checked<()>
    decreases 6 - Rank(kind)
  {
    match kind
    case HardMin =>
      if box.start.minSpan >= 0 then AtLeast(offset, box.start.minSpan, MinSpan) else CheckStartOuter(box, offset, MinSpan)
    case MinSpan =>
      if box.overlay && box.start.used >= 0 then AtLeast(offset, box.start.used, Used) else CheckStartOuter(box, offset, Used)
    case Used =>
      if box.start.span >= 0 then AtLeast(offset, box.start.span, Span) else CheckStartOuter(box, offset, Span)
    case Span =>
      if box.start.maxSpan >= 0 then AtLeast(offset, box.start.maxSpan, MaxSpan) else CheckStartOuter(box, offset, Slack)
    case Slack =>
      if box.start.parent >= 0 then AtLeast(offset, box.start.parent, Parent) else Ok(())
    case MaxSpan => Ok(())
    case Parent => Ok(())
  }

  function CheckStartInner(box: Layout, offset: int, kind: OffsetType): Checked<()>
    decreases Rank(kind)
  {
    match kind
    case Parent =>
      if box.start.slack >= 0 then AtMost(offset, box.start.slack, Slack) else CheckStartInner(box, offset, Slack)
    case Slack =>
      if box.start.span >= 0 then AtMost(offset, box.start.span, Span) else CheckStartInner(box, offset, Span)
    case MaxSpan =>
      if box.start.span >= 0 then AtMost(offset, box.start.span, Span) else CheckStartInner(box, offset, Span)
    case Span =>
      if box.overlay && box.start.used >= 0 then AtMost(offset, box.start.used, Used) else CheckStartInner(box, offset, Used)
    case Used =>
      if box.start.minSpan >= 0 then AtMost(offset, box.start.minSpan, MinSpan) else CheckStartInner(box, offset, MinSpan)
    case MinSpan => AtMost(offset, box.HardMinStart(), HardMin)
    case HardMin => Ok(())
  }

  // The original exempts the used offset of a non-overlay box on the end side only.
  function CheckStart(box: Layout, offset: int, kind: OffsetType): Checked<()> {
    var outer := CheckStartOuter(box, offset, kind);
    if outer.OutOfBounds? then outer else CheckStartInner(box, offset, kind)
  }

  function SetEnd(box: Layout, offset: int, kind: OffsetType): Checked<Layout> {
    match CheckEnd(box, offset, kind)
    case OutOfBounds(registered) => OutOfBounds(registered)
    case Ok(_) =>
      var stored := if kind == MinSpan && offset < box.HardMinEnd() then box.HardMinEnd() else offset;
      Ok(box.(end := box.end.With(kind, stored)))
  }

  function SetStart(box: Layout, offset: int, kind: OffsetType): Checked<Layout> {
    match CheckStart(box, offset, kind)
    case OutOfBounds(registered) => OutOfBounds(registered)
    case Ok(_) =>
      var stored := if kind == MinSpan && offset > box.HardMinStart() then box.HardMinStart() else offset;
      Ok(box.(start := box.start.With(kind, stored)))
  }

  // ---------- the box ----------

  class Box {
    const overlay: bool
    const minSize: nat
    var rightAligned: bool
    var start: Side
    var end: Side

    ghost function State(): Layout
      reads this
    {
      Layout(start, end, rightAligned, overlay, minSize)
    }

    constructor (rightAligned: bool, overlay: bool, minSize: nat, boundary: int)
      ensures this.rightAligned == rightAligned && this.overlay == overlay && this.minSize == minSize
      ensures boundary == UNKNOWN ==> start == At(UNKNOWN) && end == At(UNKNOWN)
      ensures boundary != UNKNOWN ==>
                start == (if rightAligned then At(UNKNOWN) else At(boundary))
                && end == (if rightAligned then At(boundary) else At(UNKNOWN))
    {
      this.rightAligned, this.overlay, this.minSize := rightAligned, overlay, minSize;
      start, end := At(UNKNOWN), At(UNKNOWN);
      new;
      if boundary != UNKNOWN {
        SetBoundaryOffset(boundary, UNKNOWN);
      }
    }

    // A box already placed keeps its boundary; only the limit of its parent is renewed.
    method SetBoundaryOffset(boundary: int, parentLimit: int)
      modifies this
      ensures rightAligned == old(rightAligned)
      ensures !rightAligned ==>
                start == (if old(start.parent) == UNKNOWN then At(boundary) else old(start))
                && end == old(end).(parent := parentLimit)
      ensures rightAligned ==>
                end == (if old(end.parent) == UNKNOWN then At(boundary) else old(end))
                && start == old(start).(parent := parentLimit)
    {
      if rightAligned {
        if end.parent == UNKNOWN {
          end := At(boundary);
        }
        start := start.(parent := parentLimit);
      } else {
        if start.parent == UNKNOWN {
          start := At(boundary);
        }
        end := end.(parent := parentLimit);
      }
    }

    // box_inherit_boundary_offset: the boundary and the limit are the first known of the parent.
    method InheritBoundaryOffset(parent: Box)
      requires parent != this
      modifies this
      ensures rightAligned == old(rightAligned)
      ensures !rightAligned ==>
                start == (if old(start.parent) == UNKNOWN then At(KnownEnd(parent.start)) else old(start))
                && end == old(end).(parent := KnownEnd(parent.end))
      ensures rightAligned ==>
                end == (if old(end.parent) == UNKNOWN then At(KnownEnd(parent.end)) else old(end))
                && start == old(start).(parent := KnownEnd(parent.start))
    {
      if rightAligned {
        SetBoundaryOffset(KnownEnd(parent.end), KnownEnd(parent.start));
      } else {
        SetBoundaryOffset(KnownEnd(parent.start), KnownEnd(parent.end));
      }
    }

    method SetEndOffset(offset: int, kind: OffsetType) returns (r: Checked<()>)
      modifies this
      ensures match SetEnd(old(State()), offset, kind)
              case Ok(box) => r.Ok? && State() == box
              case OutOfBounds(registered) => r == OutOfBounds(registered) && unchanged(this)
    {
      r := CheckEnd(Layout(start, end, rightAligned, overlay, minSize), offset, kind);
      if r.OutOfBounds? {
        return;
      }
      match kind
      case Parent => end := end.(parent := offset);
      case Slack => end := end.(slack := offset);
      case MaxSpan => end := end.(maxSpan := offset);
      case Span => end := end.(span := offset);
      case MinSpan =>
        var hardMin := start.span + minSize;
        end := end.(minSpan := if offset > hardMin then offset else hardMin);
      case Used => end := end.(used := offset);
      case HardMin =>
    }

    method SetStartOffset(offset: int, kind: OffsetType) returns (r: Checked<()>)
      modifies this
      ensures match SetStart(old(State()), offset, kind)
              case Ok(box) => r.Ok? && State() == box
              case OutOfBounds(registered) => r == OutOfBounds(registered) && unchanged(this)
    {
      r := CheckStart(Layout(start, end, rightAligned, overlay, minSize), offset, kind);
      if r.OutOfBounds? {
        return;
      }
      match kind
      case Parent => start := start.(parent := offset);
      case Slack => start := start.(slack := offset);
      case MaxSpan => start := start.(maxSpan := offset);
      case Span => start := start.(span := offset);
      case MinSpan =>
        var hardMin := end.span - minSize;
        start := start.(minSpan := if offset < hardMin then offset else hardMin);
      case Used => start := start.(used := offset);
      case HardMin =>
    }

    method SetSize(size: int, kind: OffsetType) returns (r: Checked<()>)
      requires if rightAligned then end.span != UNKNOWN else start.span != UNKNOWN
      modifies this
      ensures var outcome := if old(rightAligned) then SetStart(old(State()), old(end.span) - size, kind)
                             else SetEnd(old(State()), old(start.span) + size, kind);
              match outcome
              case Ok(box) => r.Ok? && State() == box
              case OutOfBounds(registered) => r == OutOfBounds(registered) && unchanged(this)
    {
      hide SetEnd, SetStart;
      if rightAligned {
        r := SetStartOffset(end.span - size, kind);
      } else {
        r := SetEndOffset(start.span + size, kind);
      }
    }
  }

  // ---------- what every setting keeps ----------

  // Known offsets are in order; unknown ones are no obstacle.
  predicate Ordered(inner: int, outer: int) {
    inner >= 0 && outer >= 0 ==> inner <= outer
  }

  // hard min <= min span <= used <= span <= max span. The used offset of a non-overlay box is
  // not part of the chain.
  predicate EndChain(box: Layout) {
    var hardMin, e := box.HardMinEnd(), box.end;
    && Ordered(hardMin, e.minSpan) && Ordered(hardMin, e.span) && Ordered(hardMin, e.maxSpan)
    && Ordered(e.minSpan, e.span) && Ordered(e.minSpan, e.maxSpan)
    && Ordered(e.span, e.maxSpan)
    && (box.overlay ==> Ordered(hardMin, e.used) && Ordered(e.minSpan, e.used)
                        && Ordered(e.used, e.span) && Ordered(e.used, e.maxSpan))
  }

  predicate StartChain(box: Layout) {
    var hardMin, s := box.HardMinStart(), box.start;
    && Ordered(s.minSpan, hardMin) && Ordered(s.span, hardMin) && Ordered(s.maxSpan, hardMin)
    && Ordered(s.span, s.minSpan) && Ordered(s.maxSpan, s.minSpan)
    && Ordered(s.maxSpan, s.span)
    && (box.overlay ==> Ordered(s.used, hardMin) && Ordered(s.used, s.minSpan)
                        && Ordered(s.span, s.used) && Ordered(s.maxSpan, s.used))
  }

  predicate LeftSpans(box: Layout) {
    !box.rightAligned && box.start.span >= 0 && EndChain(box)
  }

  predicate RightSpans(box: Layout) {
    box.rightAligned && box.end.span >= 0 && StartChain(box)
  }

  // The chain, and slack <= parent
  predicate LeftInvariant(box: Layout) {
    LeftSpans(box) && Ordered(box.end.slack, box.end.parent)
  }

  predicate RightInvariant(box: Layout) {
    RightSpans(box) && Ordered(box.start.parent, box.start.slack)
  }

  lemma SetEndKeepsChain(box: Layout, offset: int, kind: OffsetType)
    requires LeftSpans(box) && SetEnd(box, offset, kind).Ok?
    ensures LeftSpans(SetEnd(box, offset, kind).value)
    ensures LeftInvariant(box) ==> LeftInvariant(SetEnd(box, offset, kind).value)
    ensures kind == Slack || kind == Parent ==> LeftInvariant(SetEnd(box, offset, kind).value)
    ensures kind != HardMin && (box.overlay || kind != Used) ==> offset >= 0
  {
  }

  // Here a negative request may be accepted; it is then read as "unknown".
  lemma SetStartKeepsChain(box: Layout, offset: int, kind: OffsetType)
    requires RightSpans(box) && SetStart(box, offset, kind).Ok?
    ensures RightSpans(SetStart(box, offset, kind).value)
    ensures RightInvariant(box) ==> RightInvariant(SetStart(box, offset, kind).value)
    ensures kind == Slack || kind == Parent ==> RightInvariant(SetStart(box, offset, kind).value)
  {
  }

  predicate AmongSpans(box: Layout, offset: int) {
    offset >= 0 && ((box.overlay && offset == box.end.used) || offset == box.end.span || offset == box.end.maxSpan)
  }

  // The first known end of an overlay box is the least of used, span and max span as far as they
  // are known; the slack counts only without them, and the parent only without the slack.
  lemma KnownEndIsLeast(box: Layout)
    requires LeftSpans(box) && box.overlay
    ensures var end := KnownEnd(box.end);
      && (forall offset :: AmongSpans(box, offset) ==> AmongSpans(box, end) && end <= offset)
      && ((forall offset :: !AmongSpans(box, offset)) ==> end == if box.end.slack >= 0 then box.end.slack else box.end.parent)
  {
    assert AmongSpans(box, box.end.used) <==> box.end.used >= 0;
    assert AmongSpans(box, box.end.span) <==> box.end.span >= 0;
    assert AmongSpans(box, box.end.maxSpan) <==> box.end.maxSpan >= 0;
  }

  predicate AmongStartSpans(box: Layout, offset: int) {
    offset >= 0 && ((box.overlay && offset == box.start.used) || offset == box.start.span || offset == box.start.maxSpan)
  }

  // And the first known start of one that is placed from its end the greatest
  lemma KnownStartIsGreatest(box: Layout)
    requires RightSpans(box) && box.overlay
    ensures var start := KnownEnd(box.start);
      && (forall offset :: AmongStartSpans(box, offset) ==> AmongStartSpans(box, start) && start >= offset)
      && ((forall offset :: !AmongStartSpans(box, offset)) ==>
            start == if box.start.slack >= 0 then box.start.slack else box.start.parent)
  {
    assert AmongStartSpans(box, box.start.used) <==> box.start.used >= 0;
    assert AmongStartSpans(box, box.start.span) <==> box.start.span >= 0;
    assert AmongStartSpans(box, box.start.maxSpan) <==> box.start.maxSpan >= 0;
  }

  // ---------- what the checks amount to ----------

  // The fall-through comparison with one neighbour decides the whole order: a setting is
  // accepted exactly when everything known further in is at most, and everything known further
  // out at least, the offset. Slack and parent are no bound while a nearer one is known, and
  // the max span is bounded from inside only.
  predicate EndAccepts(box: Layout, offset: int, kind: OffsetType) {
    var e := box.end;
    var used := if box.overlay then e.used else UNKNOWN;
    offset >= 0 &&
    match kind
    case HardMin =>
      if e.minSpan >= 0 || used >= 0 || e.span >= 0 || e.maxSpan >= 0
      then Ordered(offset, e.minSpan) && Ordered(offset, used) && Ordered(offset, e.span) && Ordered(offset, e.maxSpan)
      else Ordered(offset, e.parent)
    case MinSpan =>
      box.HardMinEnd() <= offset
      && if used >= 0 || e.span >= 0 || e.maxSpan >= 0
         then Ordered(offset, used) && Ordered(offset, e.span) && Ordered(offset, e.maxSpan)
         else Ordered(offset, e.parent)
    case Used =>
      box.HardMinEnd() <= offset && Ordered(e.minSpan, offset)
      && if e.span >= 0 || e.maxSpan >= 0
         then Ordered(offset, e.span) && Ordered(offset, e.maxSpan)
         else Ordered(offset, e.parent)
    case Span =>
      box.HardMinEnd() <= offset && Ordered(e.minSpan, offset) && Ordered(used, offset)
      && if e.maxSpan >= 0 then offset <= e.maxSpan else Ordered(offset, e.parent)
    case MaxSpan =>
      box.HardMinEnd() <= offset && Ordered(e.minSpan, offset) && Ordered(used, offset) && Ordered(e.span, offset)
    case Slack =>
      box.HardMinEnd() <= offset && Ordered(e.minSpan, offset) && Ordered(used, offset) && Ordered(e.span, offset)
      && Ordered(offset, e.parent)
    case Parent =>
      if e.slack >= 0 then e.slack <= offset
      else box.HardMinEnd() <= offset && Ordered(e.minSpan, offset) && Ordered(used, offset) && Ordered(e.span, offset)
  }

  lemma EndCheckIsExact(box: Layout, offset: int, kind: OffsetType)
    requires LeftSpans(box) && (box.overlay || kind != Used) && (kind == HardMin ==> offset >= 0)
    ensures SetEnd(box, offset, kind).Ok? <==> EndAccepts(box, offset, kind)
    ensures SetEnd(box, offset, kind).Ok? ==> SetEnd(box, offset, kind).value == box.(end := box.end.With(kind, offset))
  {
  }

  // The mirror image. On this side the hard minimum may lie before the start of the file; it is
  // then no bound for offsets compared with a nearer one.
  predicate StartAccepts(box: Layout, offset: nat, kind: OffsetType) {
    var s := box.start;
    var used := if box.overlay then s.used else UNKNOWN;
    match kind
    case HardMin =>
      if s.minSpan >= 0 || used >= 0 || s.span >= 0 || s.maxSpan >= 0
      then AboveKnown(s.minSpan, used, s.span, s.maxSpan, offset)
      else Ordered(s.parent, offset)
    case MinSpan =>
      offset <= box.HardMinStart()
      && if used >= 0 || s.span >= 0 || s.maxSpan >= 0
         then AboveKnown(UNKNOWN, used, s.span, s.maxSpan, offset)
         else Ordered(s.parent, offset)
    case Used =>
      BelowKnown(offset, s.minSpan, UNKNOWN, UNKNOWN, box.HardMinStart())
      && if s.span >= 0 || s.maxSpan >= 0
         then AboveKnown(UNKNOWN, UNKNOWN, s.span, s.maxSpan, offset)
         else Ordered(s.parent, offset)
    case Span =>
      BelowKnown(offset, s.minSpan, used, UNKNOWN, box.HardMinStart())
      && if s.maxSpan >= 0 then s.maxSpan <= offset else Ordered(s.parent, offset)
    case MaxSpan =>
      BelowKnown(offset, s.minSpan, used, s.span, box.HardMinStart())
    case Slack =>
      BelowKnown(offset, s.minSpan, used, s.span, box.HardMinStart()) && Ordered(s.parent, offset)
    case Parent =>
      if s.slack >= 0 then offset <= s.slack else BelowKnown(offset, s.minSpan, used, s.span, box.HardMinStart())
  }

  predicate AboveKnown(minSpan: int, used: int, span: int, maxSpan: int, offset: int) {
    Ordered(minSpan, offset) && Ordered(used, offset) && Ordered(span, offset) && Ordered(maxSpan, offset)
  }

  predicate BelowKnown(offset: int, minSpan: int, used: int, span: int, hardMin: int) {
    && Ordered(offset, minSpan) && Ordered(offset, used) && Ordered(offset, span)
    && (minSpan < 0 && used < 0 && span < 0 ==> offset <= hardMin)
  }

  lemma StartCheckIsExact(box: Layout, offset: nat, kind: OffsetType)
    requires RightSpans(box)
    ensures SetStart(box, offset, kind).Ok? <==> StartAccepts(box, offset, kind)
    ensures SetStart(box, offset, kind).Ok? ==> SetStart(box, offset, kind).value == box.(start := box.start.With(kind, offset))
  {
  }

  // ---------- runs ----------

  datatype Setting = Setting(offset: int, kind: OffsetType)

  // A refused setting leaves the box as it was.
  function ApplyEnd(box: Layout, setting: Setting): Layout {
    match SetEnd(box, setting.offset, setting.kind)
    case Ok(next) => next
    case OutOfBounds(_) => box
  }

  function ApplyStart(box: Layout, setting: Setting): Layout {
    match SetStart(box, setting.offset, setting.kind)
    case Ok(next) => next
    case OutOfBounds(_) => box
  }

  // What happens to a box that is placed: an offset is set, or the limit of the parent is
  // renewed, which nothing checks.
  datatype Step = Set(setting: Setting) | Renew(limit: int)

  function StepEnd(box: Layout, step: Step): Layout {
    match step
    case Set(setting) => ApplyEnd(box, setting)
    case Renew(limit) => box.(end := box.end.(parent := limit))
  }

  function StepStart(box: Layout, step: Step): Layout {
    match step
    case Set(setting) => ApplyStart(box, setting)
    case Renew(limit) => box.(start := box.start.(parent := limit))
  }

  function RunEnd(box: Layout, steps: seq<Step>): Layout
    decreases steps
  {
    if steps == [] then box else RunEnd(StepEnd(box, steps[0]), steps[1..])
  }

  function RunStart(box: Layout, steps: seq<Step>): Layout
    decreases steps
  {
    if steps == [] then box else RunStart(StepStart(box, steps[0]), steps[1..])
  }

  // A run on a box in place: settings may fail, and the boundary given with a renewed limit is
  // ignored.
  method Run(box: Box, boundary: int, steps: seq<Step>)
    requires if box.rightAligned then box.end.parent != UNKNOWN else box.start.parent != UNKNOWN
    modifies box
    ensures box.rightAligned == old(box.rightAligned)
    ensures box.State() == if old(box.rightAligned) then RunStart(old(box.State()), steps) else RunEnd(old(box.State()), steps)
  {
    for i := 0 to |steps|
      invariant box.rightAligned == old(box.rightAligned)
      invariant if box.rightAligned then box.end.parent != UNKNOWN else box.start.parent != UNKNOWN
      invariant if box.rightAligned then RunStart(box.State(), steps[i..]) == RunStart(old(box.State()), steps)
                else RunEnd(box.State(), steps[i..]) == RunEnd(old(box.State()), steps)
    {
      assert steps[i..][1..] == steps[i + 1..];
      OneStep(box, boundary, steps[i]);
    }
  }

  method OneStep(box: Box, boundary: int, step: Step)
    requires if box.rightAligned then box.end.parent != UNKNOWN else box.start.parent != UNKNOWN
    modifies box
    ensures box.State() == if old(box.rightAligned) then StepStart(old(box.State()), step) else StepEnd(old(box.State()), step)
    ensures box.rightAligned == old(box.rightAligned)
    ensures if box.rightAligned then box.end == old(box.end) else box.start == old(box.start)
  {
    hide SetEnd, SetStart;
    KeepsPlacement(box.State(), step);
    match step
    case Renew(limit) => box.SetBoundaryOffset(boundary, limit);
    case Set(setting) =>
      if box.rightAligned {
        var _ := box.SetStartOffset(setting.offset, setting.kind);
      } else {
        var _ := box.SetEndOffset(setting.offset, setting.kind);
      }
  }

  lemma KeepsPlacement(box: Layout, step: Step)
    ensures StepEnd(box, step).start == box.start && StepEnd(box, step).rightAligned == box.rightAligned
    ensures StepStart(box, step).end == box.end && StepStart(box, step).rightAligned == box.rightAligned
  {
  }

  // A left-aligned box placed at `boundary` in a parent that ends at `limit`.
  function PlacedLeft(overlay: bool, minSize: nat, boundary: nat, limit: int): Layout {
    Layout(At(boundary), At(UNKNOWN).(parent := limit), false, overlay, minSize)
  }

  function PlacedRight(overlay: bool, minSize: nat, boundary: nat, limit: int): Layout {
    Layout(At(UNKNOWN).(parent := limit), At(boundary), true, overlay, minSize)
  }

  lemma PlacedBoxesAreOrdered(overlay: bool, minSize: nat, boundary: nat, limit: int)
    ensures LeftInvariant(PlacedLeft(overlay, minSize, boundary, limit))
    ensures RightInvariant(PlacedRight(overlay, minSize, boundary, limit))
  {
  }

  // A renewed limit must cover the slack to leave slack <= parent; a setting always does.
  predicate CoversSlack(box: Layout, step: Step) {
    step.Renew? ==> Ordered(box.end.slack, step.limit)
  }

  predicate StartCoversSlack(box: Layout, step: Step) {
    step.Renew? ==> Ordered(step.limit, box.start.slack)
  }

  lemma EndStep(box: Layout, step: Step)
    requires LeftSpans(box)
    ensures LeftSpans(StepEnd(box, step))
    ensures LeftInvariant(box) ==> (LeftInvariant(StepEnd(box, step)) <==> CoversSlack(box, step))
    ensures StepEnd(box, step).start == box.start && StepEnd(box, step).overlay == box.overlay
    ensures StepEnd(box, step).minSize == box.minSize
  {
    hide EndChain, CheckEnd;
    if step.Set? && SetEnd(box, step.setting.offset, step.setting.kind).Ok? {
      SetEndKeepsChain(box, step.setting.offset, step.setting.kind);
    }
    if step.Renew? {
      RenewKeepsSpans(box, step.limit);
    }
  }

  lemma RenewKeepsSpans(box: Layout, limit: int)
    ensures EndChain(StepEnd(box, Renew(limit))) == EndChain(box)
    ensures StartChain(StepStart(box, Renew(limit))) == StartChain(box)
  {
  }

  lemma StartStep(box: Layout, step: Step)
    requires RightSpans(box)
    ensures RightSpans(StepStart(box, step))
    ensures RightInvariant(box) ==> (RightInvariant(StepStart(box, step)) <==> StartCoversSlack(box, step))
    ensures StepStart(box, step).end == box.end && StepStart(box, step).overlay == box.overlay
    ensures StepStart(box, step).minSize == box.minSize
  {
    hide StartChain, CheckStart;
    if step.Set? && SetStart(box, step.setting.offset, step.setting.kind).Ok? {
      SetStartKeepsChain(box, step.setting.offset, step.setting.kind);
    }
    if step.Renew? {
      RenewKeepsSpans(box, step.limit);
    }
  }

  // In whatever order and however often offsets are set and the limit is renewed, the chain from
  // the hard minimum to the max span holds.
  lemma {:induction false} LeftRun(box: Layout, steps: seq<Step>)
    requires LeftSpans(box)
    ensures LeftSpans(RunEnd(box, steps))
    ensures RunEnd(box, steps).start == box.start && RunEnd(box, steps).overlay == box.overlay
    decreases steps
  {
    hide LeftSpans, StepEnd;
    if steps != [] {
      EndStep(box, steps[0]);
      LeftRun(StepEnd(box, steps[0]), steps[1..]);
    }
  }

  lemma {:induction false} RightRun(box: Layout, steps: seq<Step>)
    requires RightSpans(box)
    ensures RightSpans(RunStart(box, steps))
    ensures RunStart(box, steps).end == box.end && RunStart(box, steps).overlay == box.overlay
    decreases steps
  {
    hide RightSpans, StepStart;
    if steps != [] {
      StartStep(box, steps[0]);
      RightRun(StepStart(box, steps[0]), steps[1..]);
    }
  }

  // The slack is within the parent all along.
  predicate AlwaysOrdered(box: Layout, steps: seq<Step>)
    decreases steps
  {
    LeftInvariant(box) && (steps == [] || AlwaysOrdered(StepEnd(box, steps[0]), steps[1..]))
  }

  predicate SlackAlwaysCovered(box: Layout, steps: seq<Step>)
    decreases steps
  {
    steps == [] || (CoversSlack(box, steps[0]) && SlackAlwaysCovered(StepEnd(box, steps[0]), steps[1..]))
  }

  // slack <= parent holds all along a run exactly when each renewed limit covers the slack known
  // when it is renewed.
  lemma {:induction false} OrderedRun(box: Layout, steps: seq<Step>)
    requires LeftInvariant(box)
    ensures AlwaysOrdered(box, steps) <==> SlackAlwaysCovered(box, steps)
    decreases steps
  {
    if steps != [] {
      EndStep(box, steps[0]);
      hide LeftSpans, StepEnd, CoversSlack;
      if LeftInvariant(StepEnd(box, steps[0])) {
        OrderedRun(StepEnd(box, steps[0]), steps[1..]);
      } else {
        assert !AlwaysOrdered(StepEnd(box, steps[0]), steps[1..]);
      }
    }
  }

  predicate AlwaysStartOrdered(box: Layout, steps: seq<Step>)
    decreases steps
  {
    RightInvariant(box) && (steps == [] || AlwaysStartOrdered(StepStart(box, steps[0]), steps[1..]))
  }

  predicate StartSlackAlwaysCovered(box: Layout, steps: seq<Step>)
    decreases steps
  {
    steps == [] || (StartCoversSlack(box, steps[0]) && StartSlackAlwaysCovered(StepStart(box, steps[0]), steps[1..]))
  }

  lemma {:induction false} StartOrderedRun(box: Layout, steps: seq<Step>)
    requires RightInvariant(box)
    ensures AlwaysStartOrdered(box, steps) <==> StartSlackAlwaysCovered(box, steps)
    decreases steps
  {
    if steps != [] {
      StartStep(box, steps[0]);
      hide RightSpans, StepStart, StartCoversSlack;
      if RightInvariant(StepStart(box, steps[0])) {
        StartOrderedRun(StepStart(box, steps[0]), steps[1..]);
      } else {
        assert !AlwaysStartOrdered(StepStart(box, steps[0]), steps[1..]);
      }
    }
  }

  // ---------- staying within the parent ----------

  // Everything known lies within the parent.
  predicate Inside(box: Layout) {
    var e := box.end;
    && Ordered(e.minSpan, e.parent) && (box.overlay ==> Ordered(e.used, e.parent)) && Ordered(e.span, e.parent)
    && Ordered(e.maxSpan, e.parent) && Ordered(e.slack, e.parent)
  }

  // The nearest known offset further in than slack and max span
  function Nearest(box: Layout): int {
    if box.end.span >= 0 then box.end.span
    else if box.overlay && box.end.used >= 0 then box.end.used
    else box.end.minSpan
  }

  // What a setting has to see to: a max span must not exceed the parent, and a parent offset
  // must not cut off the max span or, without one, what the check skips when the slack is known.
  predicate Guarded(box: Layout, setting: Setting) {
    match setting.kind
    case MaxSpan => box.HardMinEnd() <= setting.offset ==> Ordered(setting.offset, box.end.parent)
    case Parent => EndAccepts(box, setting.offset, Parent) ==> LimitCovers(box, setting.offset)
    case _ => true
  }

  predicate LimitCovers(box: Layout, limit: int) {
    if box.end.maxSpan >= 0 then box.end.maxSpan <= limit
    else box.end.slack >= 0 ==> Ordered(Nearest(box), limit)
  }

  // And a renewed limit: it has to cover the slack, and the max span or the nearest offset
  // further in.
  predicate StepGuarded(box: Layout, step: Step) {
    match step
    case Set(setting) => Guarded(box, setting)
    case Renew(limit) => RenewalCovers(box, limit)
  }

  predicate RenewalCovers(box: Layout, limit: int) {
    Ordered(box.end.slack, limit)
    && if box.end.maxSpan >= 0 then Ordered(box.end.maxSpan, limit) else Ordered(Nearest(box), limit)
  }

  // One setting leaves everything inside exactly when its guard holds.
  lemma StaysInside(box: Layout, setting: Setting)
    requires LeftSpans(box) && Inside(box)
    ensures Inside(ApplyEnd(box, setting)) <==> Guarded(box, setting)
  {
    if setting.kind == Parent {
      EndCheckIsExact(box, setting.offset, Parent);
    }
  }

  // And so does a renewal.
  lemma RenewedLimit(box: Layout, limit: int)
    requires LeftSpans(box)
    ensures Inside(StepEnd(box, Renew(limit))) <==> RenewalCovers(box, limit)
  {
  }

  // Everything is within the parent at every point of a run.
  predicate AlwaysInside(box: Layout, steps: seq<Step>)
    decreases steps
  {
    Inside(box) && (steps == [] || AlwaysInside(StepEnd(box, steps[0]), steps[1..]))
  }

  // Each guard holds when its step is made.
  predicate AlwaysGuarded(box: Layout, steps: seq<Step>)
    decreases steps
  {
    steps == [] || (StepGuarded(box, steps[0]) && AlwaysGuarded(StepEnd(box, steps[0]), steps[1..]))
  }

  lemma {:induction false} GuardedRun(box: Layout, steps: seq<Step>)
    requires LeftSpans(box) && Inside(box)
    ensures AlwaysInside(box, steps) <==> AlwaysGuarded(box, steps)
    decreases steps
  {
    if steps != [] {
      EndStep(box, steps[0]);
      InsideStep(box, steps[0]);
      hide LeftSpans, StepEnd, Inside, StepGuarded;
      if Inside(StepEnd(box, steps[0])) {
        GuardedRun(StepEnd(box, steps[0]), steps[1..]);
      }
    }
  }

  lemma InsideStep(box: Layout, step: Step)
    requires LeftSpans(box) && Inside(box)
    ensures Inside(StepEnd(box, step)) <==> StepGuarded(box, step)
  {
    hide LeftSpans, Inside, Guarded, RenewalCovers;
    match step
    case Set(setting) => StaysInside(box, setting);
    case Renew(limit) => RenewedLimit(box, limit);
  }

  // A box placed in its parent has everything within the parent all along a run of settings and
  // renewals exactly when each step's guard holds when it is made.
  lemma WithinParentTheorem(overlay: bool, minSize: nat, boundary: nat, limit: int, steps: seq<Step>)
    ensures AlwaysInside(PlacedLeft(overlay, minSize, boundary, limit), steps)
       <==> AlwaysGuarded(PlacedLeft(overlay, minSize, boundary, limit), steps)
  {
    GuardedRun(PlacedLeft(overlay, minSize, boundary, limit), steps);
  }

  // The limit is never another one.
  predicate LimitStands(limit: int, steps: seq<Step>) {
    forall s :: s in steps ==> match s { case Set(setting) => setting.kind != Parent case Renew(l) => l == limit }
  }

  // The guards can then be checked on the settings alone.
  ghost predicate MaxSpansWithin(hardMin: int, limit: int, steps: seq<Step>) {
    forall s :: s in steps && s.Set? && s.setting.kind == MaxSpan && hardMin <= s.setting.offset ==> s.setting.offset <= limit
  }

  lemma {:induction false} StandingLimitRun(box: Layout, steps: seq<Step>)
    requires LeftSpans(box) && Inside(box) && box.end.parent >= 0 && LimitStands(box.end.parent, steps)
    ensures AlwaysInside(box, steps) <==> MaxSpansWithin(box.HardMinEnd(), box.end.parent, steps)
    decreases steps
  {
    if steps != [] {
      var next := StepEnd(box, steps[0]);
      assert steps[0] in steps;
      EndStep(box, steps[0]);
      InsideStep(box, steps[0]);
      KeepsMinAndLimit(box, steps[0]);
      StandingGuard(box, steps[0]);
      hide LeftSpans, StepEnd, Inside, StepGuarded;
      assert forall s :: s in steps <==> s == steps[0] || s in steps[1..];
      if Inside(next) {
        StandingLimitRun(next, steps[1..]);
      } else {
        assert !AlwaysInside(next, steps[1..]);
      }
    }
  }

  lemma StandingGuard(box: Layout, step: Step)
    requires LeftSpans(box) && Inside(box) && box.end.parent >= 0 && LimitStands(box.end.parent, [step])
    ensures StepGuarded(box, step) <==> MaxSpansWithin(box.HardMinEnd(), box.end.parent, [step])
  {
    assert step in [step];
    if step.Renew? {
      RenewedLimit(box, step.limit);
      assert StepEnd(box, step) == box;
    }
  }

  lemma KeepsMinAndLimit(box: Layout, step: Step)
    ensures StepEnd(box, step).HardMinEnd() == box.HardMinEnd()
    ensures LimitStands(box.end.parent, [step]) ==> StepEnd(box, step).end.parent == box.end.parent
  {
    assert step in [step];
  }

  // Known offsets stay within the parent unless the max span escapes: this is what a run keeps
  // while the limit stands, guards or not.
  predicate InsideButForMaxSpan(box: Layout) {
    box.end.parent >= 0 && (!Ordered(box.end.maxSpan, box.end.parent) || Inside(box))
  }

  lemma EscapeStep(box: Layout, step: Step)
    requires LeftInvariant(box) && InsideButForMaxSpan(box) && LimitStands(box.end.parent, [step])
    ensures CoversSlack(box, step)
    ensures InsideButForMaxSpan(StepEnd(box, step)) && StepEnd(box, step).end.parent == box.end.parent
  {
    assert step in [step];
  }

  lemma {:induction false} RunInsideButForMaxSpan(box: Layout, steps: seq<Step>)
    requires LeftInvariant(box) && InsideButForMaxSpan(box) && LimitStands(box.end.parent, steps)
    ensures InsideButForMaxSpan(RunEnd(box, steps))
    ensures RunEnd(box, steps).end.parent == box.end.parent
    decreases steps
  {
    if steps != [] {
      assert steps[0] in steps;
      EndStep(box, steps[0]);
      EscapeStep(box, steps[0]);
      assert forall s :: s in steps[1..] ==> s in steps;
      hide LeftSpans, StepEnd, Inside;
      RunInsideButForMaxSpan(StepEnd(box, steps[0]), steps[1..]);
    }
  }

  // So a box whose max span has escaped is back as a whole once its max span is.
  lemma InsideAtTheEnd(overlay: bool, minSize: nat, boundary: nat, limit: nat, steps: seq<Step>)
    requires LimitStands(limit, steps)
    ensures var box := RunEnd(PlacedLeft(overlay, minSize, boundary, limit), steps);
            Inside(box) <==> Ordered(box.end.maxSpan, limit)
  {
    RunInsideButForMaxSpan(PlacedLeft(overlay, minSize, boundary, limit), steps);
  }

  // ---------- what is asked for ----------

  // The max spans that are ever asked for: the span, the min span just set, or no more than the
  // slack.
  predicate Requested(box: Layout, offset: int) {
    || (box.end.span >= 0 && offset == box.end.span)
    || (box.end.minSpan >= 0 && offset == box.end.minSpan)
    || (box.end.slack >= 0 && offset <= box.end.slack)
  }

  lemma RequestsAreGuarded(box: Layout, offset: int)
    requires LeftSpans(box) && Inside(box) && Requested(box, offset)
    ensures Guarded(box, Setting(offset, MaxSpan)) && Inside(ApplyEnd(box, Setting(offset, MaxSpan)))
  {
    StaysInside(box, Setting(offset, MaxSpan));
  }

  // Every max span is one of these when it is set, and no parent offset is set.
  predicate AsRequested(box: Layout, steps: seq<Step>)
    decreases steps
  {
    steps == []
    || ((steps[0].Set? ==> steps[0].setting.kind != Parent
                           && (steps[0].setting.kind == MaxSpan ==> Requested(box, steps[0].setting.offset)))
        && AsRequested(StepEnd(box, steps[0]), steps[1..]))
  }

  predicate RenewalsCover(box: Layout, steps: seq<Step>)
    decreases steps
  {
    steps == []
    || ((steps[0].Renew? ==> RenewalCovers(box, steps[0].limit))
        && RenewalsCover(StepEnd(box, steps[0]), steps[1..]))
  }

  // Then only a renewed limit takes a box out of its parent.
  lemma {:induction false} OnlyRenewalsEscape(box: Layout, steps: seq<Step>)
    requires LeftSpans(box) && Inside(box) && AsRequested(box, steps)
    ensures AlwaysInside(box, steps) <==> RenewalsCover(box, steps)
    decreases steps
  {
    if steps != [] {
      EndStep(box, steps[0]);
      InsideStep(box, steps[0]);
      if steps[0].Set? && steps[0].setting.kind == MaxSpan {
        RequestsAreGuarded(box, steps[0].setting.offset);
      }
      assert StepGuarded(box, steps[0]) <==> (steps[0].Renew? ==> RenewalCovers(box, steps[0].limit));
      hide LeftSpans, StepEnd, Inside, StepGuarded, RenewalCovers, Requested;
      if Inside(StepEnd(box, steps[0])) {
        OnlyRenewalsEscape(StepEnd(box, steps[0]), steps[1..]);
      } else {
        assert !AlwaysInside(StepEnd(box, steps[0]), steps[1..]);
      }
    }
  }

  // One that does: slack and max span are taken from the parent, and the parent turns out
  // shorter. Neither slack <= parent nor the order of all is left.
  method RenewedLimitMayCut(boundary: nat, limit: nat, shorter: nat) returns (parent: Box, box: Box)
    requires boundary <= shorter < limit
    ensures fresh(parent) && LeftInvariant(parent.State()) && Inside(parent.State()) && parent.end.used == shorter
    ensures fresh(box) && box.end.slack == limit == box.end.maxSpan && box.end.parent == shorter
    ensures LeftSpans(box.State()) && !LeftInvariant(box.State()) && !Inside(box.State())
  {
    parent := PlacedWithSlack(boundary, limit);
    box := new Box(false, true, 0, UNKNOWN);
    box.InheritBoundaryOffset(parent);
    var first := box.SetSize(limit - boundary, Slack);
    var second := box.SetSize(box.end.slack - box.start.slack, MaxSpan);
    ghost var state := parent.State();
    EndCheckIsExact(state, shorter, Used);
    var third := parent.SetSize(shorter - boundary, Used);
    box.InheritBoundaryOffset(parent);
  }

  method PlacedWithSlack(boundary: nat, limit: nat) returns (box: Box)
    requires boundary <= limit
    ensures fresh(box) && !box.rightAligned && box.overlay && box.minSize == 0 && box.start == At(boundary)
    ensures box.end == At(UNKNOWN).(slack := limit, parent := limit)
  {
    box := new Box(false, true, 0, UNKNOWN);
    box.SetBoundaryOffset(boundary, limit);
    var outcome := box.SetSize(limit - boundary, Slack);
  }

  lemma RenewalBreaksTheOrder(overlay: bool, boundary: nat, limit: nat, shorter: nat)
    requires boundary <= shorter < limit
    ensures var box := PlacedLeft(overlay, 0, boundary, limit);
            var steps := [Set(Setting(limit, Slack)), Set(Setting(limit, MaxSpan)), Renew(shorter)];
            AsRequested(box, steps) && !AlwaysOrdered(box, steps) && !AlwaysInside(box, steps)
  {
    var b0 := PlacedLeft(overlay, 0, boundary, limit);
    var b1 := b0.(end := b0.end.(slack := limit));
    var b2 := b1.(end := b1.end.(maxSpan := limit));
    assert ApplyEnd(b0, Setting(limit, Slack)) == b1;
    SlackTaken(b1, limit);
    Cut(b0, b1, b2, [Set(Setting(limit, Slack)), Set(Setting(limit, MaxSpan)), Renew(shorter)]);
  }

  lemma SlackTaken(box: Layout, limit: nat)
    requires LeftSpans(box) && box.end == At(UNKNOWN).(slack := limit, parent := limit) && box.HardMinEnd() <= limit
    ensures ApplyEnd(box, Setting(limit, MaxSpan)) == box.(end := box.end.(maxSpan := limit))
  {
    EndCheckIsExact(box, limit, MaxSpan);
  }

  lemma Cut(b0: Layout, b1: Layout, b2: Layout, steps: seq<Step>)
    requires |steps| == 3 && StepEnd(b0, steps[0]) == b1 && StepEnd(b1, steps[1]) == b2 && steps[2].Renew?
    requires steps[0] == Set(Setting(b1.end.slack, Slack)) && steps[1] == Set(Setting(b1.end.slack, MaxSpan))
    requires b2.end.slack == b1.end.slack > steps[2].limit >= 0
    ensures AsRequested(b0, steps) && !AlwaysOrdered(b0, steps) && !AlwaysInside(b0, steps)
  {
    hide ApplyEnd, LeftSpans;
    var b3 := StepEnd(b2, steps[2]);
    assert steps[1..] == [steps[1], steps[2]] && steps[1..][1..] == [steps[2]] && [steps[2]][1..] == [];
    assert !Inside(b3) && !LeftInvariant(b3);
    assert !AlwaysInside(b3, []) && !AlwaysOrdered(b3, []) && AsRequested(b3, []);
    assert !AlwaysInside(b2, [steps[2]]) && !AlwaysOrdered(b2, [steps[2]]) && AsRequested(b2, [steps[2]]);
    assert !AlwaysInside(b1, steps[1..]) && !AlwaysOrdered(b1, steps[1..]) && AsRequested(b1, steps[1..]);
  }

  // The check of a max span itself does not look at the parent.
  lemma MaxSpanMayEscape(overlay: bool, boundary: nat, limit: nat)
    requires boundary <= limit
    ensures var box := ApplyEnd(PlacedLeft(overlay, 0, boundary, limit), Setting(limit + 1, MaxSpan));
            box.end.maxSpan == limit + 1 && box.end.parent == limit && !Inside(box)
  {
  }

  // ---------- the mirror image, for boxes placed from their end ----------

  predicate InsideStart(box: Layout) {
    var s := box.start;
    && Ordered(s.parent, s.minSpan) && (box.overlay ==> Ordered(s.parent, s.used)) && Ordered(s.parent, s.span)
    && Ordered(s.parent, s.maxSpan) && Ordered(s.parent, s.slack)
  }

  // Before a hard minimum that does not exist, nothing further out is known either.
  predicate Backed(box: Layout) {
    var s := box.start;
    box.HardMinStart() < 0 ==> s.minSpan < 0 && s.used < 0 && s.span < 0 && s.maxSpan < 0
  }

  function NearestStart(box: Layout): int {
    if box.start.span >= 0 then box.start.span
    else if box.overlay && box.start.used >= 0 then box.start.used
    else box.start.minSpan
  }

  predicate StartGuarded(box: Layout, setting: Setting) {
    match setting.kind
    case MaxSpan => setting.offset <= box.HardMinStart() ==> Ordered(box.start.parent, setting.offset)
    case Parent =>
      setting.offset >= 0 && StartAccepts(box, setting.offset, Parent) ==> StartLimitCovers(box, setting.offset)
    case _ => true
  }

  predicate StartLimitCovers(box: Layout, limit: int) {
    if box.start.maxSpan >= 0 then limit <= box.start.maxSpan
    else box.start.slack >= 0 ==> Ordered(limit, NearestStart(box))
  }

  predicate StartStepGuarded(box: Layout, step: Step) {
    match step
    case Set(setting) => StartGuarded(box, setting)
    case Renew(limit) => StartRenewalCovers(box, limit)
  }

  predicate StartRenewalCovers(box: Layout, limit: int) {
    Ordered(limit, box.start.slack)
    && if box.start.maxSpan >= 0 then Ordered(limit, box.start.maxSpan) else Ordered(limit, NearestStart(box))
  }

  lemma StartStaysInside(box: Layout, setting: Setting)
    requires RightSpans(box) && InsideStart(box) && Backed(box)
    ensures InsideStart(ApplyStart(box, setting)) <==> StartGuarded(box, setting)
  {
    if setting.kind == Parent && setting.offset >= 0 {
      StartCheckIsExact(box, setting.offset, Parent);
    }
  }

  lemma RenewedStartLimit(box: Layout, limit: int)
    requires RightSpans(box) && Backed(box)
    ensures InsideStart(StepStart(box, Renew(limit))) <==> StartRenewalCovers(box, limit)
  {
  }

  lemma InsideStartStep(box: Layout, step: Step)
    requires RightSpans(box) && InsideStart(box) && Backed(box)
    ensures InsideStart(StepStart(box, step)) <==> StartStepGuarded(box, step)
  {
    hide RightSpans, InsideStart, StartGuarded, StartRenewalCovers, Backed;
    match step
    case Set(setting) => StartStaysInside(box, setting);
    case Renew(limit) => RenewedStartLimit(box, limit);
  }

  lemma StaysBacked(box: Layout, step: Step)
    requires RightSpans(box) && Backed(box)
    ensures Backed(StepStart(box, step))
    ensures StepStart(box, step).HardMinStart() == box.HardMinStart()
    ensures LimitStands(box.start.parent, [step]) ==> StepStart(box, step).start.parent == box.start.parent
  {
    assert step in [step];
  }

  predicate AlwaysInsideStart(box: Layout, steps: seq<Step>)
    decreases steps
  {
    InsideStart(box) && (steps == [] || AlwaysInsideStart(StepStart(box, steps[0]), steps[1..]))
  }

  predicate AlwaysStartGuarded(box: Layout, steps: seq<Step>)
    decreases steps
  {
    steps == [] || (StartStepGuarded(box, steps[0]) && AlwaysStartGuarded(StepStart(box, steps[0]), steps[1..]))
  }

  lemma {:induction false} StartGuardedRun(box: Layout, steps: seq<Step>)
    requires RightSpans(box) && InsideStart(box) && Backed(box)
    ensures AlwaysInsideStart(box, steps) <==> AlwaysStartGuarded(box, steps)
    decreases steps
  {
    if steps != [] {
      StartStep(box, steps[0]);
      StaysBacked(box, steps[0]);
      InsideStartStep(box, steps[0]);
      hide RightSpans, StepStart, InsideStart, Backed, StartStepGuarded;
      if InsideStart(StepStart(box, steps[0])) {
        StartGuardedRun(StepStart(box, steps[0]), steps[1..]);
      }
    }
  }

  lemma WithinParentFromTheEnd(overlay: bool, minSize: nat, boundary: nat, limit: int, steps: seq<Step>)
    ensures AlwaysInsideStart(PlacedRight(overlay, minSize, boundary, limit), steps)
       <==> AlwaysStartGuarded(PlacedRight(overlay, minSize, boundary, limit), steps)
  {
    StartGuardedRun(PlacedRight(overlay, minSize, boundary, limit), steps);
  }

  ghost predicate MaxSpansFrom(limit: int, hardMin: int, steps: seq<Step>) {
    forall s :: s in steps && s.Set? && s.setting.kind == MaxSpan && 0 <= s.setting.offset <= hardMin ==> limit <= s.setting.offset
  }

  lemma {:induction false} StandingStartLimitRun(box: Layout, steps: seq<Step>)
    requires RightSpans(box) && InsideStart(box) && Backed(box)
    requires box.start.parent >= 0 && LimitStands(box.start.parent, steps)
    ensures AlwaysInsideStart(box, steps) <==> MaxSpansFrom(box.start.parent, box.HardMinStart(), steps)
    decreases steps
  {
    if steps != [] {
      var next := StepStart(box, steps[0]);
      assert steps[0] in steps;
      StartStep(box, steps[0]);
      StaysBacked(box, steps[0]);
      InsideStartStep(box, steps[0]);
      StandingStartGuard(box, steps[0]);
      hide RightSpans, StepStart, InsideStart, StartStepGuarded, Backed;
      assert forall s :: s in steps <==> s == steps[0] || s in steps[1..];
      if InsideStart(next) {
        StandingStartLimitRun(next, steps[1..]);
      } else {
        assert !AlwaysInsideStart(next, steps[1..]);
      }
    }
  }

  lemma StandingStartGuard(box: Layout, step: Step)
    requires RightSpans(box) && InsideStart(box) && Backed(box)
    requires box.start.parent >= 0 && LimitStands(box.start.parent, [step])
    ensures StartStepGuarded(box, step) <==> MaxSpansFrom(box.start.parent, box.HardMinStart(), [step])
  {
    assert step in [step];
    if step.Renew? {
      RenewedStartLimit(box, step.limit);
      assert StepStart(box, step) == box;
    }
  }

  predicate InsideStartButForMaxSpan(box: Layout) {
    box.start.parent >= 0 && (!Ordered(box.start.parent, box.start.maxSpan) || InsideStart(box))
  }

  predicate NoNegative(steps: seq<Step>) {
    forall s :: s in steps && s.Set? ==> s.setting.offset >= 0
  }

  lemma EscapeStartStep(box: Layout, step: Step)
    requires RightInvariant(box) && InsideStartButForMaxSpan(box) && LimitStands(box.start.parent, [step]) && NoNegative([step])
    ensures StartCoversSlack(box, step)
    ensures InsideStartButForMaxSpan(StepStart(box, step)) && StepStart(box, step).start.parent == box.start.parent
  {
    assert step in [step];
  }

  lemma {:induction false} RunInsideStartButForMaxSpan(box: Layout, steps: seq<Step>)
    requires RightInvariant(box) && InsideStartButForMaxSpan(box) && LimitStands(box.start.parent, steps) && NoNegative(steps)
    ensures InsideStartButForMaxSpan(RunStart(box, steps))
    ensures RunStart(box, steps).start.parent == box.start.parent
    decreases steps
  {
    if steps != [] {
      assert steps[0] in steps;
      StartStep(box, steps[0]);
      EscapeStartStep(box, steps[0]);
      assert forall s :: s in steps[1..] ==> s in steps;
      hide RightSpans, StepStart, InsideStart;
      RunInsideStartButForMaxSpan(StepStart(box, steps[0]), steps[1..]);
    }
  }

  lemma InsideStartAtTheEnd(overlay: bool, minSize: nat, boundary: nat, limit: nat, steps: seq<Step>)
    requires LimitStands(limit, steps) && NoNegative(steps)
    ensures var box := RunStart(PlacedRight(overlay, minSize, boundary, limit), steps);
            InsideStart(box) <==> Ordered(limit, box.start.maxSpan)
  {
    RunInsideStartButForMaxSpan(PlacedRight(overlay, minSize, boundary, limit), steps);
  }

  // A max span that is asked for is the span, the min span just set, or no more than the slack.
  predicate StartRequested(box: Layout, offset: int) {
    || (box.start.span >= 0 && offset == box.start.span)
    || (box.start.minSpan >= 0 && offset == box.start.minSpan)
    || (box.start.slack >= 0 && offset >= box.start.slack)
  }

  lemma StartRequestsAreGuarded(box: Layout, offset: int)
    requires RightSpans(box) && InsideStart(box) && Backed(box) && StartRequested(box, offset)
    ensures StartGuarded(box, Setting(offset, MaxSpan)) && InsideStart(ApplyStart(box, Setting(offset, MaxSpan)))
  {
    StartStaysInside(box, Setting(offset, MaxSpan));
  }

  predicate StartAsRequested(box: Layout, steps: seq<Step>)
    decreases steps
  {
    steps == []
    || ((steps[0].Set? ==> steps[0].setting.kind != Parent
                           && (steps[0].setting.kind == MaxSpan ==> StartRequested(box, steps[0].setting.offset)))
        && StartAsRequested(StepStart(box, steps[0]), steps[1..]))
  }

  predicate StartRenewalsCover(box: Layout, steps: seq<Step>)
    decreases steps
  {
    steps == []
    || ((steps[0].Renew? ==> StartRenewalCovers(box, steps[0].limit))
        && StartRenewalsCover(StepStart(box, steps[0]), steps[1..]))
  }

  lemma {:induction false} OnlyStartRenewalsEscape(box: Layout, steps: seq<Step>)
    requires RightSpans(box) && InsideStart(box) && Backed(box) && StartAsRequested(box, steps)
    ensures AlwaysInsideStart(box, steps) <==> StartRenewalsCover(box, steps)
    decreases steps
  {
    if steps != [] {
      StartStep(box, steps[0]);
      StaysBacked(box, steps[0]);
      InsideStartStep(box, steps[0]);
      if steps[0].Set? && steps[0].setting.kind == MaxSpan {
        StartRequestsAreGuarded(box, steps[0].setting.offset);
      }
      assert StartStepGuarded(box, steps[0]) <==> (steps[0].Renew? ==> StartRenewalCovers(box, steps[0].limit));
      hide RightSpans, StepStart, InsideStart, StartStepGuarded, StartRenewalCovers, StartRequested, Backed;
      if InsideStart(StepStart(box, steps[0])) {
        OnlyStartRenewalsEscape(StepStart(box, steps[0]), steps[1..]);
      } else {
        assert !AlwaysInsideStart(StepStart(box, steps[0]), steps[1..]);
      }
    }
  }

  method RenewedStartLimitMayCut(boundary: nat, limit: nat, later: nat) returns (box: Box)
    requires limit < later <= boundary
    ensures fresh(box) && box.start.slack == limit == box.start.maxSpan && box.start.parent == later
    ensures RightSpans(box.State()) && !RightInvariant(box.State()) && !InsideStart(box.State())
  {
    box := new Box(true, true, 0, UNKNOWN);
    box.SetBoundaryOffset(boundary, limit);
    var first := box.SetSize(boundary - limit, Slack);
    var second := box.SetSize(box.end.slack - box.start.slack, MaxSpan);
    box.SetBoundaryOffset(boundary, later);
  }

  lemma MaxSpanMayEscapeAtTheStart(overlay: bool, boundary: nat, limit: nat)
    requires 0 < limit <= boundary
    ensures var box := ApplyStart(PlacedRight(overlay, 0, boundary, limit), Setting(limit - 1, MaxSpan));
            box.start.maxSpan == limit - 1 && box.start.parent == limit && !InsideStart(box)
  {
  }
}
