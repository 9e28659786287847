# A verified model of bitpunch's layout and browse engine

bitpunch reads binary files through schemas. This project models the logic on which its
browsing rests, in Dafny, and proves what that logic promises. `dafny verify dfyconfig.toml`
verifies all of it.

| files | part of bitpunch | main results |
|---|---|---|
| Schema, StatementIteration, Scoping, ScopeLookup, LookupMeaning | name lookup, at compile time and at run time | both agree for all conditions if and only if no match is hidden below a conditional anonymous field; what is gathered and what is found, said by places in the schema |
| FieldTraversal, WalkMeaning | moving over fields as if anonymous structs were spelled out | a run is the depth-first flattening if and only if no active anonymous struct is empty; it then visits exactly the fields reached through active structs, each once |
| BoxOffsets | the partly known offsets of a box and their checked setters | every run of settings and renewed parent limits keeps hard min <= min span <= used <= span <= max span; slack <= parent, and everything within the parent, exactly while each renewed limit covers what is known |
| FixedArrays, FixedArrayTracking | arrays of fixed-size items and their trackers | every run of moves keeps the state predicate of `debug.c`; exactly when each move succeeds; closed forms equal stepping |
| VarArrays, CachedArrays | arrays of variable-size items, cached positions, lookup by key | exactly where a walk goes on, ends and fails; items tile the recorded span; the cached move equals stepping; twin numbers lead back to their item |
| StaticSizes | static size inference for nested arrays | sound, exact, and not improvable; the three run-time shortcuts give the true size |
| Expressions | operator typing, constant folding, evaluation with a current scope | which operands are accepted, exactly; type soundness; nested conditions; a folded expression agrees with the unfolded one exactly where its guards hold; scopes are restored |
| Ancestors | the common ancestor of data paths, builtin `index` | the ancestor is the end of the longest common prefix |
| DynArrays | growable arrays | never too small, although size classes are not monotone |
| Base64 | the base64 decoder | inverts the encoding of RFC 4648, accepts exactly the legal inputs, re-encoding is exact if and only if unused bits are zero |
| CommandTrie, CommandLines, CommandFinders | the command finder and completer of the console | the filter keeps exactly the matching commands; completions are offered if and only if all of them agree |
| Wrappers, Arithmetic | shared definitions | |

Where the original changes objects step by step (iterators, trackers, boxes, array states,
caches, the browse state, growable arrays, nested dictionaries, output buffers), the model has
classes or arrays and methods that change them, each tied by its postconditions to functions on
values; the theorems are about these functions. `-1` stands for an unknown offset, as in the
original. What lies outside (conditions, data, sizes and keys found in a file) is a parameter, so
that each theorem is about every schema and every file.

Four properties do not hold in general. For each the project gives an input for which it fails
and the exact condition under which it holds:

- agreement of the two name lookups: `ScopeLookup.ConditionalFieldHides`, `ScopeLookup.AgreementTheorem`;
- the traversal of anonymous structs: `FieldTraversal.EmptyStructStopsTheWalk`, `FieldTraversal.TraversalTheorem`;
- slack <= parent, and staying within the parent, when the parent's limit is renewed:
  `BoxOffsets.RenewalBreaksTheOrder`, `BoxOffsets.OrderedRun`, `BoxOffsets.WithinParentTheorem`,
  `BoxOffsets.OnlyRenewalsEscape`;
- constant folding of conditional named expressions: `Expressions.FoldHidesFailedCondition`,
  `Expressions.FoldingIsExact`.

## Model

| member | source | states |
|---|---|---|
| Schema.FirstHoldingMeaning | libbitpunch/src/core/scope.c:221-262 | "no item" exactly when every condition fails; the candidate found holds and all before it fail |
| StatementIteration.Ahead | libbitpunch/src/core/scope.c:48-83 | what a list still offers in walking order: entries of that list only, on the right side of the position, and selected |
| StatementIteration.AheadIsComplete | libbitpunch/src/core/scope.c:48-83 | no selected statement is missed or met twice, forward or in reverse |
| StatementIteration.AheadInOrder | libbitpunch/src/core/scope.c:48-83 | what is ahead is met by increasing position, in reverse by decreasing |
| StatementIteration.QueuedMeaning | libbitpunch/src/core/scope.c:85-129 | what an iterator over a block has to look at: exactly the selected statements of the lists asked for, named expressions before fields before attributes, each list in its direction |
| StatementIteration.AfterFirstHoldingMeaning | libbitpunch/src/core/scope.c:131-262 | what is left ahead begins right behind the first statement whose condition is met |
| StatementIteration.StatementIterator.Over | libbitpunch/src/core/scope.c:152-203 | a new iterator has all selected statements of the masked lists ahead, named expressions before fields before attributes |
| StatementIteration.StatementIterator.From | libbitpunch/src/core/scope.c:171-219 | an iterator made from a statement has only what follows it in its own list ahead |
| StatementIteration.StatementIterator.Advance | libbitpunch/src/core/scope.c:48-83 | the next selected position, skipping exactly the statements that are not selected |
| StatementIteration.StatementIterator.StartList | libbitpunch/src/core/scope.c:85-129 | starting a list changes nothing of what is ahead |
| StatementIteration.StatementIterator.BeginList | libbitpunch/src/core/scope.c:85-129 | the whole list of that kind is ahead |
| StatementIteration.StatementIterator.Next | libbitpunch/src/core/scope.c:131-262 | returns the first statement ahead whose condition holds, with its kind, and leaves exactly what follows it ahead |
| Scoping.AppendStatement | libbitpunch/src/core/ast.c:223-254 | appends exactly when there is room; a missing list has none |
| Scoping.LookupInList | libbitpunch/src/core/ast.c:301-375 | the matching entries of one list up to the first unconditional one are appended, or the list fills up |
| Scoping.LookupInLists | libbitpunch/src/core/ast.c:301-375 | what is visible in a block, anonymous fields included, is appended in order up to the capacity, with the status that tells whether it ended or overflowed |
| Scoping.LookupInFields | libbitpunch/src/core/ast.c:265-375 | the same for the anonymous fields of a block |
| Scoping.IdentifierIsVisible | libbitpunch/src/core/ast.c:452-463 | true exactly when something of that name is visible in the block |
| Scoping.LookupAllVisibleStatements | libbitpunch/src/core/ast.c:391-426 | succeeds exactly when at most 1000 statements are visible from inner to outer scope, and then returns all of them |
| Scoping.DeliverThen | libbitpunch/src/core/ast.c:301-375 | filling a bounded list piece by piece gives what filling it at once gives, overflow included |
| LookupMeaning.GatheredExactly | libbitpunch/src/core/ast.c:265-375 | what is gathered in a block, said by places in the schema: only statements that bear the name, in the lists asked for and seen through unnamed fields that are not hidden; in the order of the search; and all of them, unless the last one gathered is unconditional and comes before the rest; an @ name gathers attributes, any other name none |
| LookupMeaning.GatheredConditions | libbitpunch/src/core/ast.c:301-375 | gathering ends at the first unconditional statement, and only there |
| LookupMeaning.FoundIsFirst | libbitpunch/src/core/scope.c:357-400 | what the run-time lookup finds in a block is the first, in the order of the search, of all statements that bear the name and whose conditions are met, their own and those of the fields they are seen through; it finds nothing only when there is none; an @ name is looked for in the block itself alone |
| LookupMeaning.ScopesPick | libbitpunch/src/core/expr.c:1766-1831 | through nested scopes: nothing answers further in than where the answer is found, where it is the first; nothing answers anywhere when there is no item |
| ScopeLookup.GetFirstStatement | libbitpunch/src/core/scope.c:344-355 | the first own statement of a block whose condition holds |
| ScopeLookup.LookupStatement | libbitpunch/src/core/scope.c:357-400 | the run-time lookup of one block: own statements, then anonymous fields in order |
| ScopeLookup.LookupInAnonymousField | libbitpunch/src/core/scope.c:275-342 | one anonymous field: the early test, its condition, and the recursion decide whether the search goes on |
| ScopeLookup.LookupFromInnerScope | libbitpunch/src/core/expr.c:1766-1831 | the lookup through nested scopes, from inner to outer |
| ScopeLookup.ThenFirstHolding | libbitpunch/src/core/ast.c:301-375 | stopping at an unconditional statement never changes what is found |
| ScopeLookup.VisibleUnderFewer | libbitpunch/src/core/scope.c:289-311 | the early test asks for named expressions and fields even when fewer are looked for; that loses nothing |
| ScopeLookup.LookupAgrees | libbitpunch/src/core/scope.c:357-400 | one block: the run-time lookup returns the first gathered statement whose condition holds |
| ScopeLookup.FieldsAgree | libbitpunch/src/core/scope.c:275-342 | the same for its anonymous fields |
| ScopeLookup.EarlyTestIsTransparent | libbitpunch/src/core/scope.c:289-311 | unless evaluating a condition fails, the lookup gives the same answer without the early visibility test, for all blocks |
| ScopeLookup.FoundIsReached | libbitpunch/src/core/scope.c:275-400 | what is found lies below fields whose conditions all hold |
| ScopeLookup.AgreementTheorem | libbitpunch/src/core/ast.c:391-463 | compile-time list and run-time lookup agree for all conditions if and only if no gathered statement is below a conditional anonymous field (for an @ name: nested at all) |
| ScopeLookup.AgreementUnderErrors | libbitpunch/src/core/expr.c:1766-1831 | they agree even where evaluating conditions fails, when both named expressions and fields are asked for |
| ScopeLookup.HiddenIsMissed | libbitpunch/src/core/scope.c:275-342 | the other direction: conditions under which a hidden statement is gathered first but not found |
| ScopeLookup.ConditionalFieldHides | libbitpunch/src/core/scope.c:275-342 | a concrete block: a name in one conditional anonymous field is gathered as unconditional and not found when the condition fails |
| FieldTraversal.FirstField | libbitpunch/src/core/browse.c:2744-2794 | finds the first active field of a block, or reports that there is none |
| FieldTraversal.FieldAfter | libbitpunch/src/core/browse.c:2797-2855 | finds the next active field after one |
| FieldTraversal.FieldTracker.constructor | libbitpunch/src/core/browse.c:1496-1512 | a new tracker is dangling at its box |
| FieldTraversal.FieldTracker.Set | libbitpunch/src/core/browse.c:1487-1493 | takes over box, field and state of another tracker |
| FieldTraversal.FieldTracker.EnterAnonymous | libbitpunch/src/core/browse.c:2648-2693 | entering an anonymous struct leaves the same fields to visit; one without active fields breaks the walk |
| FieldTraversal.FieldTracker.GotoFieldRecur | libbitpunch/src/core/browse.c:2648-2693 | descends to the first field that is not an anonymous struct, or fails and changes nothing |
| FieldTraversal.FieldTracker.Return | libbitpunch/src/core/browse.c:3209-3253 | back to the field of the enclosing box |
| FieldTraversal.FieldTracker.GotoFirstField | libbitpunch/src/core/browse.c:2744-2794 | arrives at the first field of the whole walk, or ends at the box |
| FieldTraversal.FieldTracker.GotoNextField | libbitpunch/src/core/browse.c:2797-2855 | arrives at the first of the fields that are left, which then are all but it; at the end it is back at the box it started from |
| FieldTraversal.FieldTracker.GotoFirstItem | libbitpunch/src/core/scope.c:696-711 | arrives at the first field of the walk that is not hidden, or ends as the walk does |
| FieldTraversal.FieldTracker.GotoNextItem | libbitpunch/src/core/scope.c:713-727 | arrives at the first of the fields left that is not hidden, or ends as they do |
| FieldTraversal.FieldTracker.GotoNthItem | libbitpunch/src/core/scope.c:729-756 | lands on a place of the walk that is not hidden and has exactly n such places before it; otherwise there are at most n of them, the move fails as the walk fails, and nothing moves |
| FieldTraversal.ShownMembers | libbitpunch/src/core/ast.c:1568-1584 | the items of a walk are its fields that are not hidden, named or not, each as often as it is in the walk |
| FieldTraversal.NthShown | libbitpunch/src/core/scope.c:729-756 | item n stands at the place of the walk before which exactly n places are not hidden |
| FieldTraversal.VisitAll | libbitpunch/src/core/browse.c:2744-2855 | a whole run visits exactly the fields of the walk and ends at its box exactly when the walk is complete |
| FieldTraversal.WalkIsDepthFirst | libbitpunch/src/core/browse.c:2648-2693 | a walk visits a prefix of the depth-first flattening, and all of it exactly when every active anonymous struct has an active field |
| FieldTraversal.ReverseWalk | libbitpunch/src/core/browse.c:2797-2855 | a reversed tracker meets the same fields in the opposite order |
| FieldTraversal.TraversalTheorem | libbitpunch/src/core/browse.c:2648-2855 | the run over a box, forward or reversed, comes back to the box if and only if no active anonymous struct is without active field, and then is the depth-first flattening or its reverse |
| FieldTraversal.EmptyStructStopsTheWalk | libbitpunch/src/core/browse.c:2648-2693 | a concrete block: an empty anonymous struct keeps the walk from the field after it |
| WalkMeaning.FlatteningMembers | libbitpunch/src/core/browse.c:2648-2693 | what the depth-first flattening holds, said by boxes: the active fields, not anonymous structs themselves, of the box and of every box reached from it through active anonymous structs |
| WalkMeaning.FlatteningOrder | libbitpunch/src/core/browse.c:2648-2693 | in the order of their routes from the box, reversed in reverse |
| WalkMeaning.PopulatedMeans | libbitpunch/src/core/browse.c:2648-2693 | the condition of the traversal theorem, said by boxes: every anonymous struct reached has an active field |
| WalkMeaning.RunVisitsMembers | libbitpunch/src/core/browse.c:2648-2855 | a whole run comes back to its box if and only if no struct reached is empty, and then has visited exactly these fields, each once, in this order |
| BoxOffsets.Box.constructor | libbitpunch/src/core/browse.c:813-838 | a box is created unplaced or at a boundary |
| BoxOffsets.Box.SetBoundaryOffset | libbitpunch/src/core/browse.c:813-838 | places a box once; later calls renew the parent limit only |
| BoxOffsets.Box.InheritBoundaryOffset | libbitpunch/src/core/browse.c:840-854 | boundary and limit are the first known offsets of the parent, whatever the box knows already |
| BoxOffsets.Box.SetEndOffset | libbitpunch/src/core/browse.c:688-729 | stores a checked end offset; a refused one changes nothing |
| BoxOffsets.Box.SetStartOffset | libbitpunch/src/core/browse.c:645-686 | stores a checked start offset; a refused one changes nothing |
| BoxOffsets.Box.SetSize | libbitpunch/src/core/browse.c:768-782 | a size is an end offset of a left-aligned box and a start offset of a right-aligned one |
| BoxOffsets.SetEndKeepsChain | libbitpunch/src/core/browse.c:519-643 | an accepted end offset keeps hard min <= min span <= used <= span <= max span among the known ones, and slack <= parent where it held |
| BoxOffsets.SetStartKeepsChain | libbitpunch/src/core/browse.c:391-516 | the mirror image for right-aligned boxes |
| BoxOffsets.EndCheckIsExact | libbitpunch/src/core/browse.c:519-643 | the fall-through comparisons accept an offset if and only if it is in order with all the known offsets the chain ties it to |
| BoxOffsets.StartCheckIsExact | libbitpunch/src/core/browse.c:391-516 | the same for non-negative start offsets of right-aligned boxes, overlay or not |
| BoxOffsets.KnownEndIsLeast | libbitpunch/src/core/browse.c:339-371 | the known end of an overlay box whose chain is in order is the least of used, span and max span among those that are known; without them it is the slack, and without that the parent |
| BoxOffsets.KnownStartIsGreatest | libbitpunch/src/core/browse.c:306-337 | the known start of a right-aligned one, likewise, is the greatest |
| BoxOffsets.Run | libbitpunch/src/core/browse.c:645-838 | a run of settings and renewed limits does to a placed box what the steps say, refused settings nothing |
| BoxOffsets.LeftRun | libbitpunch/src/core/browse.c:688-838 | every run of settings, accepted or refused, and renewed limits, in any order and repeated, keeps the chain from hard min to max span of a left-aligned box |
| BoxOffsets.RightRun | libbitpunch/src/core/browse.c:645-838 | the same for right-aligned boxes |
| BoxOffsets.OrderedRun | libbitpunch/src/core/browse.c:813-838 | slack <= parent holds all along a run if and only if each renewed limit covers the slack known then |
| BoxOffsets.StartOrderedRun | libbitpunch/src/core/browse.c:813-838 | the same for right-aligned boxes |
| BoxOffsets.PlacedBoxesAreOrdered | libbitpunch/src/core/browse.c:813-838 | a box just placed is in order |
| BoxOffsets.RunInsideButForMaxSpan | libbitpunch/src/core/browse.c:519-643 | while renewals give the same limit, guards or not, only the max span can take a box past its parent |
| BoxOffsets.InsideAtTheEnd | libbitpunch/src/core/browse.c:519-643 | so after such a run everything is within the parent if and only if the max span is |
| BoxOffsets.StaysInside | libbitpunch/src/core/browse.c:519-643 | a setting keeps everything within the parent if and only if its guard holds: a max span, unless refused for the minimum size, is at most the parent |
| BoxOffsets.RenewedLimit | libbitpunch/src/core/browse.c:813-838 | a renewed limit leaves everything within the parent if and only if it covers the slack and the max span or, without one, the nearest offset further in |
| BoxOffsets.GuardedRun | libbitpunch/src/core/browse.c:519-838 | everything is within the parent at every point of a run of settings and renewed limits if and only if each guard holds when its step is made |
| BoxOffsets.WithinParentTheorem | libbitpunch/src/core/browse.c:813-838 | the same from the moment a box is placed |
| BoxOffsets.StandingLimitRun | libbitpunch/src/core/browse.c:519-643 | while renewals give the same limit, the guards can be read off the settings: no max span beyond the limit |
| BoxOffsets.RequestsAreGuarded | libbitpunch/src/filters/item.c:49-84 | a max span that is the span, the min span just set or at most the slack meets its guard |
| BoxOffsets.OnlyRenewalsEscape | libbitpunch/src/filters/item.c:226-313 | so with the max spans that are asked for, everything stays within the parent if and only if each renewed limit covers what is known |
| BoxOffsets.RenewalBreaksTheOrder | libbitpunch/src/core/browse.c:1938-1964 | and one that does not: a family of runs, with only such max spans, after which neither slack <= parent nor the max span within the parent is left |
| BoxOffsets.RenewedLimitMayCut | libbitpunch/src/core/browse.c:813-838 | the same on two boxes: slack and max span taken from the parent, whose used size then turns out shorter |
| BoxOffsets.MaxSpanMayEscape | libbitpunch/src/core/browse.c:519-643 | the check of a max span by itself accepts one past the parent |
| BoxOffsets.StartStaysInside | libbitpunch/src/core/browse.c:391-516 | the guard for start offsets of right-aligned boxes is exact |
| BoxOffsets.RenewedStartLimit | libbitpunch/src/core/browse.c:813-838 | and that for their renewed limits |
| BoxOffsets.StartGuardedRun | libbitpunch/src/core/browse.c:391-838 | the theorem for runs of right-aligned boxes |
| BoxOffsets.WithinParentFromTheEnd | libbitpunch/src/core/browse.c:813-838 | the same from the moment a right-aligned box is placed |
| BoxOffsets.StandingStartLimitRun | libbitpunch/src/core/browse.c:391-516 | guards read off the settings, for right-aligned boxes |
| BoxOffsets.InsideStartAtTheEnd | libbitpunch/src/core/browse.c:391-516 | a right-aligned box whose limit stands is within its parent after a run of non-negative settings if and only if its max span is |
| BoxOffsets.OnlyStartRenewalsEscape | libbitpunch/src/filters/item.c:226-313 | only renewed limits take a right-aligned box out of its parent |
| BoxOffsets.RenewedStartLimitMayCut | libbitpunch/src/core/browse.c:813-838 | a right-aligned box that is taken out by one |
| BoxOffsets.MaxSpanMayEscapeAtTheStart | libbitpunch/src/core/browse.c:391-516 | the check by itself accepts a max span past the parent on this side too |
| FixedArrays.DivisionCounts | libbitpunch/src/filters/array.c:441-492 | as many items fit as the division says, and no more |
| FixedArrays.FixedArray.constructor | libbitpunch/src/filters/array.c:184-200 | a fresh array state knows no count |
| FixedArrays.FixedArray.ComputeMaxSpan | libbitpunch/src/filters/item.c:67-84 | sets the max span to the slack once, exactly when the slack covers the minimum and the used size |
| FixedArrays.FixedArray.GetNItems | libbitpunch/src/filters/array.c:370-492 | the count is the given length or the division of the slack; the only failure is a data error, exactly for a negative length or, without a length, items of no size |
| FixedArrays.FixedArray.ItemsAre | libbitpunch/src/filters/array.c:370-492 | the count in terms of length and slack: a length that is not negative, or the number of items of some size for which the slack has room and not for one more |
| FixedArrays.FixedArray.ComputeUsed | libbitpunch/src/filters/array.c:273-300 | the used size is count times item size; it fails exactly when there is no count or the items reach past the max span or the parent |
| FixedArrays.FixedArray.ComputeSpan | libbitpunch/src/core/browse.c:1802-1847 | the span is all of the slack or ends with the items; when it can be set, and which of the two it is |
| FixedArrays.FixedArray.SlackIsFree | libbitpunch/src/filters/array.c:441-492 | without a length nothing keeps max span and used size from being set |
| FixedArrays.FixedArray.RenewLimit | libbitpunch/src/core/browse.c:813-838 | a renewed limit of the parent changes nothing that is known of an array |
| FixedArrayTracking.ArrayTracker.constructor | libbitpunch/src/core/browse.c:1496-1512 | a new tracker is dangling and valid |
| FixedArrayTracking.ArrayTracker.Rewind | libbitpunch/src/core/browse.c:2457-2470 | back to the dangling state |
| FixedArrayTracking.ArrayTracker.CheckIfLast | libbitpunch/src/filters/array.c:680-700 | at the end exactly when no item of at least one byte fits in the slack that is left |
| FixedArrayTracking.ArrayTracker.FirstGeneric | libbitpunch/src/filters/array.c:626-654 | item 0 at the start of the box exactly when the max span can be set, otherwise nothing changed |
| FixedArrayTracking.ArrayTracker.FirstBackend | libbitpunch/src/filters/array.c:656-722 | an item, "no item" or an error, each exactly when the length or the slack says so; slack arrays turn offset tracking on |
| FixedArrayTracking.ArrayTracker.GotoFirst | libbitpunch/src/core/browse.c:2499-2535 | at item 0, at the end of an empty array, or an error, exactly when a negative length or an item past the box calls for it; without a length it never fails |
| FixedArrayTracking.ArrayTracker.ComputeItemLocation | libbitpunch/src/core/browse.c:3592-3603 | the item size, exactly when the item fits in the box |
| FixedArrayTracking.ArrayTracker.GotoNext | libbitpunch/src/filters/array.c:724-805 | one item further or the end exactly after the last item; it fails exactly when, with a length, this item or the next one reaches past the box, and then leaves index and offset where they were |
| FixedArrayTracking.ArrayTracker.GotoNth | libbitpunch/src/filters/array.c:807-861 | item n without a walk: success and each failure exactly by sign, count and fit, whether the count is known or not; otherwise nothing moves |
| FixedArrayTracking.ArrayTracker.GotoEnd | libbitpunch/src/core/browse.c:2998-3036 | at the end, with the count as index and the end of the span as offset, exactly when the items can be counted and the span can be set |
| FixedArrayTracking.ValidStateIsOk | libbitpunch/src/core/debug.c:140-247 | what the moves keep implies the written-down state predicate |
| FixedArrayTracking.MakeMove | libbitpunch/src/core/browse.c:2499-3036 | each move keeps the invariant and what is known of the box |
| FixedArrayTracking.RunMoves | libbitpunch/src/core/debug.c:140-247 | every run of first, next, nth, end and rewind moves and renewed parent limits leaves a state that satisfies the written-down state predicate |
| FixedArrayTracking.StepFromFirst | libbitpunch/src/filters/array.c:807-861 | n steps from the first item end at index n and the offset start + n * size, where the direct move goes; exactly for which n they succeed, and how they fail |
| FixedArrayTracking.CountBySteps | libbitpunch/src/filters/array.c:441-492 | counting by stepping gives the count by division, always; with a length it gives the length unless the last item reaches past the box |
| VarArrays.WalkIndex | libbitpunch/src/filters/array.c:724-805 | n steps lead to index n |
| VarArrays.WalkStopped | libbitpunch/src/filters/array.c:724-805 | a walk that has stopped stays stopped |
| VarArrays.WalkLeads | libbitpunch/src/filters/array.c:626-805 | step k is at an item, at the end or fails exactly as counts, sizes and bounds say: k is below the count, all sizes before it can be read and everything up to it is within the limit or, without a count, leaves room for another item in the slack |
| VarArrays.EndsExactly | libbitpunch/src/filters/array.c:777-785 | a walk ends after m items exactly when these are all there are; with a count, m is the count |
| VarArrays.WalkStops | libbitpunch/src/filters/array.c:724-805 | a walk has ended or failed by step k exactly when one of its steps did |
| VarArrays.Tiling | libbitpunch/src/filters/array.c:302-348 | each item begins where the one before ends, so its offset is the sum of the sizes before it |
| VarArrays.EveryByteInOneItem | libbitpunch/src/filters/array.c:302-348 | every byte of the walk belongs to exactly one item |
| VarArrays.SlackLeft | libbitpunch/src/filters/array.c:680-700 | less than max(1, minimum item size) is left after the last item |
| VarArrays.VarTracker.GotoFirst | libbitpunch/src/filters/array.c:626-722 | the first item, the end of an empty array, or out of bounds |
| VarArrays.VarTracker.GotoNext | libbitpunch/src/filters/array.c:724-805 | leads to step k + 1 of the walk from step k, at the same index and offset; a failing move changes nothing |
| VarArrays.CountItems | libbitpunch/src/filters/array.c:302-348 | stepping from the first item terminates when items have positive size, with the count and the end, or the failure, of the walk |
| VarArrays.SlackArray.ComputeMaxSpan | libbitpunch/src/filters/item.c:67-84 | the max span becomes the slack exactly when the slack covers everything known |
| VarArrays.SlackArray.CountByIteration | libbitpunch/src/filters/array.c:302-368 | succeeds exactly when max span and span are accepted and the walk ends; the count and the span recorded are then those of the walk |
| VarArrays.CountableWhenWalkEnds | libbitpunch/src/filters/array.c:302-348 | in a fresh box only a failing walk keeps the items from being counted |
| VarArrays.RecordedSpan | libbitpunch/src/filters/array.c:302-348 | the recorded span is the sum of the item sizes, each of its bytes is in exactly one item, and no further item fits behind it |
| CachedArrays.ArrayCache.AddItem | libbitpunch/src/filters/array_index_cache.c:178-213 | recording the next item keeps the cache a true record of a prefix of the walk |
| CachedArrays.ArrayCache.GotoMark | libbitpunch/src/filters/array_index_cache.c:456-497 | a mark restores the position recorded for it |
| CachedArrays.ArrayCache.GotoLastCached | libbitpunch/src/filters/array_index_cache.c:500-527 | restores the last recorded position, or dangles |
| CachedArrays.StartAtOrBefore | libbitpunch/src/filters/array.c:863-895 | starts at a recorded position at or before item n |
| CachedArrays.StepTo | libbitpunch/src/filters/array.c:896-935 | steps on to item n, recording what is new |
| CachedArrays.GotoNth | libbitpunch/src/filters/array.c:863-944 | the same index, offset or failure as n steps from the first item, except that an indexed array fails at the first key on the way that cannot be read; the cache stays a true record and only grows |
| CachedArrays.KeyIs | libbitpunch/src/filters/array.c:981-1043 | an item has a key exactly when the walk visits it and the key read at the sum of the sizes before it is that key |
| CachedArrays.TwinsCount | libbitpunch/src/filters/array.c:516-561 | a twin number is the number of items before that have the key |
| CachedArrays.TwinNamesOneItem | libbitpunch/src/filters/array.c:516-561 | a key and a twin number name at most one item |
| CachedArrays.Seek | libbitpunch/src/filters/array.c:981-1043 | the nearest item with the key from the current one on, or the end, or the first unreadable key |
| CachedArrays.TwinOfCurrent | libbitpunch/src/filters/array.c:516-561 | the twin number is the number of earlier items with an equal key; it fails exactly when something before the item cannot be read |
| CachedArrays.GotoNthWithKey | libbitpunch/src/filters/array.c:1110-1164 | finds the item with that key and twin number if and only if there is one and nothing before it fails to be read; "no item" only when there is none |
| CachedArrays.TwinRoundTrip | libbitpunch/src/filters/array.c:516-561 | looking up the twin number reported for an item leads back to it |
| StaticSizes.TypeNode.OfByte | libbitpunch/src/filters/byte.c:41-62 | a byte type before its size is compiled |
| StaticSizes.TypeNode.OfArray | libbitpunch/src/filters/array.c:45-71 | an array type before its size is compiled |
| StaticSizes.TypeNode.CompileSpanSize | libbitpunch/src/filters/array.c:92-182 | annotates every node of a type with the minimum size, the variable mark and the slack flags |
| StaticSizes.InferenceIsSound | libbitpunch/src/filters/array.c:92-182 | no layout is smaller than the inferred minimum, and without the variable mark every layout has that size |
| StaticSizes.CountTimesItemSize | libbitpunch/src/filters/array.c:238-300 | of items of fixed size, count times item size is the sum over the items |
| StaticSizes.MinimumIsReached | libbitpunch/src/filters/array.c:136-163 | the minimum is the size of an actual layout |
| StaticSizes.SizeLaws | libbitpunch/src/filters/array.c:238-300 | what a size is: one for a byte, zero for no items, and an item more adds its own size |
| StaticSizes.OnlyThese | libbitpunch/src/filters/array.c:395-408 | a type that has a layout has no negative count where items are needed |
| StaticSizes.VariableMarkIsExact | libbitpunch/src/filters/array.c:136-168 | all layouts have one size if and only if the type is not marked variable or can take no space at all |
| StaticSizes.ItemSize | libbitpunch/src/filters/array.c:238-271 | the size of an item by its backend is the sum over what is laid out |
| StaticSizes.UsedSize | libbitpunch/src/filters/array.c:1280-1288 | whichever of the three backends the annotations choose, the used size is the sum over the items |
| Expressions.LookupEvaluator | libbitpunch/src/core/expr.c:741-768 | the first table entry that fits operator and operand types |
| Expressions.LookupFits | libbitpunch/src/core/expr.c:741-768 | what is found accepts every operand type and is the first entry that does |
| Expressions.TableIsSound | libbitpunch/src/core/expr.c:708-739 | each table entry has the operand and result types its function works on |
| Expressions.TableIsComplete | libbitpunch/src/core/expr.c:708-739 | and the table has every entry of that kind |
| Expressions.AcceptedBinary | libbitpunch/src/core/ast.c:1953-2025 | an operator is accepted exactly on operands that can only be of its types: equal types for (in)equality, booleans for logic, integers for the rest; comparisons and logic yield booleans, all others integers |
| Expressions.AcceptedUnary | libbitpunch/src/core/ast.c:1953-2025 | the same for one operand |
| Expressions.ApplyIsTyped | libbitpunch/src/core/expr.c:58-703 | given operands of its types, an entry yields a value of its result type or is undefined |
| Expressions.DivisionTruncates | libbitpunch/src/core/expr.c:58-703 | quotient times divisor and remainder give the dividend; the remainder is smaller than the divisor and has the sign of the dividend |
| Expressions.OrderLaws | libbitpunch/src/core/expr.c:58-703 | sums, differences, products and quotients are those of the integers, comparisons follow the sign of the difference, and division by zero is undefined |
| Expressions.OtherOperators | libbitpunch/src/core/expr.c:58-703 | booleans and strings, and operators with one operand |
| Expressions.OperandsInOrder | libbitpunch/src/core/expr.c:1861-1921 | an operation works on the values of its left and its right operand, in this order |
| Expressions.FirstFailureCounts | libbitpunch/src/core/expr.c:1861-1921 | it fails as its left operand does, or else as the right one does |
| Expressions.BrowseState.PushScope | libbitpunch/src/core/browse.c:222-231 | a box becomes the current scope, a null box leaves it |
| Expressions.BrowseState.PopScope | libbitpunch/src/core/browse.c:233-241 | the saved scope is restored |
| Expressions.BrowseState.Evaluate | libbitpunch/src/core/expr.c:2445-2535 | evaluation with a current scope gives what evaluation with the scope as an argument gives, and restores the scope on every path |
| Expressions.BrowseState.EvaluateNamed | libbitpunch/src/core/expr.c:2052-2079 | the same for named expressions, whose condition must hold |
| Expressions.BrowseState.EvaluateConditional | libbitpunch/src/core/expr.c:2892-2927 | evaluates a condition, with the ones it is nested in, to what ConditionsDecide says; restores the scope on every path |
| Expressions.ConditionsDecide | libbitpunch/src/core/expr.c:2892-2927 | a condition holds exactly when it and all conditions it is nested in evaluate to booleans that meet them; otherwise the outermost that is not met decides: false when it is a boolean, or else what it came to |
| Expressions.NamedNeedsConditions | libbitpunch/src/core/expr.c:2052-2079 | a named expression has the value of its target, in its own box, when all its conditions are met, and no value otherwise |
| Expressions.EvalIsTyped | libbitpunch/src/core/expr.c:1861-1921 | a well-typed tree evaluates to a value of its mask, if to a value |
| Expressions.CompiledIsWellTyped | libbitpunch/src/core/ast.c:1953-2025 | compiling yields well-typed trees, folded or not |
| Expressions.TypeSoundness | libbitpunch/src/core/ast.c:1953-2025 | every accepted expression evaluates to a value of its annotated type, if to a value, and no evaluator meets an operand it does not expect |
| Expressions.NativeTarget | libbitpunch/src/core/ast.c:3535-3544 | a named expression has the value of its native target exactly where it is available |
| Expressions.FoldedOperatorExact | libbitpunch/src/core/ast.c:1990-2025 | a folded operator has the value of the unfolded one if and only if the named expressions among its operands are available |
| Expressions.FoldedUnaryExact | libbitpunch/src/core/ast.c:1990-2025 | the same for one operand |
| Expressions.FoldKeepsTyping | libbitpunch/src/core/ast.c:1953-2025 | what compiles with folding compiles without, to the same type |
| Expressions.FoldingPreservesMeaning | libbitpunch/src/core/ast.c:1990-2025 | folded and unfolded trees evaluate alike wherever no fold looks through an unavailable named expression |
| Expressions.FoldingIsExact | libbitpunch/src/core/ast.c:1990-2025 | whole expressions: the unfolded one has a value if and only if the folded one has and the guards hold; where the folded one has a value, the two agree if and only if the guards hold |
| Expressions.FoldingIsInvisible | libbitpunch/src/core/ast.c:1990-2025 | with unconditional named expressions folding changes no result in any scope |
| Expressions.AllNativeFoldsToNative | libbitpunch/src/core/ast.c:1990-2025 | an expression without data folds to one native |
| Expressions.FoldHidesFailedCondition | libbitpunch/src/core/ast.c:1990-2025 | a condition that does not hold is lost in folding: an expression that fails unfolded and has a value folded |
| Ancestors.CommonPrefixMeaning | libbitpunch/src/core/expr.c:1428-1531 | what the longest common prefix of two sequences is |
| Ancestors.CollectAncestors | libbitpunch/src/core/expr.c:1440-1470 | the boxes from the parent box to the root |
| Ancestors.NodesAreNested | libbitpunch/src/core/expr.c:1440-1470 | what the root-to-node sequences are: each node is a box in the one before it, an item is in its box, and the first is a root |
| Ancestors.FindCommonAncestor | libbitpunch/src/core/expr.c:1428-1531 | on each side, the node at the end of the longest common prefix of the two root-to-node path sequences |
| Ancestors.FirstArrayStepMeaning | libbitpunch/src/core/expr.c:907-921 | the step found is an array step that no other array step comes before; there is none exactly when no step is one |
| Ancestors.BuiltinIndex | libbitpunch/src/core/expr.c:836-930 | if the item lies below the array, the index of the array step right below it that no other comes before, or none; an error otherwise |
| DynArrays.ClassIsEnough | libbitpunch/include/utils/dynarray.h:49-51 | a block of the class of a size holds that size |
| DynArrays.ClassShape | libbitpunch/include/utils/dynarray.h:49-51 | exactly the sizes above 32 KiB get whole pages |
| DynArrays.LowPartIsLeast | libbitpunch/include/utils/dynarray.h:49-51 | up to 32 KiB the low part of a class is the least power of two that is at least the size and at least 16 |
| DynArrays.ClassesAreNotMonotone | libbitpunch/include/utils/dynarray.h:49-51 | in the first page, a larger size has a smaller class exactly when 32 KiB lies between the two |
| DynArrays.SameClassBetween | libbitpunch/include/utils/dynarray.h:49-51 | each class is given to an unbroken range of sizes |
| DynArrays.DynArray.constructor | libbitpunch/include/utils/dynarray.h:67-72 | the block holds the initial items |
| DynArrays.DynArray.Resize | libbitpunch/include/utils/dynarray.h:53-64 | the block has room for the items asked for and keeps those stored, although only classes of counts are compared |
| DynArrays.DynArray.StillFits | libbitpunch/include/utils/dynarray.h:53-64 | when no reallocation happens, the block given for an earlier, larger count is still large enough |
| DynArrays.DynArray.Reallocate | libbitpunch/include/utils/dynarray.h:53-64 | the stored items survive the move to another block |
| DynArrays.DynArray.Push | libbitpunch/include/utils/dynarray.h:74-77 | appends to the contents |
| DynArrays.DynArray.Pop | libbitpunch/include/utils/dynarray.h:79-82 | takes the last item off the contents and keeps the block |
| Base64.LookupKnowsTheAlphabet | libbitpunch/src/filters/base64.c:43-62 | the table inverts the alphabet and marks everything else, the pad character included, invalid |
| Base64.OneMaskTest | libbitpunch/src/filters/base64.c:81-93 | one test of the top byte finds any invalid letter of a quad |
| Base64.RoundTrip | libbitpunch/src/filters/base64.c:64-115 | decoding inverts the encoding of section 4 of RFC 4648 on every byte string |
| Base64.AlphabetInOrder | libbitpunch/src/filters/base64.c:43-62 | the alphabet: A to Z, a to z and 0 to 9 in the order of their codes, then + and / |
| Base64.LettersAreDigits | libbitpunch/src/filters/base64.c:64-98 | three bytes and their four letters are the same number, in base 256 and in base 64 |
| Base64.TestVectors | libbitpunch/src/filters/base64.c:64-115 | the encoding on test vectors of section 10 of RFC 4648 |
| Base64.AcceptsExactlyTheLegal | libbitpunch/src/filters/base64.c:64-115 | exactly the inputs of whole quads, valid letters and legal padding are accepted; the length of the result |
| Base64.ReencodingIsExact | libbitpunch/src/filters/base64.c:64-115 | encoding the result gives the input back if and only if its unused bits are zero (section 3.5 of RFC 4648) |
| Base64.EncodingsExactly | libbitpunch/src/filters/base64.c:64-115 | an input is the encoding of something if and only if it is legal and its unused bits are zero |
| Base64.Base64Decode | libbitpunch/src/filters/base64.c:64-115 | the loop computes that decoding, within the input and within three bytes of output per quad |
| Base64.DecodeEnd | libbitpunch/src/filters/base64.c:99-115 | the last quad with its padding |
| Base64.FirstStays | libbitpunch/src/filters/base64.c:99-113 | bytes written before the last letters are read are still right when these are valid |
| Base64.Base64Read | libbitpunch/src/filters/base64.c:117-144 | too large, invalid or decoded, and the buffer suffices |
| CommandLines.Sorted | pythonlib/nestedcmd/commandfinder.py:55-55 | the words of a set in increasing order |
| CommandLines.SortedIsUnique | pythonlib/nestedcmd/commandcompleter.py:40-41 | an increasing list is determined by its words |
| CommandLines.LessMeaning | pythonlib/nestedcmd/commandfinder.py:55-55 | words are ordered by their first different letter, and a beginning comes before what it begins |
| CommandLines.Words | pythonlib/nestedcmd/commandcompleter.py:32-32 | the words of a line are not empty and have no space in them |
| CommandLines.WordsAroundSpace | pythonlib/nestedcmd/commandcompleter.py:32-32 | a space separates the words on both sides and adds none |
| CommandLines.WordAlone | pythonlib/nestedcmd/commandcompleter.py:32-32 | a word by itself is one word, whole |
| CommandLines.SpaceAlone | pythonlib/nestedcmd/commandcompleter.py:32-32 | white space by itself has no words |
| CommandLines.WordsReadBack | pythonlib/nestedcmd/commandcompleter.py:32-32 | words written with a space behind each are read back |
| CommandLines.TypedAndActive | pythonlib/nestedcmd/commandcompleter.py:31-32 | a line is the words typed and a word begun; further spaces change nothing |
| CommandLines.TypedReadBack | pythonlib/nestedcmd/commandcompleter.py:31-32 | words with a space behind each, and a word begun, are taken apart into just these |
| CommandTrie.AddedPaths | pythonlib/nestedcmd/commandfinder.py:42-47 | adding a command adds its beginnings to the paths, and nothing else |
| CommandTrie.AddedCommands | pythonlib/nestedcmd/commandfinder.py:42-47 | a command stays unless the new one continues it; the new one is a command unless others continue it |
| CommandTrie.FilterKeepsMatchingCommands | pythonlib/nestedcmd/commandfinder.py:57-71 | the commands left are exactly those whose words start with the prefixes, up to the shorter length |
| CommandTrie.FilterKeepsMatchingPaths | pythonlib/nestedcmd/commandfinder.py:57-71 | with trailing unknown words ignored, exactly the matching paths are left |
| CommandTrie.FilterIgnoringUnknown | pythonlib/nestedcmd/commandfinder.py:57-71 | and the commands left are the longest matching paths |
| CommandTrie.FilterLeavesNoDeadEnds | pythonlib/nestedcmd/commandfinder.py:68-69 | the paths left are the beginnings of matching commands |
| CommandTrie.LongestCommonPrefix | pythonlib/nestedcmd/commandfinder.py:119-128 | the common prefix of a non-empty trie is the longest path all its commands start with |
| CommandTrie.CompletionsNeedAgreement | pythonlib/nestedcmd/commandcompleter.py:30-43 | a word is offered if and only if all matching commands agree on the words typed and one goes on with it |
| CommandTrie.LongestUnambiguous | pythonlib/nestedcmd/commandfinder.py:130-137 | cut to the words typed, the common prefix is the longest path all matching commands start with |
| CommandTrie.CountIsUnique | pythonlib/nestedcmd/commandfinder.py:85-94 | there is one number of commands, zero for an empty trie only |
| CommandFinders.CommandFinder.constructor | pythonlib/nestedcmd/commandfinder.py:26-27 | an empty dictionary |
| CommandFinders.CommandFinder.AddCommand | pythonlib/nestedcmd/commandfinder.py:42-47 | the nested dictionaries hold the trie with the command added |
| CommandFinders.CommandFinder.FindSubcommands | pythonlib/nestedcmd/commandfinder.py:49-55 | the words that may follow a path, sorted; None when there is no such path |
| CommandFinders.CommandFinder.FilterBySubcommandPrefixes | pythonlib/nestedcmd/commandfinder.py:57-71 | a new finder that holds the filtered trie; the old one is untouched |
| CommandFinders.FilterInto | pythonlib/nestedcmd/commandfinder.py:62-69 | the recursion: an empty dictionary becomes the filtered copy of another |
| CommandFinders.CommandFinder.GetMatchingSubcommandsByPrefixes | pythonlib/nestedcmd/commandfinder.py:74-82 | the next words below the common prefix of the matching commands |
| CommandFinders.CommandFinder.GetNbCommands | pythonlib/nestedcmd/commandfinder.py:85-94 | the length of every complete list of commands |
| CommandFinders.CommandFinder.GetAllCommands | pythonlib/nestedcmd/commandfinder.py:96-107 | every command once |
| CommandFinders.CommandFinder.GetCommonPrefix | pythonlib/nestedcmd/commandfinder.py:119-128 | the loop computes the common prefix |
| CommandFinders.CommandFinder.GetLongestUnambiguousCommandPrefix | pythonlib/nestedcmd/commandfinder.py:130-137 | None exactly when nothing matches, else the longest path, within the words typed, that all matches start with |
| CommandFinders.CommandFinder.GetCompletions | pythonlib/nestedcmd/commandcompleter.py:30-43 | for a whole line: exactly the words on which the agreed words of all matching commands go on, sorted |

## Left out

- ScopeLookup.AgreementTheorem: assumes that names are looked for where the compiler looks for them (attributes for names with `@`, the other lists for other names); conditions that cannot be evaluated are the subject of AgreementUnderErrors.
- FieldTraversal.TraversalTheorem: assumes that conditions can be evaluated; what a run does when one cannot is in the contracts of the tracker's methods.
- BoxOffsets.SetEndKeepsChain: says nothing of the used offset of non-overlay boxes, which belongs to the output of a filter.
- BoxOffsets.SetStartKeepsChain: a negative offset may be accepted on the start side; every negative offset is then read as unknown, while parts of the original outside this model compare with -1 alone.
- BoxOffsets.StartCheckIsExact: is for non-negative offsets.
- BoxOffsets.InsideStartAtTheEnd: is for non-negative offsets.
- BoxOffsets.Run: takes the renewed limits as given; when one is renewed depends on the order in which sizes are asked for.
- BoxOffsets.EndCheckIsExact: leaves out the used offset of non-overlay boxes, which is stored unchecked.
- FixedArrayTracking.ArrayTracker.GotoNth: is for forward trackers; reversed ones number items from the other end.
- VarArrays.CountItems: assumes that items have positive size; without that the original need not terminate.
- CachedArrays.CountCachedTwins: scans the recorded items instead of asking the Bloom filter which of them to look at.
- CachedArrays.GotoCachedTwin: likewise.
- CachedArrays.ArrayCache.AddItem: records marks for every cached array; the original keeps no offsets for marks where items have a fixed size, and the Bloom filter is not part of this model.
- CachedArrays.Seek: has no search boundary and no slice; keys are strings.
- StaticSizes.OnlyThese: has no layout for a negative count; the data error that one gives at run time is in FixedArrays.FixedArray.GetNItems.
- StaticSizes.UsedSize: works on layouts as values; boxes and trackers made on the way are not part of it, and `@last` is not either.
- Expressions.IntegerOp: computes on unbounded integers; bitwise operations and shifts are a parameter, and division by zero and shifts out of range are marked undefined.
- Expressions.Compile: returns the compiled tree instead of replacing node data in place.
- Ancestors.FindCommonAncestor: takes boxes as values, and the depth limit of boxes is not part of it.
- DynArrays.DynArray.Resize: is for item counts not below the current one, as its three uses are; takes the class of size 0 to be any value below 64 KiB, because the original expression is undefined there; allocation does not fail.
- Base64.Lookup: gives the table by its ranges.
- CommandFinders.CommandFinder.AddCommand: the step of the loop is a method of its own.
- CommandFinders.CommandFinder.GetAllCommands: says nothing of the order, which is that of the dictionaries.
- CommandLines.Words: knows the white space of ASCII only.
- Filter chains, conditional filters and filtered boxes: each field has one static block of members.
- Container, composite and item backends, the dependency resolver, grammar and lexer.
- Slices, data-dependent item types, `@last` and `@span` attributes, right-aligned arrays, reversed array trackers.
- Reference counts, box lifetime and allocation failures.
- Machine-integer overflow.
- Files, memory maps, the data source cache, the board, the Python binding, console commands, printing and error text.
- Editing of named-expression lists (`scope.c` 537-660) and numbering of fields by key: lists and loops without a property of their own.
